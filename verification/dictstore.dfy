/** `PersistentDict` of `scripts/python/trapper-keeper/trapper_keeper/stores/dict_store.py`.

    The dictionary lives in memory and reaches the disk only through `sync`,
    which writes a temporary file next to the target and moves it over. The
    three serialisations are codecs given as parameters. The file is opened in
    binary mode for the pickle format and in text mode otherwise, which decides
    which loaders can succeed: `pickle.load` needs bytes and `csv.reader` needs
    text, while `json.load` accepts both. */
module DictStore {
  import opened Wrappers
  import opened FileSystem
  import opened Strings

  type Data = map<string, string>

  /** A serialisation: what `dump` writes, and what a loader makes of bytes
      (`None` when it raises). */
  datatype Codec = Codec(encode: Data -> Bytes, decode: Bytes -> Option<Data>)

  datatype Formats = Formats(pickle: Codec, json: Codec, csv: Codec)

  datatype PDict = PDict(filename: Path, flag: string, mode: Option<int>, format: string, data: Data)

  /** The first of `loaders`, from `i` on, that accepts the bytes. */
  function FirstDecode(loaders: seq<Codec>, b: Bytes, i: nat): (r: Result<Data>)
    requires i <= |loaders|
    ensures r.Ok? <==> exists j :: i <= j < |loaders| && loaders[j].decode(b).Some?
    ensures r.Ok? ==>
      exists j :: i <= j < |loaders| && loaders[j].decode(b) == Some(r.value) && forall k :: i <= k < j ==> loaders[k].decode(b).None?
    ensures r.Err? ==> r.error == ValueError("File not in a supported format")
    decreases |loaders| - i
  {
    if i == |loaders| then Err(ValueError("File not in a supported format"))
    else match loaders[i].decode(b)
      case Some(d) => Ok(d)
      case None => FirstDecode(loaders, b, i + 1)
  }

  /** The loaders that can succeed on a file opened in the given mode, in the
      order `load` tries them: pickle, json, csv. */
  function Loaders(fmts: Formats, binary: bool): (r: seq<Codec>)
    ensures binary ==> r == [fmts.pickle, fmts.json]
    ensures !binary ==> r == [fmts.json, fmts.csv]
  {
    if binary then [fmts.pickle, fmts.json] else [fmts.json, fmts.csv]
  }

  /** `load(fileobj)`: the first loader that succeeds wins. */
  function Load(b: Bytes, binary: bool, fmts: Formats): (r: Result<Data>)
    ensures binary && fmts.pickle.decode(b).Some? ==> r == Ok(fmts.pickle.decode(b).value)
    ensures fmts.json.decode(b).Some? && (binary ==> fmts.pickle.decode(b).None?) ==> r == Ok(fmts.json.decode(b).value)
    ensures !binary && fmts.json.decode(b).None? ==>
      r == (if fmts.csv.decode(b).Some? then Ok(fmts.csv.decode(b).value) else Err(ValueError("File not in a supported format")))
    ensures binary && fmts.pickle.decode(b).None? && fmts.json.decode(b).None? ==> r.Err? && r.error.ValueError?
  {
    var loaders := Loaders(fmts, binary);
    assert FirstDecode(loaders, b, 2) == Err(ValueError("File not in a supported format"));
    assert FirstDecode(loaders, b, 1) == if loaders[1].decode(b).Some? then Ok(loaders[1].decode(b).value) else FirstDecode(loaders, b, 2);
    assert FirstDecode(loaders, b, 0) == if loaders[0].decode(b).Some? then Ok(loaders[0].decode(b).value) else FirstDecode(loaders, b, 1);
    FirstDecode(loaders, b, 0)
  }

  /** `dump(fileobj)`: only the three known formats. */
  function Dump(data: Data, format: string, fmts: Formats): (r: Result<Bytes>)
    ensures r.Ok? <==> format == "csv" || format == "json" || format == "pickle"
    ensures r.Err? ==> r.error.NotImplementedError? && StartsWith(r.error.msg, "Unknown format: ")
    ensures r.Err? && (forall i :: 0 <= i < |format| ==> PlainChar(format[i])) ==>
      r.error == NotImplementedError("Unknown format: '" + format + "'")
    ensures format == "pickle" ==> r == Ok(fmts.pickle.encode(data))
    ensures format == "json" ==> r == Ok(fmts.json.encode(data))
    ensures format == "csv" ==> r == Ok(fmts.csv.encode(data))
  {
    if format == "csv" then Ok(fmts.csv.encode(data))
    else if format == "json" then Ok(fmts.json.encode(data))
    else if format == "pickle" then Ok(fmts.pickle.encode(data))
    else Err(NotImplementedError("Unknown format: " + PyRepr(format)))
  }

  /** `dict.__init__(self, *args, **kwds)` over the loaded `base`: at most one
      positional mapping, whose pairs are added first, then the keywords; a
      later source wins on a shared key. */
  function DictInit(base: Data, args: seq<Data>, kwds: Data): (r: Result<Data>)
    ensures r.Ok? <==> |args| <= 1
    ensures r.Err? ==> r.error == TypeError("dict expected at most 1 argument, got " + NatToString(|args|))
    ensures r.Ok? ==> r.value.Keys == base.Keys + (if |args| == 1 then args[0].Keys else {}) + kwds.Keys
    ensures r.Ok? ==> forall k :: k in kwds ==> r.value[k] == kwds[k]
    ensures r.Ok? && |args| == 1 ==> forall k :: k in args[0] && k !in kwds ==> r.value[k] == args[0][k]
    ensures r.Ok? ==> forall k :: k in base && k !in kwds && (|args| == 0 || k !in args[0]) ==> r.value[k] == base[k]
  {
    if |args| > 1 then Err(TypeError("dict expected at most 1 argument, got " + NatToString(|args|)))
    else if |args| == 1 then Ok(base + args[0] + kwds)
    else Ok(base + kwds)
  }

  /** The constructor of the recipe this class follows, where `PersistentDict`
      is a `dict`: an existing file is loaded unless the flag is "n", and the
      positional mapping and the keyword arguments are then added over what
      was loaded. Permissions are not modelled, so an existing path counts as
      readable; a directory cannot be opened. */
  function Init(fs: FS, filename: Path, flag: string, mode: Option<int>, format: string, args: seq<Data>, kwds: Data,
                fmts: Formats): (r: Result<PDict>)
    ensures r.Ok? ==> r.value.filename == filename && r.value.flag == flag && r.value.mode == mode && r.value.format == format
    ensures r.Ok? ==> |args| <= 1
    ensures flag == "n" || !Exists(fs, filename) ==>
      match DictInit(map[], args, kwds)
        case Ok(d) => r == Ok(PDict(filename, flag, mode, format, d))
        case Err(e) => r == Err(e)
    ensures flag != "n" && filename in fs.dirs && filename !in fs.files ==> r == Err(IsADirectoryError(filename))
    ensures flag != "n" && filename in fs.files ==>
      match Load(fs.files[filename], format == "pickle", fmts)
        case Ok(loaded) =>
          (match DictInit(loaded, args, kwds)
             case Ok(d) => r == Ok(PDict(filename, flag, mode, format, d))
             case Err(e) => r == Err(e))
        case Err(e) => r == Err(e)
  {
    var loaded :-
      if flag != "n" && Exists(fs, filename) then
        match ReadFile(fs, filename)
          case Err(e) => Err(e)
          case Ok(b) => Load(b, format == "pickle", fmts)
      else Ok(map[]);
    var d :- DictInit(loaded, args, kwds);
    Ok(PDict(filename, flag, mode, format, d))
  }

  /** The constructor as written: the class does not derive from `dict`, so
      `self.update` is missing and every loader's attempt ends in an
      AttributeError that `load` suppresses, and `dict.__init__(self)` refuses
      an object that is not a dict. No instance is ever made. */
  function InitAsWritten(fs: FS, filename: Path, flag: string, format: string, fmts: Formats): (r: Result<PDict>)
    ensures r.Err?
    ensures flag != "n" && filename in fs.files ==> r.error == ValueError("File not in a supported format")
    ensures flag == "n" || !Exists(fs, filename) ==> r.error.TypeError?
  {
    if flag != "n" && Exists(fs, filename) then
      match ReadFile(fs, filename)
        case Err(e) => Err(e)
        case Ok(_) => Err(ValueError("File not in a supported format"))
    else Err(TypeError("descriptor '__init__' requires a 'dict' object"))
  }

  /** The temporary file `sync` writes first. */
  function TempName(filename: Path): (r: Path)
    ensures r != filename
  {
    filename + ".tmp"
  }

  /** `shutil.move(src, dst)` of a regular file: into `dst` when it is a
      directory, otherwise over it, which needs `dst`'s directory. */
  function Move(fs: FS, src: Path, dst: Path): (r: Result<FS>)
    requires src in fs.files
    ensures dst !in fs.dirs && Parent(dst) in fs.dirs && dst != src ==>
      r.Ok? && r.value.files == (fs.files - {src})[dst := fs.files[src]]
    ensures dst !in fs.dirs && Parent(dst) !in fs.dirs ==> r == Err(FileNotFoundError(dst))
    ensures r.Ok? ==> r.value.dirs == fs.dirs && r.value.modes == fs.modes
  {
    if dst in fs.dirs then
      var target := Join(dst, Name(src));
      if Exists(fs, target) then Err(LibraryError("Destination path already exists"))
      else Ok(fs.(files := (fs.files - {src})[target := fs.files[src]]))
    else if Parent(dst) !in fs.dirs then Err(FileNotFoundError(dst))
    else Ok(fs.(files := (fs.files - {src})[dst := fs.files[src]]))
  }

  /** `sync()`: nothing for flag "r"; otherwise dump into the temporary file and
      move it over the target, then apply the mode if one was given. When the
      dump fails the temporary file is removed and the target is untouched.
      Without a directory to hold the target, opening the temporary file
      raises and nothing changes. */
  function Sync(fs: FS, d: PDict, fmts: Formats): (r: Outcome)
    ensures d.flag == "r" ==> r == Outcome(fs, None)
    ensures d.flag != "r" && Parent(d.filename) !in fs.dirs ==>
      && r.fs == fs
      && r.error.Some? && (r.error.value.FileNotFoundError? || r.error.value.NotADirectoryError? || r.error.value.IsADirectoryError?)
    ensures (d.flag != "r" && TempName(d.filename) !in fs.dirs && Parent(d.filename) in fs.dirs
      && Dump(d.data, d.format, fmts).Err?) ==>
        && r.error == Some(Dump(d.data, d.format, fmts).error)
        && r.fs.files == fs.files - {TempName(d.filename)}
    ensures (d.flag != "r" && TempName(d.filename) !in fs.dirs && d.filename !in fs.dirs && Parent(d.filename) in fs.dirs
      && Dump(d.data, d.format, fmts).Ok?) ==>
      && r.Succeeded()
      && r.fs.files == (fs.files - {TempName(d.filename)})[d.filename := Dump(d.data, d.format, fmts).value]
      && (d.mode.Some? ==> r.fs.modes == fs.modes[d.filename := d.mode.value])
      && (d.mode.None? ==> r.fs.modes == fs.modes)
  {
    if d.flag == "r" then Outcome(fs, None)
    else
      var tmp := TempName(d.filename);
      SuffixKeepsParent(d.filename, ".tmp");
      match WriteFile(fs, tmp, [])
        case Err(e) => Outcome(fs, Some(e))
        case Ok(fs1) =>
          match Dump(d.data, d.format, fmts)
            case Err(e) => Outcome(RemoveFile(fs1, tmp), Some(e))
            case Ok(b) =>
              var fs2 := fs1.(files := fs1.files[tmp := b]);
              assert (fs2.files - {tmp})[d.filename := b] == (fs.files - {tmp})[d.filename := b];
              match Move(fs2, tmp, d.filename)
                case Err(e) => Outcome(fs2, Some(e))
                case Ok(fs3) =>
                  match d.mode
                    case None => Outcome(fs3, None)
                    case Some(m) =>
                      match Chmod(fs3, d.filename, m)
                        case Err(e) => Outcome(fs3, Some(e))
                        case Ok(fs4) => Outcome(fs4, None)
  }

  /** `close()` and `__exit__`: a sync. */
  function Exit(fs: FS, d: PDict, fmts: Formats): (r: Outcome)
    ensures d.flag == "r" ==> r == Outcome(fs, None)
    ensures (d.flag != "r" && TempName(d.filename) !in fs.dirs && d.filename !in fs.dirs && Parent(d.filename) in fs.dirs
      && Dump(d.data, d.format, fmts).Ok?) ==>
        r.Succeeded() && d.filename in r.fs.files && r.fs.files[d.filename] == Dump(d.data, d.format, fmts).value
    ensures d.flag != "r" && Dump(d.data, d.format, fmts).Err? ==> !r.Succeeded()
  {
    Sync(fs, d, fmts)
  }

  /** The bytes a format writes are read back by the loaders its own open mode
      allows, provided a loader tried earlier does not accept them. */
  predicate ReadsBack(fmts: Formats, format: string, d: Data) {
    || (format == "pickle" && fmts.pickle.decode(fmts.pickle.encode(d)) == Some(d))
    || (format == "json" && fmts.json.decode(fmts.json.encode(d)) == Some(d))
    || (format == "csv" && fmts.csv.decode(fmts.csv.encode(d)) == Some(d) && fmts.json.decode(fmts.csv.encode(d)).None?)
  }

  /** `load` inverts `dump`. */
  lemma LoadDump(d: Data, format: string, fmts: Formats)
    requires ReadsBack(fmts, format, d)
    ensures Dump(d, format, fmts).Ok?
    ensures Load(Dump(d, format, fmts).value, format == "pickle", fmts) == Ok(d)
  {
  }

  /** Leaving the context writes the dictionary, and opening the file again
      with the same format reads the same dictionary back. */
  lemma ExitPersists(fs: FS, d: PDict, fmts: Formats, flag: string, mode: Option<int>)
    requires d.flag != "r" && flag != "n"
    requires d.filename !in fs.dirs && TempName(d.filename) !in fs.dirs && Parent(d.filename) in fs.dirs
    requires ReadsBack(fmts, d.format, d.data)
    ensures Exit(fs, d, fmts).Succeeded()
    ensures Init(Exit(fs, d, fmts).fs, d.filename, flag, mode, d.format, [], map[], fmts)
      == Ok(PDict(d.filename, flag, mode, d.format, d.data))
  {
    LoadDump(d.data, d.format, fmts);
    var after := Exit(fs, d, fmts).fs;
    assert d.filename in after.files;
    assert d.data + map[] == d.data;
  }

  /** A failed dump leaves the target file as it was. */
  lemma FailedSyncKeepsTarget(fs: FS, d: PDict, fmts: Formats)
    requires d.flag != "r" && TempName(d.filename) !in fs.dirs && Parent(d.filename) in fs.dirs
    requires d.format != "csv" && d.format != "json" && d.format != "pickle"
    ensures Sync(fs, d, fmts).error == Some(NotImplementedError("Unknown format: " + PyRepr(d.format)))
    ensures (forall i :: 0 <= i < |d.format| ==> PlainChar(d.format[i])) ==>
      Sync(fs, d, fmts).error == Some(NotImplementedError("Unknown format: '" + d.format + "'"))
    ensures d.filename in fs.files <==> d.filename in Sync(fs, d, fmts).fs.files
    ensures d.filename in fs.files ==> Sync(fs, d, fmts).fs.files[d.filename] == fs.files[d.filename]
    ensures TempName(d.filename) !in Sync(fs, d, fmts).fs.files
  {
  }
}
