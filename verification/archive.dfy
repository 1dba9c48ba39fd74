/** The tar + Zstandard archiver: `pack` and `unpack` of
    `pylibs/utils/utils/file.py` and `pylibs/resources/resources/core.py`.

    The tar format and the Zstandard frame body are library code and are an
    abstract codec here. The frame's four-byte magic number (section 3.1.1 of
    RFC 8878) is modelled concretely, so a compressed archive is never empty.
    A tar archive is the map from member names to file contents; directory
    members and metadata are not modelled. */
module Archive {
  import opened Wrappers
  import opened Strings
  import opened FileSystem

  type Members = map<string, Bytes>

  /** The tar and frame-body codecs. `decodeTar` returning `None` is
      `tarfile.is_tarfile` answering false. */
  datatype Codec = Codec(
    encodeTar: Members -> Bytes,
    decodeTar: Bytes -> Option<Members>,
    frame: Bytes -> Bytes,
    unframe: Bytes -> Option<Bytes>)

  /** Decoding undoes encoding, for both layers. */
  ghost predicate Lawful(c: Codec) {
    (forall m :: c.decodeTar(c.encodeTar(m)) == Some(m))
    && (forall b :: c.unframe(c.frame(b)) == Some(b))
  }

  /** `Magic_Number` 0xFD2FB528, little-endian. */
  const ZstdMagic: Bytes := [0x28, 0xB5, 0x2F, 0xFD]

  function Compress(c: Codec, data: Bytes): (r: Bytes)
    ensures |r| >= 4 && StartsWith(r, ZstdMagic)
  {
    ZstdMagic + c.frame(data)
  }

  function Decompress(c: Codec, data: Bytes): Result<Bytes> {
    if !StartsWith(data, ZstdMagic) then Err(LibraryError("unknown frame descriptor"))
    else match c.unframe(data[4..])
      case None => Err(LibraryError("corrupt frame"))
      case Some(b) => Ok(b)
  }

  lemma DecompressCompress(c: Codec, data: Bytes)
    requires Lawful(c)
    ensures Decompress(c, Compress(c, data)) == Ok(data)
  {
    assert Compress(c, data)[4..] == c.frame(data);
  }

  // ---------------------------------------------------------------------------
  // Compression types and path conversion
  // ---------------------------------------------------------------------------

  /** `CompressionTypes` is a `StrEnum` whose `auto()` values are the lower-cased
      member names; `match` compares by value, so the plain strings match too. */
  const Zip := "zip"
  const Zstd := "zstd"

  /** `pathify` (`utils/file.py`): a generator whose only item is the list of
      converted paths. Paths in normal form are their own `str`. */
  function PathifyGen(paths: seq<Path>): (r: seq<seq<Path>>)
    ensures |r| == 1 && r[0] == paths
  {
    [paths]
  }

  /** `stringify_path` (`utils/file.py`) has the same shape. */
  function StringifyGen(paths: seq<Path>): (r: seq<seq<string>>)
    ensures |r| == 1 && r[0] == paths
  {
    [paths]
  }

  /** `_pathify` (`core.py`): the converted list itself. */
  function PathifyList(paths: seq<Path>): (r: seq<Path>)
    ensures |r| == |paths| && forall i :: 0 <= i < |r| ==> r[i] == paths[i]
  {
    paths
  }

  /** `a, b = iterable`: exactly two items, otherwise ValueError. */
  function UnpackTwo<T>(items: seq<T>): (r: Result<(T, T)>)
    ensures r.Ok? <==> |items| == 2
    ensures r.Ok? ==> r.value == (items[0], items[1])
  {
    if |items| == 2 then Ok((items[0], items[1]))
    else Err(ValueError("wrong number of values to unpack"))
  }

  /** Unpacking the generator into two names always fails; unpacking the list
      gives the two paths back. */
  lemma PathifyUnpacking(a: Path, b: Path)
    ensures UnpackTwo(PathifyGen([a, b])).Err?
    ensures UnpackTwo(PathifyList([a, b])) == Ok((a, b))
  {
  }

  // ---------------------------------------------------------------------------
  // Tar members
  // ---------------------------------------------------------------------------

  /** `tarfile` names a member by its path with every leading separator
      stripped (`arcname.lstrip("/")`). */
  function ArcName(p: Path): (r: string)
    ensures |r| <= |p| && r == p[|p| - |r|..]
    ensures forall i :: 0 <= i < |p| - |r| ==> p[i] == '/'
    ensures !StartsWith(r, "/")
    decreases |p|
  {
    if |p| > 0 && p[0] == '/' then ArcName(p[1..]) else p
  }

  /** A path with a character other than the separator. */
  predicate Named(p: Path) {
    exists i :: 0 <= i < |p| && p[i] != '/'
  }

  /** Stripping stops inside a prefix that has a name in it. */
  lemma {:induction false} ArcNameAppend(s: Path, t: string)
    requires Named(s)
    ensures ArcName(s + t) == ArcName(s) + t
    decreases |s|
  {
    if s[0] == '/' {
      var i :| 0 <= i < |s| && s[i] != '/';
      assert s[1..][i - 1] == s[i];
      assert (s + t)[1..] == s[1..] + t;
      ArcNameAppend(s[1..], t);
    }
  }

  /** A prefix made only of separators is stripped away entirely. */
  lemma {:induction false} ArcNameSlashes(s: Path, t: string)
    requires forall i :: 0 <= i < |s| ==> s[i] == '/'
    ensures ArcName(s + t) == ArcName(t)
    decreases |s|
  {
    if |s| > 0 {
      assert (s + t)[1..] == s[1..] + t;
      ArcNameSlashes(s[1..], t);
    } else {
      assert s + t == t;
    }
  }

  /** `p` is `src` itself or lies below it: `src`, a separator and a
      relative remainder, which is how `tarfile` walks a directory. */
  predicate Under(p: Path, src: Path) {
    |p| > 0 && (p == src || (|p| > |src| + 1 && StartsWith(p, src + "/") && p[|src| + 1] != '/'))
  }

  /** A path at or below `src` is `src` followed by nothing or by a
      separator and a relative remainder. */
  lemma UnderSplits(p: Path, src: Path)
    requires Under(p, src)
    ensures |src| <= |p| && p == src + p[|src|..]
    ensures p != src ==> |p| > |src| + 1 && p[|src|] == '/' && p[|src| + 1] != '/'
  {
    if p != src {
      assert p[..|src| + 1] == src + "/";
      assert p[..|src|] == src;
    }
  }

  /** Below a source with a name in it, a member's name is the source's name
      followed by the rest of the path. */
  lemma ArcNameBelow(p: Path, src: Path)
    requires Under(p, src) && Named(src)
    ensures ArcName(p) == ArcName(src) + p[|src|..]
  {
    UnderSplits(p, src);
    ArcNameAppend(src, p[|src|..]);
  }

  /** Below a source made only of separators (the root, or nothing at all), a
      member's name is the relative remainder. */
  lemma ArcNameBelowRoot(p: Path, src: Path)
    requires Under(p, src) && !Named(src) && p != src
    ensures ArcName(p) == p[|src| + 1..] && |ArcName(p)| > 0
    ensures p == src + "/" + ArcName(p)
  {
    UnderSplits(p, src);
    var t := p[|src| + 1..];
    assert p == (src + "/") + t;
    ArcNameSlashes(src + "/", t);
    assert t[0] == p[|src| + 1];
  }

  /** Paths below one source get different member names. */
  lemma ArcNameInjective(p: Path, q: Path, src: Path)
    requires Under(p, src) && Under(q, src) && ArcName(p) == ArcName(q)
    ensures p == q
  {
    if Named(src) {
      InjectiveBelowName(p, q, src);
    } else {
      InjectiveBelowRoot(p, q, src);
    }
  }

  lemma InjectiveBelowName(p: Path, q: Path, src: Path)
    requires Under(p, src) && Under(q, src) && Named(src) && ArcName(p) == ArcName(q)
    ensures p == q
  {
    UnderSplits(p, src);
    UnderSplits(q, src);
    ArcNameBelow(p, src);
    ArcNameBelow(q, src);
    assert p[|src|..] == q[|src|..];
  }

  lemma InjectiveBelowRoot(p: Path, q: Path, src: Path)
    requires Under(p, src) && Under(q, src) && !Named(src) && ArcName(p) == ArcName(q)
    ensures p == q
  {
    if p != src && q != src {
      ArcNameBelowRoot(p, src);
      ArcNameBelowRoot(q, src);
    } else if p != src {
      RootName(src);
      ArcNameBelowRoot(p, src);
    } else if q != src {
      RootName(src);
      ArcNameBelowRoot(q, src);
    }
  }

  /** A source made only of separators has the empty name. */
  lemma RootName(src: Path)
    requires !Named(src)
    ensures ArcName(src) == []
  {
    ArcNameSlashes(src, []);
    assert src + [] == src;
  }

  /** `tar_file.add(src, arcname=src)`: every regular file at or below `src`,
      named by its path without the leading separators. */
  function Tar(fs: FS, src: Path): (r: Members)
    ensures forall p :: p in fs.files && Under(p, src) ==> ArcName(p) in r && r[ArcName(p)] == fs.files[p]
    ensures forall n :: n in r ==> exists p :: p in fs.files && Under(p, src) && ArcName(p) == n
  {
    assert forall p, q :: Under(p, src) && Under(q, src) && ArcName(p) == ArcName(q) ==> p == q by {
      forall p, q | Under(p, src) && Under(q, src) && ArcName(p) == ArcName(q)
        ensures p == q
      {
        ArcNameInjective(p, q, src);
      }
    }
    var r := map p | p in fs.files && Under(p, src) :: ArcName(p) := fs.files[p];
    assert forall n :: n in r ==> exists p :: p in fs.files && Under(p, src) && ArcName(p) == n by {
      forall n | n in r
        ensures exists p :: p in fs.files && Under(p, src) && ArcName(p) == n
      {
        var p :| p in fs.files && Under(p, src) && ArcName(p) == n;
      }
    }
    r
  }

  /** `os.path.join(out, name)` for a relative member name. */
  function Target(out: Path, name: string): (r: Path)
    ensures |r| == |out| + 1 + |name| && r[..|out| + 1] == out + "/" && r[|out| + 1..] == name
  {
    out + "/" + name
  }

  /** `extractall(members, path=out)`: each member becomes a file below `out`. */
  function Extract(fs: FS, out: Path, members: Members): (r: FS)
    ensures r.dirs == fs.dirs
    ensures forall n :: n in members ==> Target(out, n) in r.files && r.files[Target(out, n)] == members[n]
    ensures forall q :: q in fs.files && !StartsWith(q, out + "/") ==> q in r.files && r.files[q] == fs.files[q]
  {
    fs.(files := fs.files + map n | n in members :: Target(out, n) := members[n])
  }

  // ---------------------------------------------------------------------------
  // pack
  // ---------------------------------------------------------------------------

  function TarPath(src: Path): Path {
    src + ".tar"
  }

  /** The tar is created next to the source. */
  lemma TarBesideSource(src: Path)
    ensures Parent(TarPath(src)) == Parent(src)
  {
    SuffixKeepsParent(src, ".tar");
  }

  /** `pack(src_dir, out_file, compression_type)` once the two paths are in
      hand (the body shared by `core.py` and `utils/file.py`). The tar is
      created exclusively next to the source before the compression type is
      looked at, the archive is created exclusively, and the tar is removed
      only on success. */
  function Pack(fs: FS, src: Path, out: Path, compression: string, c: Codec): (r: Outcome)
    ensures Exists(fs, TarPath(src)) ==> r == Outcome(fs, Some(FileExistsError(TarPath(src))))
    ensures !Exists(fs, TarPath(src)) && Parent(src) !in fs.dirs ==> r.fs == fs && r.error.Some?
    ensures r.Succeeded() <==>
      !Exists(fs, TarPath(src)) && Parent(src) in fs.dirs && Exists(fs, src) && compression == Zstd
      && out != TarPath(src) && !Exists(fs, out) && Parent(out) in fs.dirs
    ensures r.Succeeded() ==>
      && out in r.fs.files
      && r.fs.files[out] == Compress(c, c.encodeTar(Tar(fs, src)))
      && TarPath(src) !in r.fs.files
      && r.fs.dirs == fs.dirs
      && r.fs.files.Keys == fs.files.Keys + {out}
      && forall q :: q in fs.files ==> q in r.fs.files && r.fs.files[q] == fs.files[q]
    ensures !Exists(fs, TarPath(src)) && Parent(src) in fs.dirs && Exists(fs, src) && !r.Succeeded() ==>
      TarPath(src) in r.fs.files && r.fs.files[TarPath(src)] == c.encodeTar(Tar(fs, src))
    ensures !Exists(fs, TarPath(src)) && Parent(src) in fs.dirs && Exists(fs, src) && compression == Zstd && Exists(fs, out) ==>
      r.error == Some(FileExistsError(out)) && (out in fs.files ==> out in r.fs.files && r.fs.files[out] == fs.files[out])
    ensures !Exists(fs, TarPath(src)) && Parent(src) in fs.dirs && Exists(fs, src) && compression == Zip ==>
      r.error.Some? && r.error.value.NotImplementedError?
    ensures !Exists(fs, TarPath(src)) && Parent(src) in fs.dirs && Exists(fs, src) && compression != Zip && compression != Zstd ==>
      r.error.Some? && r.error.value.TypeError?
  {
    var tarPath := TarPath(src);
    TarBesideSource(src);
    match CreateFile(fs, tarPath, [])
      case Err(e) => Outcome(fs, Some(e))
      case Ok(fs0) =>
        if !Exists(fs, src) then Outcome(fs0, Some(FileNotFoundError(src)))
        else
          var tarBytes := c.encodeTar(Tar(fs, src));
          var fs1 := fs.(files := fs.files[tarPath := tarBytes]);
          if compression == Zstd then
            match CreateFile(fs1, out, Compress(c, tarBytes))
              case Err(e) => Outcome(fs1, Some(e))
              case Ok(fs2) => Outcome(RemoveFile(fs2, tarPath), None)
          else if compression == Zip then Outcome(fs1, Some(NotImplementedError("")))
          else Outcome(fs1, Some(TypeError(compression + " is not implemented")))
  }

  /** `pack` of `utils/file.py` as written: the paths come from unpacking the
      `pathify` generator. */
  function UtilsPack(fs: FS, src: Path, out: Path, compression: string, c: Codec): (r: Outcome)
    ensures r == Outcome(fs, Some(ValueError("wrong number of values to unpack")))
  {
    match UnpackTwo(PathifyGen([src, out]))
      case Err(e) => Outcome(fs, Some(e))
      case Ok(_) => Outcome(fs, Some(TypeError("expected a path, not a list")))
  }

  /** `pack` of `core.py`, whose `_pathify` returns the list. */
  function CorePack(fs: FS, src: Path, out: Path, compression: string, c: Codec): (r: Outcome)
    ensures r == Pack(fs, src, out, compression, c)
  {
    match UnpackTwo(PathifyList([src, out]))
      case Err(e) => Outcome(fs, Some(e))
      case Ok((s, o)) => Pack(fs, s, o, compression, c)
  }

  // ---------------------------------------------------------------------------
  // unpack
  // ---------------------------------------------------------------------------

  /** Which members `extractall` is given: all of them (`utils/file.py`),
      those named exactly like an allow-list entry (`core.py`), or those
      packed from below a directory. */
  datatype Filter = All | Listed(names: seq<string>) | Below(home: Path)

  function Select(members: Members, f: Filter): (r: Members)
    ensures r.Keys <= members.Keys
    ensures forall n :: n in r ==> r[n] == members[n]
    ensures f.All? ==> r == members
    ensures f.Listed? ==> forall n :: n in members ==> (n in r <==> n in f.names)
    ensures f.Below? ==> forall n :: n in members ==> (n in r <==> Under(n, ArcName(f.home)))
  {
    match f
      case All => members
      case Listed(names) => map n | n in members && n in names :: members[n]
      case Below(home) => map n | n in members && Under(n, ArcName(home)) :: members[n]
  }

  /** `mkdir(parents=True, exist_ok=True)` with the default mode. */
  const DefaultDirMode: int := 0x1FF    // 0o777

  /** The members a well-formed archive at `input` holds. */
  function Payload(fs: FS, input: Path, c: Codec): (r: Option<Members>)
    ensures r.Some? <==>
      (input in fs.files && Decompress(c, fs.files[input]).Ok?
       && c.decodeTar(Decompress(c, fs.files[input]).value).Some?)
    ensures r.Some? ==> r.value == c.decodeTar(Decompress(c, fs.files[input]).value).value
  {
    if input in fs.files && Decompress(c, fs.files[input]).Ok? then c.decodeTar(Decompress(c, fs.files[input]).value)
    else None
  }

  /** `unpack(in_file, out_dir, compression_type)` once the two paths are in
      hand. Only Zstandard is handled; any other type, ZIP included, raises
      TypeError. The payload is checked to be a tar before `out_dir` is created;
      a missing `out_dir` is created, an existing one is used as it is, and a
      regular file there fails only once a member is written below it. */
  function Unpack(fs: FS, input: Path, out: Path, compression: string, c: Codec, f: Filter): (r: Outcome)
    ensures compression != Zstd ==> r.fs == fs && r.error.Some? && r.error.value.TypeError?
    ensures compression == Zstd && input !in fs.files ==> r.fs == fs && r.error.Some?
    ensures (compression == Zstd && input in fs.files && Decompress(c, fs.files[input]).Ok?
      && c.decodeTar(Decompress(c, fs.files[input]).value).None?) ==>
        r == Outcome(fs, Some(OSError("This array of bytes does not seem to be a tarfile")))
    ensures r.Succeeded() <==>
      compression == Zstd && Payload(fs, input, c).Some?
      && (!Blocked(fs, out) || Select(Payload(fs, input, c).value, f) == map[])
    ensures (compression == Zstd && Payload(fs, input, c).Some? && Blocked(fs, out)
      && Select(Payload(fs, input, c).value, f) != map[]) ==>
        r == Outcome(fs, Some(NotADirectoryError(out)))
    ensures r.Succeeded() ==>
      r.fs == if Blocked(fs, out) then fs
              else Extract(AddDir(fs, out, DefaultDirMode), out, Select(Payload(fs, input, c).value, f))
    ensures !r.Succeeded() ==> r.fs == fs
    ensures forall q :: q in fs.files && !StartsWith(q, out + "/") ==> q in r.fs.files && r.fs.files[q] == fs.files[q]
    ensures r.fs.dirs <= fs.dirs + {out}
  {
    if compression != Zstd then Outcome(fs, Some(TypeError(compression + " is not implemented")))
    else match ReadFile(fs, input)
      case Err(e) => Outcome(fs, Some(e))
      case Ok(data) =>
        match Decompress(c, data)
          case Err(e) => Outcome(fs, Some(e))
          case Ok(tarBytes) =>
            match c.decodeTar(tarBytes)
              case None => Outcome(fs, Some(OSError("This array of bytes does not seem to be a tarfile")))
              case Some(members) =>
                var chosen := Select(members, f);
                if Blocked(fs, out) then
                  if chosen == map[] then Outcome(fs, None) else Outcome(fs, Some(NotADirectoryError(out)))
                else Outcome(Extract(AddDir(fs, out, DefaultDirMode), out, chosen), None)
  }

  /** `unpack` of `utils/file.py` as written. */
  function UtilsUnpack(fs: FS, input: Path, out: Path, compression: string, c: Codec): (r: Outcome)
    ensures r == Outcome(fs, Some(ValueError("wrong number of values to unpack")))
  {
    match UnpackTwo(PathifyGen([input, out]))
      case Err(e) => Outcome(fs, Some(e))
      case Ok(_) => Outcome(fs, Some(TypeError("expected a path, not a list")))
  }

  /** `unpack` of `core.py`: only members named exactly like an
      `ALLOWED_MEMBERS` entry, `[str(Path.home())]`, are extracted. */
  function CoreUnpack(fs: FS, input: Path, out: Path, compression: string, c: Codec, home: Path): (r: Outcome)
    ensures r == Unpack(fs, input, out, compression, c, Listed([home]))
  {
    match UnpackTwo(PathifyList([input, out]))
      case Err(e) => Outcome(fs, Some(e))
      case Ok((i, o)) => Unpack(fs, i, o, compression, c, Listed([home]))
  }

  // ---------------------------------------------------------------------------
  // Round trip
  // ---------------------------------------------------------------------------

  /** Unpacking an archive `pack` made extracts (a selection of) the members
      of the packed tree. */
  lemma UnpackPacked(fs: FS, src: Path, archive: Path, out: Path, c: Codec, f: Filter)
    requires Lawful(c)
    requires Pack(fs, src, archive, Zstd, c).Succeeded()
    ensures var packed := Pack(fs, src, archive, Zstd, c).fs;
      && Payload(packed, archive, c) == Some(Tar(fs, src))
      && (Unpack(packed, archive, out, Zstd, c, f).Succeeded() <==> !Blocked(packed, out) || Select(Tar(fs, src), f) == map[])
    ensures var packed := Pack(fs, src, archive, Zstd, c).fs;
      !Blocked(packed, out) ==>
        Unpack(packed, archive, out, Zstd, c, f)
          == Outcome(Extract(AddDir(packed, out, DefaultDirMode), out, Select(Tar(fs, src), f)), None)
  {
    var packed := Pack(fs, src, archive, Zstd, c).fs;
    var members := Tar(fs, src);
    assert packed.files[archive] == Compress(c, c.encodeTar(members));
    DecompressCompress(c, c.encodeTar(members));
    assert c.decodeTar(c.encodeTar(members)) == Some(members);
  }

  /** Packing `src` and unpacking the archive into `out` recreates every file
      below `src` under `out/<src without its leading separators>`, with the
      same bytes. */
  lemma PackUnpackRoundTrip(fs: FS, src: Path, archive: Path, out: Path, c: Codec)
    requires Lawful(c)
    requires Pack(fs, src, archive, Zstd, c).Succeeded()
    requires !Blocked(Pack(fs, src, archive, Zstd, c).fs, out)
    ensures var r := Unpack(Pack(fs, src, archive, Zstd, c).fs, archive, out, Zstd, c, All);
      && r.Succeeded()
      && forall p :: p in fs.files && Under(p, src) ==>
           Target(out, ArcName(p)) in r.fs.files && r.fs.files[Target(out, ArcName(p))] == fs.files[p]
  {
    UnpackPacked(fs, src, archive, out, c, All);
  }

  // ---------------------------------------------------------------------------
  // The allow-list of core.py never matches a member name
  // ---------------------------------------------------------------------------

  /** Member names never start with a separator. */
  lemma TarNamesRelative(fs: FS, src: Path)
    ensures forall n :: n in Tar(fs, src) ==> !StartsWith(n, "/")
  {
    forall n | n in Tar(fs, src)
      ensures !StartsWith(n, "/")
    {
      var p :| p in fs.files && Under(p, src) && ArcName(p) == n;
    }
  }

  /** An absolute home directory never equals a relative member name, so the
      `core.py` filter selects nothing. */
  lemma AllowListSelectsNothing(members: Members, home: Path)
    requires StartsWith(home, "/")
    requires forall n :: n in members ==> !StartsWith(n, "/")
    ensures Select(members, Listed([home])) == map[]
  {
    var r := Select(members, Listed([home]));
    forall n | n in members
      ensures n !in [home]
    {
    }
    assert r.Keys == {};
  }

  lemma ExtractNothing(fs: FS, out: Path)
    ensures Extract(fs, out, map[]) == fs
  {
    assert Extract(fs, out, map[]).files == fs.files;
  }

  /** As written: an archive made by `pack` and unpacked by `core.py` yields no
      file at all. A missing output directory is created, and a regular file
      standing there is left alone without an error, since nothing is written
      below it. */
  lemma CoreUnpackExtractsNothing(fs: FS, src: Path, archive: Path, out: Path, c: Codec, home: Path)
    requires Lawful(c)
    requires StartsWith(home, "/")
    requires Pack(fs, src, archive, Zstd, c).Succeeded()
    ensures var packed := Pack(fs, src, archive, Zstd, c).fs;
      CoreUnpack(packed, archive, out, Zstd, c, home)
        == Outcome(if Blocked(packed, out) then packed else AddDir(packed, out, DefaultDirMode), None)
  {
    var packed := Pack(fs, src, archive, Zstd, c).fs;
    UnpackPacked(fs, src, archive, out, c, Listed([home]));
    TarNamesRelative(fs, src);
    AllowListSelectsNothing(Tar(fs, src), home);
    ExtractNothing(AddDir(packed, out, DefaultDirMode), out);
  }

  /** Path prefixes survive stripping the leading separators. */
  lemma ArcNameUnder(p: Path, home: Path)
    requires Under(p, home) && Named(home)
    ensures Under(ArcName(p), ArcName(home))
  {
    ArcNameBelow(p, home);
    UnderSplits(p, home);
    ArcNameNonEmpty(home);
    var h := ArcName(home);
    var rest := p[|home|..];
    var x := h + rest;
    if p != home {
      assert rest[0] == '/' && rest[1] != '/';
      assert x[..|h| + 1] == h + "/";
      assert x[|h| + 1] == rest[1];
    } else {
      assert x == h;
    }
  }

  /** A path with a name in it keeps a non-empty name. */
  lemma ArcNameNonEmpty(p: Path)
    requires Named(p)
    ensures |ArcName(p)| > 0
  {
    var i :| 0 <= i < |p| && p[i] != '/';
  }

  /** The intended `core.py` filter: packing a directory inside the home
      directory and unpacking it with the members below home restores every
      file of it. */
  lemma CoreUnpackHomeRestores(fs: FS, src: Path, archive: Path, out: Path, c: Codec, home: Path)
    requires Lawful(c)
    requires Under(src, home) && Named(home)
    requires Pack(fs, src, archive, Zstd, c).Succeeded()
    requires !Blocked(Pack(fs, src, archive, Zstd, c).fs, out)
    ensures var r := Unpack(Pack(fs, src, archive, Zstd, c).fs, archive, out, Zstd, c, Below(home));
      && r.Succeeded()
      && forall p :: p in fs.files && Under(p, src) ==>
           Target(out, ArcName(p)) in r.fs.files && r.fs.files[Target(out, ArcName(p))] == fs.files[p]
  {
    var members := Tar(fs, src);
    UnpackPacked(fs, src, archive, out, c, Below(home));
    forall p | p in fs.files && Under(p, src)
      ensures ArcName(p) in Select(members, Below(home))
    {
      UnderTrans(p, src, home);
      ArcNameUnder(p, home);
    }
  }

  lemma UnderTrans(p: Path, src: Path, home: Path)
    requires Under(p, src) && Under(src, home)
    ensures Under(p, home)
  {
    if p != src && src != home {
      assert p[..|src| + 1] == src + "/";
      assert src[..|home| + 1] == home + "/";
      assert p[..|home| + 1] == src[..|home| + 1];
      assert p[|home| + 1] == src[|home| + 1];
    }
  }
}
