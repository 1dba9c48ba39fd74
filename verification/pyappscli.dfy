/** The command line of `pyapps/trapper-keeper/trapper_keeper/cli.py`:
    `gen_key`, `passphrase` and `pack`.

    The generated key and passphrase are `KeyGen` texts; `encode` stands for
    `write_text(..., "utf-8")`. Printing is not modelled, so writing to no path
    changes nothing. `tempfile.mkdtemp` is a directory `temp` that nothing else
    uses yet, in a directory that exists (`Fresh`). `backup` and `unpack` have empty bodies. */
module TkCli {
  import opened Wrappers
  import opened Strings
  import opened FileSystem
  import opened KeyGen
  import opened PyKeePass
  import KeepassStore
  import Archive
  import Tk

  // ---------------------------------------------------------------------------
  // Importing the command line
  // ---------------------------------------------------------------------------

  /** `from module import names`: ImportError for the first name the module
      does not define, otherwise the names are bound. */
  function ImportFrom(defined: set<string>, names: seq<string>): (r: Result<seq<string>>)
    ensures r.Ok? <==> forall i :: 0 <= i < |names| ==> names[i] in defined
    ensures r.Ok? ==> r.value == names
    ensures r.Err? ==> exists i :: (0 <= i < |names| && names[i] !in defined
      && r.error == ImportError(names[i]) && forall j :: 0 <= j < i ==> names[j] in defined)
    decreases |names|
  {
    if |names| == 0 then Ok([])
    else if names[0] !in defined then Err(ImportError(names[0]))
    else
      match ImportFrom(defined, names[1..])
        case Err(e) =>
          assert forall j :: 1 <= j < |names| ==> names[j] == names[1..][j - 1];
          Err(e)
        case Ok(rest) => Ok([names[0]] + rest)
  }

  /** The names the command line imports from the settings module. */
  const SettingsImports: seq<string> := ["TkSettings", "file_hash", "TgtSettings"]

  /** What `trapper_keeper/conf.py` defines at module level. */
  const PackageConfNames: set<string> := {"TkSettings"}

  /** What the shared `resources/configs/tk_conf.py` defines at module level. */
  const SharedConfNames: set<string> := {"file_hash", "TkSettings", "TgtSettings"}

  /** As written, importing the command line fails: the package's own `conf`
      defines neither `file_hash` nor `TgtSettings`. */
  lemma ImportAsWrittenFails()
    ensures ImportFrom(PackageConfNames, SettingsImports) == Err(ImportError("file_hash"))
  {
    assert SettingsImports[0] in PackageConfNames;
    assert SettingsImports[1] !in PackageConfNames;
  }

  /** Importing the same names from the shared settings module, as the scripts
      command line does, binds all three; the rest of this module models the
      command line as if this import succeeded. */
  lemma ImportFromSharedConf()
    ensures ImportFrom(SharedConfNames, SettingsImports) == Ok(SettingsImports)
  {
    forall i | 0 <= i < |SettingsImports|
      ensures SettingsImports[i] in SharedConfNames
    {
    }
  }

  // ---------------------------------------------------------------------------
  // Writing one credential
  // ---------------------------------------------------------------------------

  /** The shared tail of `gen_key` and `passphrase` for a path `p`: its parent
      is created and restricted to 0o700; a non-empty regular file is kept,
      anything else is written and restricted to 0o600. A regular file where
      the parent should be raises FileExistsError before anything changes. */
  function WriteCredential(fs: FS, text: Bytes, dest: Option<Path>): (r: Outcome)
    ensures dest.None? ==> r == Outcome(fs, None)
    ensures dest.Some? && Blocked(fs, Parent(dest.value)) ==>
      r == Outcome(fs, Some(FileExistsError(Parent(dest.value))))
    ensures dest.Some? && !Blocked(fs, Parent(dest.value)) ==>
      var p := dest.value;
      && r.fs.dirs == fs.dirs + {Parent(p)}
      && Parent(p) in r.fs.modes && r.fs.modes[Parent(p)] == DirMode
      && (NonEmptyFile(fs, p) ==> r.Succeeded() && r.fs.files == fs.files)
      && (!NonEmptyFile(fs, p) && p !in fs.dirs && p != Parent(p) ==>
            && r.Succeeded()
            && r.fs.files == fs.files[p := text]
            && p in r.fs.modes && r.fs.modes[p] == FileMode)
      && (p in fs.dirs && p !in fs.files ==> r.error == Some(IsADirectoryError(p)) && r.fs.files == fs.files)
  {
    match dest
      case None => Outcome(fs, None)
      case Some(p) =>
        match MakeDirs(fs, Parent(p), Archive.DefaultDirMode)
          case Err(e) => Outcome(fs, Some(e))
          case Ok(fs1) =>
            var fs2 := fs1.(modes := fs1.modes[Parent(p) := DirMode]);
            assert Chmod(fs1, Parent(p), DirMode) == Ok(fs2);
            if NonEmptyFile(fs2, p) then Outcome(fs2, None)
            else match WriteFile(fs2, p, text)
              case Err(e) => Outcome(fs2, Some(e))
              case Ok(fs3) => Outcome(fs3.(modes := fs3.modes[p := FileMode]), None)
  }

  /** A credential, once written with non-empty contents, is never replaced:
      writing again, whatever the new text, leaves everything as it was. */
  lemma WriteCredentialKeeps(fs: FS, text: Bytes, again: Bytes, p: Path)
    requires |text| > 0 && p !in fs.dirs && p != Parent(p) && !Blocked(fs, Parent(p))
    ensures var once := WriteCredential(fs, text, Some(p));
      once.Succeeded() && WriteCredential(once.fs, again, Some(p)) == Outcome(once.fs, None)
  {
    var once := WriteCredential(fs, text, Some(p));
    assert NonEmptyFile(once.fs, p);
    assert once.fs.modes[Parent(p) := DirMode] == once.fs.modes;
  }

  /** `gen_key(length, key)`: `gen_utf8(length)` with its defaults (letters of
      both Unicode planes, no prefix), then the credential write. */
  function GenKey(fs: FS, category: int -> string, draw: Draws, length: int, key: Option<Path>,
                  encode: Text -> Bytes): (r: Outcome)
    ensures GenUtf8(category, draw, length, true, [], []).Err? ==> r.fs == fs && r.error.Some? && r.error.value.IndexError?
    ensures key.None? ==> r.fs == fs
    ensures GenUtf8(category, draw, length, true, [], []).Ok? && key.Some? && Blocked(fs, Parent(key.value)) ==>
      r == Outcome(fs, Some(FileExistsError(Parent(key.value))))
    ensures GenUtf8(category, draw, length, true, [], []).Ok? && key.Some? && !NonEmptyFile(fs, key.value)
            && key.value !in fs.dirs && key.value != Parent(key.value) && !Blocked(fs, Parent(key.value)) ==>
      var t := GenUtf8(category, draw, length, true, [], []).value;
      && r.Succeeded()
      && r.fs.files == fs.files[key.value := encode(t)]
      && (length >= 0 ==> |t| == length)
  {
    match GenUtf8(category, draw, length, true, [], [])
      case Err(e) => Outcome(fs, Some(e))
      case Ok(t) =>
        WriteCredential(fs, encode(t), key)
  }

  /** `passphrase(length, token)`: `gen_passphrase(length)`, then the
      credential write. */
  function Passphrase(fs: FS, src: WordSource, length: int, d: PassDraws, token: Option<Path>,
                      encode: Text -> Bytes): (r: Outcome)
    ensures |Wordlist(src.wordfile)| == 0 ==> r.fs == fs && r.error.Some? && r.error.value.IndexError?
    ensures token.None? ==> r.fs == fs
    ensures GenPassphrase(src, length, d).Ok? && token.Some? && Blocked(fs, Parent(token.value)) ==>
      r == Outcome(fs, Some(FileExistsError(Parent(token.value))))
    ensures GenPassphrase(src, length, d).Ok? && token.Some? && !NonEmptyFile(fs, token.value)
            && token.value !in fs.dirs && token.value != Parent(token.value) && !Blocked(fs, Parent(token.value)) ==>
      var t := GenPassphrase(src, length, d).value;
      && r.Succeeded()
      && r.fs.files == fs.files[token.value := encode(t)]
      && |t| >= 2 && t[|t| - 1] in Punctuation
  {
    match GenPassphrase(src, length, d)
      case Err(e) => Outcome(fs, Some(e))
      case Ok(t) =>
        WriteCredential(fs, encode(t), token)
  }

  // ---------------------------------------------------------------------------
  // The layout of a pack directory
  // ---------------------------------------------------------------------------

  /** The temporary directory of `pack` and the files it puts there. */
  datatype PackDir = PackDir(temp: Path, db: Path, key: Path, token: Path, archive: Path)

  /** `f"{temp_dir}/secrets.kdbx"`, `secrets.key`, `secrets.token` and
      `trapper_keeper.zst` in the directory `mkdtemp` returned. */
  function DirOf(temp: Path): PackDir {
    PackDir(temp, Join(temp, "secrets.kdbx"), Join(temp, "secrets.key"), Join(temp, "secrets.token"),
            Join(temp, "trapper_keeper.zst"))
  }

  /** The four files are different files directly below the directory, and
      none of them is the tar file `pack` writes next to it. */
  predicate Laid(d: PackDir) {
    && |d.temp| > 0
    && Parent(d.db) == d.temp && Parent(d.key) == d.temp && Parent(d.token) == d.temp && Parent(d.archive) == d.temp
    && Archive.Under(d.db, d.temp) && Archive.Under(d.key, d.temp) && Archive.Under(d.token, d.temp)
    && d.db != d.temp && d.key != d.temp && d.token != d.temp && d.archive != d.temp
    && KeepassStore.Distinct(d.db, d.token, Some(d.key))
    && d.archive != d.db && d.archive != d.key && d.archive != d.token
    && Archive.TarPath(d.temp) !in {d.temp, d.db, d.key, d.token, d.archive}
  }

  /** Every directory name gives a well laid out pack directory, whose files
      have the names the command line uses. */
  lemma Layout(temp: Path)
    requires |temp| > 0
    ensures Laid(DirOf(temp))
    ensures Name(DirOf(temp).db) == "secrets.kdbx" && Name(DirOf(temp).key) == "secrets.key"
    ensures Name(DirOf(temp).token) == "secrets.token" && Name(DirOf(temp).archive) == "trapper_keeper.zst"
  {
    var d := DirOf(temp);
    JoinLaid(temp, "secrets.kdbx");
    JoinLaid(temp, "secrets.key");
    JoinLaid(temp, "secrets.token");
    JoinLaid(temp, "trapper_keeper.zst");
    var tar := Archive.TarPath(temp);
    assert tar[|temp|] == '.';
  }

  /** A file directly below a directory: separated from it by one '/', and
      named by what follows. */
  lemma JoinLaid(temp: Path, n: string)
    requires |temp| > 0 && |n| > 0 && '/' !in n
    ensures var p := Join(temp, n);
      && Parent(p) == temp && Name(p) == n && Archive.Under(p, temp)
      && |p| == |temp| + 1 + |n| && p[|temp|] == '/'
  {
    MissingLastNotContained(n, "/");
    JoinSplits(temp, n);
    var p := Join(temp, n);
    assert p[..|temp + "/"|] == temp + "/" && p[|temp| + 1] == n[0];
  }

  /** A directory `mkdtemp` could return: its own directory exists, and
      nothing exists at it, at the tar path `pack` uses next to it, or at any
      of the files a pack puts in it. */
  predicate Fresh(fs: FS, d: PackDir) {
    && Laid(d)
    && Parent(d.temp) in fs.dirs
    && !Exists(fs, d.temp) && !Exists(fs, Archive.TarPath(d.temp))
    && !Exists(fs, d.db) && !Exists(fs, d.key) && !Exists(fs, d.token) && !Exists(fs, d.archive)
  }

  // ---------------------------------------------------------------------------
  // pack
  // ---------------------------------------------------------------------------

  /** The first steps of `pack`: the temporary directory, a 128-letter key and a
      seven-word passphrase in it. */
  function Credentials(fs: FS, d: PackDir, keyText: Bytes, tokenText: Bytes): (r: Outcome)
    ensures Fresh(fs, d) ==>
      && r.Succeeded()
      && r.fs.files == fs.files[d.key := keyText][d.token := tokenText]
      && r.fs.dirs == fs.dirs + {d.temp}
  {
    var fs0 := AddDir(fs, d.temp, DirMode);
    var o1 := WriteCredential(fs0, keyText, Some(d.key));
    if !o1.Succeeded() then o1
    else WriteCredential(o1.fs, tokenText, Some(d.token))
  }

  /** `pack` as written: `create_kp_db` is called with `kp_fp`, `kp_token` and
      `kp_key`, none of which is one of its parameters, so the call raises
      TypeError after the credentials exist and before any database or archive
      does. */
  function PackAsWritten(fs: FS, d: PackDir, keyText: Bytes, tokenText: Bytes): (r: Outcome)
    ensures Fresh(fs, d) ==>
      && r.error.Some? && r.error.value.TypeError?
      && r.fs.files == fs.files[d.key := keyText][d.token := tokenText]
      && d.db !in r.fs.files && d.archive !in r.fs.files
  {
    var o := Credentials(fs, d, keyText, tokenText);
    if !o.Succeeded() then o
    else
      match Tk.BindKeepass([("kp_fp", d.db), ("kp_token", d.token), ("kp_key", d.key)])
        case Err(e) => Outcome(o.fs, Some(e))
        case Ok(_) => Outcome(o.fs, None)
  }

  /** The first steps of `pack` with `create_kp_db` given its own parameter
      names: the credentials, then the database sealed with them. */
  function Provision(fs: FS, d: PackDir, keyText: Bytes, tokenText: Bytes, s: KeepassStore.Settings,
                     printable: char -> bool, v: Vault, rootName: string): (r: (FS, Result<Store>))
    ensures Fresh(fs, d) && r.1.Ok? ==>
      && d.key in r.0.files && r.0.files[d.key] == keyText
      && d.token in r.0.files && r.0.files[d.token] == tokenText
      && d.db in r.0.files && r.0.files[d.db] == v.seal(r.1.value, tokenText, Some(keyText))
    ensures r.1.Ok? && rootName != s.bootstrap ==>
      |r.1.value.groups| == 1 && r.1.value.groups[0].name == s.bootstrap
  {
    var o := Credentials(fs, d, keyText, tokenText);
    if !o.Succeeded() then (o.fs, Err(o.error.value))
    else KeepassStore.CreateKpDb(o.fs, d.db, d.token, Some(d.key), tokenText, keyText, s, d.temp, printable, v, rootName)
  }

  /** `pack` with `create_kp_db` called correctly: the provisioned directory is
      archived into `trapper_keeper.zst` inside it. */
  function Pack(fs: FS, d: PackDir, keyText: Bytes, tokenText: Bytes, s: KeepassStore.Settings,
                printable: char -> bool, v: Vault, rootName: string, c: Archive.Codec): (r: Outcome)
    ensures Provision(fs, d, keyText, tokenText, s, printable, v, rootName).1.Err? ==>
      r.error == Some(Provision(fs, d, keyText, tokenText, s, printable, v, rootName).1.error)
    ensures r.Succeeded() ==>
      var p := Provision(fs, d, keyText, tokenText, s, printable, v, rootName).0;
      && d.archive in r.fs.files
      && r.fs.files[d.archive] == Archive.Compress(c, c.encodeTar(Archive.Tar(p, d.temp)))
      && Archive.TarPath(d.temp) !in r.fs.files
  {
    var p := Provision(fs, d, keyText, tokenText, s, printable, v, rootName);
    if p.1.Err? then Outcome(p.0, Some(p.1.error))
    else Archive.Pack(p.0, d.temp, d.archive, Archive.Zstd, c)
  }

  /** The archive `pack` writes restores the key, the token and a database that
      opens with them to the store that was created, under the directory it is
      unpacked into. */
  lemma PackRestores(fs: FS, d: PackDir, keyText: Bytes, tokenText: Bytes, s: KeepassStore.Settings,
                     printable: char -> bool, v: Vault, rootName: string, c: Archive.Codec, out: Path)
    requires Archive.Lawful(c) && Lawful(v) && Fresh(fs, d)
    requires Pack(fs, d, keyText, tokenText, s, printable, v, rootName, c).Succeeded()
    requires out !in Pack(fs, d, keyText, tokenText, s, printable, v, rootName, c).fs.files
    ensures var packed := Pack(fs, d, keyText, tokenText, s, printable, v, rootName, c).fs;
      var store := Provision(fs, d, keyText, tokenText, s, printable, v, rootName).1;
      var u := Archive.Unpack(packed, d.archive, out, Archive.Zstd, c, Archive.All);
      var key := Archive.Target(out, Archive.ArcName(d.key));
      var token := Archive.Target(out, Archive.ArcName(d.token));
      var db := Archive.Target(out, Archive.ArcName(d.db));
      && u.Succeeded() && store.Ok?
      && key in u.fs.files && u.fs.files[key] == keyText
      && token in u.fs.files && u.fs.files[token] == tokenText
      && Load(u.fs, db, tokenText, Some(key), v) == Ok(store.value)
  {
    var p := Provision(fs, d, keyText, tokenText, s, printable, v, rootName);
    assert p.1.Ok?;
    Archive.PackUnpackRoundTrip(p.0, d.temp, d.archive, out, c);
    var u := Archive.Unpack(Pack(fs, d, keyText, tokenText, s, printable, v, rootName, c).fs,
                            d.archive, out, Archive.Zstd, c, Archive.All);
    var key := Archive.Target(out, Archive.ArcName(d.key));
    var db := Archive.Target(out, Archive.ArcName(d.db));
    assert u.fs.files[key] == keyText;
    assert ReadKey(u.fs, Some(key)) == Ok(Some(keyText));
    assert u.fs.files[db] == v.seal(p.1.value, tokenText, Some(keyText));
    assert v.unseal(v.seal(p.1.value, tokenText, Some(keyText)), tokenText, Some(keyText)) == Some(p.1.value);
  }
}
