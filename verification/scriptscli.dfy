/** The command line of `scripts/python/trapper-keeper/trapper_keeper/cli.py`:
    `gen_key`, `passphrase`, `save_credential`, `unpack`, `pack` and
    `_sync_to_bootstrap`.

    `homeops_utils.file` is not part of this model; its `pack` and `unpack`
    are taken to be `Archive.Pack` and `Archive.Unpack` with no allow-list,
    which is what its own tests describe. Neither is `get_store` of this
    package: the two KeePass stores of `pack` are given already open, and
    what opening the target store leaves at its database path is a
    parameter. This package's `view_kp_db` is taken to be
    `KeepassStore.ViewKpDb`. `tempfile.mkdtemp` is a directory that did not
    exist before. */
module ScriptsCli {
  import opened Wrappers
  import opened Strings
  import opened FileSystem
  import opened KeyGen
  import opened PyKeePass
  import KeepassStore
  import Archive
  import TkCli

  /** `passphrase_length` and `key_length` of the settings. */
  const PassphraseLength: int := 7
  const KeyLength: int := 128

  // ---------------------------------------------------------------------------
  // Credentials
  // ---------------------------------------------------------------------------

  /** `save_credential(sec_credential, fp_token)`: `Path(None)` raises, and a
      path is always truthy, so every call either fails at once or writes like
      the other command line does. */
  function SaveCredential(fs: FS, text: Bytes, dest: Option<Path>): (r: Outcome)
    ensures dest.None? ==> r.fs == fs && r.error.Some? && r.error.value.TypeError?
    ensures dest.Some? ==> r == TkCli.WriteCredential(fs, text, dest)
    ensures dest.Some? && Blocked(fs, Parent(dest.value)) ==>
      r == Outcome(fs, Some(FileExistsError(Parent(dest.value))))
    ensures dest.Some? && !Blocked(fs, Parent(dest.value)) && NonEmptyFile(fs, dest.value) ==>
      r.Succeeded() && r.fs.files == fs.files
    ensures (dest.Some? && !Blocked(fs, Parent(dest.value)) && !NonEmptyFile(fs, dest.value)
             && dest.value !in fs.dirs && dest.value != Parent(dest.value)) ==>
      r.Succeeded() && r.fs.files == fs.files[dest.value := text]
  {
    match dest
      case None => Outcome(fs, Some(TypeError("expected str, bytes or os.PathLike object, not NoneType")))
      case Some(_) => TkCli.WriteCredential(fs, text, dest)
  }

  /** Where the two command lines differ: with no path, one prints the
      credential and the other raises. */
  lemma SaveCredentialWithoutPath(fs: FS, text: Bytes)
    ensures TkCli.WriteCredential(fs, text, None).Succeeded()
    ensures !SaveCredential(fs, text, None).Succeeded()
    ensures SaveCredential(fs, text, None).fs == TkCli.WriteCredential(fs, text, None).fs
  {
  }

  /** The generators `pack` draws from, and the text encoding of the files. */
  datatype Generators = Generators(
    category: int -> string, keyDraw: Draws, words: WordSource, passDraws: PassDraws, encode: Text -> Bytes)

  function KeyText(g: Generators, length: int): Result<Text> {
    GenUtf8(g.category, g.keyDraw, length, true, [], [])
  }

  function TokenText(g: Generators): Result<Text> {
    GenPassphrase(g.words, PassphraseLength, g.passDraws)
  }

  /** Module-level `gen_key(length, fp_key)`. */
  function GenKey(fs: FS, g: Generators, length: int, dest: Option<Path>): (r: Outcome)
    ensures KeyText(g, length).Err? ==> r.fs == fs && r.error.Some? && r.error.value.IndexError?
    ensures KeyText(g, length).Ok? && dest.None? ==> r.fs == fs && r.error.Some? && r.error.value.TypeError?
    ensures KeyText(g, length).Ok? && dest.Some? && Blocked(fs, Parent(dest.value)) ==>
      r == Outcome(fs, Some(FileExistsError(Parent(dest.value))))
    ensures KeyText(g, length).Ok? && dest.Some? && !Blocked(fs, Parent(dest.value)) ==>
      r.fs.dirs == fs.dirs + {Parent(dest.value)}
    ensures (KeyText(g, length).Ok? && dest.Some? && !Blocked(fs, Parent(dest.value)) && !NonEmptyFile(fs, dest.value)
             && dest.value !in fs.dirs && dest.value != Parent(dest.value)) ==>
      && r.Succeeded()
      && r.fs.files == fs.files[dest.value := g.encode(KeyText(g, length).value)]
      && (length >= 0 ==> |KeyText(g, length).value| == length)
  {
    match KeyText(g, length)
      case Err(e) => Outcome(fs, Some(e))
      case Ok(t) => SaveCredential(fs, g.encode(t), dest)
  }

  /** `TrapperKeeper.passphrase(length=7, fp_token)`. */
  function Passphrase(fs: FS, g: Generators, dest: Option<Path>): (r: Outcome)
    ensures TokenText(g).Err? ==> r.fs == fs && r.error.Some? && r.error.value.IndexError?
    ensures TokenText(g).Ok? && dest.None? ==> r.fs == fs && r.error.Some? && r.error.value.TypeError?
    ensures TokenText(g).Ok? && dest.Some? && Blocked(fs, Parent(dest.value)) ==>
      r == Outcome(fs, Some(FileExistsError(Parent(dest.value))))
    ensures TokenText(g).Ok? && dest.Some? && !Blocked(fs, Parent(dest.value)) ==>
      r.fs.dirs == fs.dirs + {Parent(dest.value)}
    ensures (TokenText(g).Ok? && dest.Some? && !Blocked(fs, Parent(dest.value)) && !NonEmptyFile(fs, dest.value)
             && dest.value !in fs.dirs && dest.value != Parent(dest.value)) ==>
      && r.Succeeded()
      && r.fs.files == fs.files[dest.value := g.encode(TokenText(g).value)]
      && TokenText(g).value[|TokenText(g).value| - 1] in Punctuation
  {
    match TokenText(g)
      case Err(e) => Outcome(fs, Some(e))
      case Ok(t) => SaveCredential(fs, g.encode(t), dest)
  }

  // ---------------------------------------------------------------------------
  // unpack
  // ---------------------------------------------------------------------------

  /** The destination paths read from the settings. */
  datatype Dest = Dest(db: Path, token: Path, key: Path)

  predicate AnyExists(fs: FS, d: Dest) {
    Exists(fs, d.db) || Exists(fs, d.token) || Exists(fs, d.key)
  }

  /** The files the archive is expected to hold: each destination's name,
      directly in the extraction directory. */
  function Sources(temp: Path, d: Dest): Dest {
    Dest(Join(temp, Name(d.db)), Join(temp, Name(d.token)), Join(temp, Name(d.key)))
  }

  const AlreadyExists: string := "Files already exist. Please remove them before unpacking."

  /** `mkdtemp` and `file.unpack(in_file=src_file, out_dir=temp)`. */
  function Extracted(fs: FS, srcFile: Path, temp: Path, c: Archive.Codec): Outcome {
    Archive.Unpack(AddDir(fs, temp, DirMode), srcFile, temp, Archive.Zstd, c, Archive.All)
  }

  /** The three files `unpack` opens are all there. */
  predicate Readable(fs: FS, src: Dest) {
    src.db in fs.files && src.token in fs.files && src.key in fs.files
  }

  /** The destinations can be written: none is a directory and each one's
      directory exists. */
  predicate Writable(fs: FS, d: Dest) {
    && d.db !in fs.dirs && Parent(d.db) in fs.dirs
    && d.token !in fs.dirs && Parent(d.token) in fs.dirs
    && d.key !in fs.dirs && Parent(d.key) in fs.dirs
  }

  /** `db.write_bytes(...)`, `token.write_bytes(...)`, `key.write_bytes(...)`
      in that order: each write needs its directory, and a write that fails
      leaves the earlier ones in place. */
  function Install(fs: FS, d: Dest, db: Bytes, token: Bytes, key: Bytes): (r: Outcome)
    ensures r.Succeeded() <==> Writable(fs, d)
    ensures r.Succeeded() ==> r.fs.files == fs.files[d.db := db][d.token := token][d.key := key]
    ensures r.fs.dirs == fs.dirs && r.fs.modes == fs.modes
    ensures !(d.db !in fs.dirs && Parent(d.db) in fs.dirs) ==> r.fs == fs && r.error.Some?
    ensures (d.db !in fs.dirs && Parent(d.db) in fs.dirs && d.db != d.token && d.db != d.key) ==>
      d.db in r.fs.files && r.fs.files[d.db] == db
    ensures !r.Succeeded() && d.key != d.db && d.key != d.token ==> (d.key in r.fs.files <==> d.key in fs.files)
    ensures forall q :: q in fs.files && q != d.db && q != d.token && q != d.key ==> q in r.fs.files && r.fs.files[q] == fs.files[q]
    ensures r.fs.files.Keys <= fs.files.Keys + {d.db, d.token, d.key}
  {
    match WriteFile(fs, d.db, db)
      case Err(e) => Outcome(fs, Some(e))
      case Ok(fs1) =>
        match WriteFile(fs1, d.token, token)
          case Err(e) => Outcome(fs1, Some(e))
          case Ok(fs2) =>
            match WriteFile(fs2, d.key, key)
              case Err(e) => Outcome(fs2, Some(e))
              case Ok(fs3) => Outcome(fs3, None)
  }

  /** `unpack(src_file)`: extract, refuse if any destination exists, open the
      three extracted files, then copy them to the database, token and key
      paths in that order. */
  function Unpack(fs: FS, srcFile: Path, temp: Path, d: Dest, c: Archive.Codec): (r: Outcome)
    ensures !Extracted(fs, srcFile, temp, c).Succeeded() ==> r == Extracted(fs, srcFile, temp, c)
    ensures Extracted(fs, srcFile, temp, c).Succeeded() && AnyExists(Extracted(fs, srcFile, temp, c).fs, d) ==>
      r == Outcome(Extracted(fs, srcFile, temp, c).fs, Some(Exception(AlreadyExists)))
    ensures var e := Extracted(fs, srcFile, temp, c).fs;
      var src := Sources(temp, d);
      Extracted(fs, srcFile, temp, c).Succeeded() && !AnyExists(e, d) ==>
        && (r.Succeeded() <==> Readable(e, src) && Writable(e, d))
        && (r.Succeeded() ==>
              r.fs.files == e.files[d.db := e.files[src.db]][d.token := e.files[src.token]][d.key := e.files[src.key]])
        && (!Readable(e, src) ==> r.fs == e)
        && (src.db !in e.files && src.db !in e.dirs ==> r.error == Some(FileNotFoundError(src.db)))
        && (Readable(e, src) ==> r == Install(e, d, e.files[src.db], e.files[src.token], e.files[src.key]))
  {
    var x := Extracted(fs, srcFile, temp, c);
    if !x.Succeeded() then x
    else if AnyExists(x.fs, d) then Outcome(x.fs, Some(Exception(AlreadyExists)))
    else
      var src := Sources(temp, d);
      match (ReadFile(x.fs, src.db), ReadFile(x.fs, src.token), ReadFile(x.fs, src.key))
        case (Ok(db), Ok(token), Ok(key)) => Install(x.fs, d, db, token, key)
        case (Err(e), _, _) => Outcome(x.fs, Some(e))
        case (_, Err(e), _) => Outcome(x.fs, Some(e))
        case (_, _, Err(e)) => Outcome(x.fs, Some(e))
  }

  /** The whole `unpack` command: the files are installed, then the installed
      database is opened with the installed token and key to be viewed. */
  function UnpackCommand(fs: FS, srcFile: Path, temp: Path, d: Dest, c: Archive.Codec, v: Vault): (r: Outcome)
    ensures !Unpack(fs, srcFile, temp, d, c).Succeeded() ==> r == Unpack(fs, srcFile, temp, d, c)
    ensures r.fs == Unpack(fs, srcFile, temp, d, c).fs
    ensures Unpack(fs, srcFile, temp, d, c).Succeeded() ==>
      var f := Unpack(fs, srcFile, temp, d, c).fs.files;
      && d.db in f && d.token in f && d.key in f
      && (r.Succeeded() <==> v.unseal(f[d.db], f[d.token], Some(f[d.key])).Some?)
  {
    var u := Unpack(fs, srcFile, temp, d, c);
    if !u.Succeeded() then u
    else match KeepassStore.ViewKpDb(u.fs, d.db, d.token, Some(d.key), v)
      case Err(e) => Outcome(u.fs, Some(e))
      case Ok(_) => u
  }

  /** Unpacking an archive of a database sealed with the archived token and
      key opens it at the end. */
  lemma UnpackCommandOpens(fs: FS, srcFile: Path, temp: Path, d: Dest, c: Archive.Codec, v: Vault,
                           members: Archive.Members, kp: Store)
    requires Archive.Lawful(c) && Lawful(v)
    requires srcFile in fs.files && temp !in fs.files
    requires fs.files[srcFile] == Archive.Compress(c, c.encodeTar(members))
    requires Name(d.db) in members && Name(d.token) in members && Name(d.key) in members
    requires members[Name(d.db)] == v.seal(kp, members[Name(d.token)], Some(members[Name(d.key)]))
    requires d.db != d.token && d.db != d.key && d.token != d.key
    requires Parent(d.db) in fs.dirs && Parent(d.token) in fs.dirs && Parent(d.key) in fs.dirs
    requires !AnyExists(Extracted(fs, srcFile, temp, c).fs, d)
    ensures UnpackCommand(fs, srcFile, temp, d, c, v).Succeeded()
  {
    UnpackInstalls(fs, srcFile, temp, d, c, members);
    var f := Unpack(fs, srcFile, temp, d, c).fs.files;
    assert v.unseal(f[d.db], f[d.token], Some(f[d.key])) == Some(kp);
  }

  /** A file already at a destination outside the extraction directory is
      never overwritten: `unpack` refuses to run. */
  lemma UnpackNeverOverwrites(fs: FS, srcFile: Path, temp: Path, d: Dest, c: Archive.Codec, p: Path)
    requires p in {d.db, d.token, d.key} && p in fs.files && !StartsWith(p, temp + "/")
    ensures var r := Unpack(fs, srcFile, temp, d, c);
      !r.Succeeded() && p in r.fs.files && r.fs.files[p] == fs.files[p]
  {
    var x := Extracted(fs, srcFile, temp, c);
    assert p in x.fs.files && x.fs.files[p] == fs.files[p];
    assert AnyExists(x.fs, d);
  }

  /** An archive whose members are the three destination names installs each
      member's bytes at its destination. */
  lemma UnpackInstalls(fs: FS, srcFile: Path, temp: Path, d: Dest, c: Archive.Codec, members: Archive.Members)
    requires Archive.Lawful(c)
    requires srcFile in fs.files && temp !in fs.files
    requires fs.files[srcFile] == Archive.Compress(c, c.encodeTar(members))
    requires Name(d.db) in members && Name(d.token) in members && Name(d.key) in members
    requires d.db != d.token && d.db != d.key && d.token != d.key
    requires Parent(d.db) in fs.dirs && Parent(d.token) in fs.dirs && Parent(d.key) in fs.dirs
    requires !AnyExists(Extracted(fs, srcFile, temp, c).fs, d)
    ensures var r := Unpack(fs, srcFile, temp, d, c);
      && r.Succeeded()
      && r.fs.files[d.db] == members[Name(d.db)]
      && r.fs.files[d.token] == members[Name(d.token)]
      && r.fs.files[d.key] == members[Name(d.key)]
  {
    var e := ExtractedSources(fs, srcFile, temp, d, c, members);
    var src := Sources(temp, d);
    var m := e.files[d.db := e.files[src.db]][d.token := e.files[src.token]][d.key := e.files[src.key]];
    var r := Unpack(fs, srcFile, temp, d, c);
    assert r.Succeeded() && r.fs.files == m;
    InstalledValues(e.files, d, e.files[src.db], e.files[src.token], e.files[src.key]);
  }

  /** A name has no separator in it. */
  lemma NameHasNoSeparator(p: Path)
    ensures '/' !in Name(p)
  {
    var i := LastIndexOf(p, "/");
    forall k | 0 <= k < |Name(p)|
      ensures Name(p)[k] != '/'
    {
      var j := if i < 0 then k else i + 1 + k;
      assert Name(p)[k] == p[j];
      assert !OccursAt(p, "/", j) by {
        if i < 0 {
          assert !Contains(p, "/");
        }
      }
      assert p[j..j + 1] == [p[j]];
    }
  }

  /** Every member of a tar made from a directory with a name in it lies in a
      subdirectory of the archive: its name is the directory's name, a
      separator and the rest. */
  lemma TarMembersNested(fs: FS, src: Path)
    requires Archive.Named(src) && src !in fs.files
    ensures forall n :: n in Archive.Tar(fs, src) ==> '/' in n
  {
    forall n | n in Archive.Tar(fs, src)
      ensures '/' in n
    {
      var p :| p in fs.files && Archive.Under(p, src) && Archive.ArcName(p) == n;
      Archive.UnderSplits(p, src);
      Archive.ArcNameBelow(p, src);
      assert n[|Archive.ArcName(src)|] == p[|src|];
    }
  }

  /** `unpack` as written, given an archive whose members all lie in
      subdirectories: nothing lands directly in the extraction directory, so
      opening the extracted database raises FileNotFoundError and nothing is
      installed. */
  lemma UnpackNestedFails(fs: FS, srcFile: Path, temp: Path, d: Dest, c: Archive.Codec, members: Archive.Members)
    requires Archive.Payload(fs, srcFile, c) == Some(members) && temp !in fs.files
    requires forall n :: n in members ==> '/' in n
    requires Sources(temp, d).db !in fs.files && Sources(temp, d).db !in fs.dirs
    requires !AnyExists(Extracted(fs, srcFile, temp, c).fs, d)
    ensures var x := Extracted(fs, srcFile, temp, c);
      && x.Succeeded()
      && Unpack(fs, srcFile, temp, d, c) == Outcome(x.fs, Some(FileNotFoundError(Sources(temp, d).db)))
  {
    var fs0 := AddDir(fs, temp, DirMode);
    assert Archive.Payload(fs0, srcFile, c) == Some(members);
    var x := Extracted(fs, srcFile, temp, c);
    var src := Sources(temp, d);
    assert x.fs == Archive.Extract(fs0, temp, members);
    NameHasNoSeparator(d.db);
    assert src.db != temp;
  }

  /** `pack` then `unpack` as written: the archive `pack` makes of an absolute
      temporary directory names its members after that directory, so
      `unpack` of it raises FileNotFoundError for the database and installs
      nothing. */
  lemma UnpackOwnArchiveFails(fs: FS, d: TkCli.PackDir, temp: Path, dest: Dest, c: Archive.Codec)
    requires Archive.Lawful(c) && Archive.Named(d.temp) && d.temp !in fs.files
    requires ArchiveDir(fs, d, c).Succeeded()
    requires var packed := ArchiveDir(fs, d, c).fs;
      && temp !in packed.files
      && Sources(temp, dest).db !in packed.files && Sources(temp, dest).db !in packed.dirs
      && !AnyExists(Extracted(packed, d.archive, temp, c).fs, dest)
    ensures var packed := ArchiveDir(fs, d, c).fs;
      var r := Unpack(packed, d.archive, temp, dest, c);
      && r.error == Some(FileNotFoundError(Sources(temp, dest).db))
      && r.fs == Extracted(packed, d.archive, temp, c).fs
  {
    var packed := ArchiveDir(fs, d, c).fs;
    Archive.UnpackPacked(fs, d.temp, d.archive, temp, c, Archive.All);
    TarMembersNested(fs, d.temp);
    UnpackNestedFails(packed, d.archive, temp, dest, c, Archive.Tar(fs, d.temp));
  }

  /** Writing the database, the token and the key, in that order, to three
      different paths leaves each with its own contents. */
  lemma InstalledValues(files: map<Path, Bytes>, d: Dest, db: Bytes, token: Bytes, key: Bytes)
    requires d.db != d.token && d.db != d.key && d.token != d.key
    ensures var m := files[d.db := db][d.token := token][d.key := key];
      m[d.db] == db && m[d.token] == token && m[d.key] == key
  {
  }

  /** The three files `unpack` opens are the archive's members of the
      destinations' names. */
  lemma ExtractedSources(fs: FS, srcFile: Path, temp: Path, d: Dest, c: Archive.Codec, members: Archive.Members)
    returns (e: FS)
    requires Archive.Lawful(c)
    requires srcFile in fs.files && temp !in fs.files
    requires fs.files[srcFile] == Archive.Compress(c, c.encodeTar(members))
    requires Name(d.db) in members && Name(d.token) in members && Name(d.key) in members
    ensures Extracted(fs, srcFile, temp, c).Succeeded() && e == Extracted(fs, srcFile, temp, c).fs
    ensures var src := Sources(temp, d);
      && src.db in e.files && e.files[src.db] == members[Name(d.db)]
      && src.token in e.files && e.files[src.token] == members[Name(d.token)]
      && src.key in e.files && e.files[src.key] == members[Name(d.key)]
  {
    ExtractedMembers(fs, srcFile, temp, c, members);
    e := Extracted(fs, srcFile, temp, c).fs;
    var src := Sources(temp, d);
    assert Archive.Target(temp, Name(d.db)) == src.db;
    assert Archive.Target(temp, Name(d.token)) == src.token;
    assert Archive.Target(temp, Name(d.key)) == src.key;
  }

  /** An archive of `members` extracts every member into the directory. */
  lemma ExtractedMembers(fs: FS, srcFile: Path, temp: Path, c: Archive.Codec, members: Archive.Members)
    requires Archive.Lawful(c)
    requires srcFile in fs.files && temp !in fs.files
    requires fs.files[srcFile] == Archive.Compress(c, c.encodeTar(members))
    ensures var x := Extracted(fs, srcFile, temp, c);
      && x.Succeeded()
      && forall n :: n in members ==> Archive.Target(temp, n) in x.fs.files && x.fs.files[Archive.Target(temp, n)] == members[n]
  {
    Archive.DecompressCompress(c, c.encodeTar(members));
    var fs0 := AddDir(fs, temp, DirMode);
    assert fs0.files == fs.files;
    assert Archive.Decompress(c, fs0.files[srcFile]) == Ok(c.encodeTar(members));
    assert Extracted(fs, srcFile, temp, c).fs
      == Archive.Extract(AddDir(fs0, temp, Archive.DefaultDirMode), temp, members);
  }

  // ---------------------------------------------------------------------------
  // pack and _sync_to_bootstrap
  // ---------------------------------------------------------------------------

  /** What opening the target store leaves at the database path: nothing,
      or the bytes of a database file. */
  function Opened(fs: FS, d: TkCli.PackDir, tgtFile: Option<Bytes>): (r: FS)
    ensures tgtFile.None? ==> r == fs
    ensures tgtFile.Some? ==> r == fs.(files := fs.files[d.db := tgtFile.value])
  {
    match tgtFile
      case None => fs
      case Some(b) => fs.(files := fs.files[d.db := b])
  }

  /** `pack(sync=False)` generating a key of `keyLength` letters in the pack
      directory `d`: the key and the passphrase are written, the target store
      is opened (leaving `tgtFile` at the database path), the bootstrap
      entries of the canonical store are copied into it, the directory is
      archived, and the target database is opened once more to be viewed.
      Leaving the `with` block does not save the target store, so the copy
      stays in memory; with nothing at the database path, viewing it raises
      FileNotFoundError after the archive exists. */
  function PackWith(fs: FS, d: TkCli.PackDir, keyLength: int, g: Generators, tgt: Store, bootstrap: Store,
                    s: KeepassStore.Settings, c: Archive.Codec, tgtFile: Option<Bytes>, v: Vault)
    : (r: (Outcome, Result<Store>))
    ensures TkCli.Fresh(fs, d) && KeyText(g, keyLength).Ok? && TokenText(g).Ok? ==>
      var key := g.encode(KeyText(g, keyLength).value);
      var token := g.encode(TokenText(g).value);
      && r.1 == KeepassStore.CopyBootstrapEntries(tgt, bootstrap, s)
      && (r.1.Err? ==> r.0.error == Some(r.1.error) && d.archive !in r.0.fs.files)
      && (r.1.Ok? ==>
            && d.key in r.0.fs.files && r.0.fs.files[d.key] == key
            && d.token in r.0.fs.files && r.0.fs.files[d.token] == token
            && d.archive in r.0.fs.files
            && (d.db in r.0.fs.files <==> tgtFile.Some?)
            && (tgtFile.None? ==> r.0.error == Some(FileNotFoundError(d.db)))
            && (tgtFile.Some? ==>
                  && r.0.fs.files[d.db] == tgtFile.value
                  && (r.0.Succeeded() <==> v.unseal(tgtFile.value, token, Some(key)).Some?)))
  {
    assert TkCli.Fresh(fs, d) ==> Vacant(fs, d) by {
      if TkCli.Fresh(fs, d) { FreshVacant(fs, d); }
    }
    var o := Credentials(fs, d, keyLength, g);
    if !o.Succeeded() then (o, Err(o.error.value))
    else
      var fs1 := Opened(o.fs, d, tgtFile);
      var r := CopyAndArchive(fs1, d, tgt, bootstrap, s, c);
      var viewed := if r.1.Err? || !r.0.Succeeded() then r
        else match KeepassStore.ViewKpDb(r.0.fs, d.db, d.token, Some(d.key), v)
          case Err(e) => (Outcome(r.0.fs, Some(e)), r.1)
          case Ok(_) => r;
      assert TkCli.Fresh(fs, d) && KeyText(g, keyLength).Ok? && TokenText(g).Ok? ==>
        var key := g.encode(KeyText(g, keyLength).value);
        var token := g.encode(TokenText(g).value);
        && (r.1.Err? ==> d.archive !in r.0.fs.files)
        && (r.1.Ok? ==>
              && r.0.Succeeded()
              && d.key in r.0.fs.files && r.0.fs.files[d.key] == key
              && d.token in r.0.fs.files && r.0.fs.files[d.token] == token
              && d.archive in r.0.fs.files
              && (d.db in r.0.fs.files <==> tgtFile.Some?)
              && (tgtFile.Some? ==> r.0.fs.files[d.db] == tgtFile.value)
              && d.db !in r.0.fs.dirs)
      by {
        if TkCli.Fresh(fs, d) && KeyText(g, keyLength).Ok? && TokenText(g).Ok? {
          var a := g.encode(KeyText(g, keyLength).value);
          var b := g.encode(TokenText(g).value);
          FreshPackFacts(fs, d, o.fs, a, b);
          OpenedPackFacts(o.fs, d, tgtFile, a, b);
          if r.1.Ok? {
            ArchivedCredentials(fs1, d, r.0.fs, a, b);
          }
        }
      }
      viewed
  }

  /** Opening the target store keeps the directory ready to be archived. */
  lemma OpenedPackFacts(before: FS, d: TkCli.PackDir, tgtFile: Option<Bytes>, a: Bytes, b: Bytes)
    requires PackFacts(before, d) && TkCli.Laid(d)
    requires d.key in before.files && before.files[d.key] == a
    requires d.token in before.files && before.files[d.token] == b
    requires d.db !in before.files && d.db !in before.dirs
    ensures var after := Opened(before, d, tgtFile);
      && PackFacts(after, d)
      && d.key in after.files && after.files[d.key] == a
      && d.token in after.files && after.files[d.token] == b
      && (d.db in after.files <==> tgtFile.Some?)
      && (tgtFile.Some? ==> after.files[d.db] == tgtFile.value)
      && d.db !in after.dirs
  {
  }

  /** Archiving keeps every file, the database path included, and adds the
      archive. */
  lemma ArchivedCredentials(before: FS, d: TkCli.PackDir, after: FS, a: Bytes, b: Bytes)
    requires d.key in before.files && before.files[d.key] == a
    requires d.token in before.files && before.files[d.token] == b
    requires PackFacts(before, d)
    requires after.files.Keys == before.files.Keys + {d.archive}
    requires forall q :: q in before.files ==> after.files[q] == before.files[q]
    ensures d.key in after.files && after.files[d.key] == a
    ensures d.token in after.files && after.files[d.token] == b
    ensures d.archive in after.files
    ensures d.db in after.files <==> d.db in before.files
    ensures d.db in before.files ==> after.files[d.db] == before.files[d.db]
  {
  }

  /** The `with` block and the archive: the copy fails before anything is
      archived, or the directory is archived as the credentials left it. */
  function CopyAndArchive(fs: FS, d: TkCli.PackDir, tgt: Store, bootstrap: Store, s: KeepassStore.Settings,
                          c: Archive.Codec): (r: (Outcome, Result<Store>))
    ensures r.1 == KeepassStore.CopyBootstrapEntries(tgt, bootstrap, s)
    ensures r.1.Err? ==> r.0 == Outcome(fs, Some(r.1.error))
    ensures r.1.Ok? ==> r.0 == ArchiveDir(fs, d, c)
    ensures r.1.Ok? && PackFacts(fs, d) ==>
      && r.0.Succeeded()
      && r.0.fs.files.Keys == fs.files.Keys + {d.archive}
      && r.0.fs.dirs == fs.dirs
      && forall q :: q in fs.files ==> r.0.fs.files[q] == fs.files[q]
  {
    var copied := KeepassStore.CopyBootstrapEntries(tgt, bootstrap, s);
    if copied.Err? then (Outcome(fs, Some(copied.error)), copied)
    else (ArchiveDir(fs, d, c), copied)
  }

  /** `file.pack(src_dir=temp, out_file=temp / "trapper_keeper.zst")`. */
  function ArchiveDir(fs: FS, d: TkCli.PackDir, c: Archive.Codec): (r: Outcome)
    ensures PackFacts(fs, d) ==>
      && r.Succeeded()
      && r.fs.files.Keys == fs.files.Keys + {d.archive}
      && r.fs.files[d.archive] == Archive.Compress(c, c.encodeTar(Archive.Tar(fs, d.temp)))
      && r.fs.dirs == fs.dirs
      && forall q :: q in fs.files ==> r.fs.files[q] == fs.files[q]
  {
    Archive.Pack(fs, d.temp, d.archive, Archive.Zstd, c)
  }

  /** The first steps of `pack`: the temporary directory, the key, then the
      passphrase. */
  function Credentials(fs: FS, d: TkCli.PackDir, keyLength: int, g: Generators): (r: Outcome)
    ensures Vacant(fs, d) && KeyText(g, keyLength).Ok? && TokenText(g).Ok? ==>
      && r.Succeeded()
      && r.fs.files == fs.files[d.key := g.encode(KeyText(g, keyLength).value)][d.token := g.encode(TokenText(g).value)]
      && r.fs.dirs == fs.dirs + {d.temp}
  {
    var fs0 := AddDir(fs, d.temp, DirMode);
    var o1 := GenKey(fs0, g, keyLength, Some(d.key));
    assert Vacant(fs, d) && KeyText(g, keyLength).Ok? ==>
      && o1.Succeeded()
      && o1.fs.files == fs.files[d.key := g.encode(KeyText(g, keyLength).value)]
      && o1.fs.dirs == fs.dirs + {d.temp}
      && !Blocked(o1.fs, Parent(d.token)) && !NonEmptyFile(o1.fs, d.token)
    by {
      if Vacant(fs, d) && KeyText(g, keyLength).Ok? {
        assert d.temp in fs0.dirs && !Blocked(fs0, Parent(d.key));
        assert !NonEmptyFile(fs0, d.key);
      }
    }
    if !o1.Succeeded() then o1
    else Passphrase(o1.fs, g, Some(d.token))
  }

  /** The credential paths of a pack directory are free, and both live
      directly in it. */
  predicate Vacant(fs: FS, d: TkCli.PackDir) {
    && d.key !in fs.files && d.key !in fs.dirs && d.key != d.temp && Parent(d.key) == d.temp
    && d.token !in fs.files && d.token !in fs.dirs && d.token != d.temp && Parent(d.token) == d.temp
    && d.token != d.key
  }

  lemma FreshVacant(fs: FS, d: TkCli.PackDir)
    requires TkCli.Fresh(fs, d)
    ensures Vacant(fs, d)
  {
  }

  /** What `Archive.Pack` needs of the directory after the credentials. */
  predicate PackFacts(after: FS, d: TkCli.PackDir) {
    && Exists(after, d.temp)
    && Parent(d.temp) in after.dirs
    && !Exists(after, Archive.TarPath(d.temp))
    && !Exists(after, d.archive)
    && Parent(d.archive) in after.dirs
    && d.archive != Archive.TarPath(d.temp)
    && d.db != d.archive
  }

  /** Writing the two credentials into a fresh pack directory leaves it ready
      to be archived. */
  lemma FreshPackFacts(fs: FS, d: TkCli.PackDir, after: FS, a: Bytes, b: Bytes)
    requires TkCli.Fresh(fs, d)
    requires after.files == fs.files[d.key := a][d.token := b]
    requires after.dirs == fs.dirs + {d.temp}
    ensures PackFacts(after, d)
    ensures d.key in after.files && after.files[d.key] == a
    ensures d.token in after.files && after.files[d.token] == b
    ensures d.db !in after.files && d.db !in after.dirs
  {
  }

  /** `pack` as written: `gen_key` is given `passphrase_length`. */
  function PackAsWritten(fs: FS, d: TkCli.PackDir, g: Generators, tgt: Store, bootstrap: Store,
                         s: KeepassStore.Settings, c: Archive.Codec, tgtFile: Option<Bytes>, v: Vault)
    : (r: (Outcome, Result<Store>))
    ensures TkCli.Fresh(fs, d) && KeyText(g, PassphraseLength).Ok? && TokenText(g).Ok? && r.1.Ok? ==>
      && d.key in r.0.fs.files && d.archive in r.0.fs.files
      && exists t: Text :: |t| == PassphraseLength && r.0.fs.files[d.key] == g.encode(t)
  {
    PackWith(fs, d, PassphraseLength, g, tgt, bootstrap, s, c, tgtFile, v)
  }

  /** `pack` with the key as long as `key_length`, as `gen_key` defaults to. */
  function Pack(fs: FS, d: TkCli.PackDir, g: Generators, tgt: Store, bootstrap: Store,
                s: KeepassStore.Settings, c: Archive.Codec, tgtFile: Option<Bytes>, v: Vault)
    : (r: (Outcome, Result<Store>))
    ensures TkCli.Fresh(fs, d) && KeyText(g, KeyLength).Ok? && TokenText(g).Ok? && r.1.Ok? ==>
      && d.key in r.0.fs.files && d.archive in r.0.fs.files
      && exists t: Text :: |t| == KeyLength && r.0.fs.files[d.key] == g.encode(t)
  {
    PackWith(fs, d, KeyLength, g, tgt, bootstrap, s, c, tgtFile, v)
  }

  /** The key `pack` writes as written has seven letters, where the settings
      ask for 128. */
  lemma PackKeyLength(fs: FS, d: TkCli.PackDir, g: Generators, tgt: Store, bootstrap: Store,
                      s: KeepassStore.Settings, c: Archive.Codec, tgtFile: Option<Bytes>, v: Vault)
    requires TkCli.Fresh(fs, d) && KeyText(g, PassphraseLength).Ok? && KeyText(g, KeyLength).Ok? && TokenText(g).Ok?
    requires KeepassStore.CopyBootstrapEntries(tgt, bootstrap, s).Ok?
    ensures var w := PackAsWritten(fs, d, g, tgt, bootstrap, s, c, tgtFile, v).0.fs;
      exists t :: |t| == 7 && w.files[d.key] == g.encode(t)
    ensures var f := Pack(fs, d, g, tgt, bootstrap, s, c, tgtFile, v).0.fs;
      exists t :: |t| == 128 && f.files[d.key] == g.encode(t)
  {
    var w := PackAsWritten(fs, d, g, tgt, bootstrap, s, c, tgtFile, v).0.fs;
    assert w.files[d.key] == g.encode(KeyText(g, PassphraseLength).value);
    var f := Pack(fs, d, g, tgt, bootstrap, s, c, tgtFile, v).0.fs;
    assert f.files[d.key] == g.encode(KeyText(g, KeyLength).value);
  }

  /** A target store that opening left unsaved makes `pack` raise once the
      archive is written, and the archive holds no database. */
  lemma PackWithoutDatabaseRaises(fs: FS, d: TkCli.PackDir, g: Generators, tgt: Store, bootstrap: Store,
                                  s: KeepassStore.Settings, c: Archive.Codec, v: Vault)
    requires TkCli.Fresh(fs, d) && KeyText(g, KeyLength).Ok? && TokenText(g).Ok?
    requires KeepassStore.CopyBootstrapEntries(tgt, bootstrap, s).Ok?
    ensures var r := Pack(fs, d, g, tgt, bootstrap, s, c, None, v).0;
      && r.error == Some(FileNotFoundError(d.db))
      && d.archive in r.fs.files && d.db !in r.fs.files
  {
  }

  /** `_sync_to_bootstrap` as written: `self.fp_kp_db` is not an attribute of
      the command line object, so it raises before any store is opened. */
  function SyncAsWritten(packed: Store, bootstrap: Store, s: KeepassStore.Settings): (r: Result<Store>)
    ensures r == Err(AttributeError("fp_kp_db"))
  {
    Err(AttributeError("fp_kp_db"))
  }

  /** `_sync_to_bootstrap` using its parameters: the packed store's bootstrap
      entries are copied into the canonical store, the reverse of `pack`. */
  function SyncToBootstrap(packed: Store, bootstrap: Store, s: KeepassStore.Settings): (r: Result<Store>)
    ensures FindGroup(bootstrap, s.bootstrap).Some? ==> r.Ok?
    ensures r.Ok? && FindGroup(bootstrap, s.bootstrap).Some? ==>
      var g := FindGroup(bootstrap, s.bootstrap).value;
      && ValidRef(r.value, g)
      && GroupAt(r.value, g).entries
           == GroupAt(bootstrap, g).entries
              + KeepassStore.Copies(KeepassStore.SourceEntries(packed, FindGroup(packed, s.bootstrap)))
  {
    KeepassStore.CopyBootstrapEntries(bootstrap, packed, s)
  }

  /** Copying into a store whose bootstrap group is below the root leaves that
      group where it was. */
  lemma CopyKeepsGroup(dest: Store, src: Store, s: KeepassStore.Settings, i: nat)
    requires FindGroup(dest, s.bootstrap) == Some(Sub(i))
    ensures var r := KeepassStore.CopyBootstrapEntries(dest, src, s);
      r.Ok? && FindGroup(r.value, s.bootstrap) == Some(Sub(i))
      && r.value.groups[i].entries == dest.groups[i].entries + KeepassStore.Copies(KeepassStore.SourceEntries(src, FindGroup(src, s.bootstrap)))
  {
    var r := KeepassStore.CopyBootstrapEntries(dest, src, s).value;
    assert r.root == dest.root;
    assert r.groups[i].name == s.bootstrap;
  }

  lemma {:induction false} CopiesAppend(a: seq<Entry>, b: seq<Entry>)
    ensures KeepassStore.Copies(a + b) == KeepassStore.Copies(a) + KeepassStore.Copies(b)
  {
    assert forall k :: 0 <= k < |a + b| ==> KeepassStore.Copies(a + b)[k] == (KeepassStore.Copies(a) + KeepassStore.Copies(b))[k];
  }

  lemma {:induction false} CopiesTwice(a: seq<Entry>)
    ensures KeepassStore.Copies(KeepassStore.Copies(a)) == KeepassStore.Copies(a)
  {
    assert forall k :: 0 <= k < |a| ==> KeepassStore.Copies(KeepassStore.Copies(a))[k] == KeepassStore.Copies(a)[k];
  }

  /** Leaving `pack`'s `with` block saves nothing, so the database file the
      sync reopens holds what opening the target store left there, whichever
      stores the copy ran on: the entries `pack` copied never reach it. */
  lemma PackLeavesDatabaseFile(fs: FS, d: TkCli.PackDir, g: Generators, s: KeepassStore.Settings, c: Archive.Codec,
                               tgt: Store, bootstrap: Store, otherTgt: Store, otherBootstrap: Store, b: Bytes, v: Vault)
    requires TkCli.Fresh(fs, d) && KeyText(g, KeyLength).Ok? && TokenText(g).Ok?
    requires KeepassStore.CopyBootstrapEntries(tgt, bootstrap, s).Ok?
    requires KeepassStore.CopyBootstrapEntries(otherTgt, otherBootstrap, s).Ok?
    ensures var r := Pack(fs, d, g, tgt, bootstrap, s, c, Some(b), v).0;
      var other := Pack(fs, d, g, otherTgt, otherBootstrap, s, c, Some(b), v).0;
      && d.db in r.fs.files && d.db in other.fs.files
      && r.fs.files[d.db] == b && other.fs.files[d.db] == b
  {
  }

  /** Copying the canonical bootstrap entries into a store and then that
      store's bootstrap entries back into the canonical store, both in memory,
      leaves the canonical group with its old entries, copies of the other
      store's own entries, and a second, stripped copy of its old entries. */
  lemma CopyThereAndBack(tgt: Store, bootstrap: Store, s: KeepassStore.Settings, i: nat, j: nat)
    requires FindGroup(tgt, s.bootstrap) == Some(Sub(i)) && FindGroup(bootstrap, s.bootstrap) == Some(Sub(j))
    ensures var packed := KeepassStore.CopyBootstrapEntries(tgt, bootstrap, s);
      packed.Ok? && SyncToBootstrap(packed.value, bootstrap, s).Ok?
      && SyncToBootstrap(packed.value, bootstrap, s).value.groups[j].entries
         == bootstrap.groups[j].entries + KeepassStore.Copies(tgt.groups[i].entries)
            + KeepassStore.Copies(bootstrap.groups[j].entries)
  {
    var b := bootstrap.groups[j].entries;
    var t := tgt.groups[i].entries;
    CopyKeepsGroup(tgt, bootstrap, s, i);
    var packed := KeepassStore.CopyBootstrapEntries(tgt, bootstrap, s).value;
    assert packed.groups[i].entries == t + KeepassStore.Copies(b);
    CopyKeepsGroup(bootstrap, packed, s, j);
    var synced := KeepassStore.CopyBootstrapEntries(bootstrap, packed, s).value;
    assert synced.groups[j].entries == b + KeepassStore.Copies(t + KeepassStore.Copies(b));
    CopiesAppend(t, KeepassStore.Copies(b));
    CopiesTwice(b);
    assert b + (KeepassStore.Copies(t) + KeepassStore.Copies(b))
        == b + KeepassStore.Copies(t) + KeepassStore.Copies(b);
  }
}
