/** The provisioning hook of `pyapps/trapper-keeper/trapper_keeper/conf.py`
    (`TkSettings.__post_create_hook__`).

    The generated key and passphrase arrive as the bytes that would be written
    (their generation is `KeyGen.GenUtf8` and `KeyGen.GenPassphrase`); the new
    database is an empty `PyKeePass.Store` sealed with the token's contents as
    password and the key file's contents as key. Writing the settings file
    itself is not modelled. */
module Conf {
  import opened Wrappers
  import opened FileSystem
  import opened PyKeePass
  import FileUtils

  /** The four paths the hook reads from the settings. */
  datatype ConfPaths = ConfPaths(db: Path, token: Path, key: Path, chezmoiDb: Path)

  /** The key, token and database are different files, and none of them is
      the directory another of the four paths lives in. */
  predicate Separate(c: ConfPaths) {
    && c.key != c.token && c.db != c.key && c.db != c.token
    && NotAParent(c, c.key) && NotAParent(c, c.token) && NotAParent(c, c.db) && NotAParent(c, c.chezmoiDb)
  }

  predicate NotAParent(c: ConfPaths, p: Path) {
    Parent(p) != c.key && Parent(p) != c.token && Parent(p) != c.db
  }

  /** The directories the hook creates. */
  function ConfParents(c: ConfPaths): set<Path> {
    {Parent(c.key), Parent(c.token), Parent(c.db), Parent(c.chezmoiDb)}
  }

  /** No regular file stands where the hook wants a directory. */
  predicate Clear(fs: FS, c: ConfPaths) {
    forall d :: d in ConfParents(c) ==> !Blocked(fs, d)
  }

  /** `if not p.exists() or p.stat().st_size == 0`: write the generated text
      (the second `mkdir` of the parent finds it already made). */
  function WriteIfBlank(fs: FS, p: Path, text: Bytes): (r: Result<FS>)
    ensures !MissingOrEmpty(fs, p) ==> r == Ok(fs)
    ensures MissingOrEmpty(fs, p) && p !in fs.dirs && Parent(p) in fs.dirs ==> r == Ok(fs.(files := fs.files[p := text]))
    ensures MissingOrEmpty(fs, p) && Parent(p) !in fs.dirs ==> r.Err?
    ensures r.Ok? ==> r.value.dirs == fs.dirs && r.value.modes == fs.modes
  {
    if MissingOrEmpty(fs, p) then WriteFile(fs, p, text) else Ok(fs)
  }

  /** The files after a blank key and a blank token have been written. */
  function Blanks(fs: FS, c: ConfPaths, keyText: Bytes, tokenText: Bytes): map<Path, Bytes> {
    var withKey := if MissingOrEmpty(fs, c.key) then fs.files[c.key := keyText] else fs.files;
    if MissingOrEmpty(fs.(files := withKey), c.token) then withKey[c.token := tokenText] else withKey
  }

  /** The four `mkdir(mode=0o700, exist_ok=True, parents=True)` calls, in
      order; a parent that is a regular file raises FileExistsError. */
  function MakeConfDirs(fs: FS, c: ConfPaths): (r: Outcome)
    ensures r.fs.files == fs.files
    ensures fs.dirs <= r.fs.dirs <= fs.dirs + ConfParents(c)
    ensures r.Succeeded() <==> Clear(fs, c)
    ensures r.Succeeded() ==> r.fs.dirs == fs.dirs + ConfParents(c)
    ensures !r.Succeeded() ==> exists d :: d in ConfParents(c) && Blocked(fs, d) && r.error == Some(FileExistsError(d))
    ensures ConfParents(c) <= fs.dirs ==> r == Outcome(fs, None)
  {
    var paths := [c.key, c.token, c.db, c.chezmoiDb];
    assert (set p | p in paths :: Parent(p)) == ConfParents(c);
    FileUtils.MakeParents(fs, paths, DirMode)
  }

  /** The key, then the token, each written when missing or empty. */
  function WriteBlanks(fs: FS, c: ConfPaths, keyText: Bytes, tokenText: Bytes): (r: Result<FS>)
    ensures c.key !in fs.dirs && c.token !in fs.dirs && Parent(c.key) in fs.dirs && Parent(c.token) in fs.dirs ==> r.Ok?
    ensures r.Ok? ==> r.value.dirs == fs.dirs && r.value.files == Blanks(fs, c, keyText, tokenText)
  {
    match WriteIfBlank(fs, c.key, keyText)
      case Err(e) => Err(e)
      case Ok(fs1) => WriteIfBlank(fs1, c.token, tokenText)
  }

  /** `create_database(filename=pdb, password=ptoken.read_text(), keyfile=pkey)`
      followed by `save()`. */
  function CreateDb(fs: FS, c: ConfPaths, rootName: string, v: Vault): (r: Outcome)
    ensures r.Succeeded() <==> c.token in fs.files && c.key in fs.files && c.db !in fs.dirs && Parent(c.db) in fs.dirs
    ensures r.Succeeded() ==>
      r.fs.files == fs.files[c.db := v.seal(EmptyStore(rootName), fs.files[c.token], Some(fs.files[c.key]))]
    ensures r.fs.dirs == fs.dirs
  {
    match ReadFile(fs, c.token)
      case Err(e) => Outcome(fs, Some(e))
      case Ok(password) =>
        match ReadFile(fs, c.key)
          case Err(e) => Outcome(fs, Some(e))
          case Ok(kb) =>
            match Save(fs, c.db, EmptyStore(rootName), password, Some(kb), v)
              case Err(e) => Outcome(fs, Some(e))
              case Ok(fs1) => Outcome(fs1, None)
  }

  /** The key and the token can be written: neither is a directory, and
      each one's directory exists. */
  predicate Writable(fs: FS, c: ConfPaths) {
    c.key !in fs.dirs && c.token !in fs.dirs && Parent(c.key) in fs.dirs && Parent(c.token) in fs.dirs
  }

  /** The hook once its directories exist: a blank key and token are written,
      then a database is created when nothing exists at its path. */
  function Provision(fs: FS, c: ConfPaths, keyText: Bytes, tokenText: Bytes, rootName: string, v: Vault): (r: Outcome)
    ensures r.fs.dirs == fs.dirs
    ensures Separate(c) && r.Succeeded() && Exists(fs, c.db) ==> r.fs.files == Blanks(fs, c, keyText, tokenText)
    ensures Separate(c) && r.Succeeded() && !Exists(fs, c.db) ==>
      var blanks := Blanks(fs, c, keyText, tokenText);
      && c.token in blanks && c.key in blanks
      && r.fs.files == blanks[c.db := v.seal(EmptyStore(rootName), blanks[c.token], Some(blanks[c.key]))]
    ensures Separate(c) && Writable(fs, c) && Exists(fs, c.db) ==>
      r == Outcome(fs.(files := Blanks(fs, c, keyText, tokenText)), None)
    ensures Separate(c) && Writable(fs, c) && !Exists(fs, c.db) && Parent(c.db) in fs.dirs ==> r.Succeeded()
  {
    match WriteBlanks(fs, c, keyText, tokenText)
      case Err(e) => Outcome(fs, Some(e))
      case Ok(fs6) =>
        assert Separate(c) ==> (Exists(fs6, c.db) <==> Exists(fs, c.db));
        if Exists(fs6, c.db) then Outcome(fs6, None)
        else CreateDb(fs6, c, rootName, v)
  }

  /** `__post_create_hook__`: the parents of all four paths are created with
      mode 0o700, and a parent that is a regular file stops the hook with
      FileExistsError; a missing or empty key and token are written with fresh
      material; a database is created only when nothing exists at its path,
      with the token file's contents as password and the key file as key. */
  function PostCreate(fs: FS, c: ConfPaths, keyText: Bytes, tokenText: Bytes, rootName: string, v: Vault): (r: Outcome)
    ensures r.Succeeded() ==> forall p :: p in {c.key, c.token, c.db, c.chezmoiDb} ==> Parent(p) in r.fs.dirs
    ensures forall d :: d in fs.dirs ==> d in r.fs.dirs
    ensures !Clear(fs, c) ==>
      && r.fs.files == fs.files
      && r.error.Some? && r.error.value.FileExistsError? && Blocked(fs, r.error.value.path)
    ensures Separate(c) && Clear(fs, c) && c.key !in fs.dirs && c.token !in fs.dirs && Exists(fs, c.db) ==>
        r == Outcome(MakeConfDirs(fs, c).fs.(files := Blanks(fs, c, keyText, tokenText)), None)
    ensures Separate(c) && r.Succeeded() && Exists(fs, c.db) ==> r.fs.files == Blanks(fs, c, keyText, tokenText)
    ensures Separate(c) && r.Succeeded() && !Exists(fs, c.db) ==>
      var blanks := Blanks(fs, c, keyText, tokenText);
      && c.token in blanks && c.key in blanks
      && r.fs.files == blanks[c.db := v.seal(EmptyStore(rootName), blanks[c.token], Some(blanks[c.key]))]
    ensures Separate(c) && Clear(fs, c) && c.key !in fs.dirs && c.token !in fs.dirs && !Exists(fs, c.db) ==>
      r.Succeeded()
  {
    var o := MakeConfDirs(fs, c);
    if !o.Succeeded() then o
    else
      var fs4 := o.fs;
      assert Parent(c.key) in fs4.dirs && Parent(c.token) in fs4.dirs && Parent(c.db) in fs4.dirs;
      assert Separate(c) ==>
        && (c.key in fs4.dirs <==> c.key in fs.dirs)
        && (c.token in fs4.dirs <==> c.token in fs.dirs)
        && (c.db in fs4.dirs <==> c.db in fs.dirs)
        && Blanks(fs4, c, keyText, tokenText) == Blanks(fs, c, keyText, tokenText)
      by {
        if Separate(c) {
          SeparateOutside(c);
          BlanksAfterDirs(fs, c, keyText, tokenText);
        }
      }
      Provision(fs4, c, keyText, tokenText, rootName, v)
  }

  /** None of the key, token and database is a directory the hook creates. */
  lemma SeparateOutside(c: ConfPaths)
    requires Separate(c)
    ensures c.key !in ConfParents(c) && c.token !in ConfParents(c) && c.db !in ConfParents(c)
  {
  }

  lemma BlanksAfterDirs(fs: FS, c: ConfPaths, keyText: Bytes, tokenText: Bytes)
    requires Separate(c)
    ensures Blanks(MakeConfDirs(fs, c).fs, c, keyText, tokenText) == Blanks(fs, c, keyText, tokenText)
  {
    var fs4 := MakeConfDirs(fs, c).fs;
    SeparateOutside(c);
    BlanksSameFiles(fs, fs4, c, keyText, tokenText);
  }

  /** `Blanks` looks only at the files and at whether the key and the token
      are directories. */
  lemma BlanksSameFiles(fs: FS, fs4: FS, c: ConfPaths, keyText: Bytes, tokenText: Bytes)
    requires fs4.files == fs.files
    requires (c.key in fs4.dirs) == (c.key in fs.dirs) && (c.token in fs4.dirs) == (c.token in fs.dirs)
    ensures Blanks(fs4, c, keyText, tokenText) == Blanks(fs, c, keyText, tokenText)
  {
    assert MissingOrEmpty(fs4, c.key) == MissingOrEmpty(fs, c.key);
  }

  /** Once provisioned with non-empty material, running the hook again
      changes nothing. */
  lemma PostCreateIdempotent(fs: FS, c: ConfPaths, keyText: Bytes, tokenText: Bytes, rootName: string, v: Vault)
    requires Separate(c) && |keyText| > 0 && |tokenText| > 0
    requires PostCreate(fs, c, keyText, tokenText, rootName, v).Succeeded()
    ensures var once := PostCreate(fs, c, keyText, tokenText, rootName, v).fs;
      PostCreate(once, c, keyText, tokenText, rootName, v) == Outcome(once, None)
  {
    var once := PostCreate(fs, c, keyText, tokenText, rootName, v).fs;
    ProvisionedFiles(fs, c, keyText, tokenText, rootName, v);
    assert MakeConfDirs(once, c) == Outcome(once, None);
    assert WriteBlanks(once, c, keyText, tokenText) == Ok(once);
  }

  /** After a successful run with non-empty material the key and token are
      non-empty files and something exists at the database path. */
  lemma ProvisionedFiles(fs: FS, c: ConfPaths, keyText: Bytes, tokenText: Bytes, rootName: string, v: Vault)
    requires Separate(c) && |keyText| > 0 && |tokenText| > 0
    requires PostCreate(fs, c, keyText, tokenText, rootName, v).Succeeded()
    ensures var once := PostCreate(fs, c, keyText, tokenText, rootName, v).fs;
      && !MissingOrEmpty(once, c.key) && !MissingOrEmpty(once, c.token) && Exists(once, c.db)
  {
    var once := PostCreate(fs, c, keyText, tokenText, rootName, v).fs;
    var blanks := Blanks(fs, c, keyText, tokenText);
    if Exists(fs, c.db) {
      BlanksFilled(fs, c, keyText, tokenText, once, None);
    } else {
      BlanksFilled(fs, c, keyText, tokenText, once,
                   Some(v.seal(EmptyStore(rootName), blanks[c.token], Some(blanks[c.key]))));
    }
  }

  /** Files that hold the blanks, and perhaps a database besides, have a
      non-empty key and token unless those are directories. */
  lemma BlanksFilled(fs: FS, c: ConfPaths, keyText: Bytes, tokenText: Bytes, after: FS, db: Option<Bytes>)
    requires Separate(c) && |keyText| > 0 && |tokenText| > 0
    requires fs.dirs <= after.dirs
    requires after.files == (if db.Some? then Blanks(fs, c, keyText, tokenText)[c.db := db.value]
                             else Blanks(fs, c, keyText, tokenText))
    requires db.None? ==> Exists(fs, c.db)
    ensures !MissingOrEmpty(after, c.key) && !MissingOrEmpty(after, c.token) && Exists(after, c.db)
  {
  }

  /** The database the hook creates opens with the token and key it holds. */
  lemma CreatedDatabaseOpens(fs: FS, c: ConfPaths, keyText: Bytes, tokenText: Bytes, rootName: string, v: Vault)
    requires Lawful(v) && Separate(c) && !Exists(fs, c.db)
    requires PostCreate(fs, c, keyText, tokenText, rootName, v).Succeeded()
    ensures var after := PostCreate(fs, c, keyText, tokenText, rootName, v).fs;
      Load(after, c.db, after.files[c.token], Some(c.key), v) == Ok(EmptyStore(rootName))
  {
    var after := PostCreate(fs, c, keyText, tokenText, rootName, v).fs;
    var password := after.files[c.token];
    var kb := after.files[c.key];
    assert v.unseal(v.seal(EmptyStore(rootName), password, Some(kb)), password, Some(kb)) == Some(EmptyStore(rootName));
  }
}
