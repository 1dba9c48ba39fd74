/** The trapper-keeper KeePass store
    (`pyapps/trapper-keeper/trapper_keeper/stores/keepass_store.py`).

    The bootstrap group and entry ids, the source file list, the source
    database path and the environment snapshot come from the settings and are
    parameters here; `Settings.Default` fills in the values of `tk_conf.py`.
    `str.isprintable` is an oracle on characters, credentials are bytes and their
    text encoding is not modelled. */
module KeepassStore {
  import opened Wrappers
  import opened Strings
  import opened FileSystem
  import opened PyKeePass
  import FileUtils
  import EnvFilter
  import Archive

  const BootstrapUuid: string := "A9906776-8CEB-4044-8D65-97B5A93920DD"
  const BootstrapEntryUuid: string := "36EF1A2C-773E-4F9D-AE8A-07B21E21C317"

  datatype Settings = Settings(
    bootstrap: string,
    bootstrapEntry: string,
    srcDb: string,
    srcFiles: seq<Path>,
    srcEnv: map<string, string>)
  {
    /** The ids and the source files of `tk_conf.py` for the given home and
        Ansible home directories. */
    static function Default(home: Path, ansibleHome: Path, srcDb: string, env: map<string, string>): Settings {
      Settings(BootstrapUuid, BootstrapEntryUuid, srcDb, [home + "/.npmrc", ansibleHome + "/ansible.cfg"], env)
    }
  }

  // ---------------------------------------------------------------------------
  // The guard on the source database path
  // ---------------------------------------------------------------------------

  /** `src_db_path == Path.cwd()` as written: the setting is a `str` and the
      working directory a `Path`, and the two never compare equal. */
  function SrcDbGuardAsWritten(srcDb: string, cwd: Path): (r: Result<()>)
    ensures r.Ok?
  {
    if EnvFilter.StrEquals(srcDb, EnvFilter.PyPath(cwd)) then Err(ValueError("source database is the working directory"))
    else Ok(())
  }

  /** The guard compared as paths: the working directory is refused. */
  function SrcDbGuard(srcDb: string, cwd: Path): (r: Result<()>)
    ensures r.Err? <==> srcDb == cwd
    ensures r.Err? ==> r.error.ValueError?
  {
    if srcDb == cwd then Err(ValueError("source database is the working directory")) else Ok(())
  }

  /** The working directory itself passes the written guard but not the
      intended one. */
  lemma SrcDbGuardMissesCwd(cwd: Path)
    ensures SrcDbGuardAsWritten(cwd, cwd).Ok? && SrcDbGuard(cwd, cwd).Err?
  {
  }

  // ---------------------------------------------------------------------------
  // Source files and attachments
  // ---------------------------------------------------------------------------

  /** The positions from `i` on whose source is a regular file, in order. */
  function Present(files: map<Path, Bytes>, sources: seq<Path>, i: nat): (r: seq<nat>)
    requires i <= |sources|
    ensures forall k :: 0 <= k < |r| ==> i <= r[k] < |sources| && sources[r[k]] in files
    decreases |sources| - i
  {
    if i == |sources| then []
    else (if sources[i] in files then [i] else []) + Present(files, sources, i + 1)
  }

  /** The attachments the loop adds from position `i` on: one per present
      source, identified by the source's position and named after its file. */
  function Expected(files: map<Path, Bytes>, sources: seq<Path>, i: nat): (r: seq<Attachment>)
    requires i <= |sources|
    ensures |r| == |Present(files, sources, i)|
  {
    var p := Present(files, sources, i);
    seq(|p|, k requires 0 <= k < |p| => Attachment(p[k], Name(sources[p[k]])))
  }

  /** The binaries the loop adds from position `i` on: the bytes of each
      present source, in order. */
  function ExpectedBytes(files: map<Path, Bytes>, sources: seq<Path>, i: nat): (r: seq<Bytes>)
    requires i <= |sources|
    ensures |r| == |Present(files, sources, i)|
  {
    var p := Present(files, sources, i);
    seq(|p|, k requires 0 <= k < |p| => files[sources[p[k]]])
  }

  /** Exactly the present positions, each once and in increasing order. */
  lemma {:induction false} PresentExact(files: map<Path, Bytes>, sources: seq<Path>, i: nat)
    requires i <= |sources|
    ensures forall j :: i <= j < |sources| && sources[j] in files ==> j in Present(files, sources, i)
    ensures forall k, l :: 0 <= k < l < |Present(files, sources, i)| ==>
      Present(files, sources, i)[k] < Present(files, sources, i)[l]
    decreases |sources| - i
  {
    if i < |sources| {
      PresentExact(files, sources, i + 1);
    }
  }

  lemma PresentCons(files: map<Path, Bytes>, sources: seq<Path>, i: nat)
    requires i < |sources|
    ensures Present(files, sources, i)
      == (if sources[i] in files then [i] else []) + Present(files, sources, i + 1)
  {
  }

  lemma ExpectedCons(files: map<Path, Bytes>, sources: seq<Path>, i: nat)
    requires i < |sources|
    ensures Expected(files, sources, i)
      == (if sources[i] in files then [Attachment(i, Name(sources[i]))] else []) + Expected(files, sources, i + 1)
  {
    var p := Present(files, sources, i);
    var q := Present(files, sources, i + 1);
    PresentCons(files, sources, i);
    var e := Expected(files, sources, i);
    var e1 := Expected(files, sources, i + 1);
    if sources[i] in files {
      var want := [Attachment(i, Name(sources[i]))] + e1;
      forall k | 0 <= k < |e|
        ensures e[k] == want[k]
      {
        if k > 0 {
          assert p[k] == q[k - 1];
        }
      }
      assert e == want;
    } else {
      assert p == q;
    }
  }

  lemma ExpectedBytesCons(files: map<Path, Bytes>, sources: seq<Path>, i: nat)
    requires i < |sources|
    ensures ExpectedBytes(files, sources, i)
      == (if sources[i] in files then [files[sources[i]]] else []) + ExpectedBytes(files, sources, i + 1)
  {
    var p := Present(files, sources, i);
    var q := Present(files, sources, i + 1);
    PresentCons(files, sources, i);
    var e := ExpectedBytes(files, sources, i);
    var e1 := ExpectedBytes(files, sources, i + 1);
    if sources[i] in files {
      var want := [files[sources[i]]] + e1;
      forall k | 0 <= k < |e|
        ensures e[k] == want[k]
      {
        if k > 0 {
          assert p[k] == q[k - 1];
        }
      }
      assert e == want;
    } else {
      assert p == q;
    }
  }

  /** Every source from position `i` on is a regular file, or is missing,
      is not the parent of any source (so no `mkdir` of the loop turns it into
      a directory) and has no regular file where its parent should be. */
  predicate Clean(fs: FS, sources: seq<Path>, i: nat) {
    forall j :: i <= j < |sources| ==>
      || sources[j] in fs.files
      || (&& sources[j] !in fs.dirs && !Blocked(fs, Parent(sources[j]))
          && forall k :: 0 <= k < |sources| ==> Parent(sources[k]) != sources[j])
  }

  /** Some source from position `i` on is a directory. */
  predicate DirSource(fs: FS, sources: seq<Path>, i: nat) {
    exists j :: i <= j < |sources| && sources[j] in fs.dirs && sources[j] !in fs.files
  }

  /** The loop over the source files (`keepass_store.py`:63-66), one path at a
      time from position `i`, with each source a path and `ensure_path`
      answering False for a missing one: it creates the parent of a missing
      source, which is then skipped, and raises FileExistsError when that
      parent is a regular file; an existing source gets a binary and an
      attachment whose id is its position. A directory source reads as
      `None`, which the binary pool cannot hold. */
  function AttachSources(fs: FS, atts: seq<Attachment>, pool: seq<Bytes>, sources: seq<Path>, i: nat)
    : (r: Result<(FS, seq<Attachment>, seq<Bytes>)>)
    requires i <= |sources|
    ensures r.Ok? ==> r.value.0.files == fs.files && fs.dirs <= r.value.0.dirs
    ensures r.Ok? ==> r.value.1 == atts + Expected(fs.files, sources, i)
    ensures r.Ok? ==> r.value.2 == pool + ExpectedBytes(fs.files, sources, i)
    ensures r.Err? ==> r.error.TypeError? || r.error.FileExistsError?
    decreases |sources| - i
  {
    if i == |sources| then
      assert atts + Expected(fs.files, sources, i) == atts;
      assert pool + ExpectedBytes(fs.files, sources, i) == pool;
      Ok((fs, atts, pool))
    else
      var p := sources[i];
      AttachStep(fs.files, atts, pool, sources, i);
      match EnsureOne(fs, p)
        case Err(e) => Err(e)
        case Ok(fs1) =>
          if !Exists(fs, p) then AttachSources(fs1, atts, pool, sources, i + 1)
          else match FileUtils.GetFileBytes(fs1, p)
            case None => Err(TypeError("a bytes-like object is required"))
            case Some(data) => AttachSources(fs1, atts + [Attachment(i, Name(p))], pool + [data], sources, i + 1)
  }

  /** The loop as written: `file.pathify` of `utils/file.py` is a generator
      whose only item is the whole list, so the body runs once, with the list
      as `src_file`, and `ensure_path(src_file)` asks that list whether it
      `exists`, which a list cannot answer. */
  function AttachSourcesAsWritten(fs: FS, pool: seq<Bytes>, sources: seq<Path>)
    : (r: Result<(FS, seq<Attachment>, seq<Bytes>)>)
    ensures r == Err(AttributeError("exists"))
  {
    var items := Archive.PathifyGen(sources);
    if |items| == 0 then Ok((fs, [], pool))
    else Err(AttributeError("exists"))
  }

  /** As written the loop fails for every source list, the empty one
      included, where the path-by-path loop attaches every present source. */
  lemma AttachAsWrittenFails(fs: FS, sources: seq<Path>)
    requires forall i :: 0 <= i < |sources| ==> sources[i] in fs.files
    ensures AttachSourcesAsWritten(fs, [], sources).Err?
    ensures AttachSources(fs, [], [], sources, 0).Ok?
    ensures |AttachSources(fs, [], [], sources, 0).value.1| == |sources|
  {
    AttachmentsAligned(fs, sources);
  }

  /** One step of the loop in terms of what it accumulates: a missing source
      adds nothing, a present one adds its attachment and its bytes in front
      of what the remaining sources add. */
  lemma AttachStep(files: map<Path, Bytes>, atts: seq<Attachment>, pool: seq<Bytes>, sources: seq<Path>, i: nat)
    requires i < |sources|
    ensures sources[i] !in files ==>
      && Expected(files, sources, i) == Expected(files, sources, i + 1)
      && ExpectedBytes(files, sources, i) == ExpectedBytes(files, sources, i + 1)
    ensures sources[i] in files ==>
      && atts + Expected(files, sources, i) == (atts + [Attachment(i, Name(sources[i]))]) + Expected(files, sources, i + 1)
      && pool + ExpectedBytes(files, sources, i) == (pool + [files[sources[i]]]) + ExpectedBytes(files, sources, i + 1)
  {
    ExpectedCons(files, sources, i);
    ExpectedBytesCons(files, sources, i);
    if sources[i] in files {
      var rest := Expected(files, sources, i + 1);
      var restBytes := ExpectedBytes(files, sources, i + 1);
      var a := Attachment(i, Name(sources[i]));
      assert (atts + [a]) + rest == atts + ([a] + rest);
      assert (pool + [files[sources[i]]]) + restBytes == pool + ([files[sources[i]]] + restBytes);
    }
  }

  /** `ensure_path(p)` on one path: the parent of a missing path is created,
      and a regular file in its place raises FileExistsError. */
  function EnsureOne(fs: FS, p: Path): (r: Result<FS>)
    ensures r.Err? <==> !Exists(fs, p) && Blocked(fs, Parent(p))
    ensures r.Err? ==> r.error.FileExistsError?
    ensures r.Ok? ==> r.value.files == fs.files
    ensures r.Ok? ==> r.value.dirs == if Exists(fs, p) then fs.dirs else fs.dirs + {Parent(p)}
  {
    var (fs1, res) := FileUtils.EnsurePath(fs, [p], DirMode);
    assert (set q | q in [p] && !Exists(fs, q) :: Parent(q)) == if Exists(fs, p) then {} else {Parent(p)};
    match res
      case Err(e) => Err(e)
      case Ok(_) => Ok(fs1)
  }

  /** The loop runs to the end whenever every source is a file or a path the
      loop never turns into a directory. */
  lemma {:induction false} AttachSucceeds(fs: FS, atts: seq<Attachment>, pool: seq<Bytes>, sources: seq<Path>, i: nat)
    requires i <= |sources|
    requires Clean(fs, sources, i)
    ensures AttachSources(fs, atts, pool, sources, i).Ok?
    decreases |sources| - i
  {
    if i < |sources| {
      var p := sources[i];
      var fs1 := EnsureOne(fs, p).value;
      forall j | i + 1 <= j < |sources|
        ensures || sources[j] in fs1.files
                || (&& sources[j] !in fs1.dirs && !Blocked(fs1, Parent(sources[j]))
                    && forall k :: 0 <= k < |sources| ==> Parent(sources[k]) != sources[j])
      {
        if sources[j] !in fs.files {
          assert Parent(sources[i]) != sources[j];
        }
      }
      if !Exists(fs, p) {
        AttachSucceeds(fs1, atts, pool, sources, i + 1);
      } else {
        var data := fs1.files[p];
        AttachSucceeds(fs1, atts + [Attachment(i, Name(p))], pool + [data], sources, i + 1);
      }
    }
  }

  /** A source that is a directory makes the loop fail. */
  lemma {:induction false} AttachFailsOnDirectory(fs: FS, atts: seq<Attachment>, pool: seq<Bytes>, sources: seq<Path>, i: nat)
    requires i <= |sources|
    requires DirSource(fs, sources, i)
    ensures AttachSources(fs, atts, pool, sources, i).Err?
    decreases |sources| - i
  {
    var p := sources[i];
    var j :| i <= j < |sources| && sources[j] in fs.dirs && sources[j] !in fs.files;
    match EnsureOne(fs, p)
      case Err(_) =>
      case Ok(fs1) =>
        if p in fs.dirs && p !in fs.files {
          assert FileUtils.GetFileBytes(fs1, p).None?;
        } else {
          assert sources[j] in fs1.dirs && sources[j] !in fs1.files;
          assert DirSource(fs1, sources, i + 1);
          if !Exists(fs, p) {
            AttachFailsOnDirectory(fs1, atts, pool, sources, i + 1);
          } else {
            var data := fs1.files[p];
            assert FileUtils.GetFileBytes(fs1, p) == Some(data);
            AttachFailsOnDirectory(fs1, atts + [Attachment(i, Name(p))], pool + [data], sources, i + 1);
          }
        }
  }

  lemma {:induction false} PresentAll(files: map<Path, Bytes>, sources: seq<Path>, i: nat)
    requires i <= |sources|
    requires forall j :: i <= j < |sources| ==> sources[j] in files
    ensures |Present(files, sources, i)| == |sources| - i
    ensures forall k :: 0 <= k < |sources| - i ==> Present(files, sources, i)[k] == i + k
    decreases |sources| - i
  {
    if i < |sources| {
      PresentAll(files, sources, i + 1);
    }
  }

  /** The promise of `tk_conf.py`:65-66: when every source exists and the pool
      starts empty, attachment i names source i and points at pool slot i,
      which holds source i's bytes. */
  lemma AttachmentsAligned(fs: FS, sources: seq<Path>)
    requires forall i :: 0 <= i < |sources| ==> sources[i] in fs.files
    ensures var r := AttachSources(fs, [], [], sources, 0);
      && r.Ok?
      && |r.value.1| == |r.value.2| == |sources|
      && forall i :: 0 <= i < |sources| ==>
           && r.value.1[i] == Attachment(i, Name(sources[i]))
           && r.value.2[r.value.1[i].id] == fs.files[sources[i]]
  {
    AttachSucceeds(fs, [], [], sources, 0);
    PresentAll(fs.files, sources, 0);
  }

  /** When an earlier source is missing the ids and the pool slots part ways:
      the one attachment is numbered 1 while the pool holds a single binary. */
  lemma MissingSourceShiftsIds(fs: FS, a: Path, b: Path)
    requires a !in fs.files && a !in fs.dirs && b in fs.files
    requires Parent(a) != a && Parent(b) != a && !Blocked(fs, Parent(a))
    ensures var r := AttachSources(fs, [], [], [a, b], 0);
      && r.Ok?
      && r.value.1 == [Attachment(1, Name(b))]
      && |r.value.2| == 1
  {
    var sources := [a, b];
    AttachSucceeds(fs, [], [], sources, 0);
    assert Present(fs.files, sources, 2) == [];
    assert Present(fs.files, sources, 1) == [1];
    assert Present(fs.files, sources, 0) == [1];
  }

  /** The custom properties: the variables whose value is non-empty and
      printable. */
  function CustomFrom(env: map<string, string>, printable: char -> bool): (r: map<string, string>)
    ensures forall k :: k in r <==> k in env && env[k] != "" && EnvFilter.Printable(env[k], printable)
    ensures forall k :: k in r ==> r[k] == env[k]
  {
    map k | k in env && env[k] != "" && EnvFilter.Printable(env[k], printable) :: env[k]
  }

  /** Unlike `filter_env_vars` with a list of paths, which keeps empty values,
      this filter drops exactly the empty ones. */
  lemma CustomDropsOnlyEmpty(env: map<string, string>, pathified: seq<EnvFilter.PyValue>, printable: char -> bool)
    requires EnvFilter.NoStrings(pathified)
    ensures CustomFrom(env, printable).Keys
      == EnvFilter.FilterEnvVars(env, pathified, printable).Keys - set k | k in env && env[k] == ""
  {
  }

  // ---------------------------------------------------------------------------
  // The bootstrap group and entry
  // ---------------------------------------------------------------------------

  /** The entry `add_entry` creates before anything is attached. */
  function BootstrapEntry(s: Settings): Entry {
    Entry(s.bootstrapEntry, "", "", None, None, None, [], None, None, map[], [])
  }

  /** `_create_kp_db_bootstrap_group`: one new group below the root. */
  function CreateBootstrapGroup(kp: Store, s: Settings): (r: Store)
    ensures r.groups == kp.groups + [Group(s.bootstrap, [])]
    ensures r.root == kp.root && r.binaries == kp.binaries
  {
    AddGroup(kp, s.bootstrap).0
  }

  /** `_create_kp_db_bootstrap_entries` (in memory; the callers save), with the
      source database guard compared as paths and the source list walked one
      path at a time. */
  function PopulateBootstrap(kp: Store, fs: FS, s: Settings, cwd: Path, printable: char -> bool)
    : (r: Result<(Store, FS)>)
    ensures s.srcDb == cwd ==> r.Err? && r.error.ValueError?
    ensures s.srcDb != cwd && FindGroup(kp, s.bootstrap).None? ==> r.Err? && r.error.ValueError?
    ensures r.Ok? ==> FindGroup(kp, s.bootstrap).Some?
    ensures r.Ok? ==>
      var g := FindGroup(kp, s.bootstrap).value;
      var e := BootstrapEntry(s).(attachments := Expected(fs.files, s.srcFiles, 0),
                                  custom := CustomFrom(s.srcEnv, printable));
      && ValidRef(r.value.0, g)
      && GroupAt(r.value.0, g) == GroupAt(kp, g).(entries := GroupAt(kp, g).entries + [e])
      && r.value.0.binaries == kp.binaries + ExpectedBytes(fs.files, s.srcFiles, 0)
      && |r.value.0.groups| == |kp.groups|
      && (g.Sub? ==> r.value.0.root == kp.root)
      && (forall i :: 0 <= i < |kp.groups| && g != Sub(i) ==> r.value.0.groups[i] == kp.groups[i])
    ensures r.Ok? ==> r.value.1.files == fs.files
    ensures r.Ok? ==> |AllEntries(r.value.0)| == |AllEntries(kp)| + 1
  {
    match SrcDbGuard(s.srcDb, cwd)
      case Err(err) => Err(err)
      case Ok(_) =>
        match FindGroup(kp, s.bootstrap)
          case None => Err(ValueError("bootstrap group not found"))
          case Some(g) =>
            match AddEntry(kp, g, BootstrapEntry(s), false)
              case Err(err) => Err(err)
              case Ok(_) =>
                match AttachSources(fs, [], kp.binaries, s.srcFiles, 0)
                  case Err(err) => Err(err)
                  case Ok((fs1, atts, pool)) =>
                    assert atts == Expected(fs.files, s.srcFiles, 0);
                    var e := BootstrapEntry(s).(attachments := atts, custom := CustomFrom(s.srcEnv, printable));
                    var kp1 := kp.(binaries := pool);
                    assert AllEntries(kp1) == AllEntries(kp);
                    AddEntryCounts(kp1, g, e, true);
                    var kp2 := AddEntry(kp1, g, e, true).value;
                    assert GroupAt(kp2, g) == GroupAt(kp, g).(entries := GroupAt(kp, g).entries + [e]);
                    Ok((kp2, fs1))
  }

  // ---------------------------------------------------------------------------
  // Opening and creating a database
  // ---------------------------------------------------------------------------

  /** The files other than `db` are as they were. */
  ghost predicate OnlyDbChanged(before: FS, after: FS, db: Path) {
    forall q :: q != db ==>
      (q in after.files <==> q in before.files) && (q in before.files ==> after.files[q] == before.files[q])
  }

  /** What `create_kp_db` and the constructor share: add the bootstrap group
      and save, populate the entry, save again. */
  function Bootstrap(fs: FS, db: Path, kp: Store, password: Bytes, kb: Option<Bytes>, s: Settings, cwd: Path,
                     printable: char -> bool, v: Vault): (r: (FS, Result<Store>))
    ensures OnlyDbChanged(fs, r.0, db)
    ensures r.1.Ok? ==> r.0.files == fs.files[db := v.seal(r.1.value, password, kb)]
  {
    var kp1 := CreateBootstrapGroup(kp, s);
    match Save(fs, db, kp1, password, kb, v)
      case Err(err) => (fs, Err(err))
      case Ok(fs1) =>
        match PopulateBootstrap(kp1, fs1, s, cwd, printable)
          case Err(err) => (fs1, Err(err))
          case Ok((kp2, fs2)) =>
            match Save(fs2, db, kp2, password, kb, v)
              case Err(err) => (fs2, Err(err))
              case Ok(fs3) =>
                assert fs3.files == fs.files[db := v.seal(kp2, password, kb)];
                (fs3, Ok(kp2))
  }

  /** In a database without the bootstrap group, populating after creating
      the group leaves exactly one new group, named after the bootstrap id and
      holding the one bootstrap entry. */
  lemma PopulateNewGroup(kp: Store, fs: FS, s: Settings, cwd: Path, printable: char -> bool)
    requires FindGroup(kp, s.bootstrap).None?
    requires PopulateBootstrap(CreateBootstrapGroup(kp, s), fs, s, cwd, printable).Ok?
    ensures var kp2 := PopulateBootstrap(CreateBootstrapGroup(kp, s), fs, s, cwd, printable).value.0;
      && |kp2.groups| == |kp.groups| + 1
      && kp2.groups[..|kp.groups|] == kp.groups
      && kp2.groups[|kp.groups|].name == s.bootstrap
      && |kp2.groups[|kp.groups|].entries| == 1
      && kp2.groups[|kp.groups|].entries[0].title == s.bootstrapEntry
      && |AllEntries(kp2)| == |AllEntries(kp)| + 1
  {
    var kp1 := CreateBootstrapGroup(kp, s);
    AddGroupKeepsEntries(kp, s.bootstrap);
    NewGroupFound(kp, s.bootstrap);
    var kp2 := PopulateBootstrap(kp1, fs, s, cwd, printable).value.0;
    assert GroupAt(kp2, Sub(|kp.groups|)) == kp2.groups[|kp.groups|];
    forall j | 0 <= j < |kp.groups|
      ensures kp2.groups[j] == kp.groups[j]
    {
      assert kp1.groups[j] == kp.groups[j];
    }
  }

  /** `Bootstrap` on a database without the group: one new group holding the
      one bootstrap entry, everything else as it was. */
  lemma BootstrapAddsGroup(fs: FS, db: Path, kp: Store, password: Bytes, kb: Option<Bytes>, s: Settings, cwd: Path,
                           printable: char -> bool, v: Vault)
    requires FindGroup(kp, s.bootstrap).None?
    requires Bootstrap(fs, db, kp, password, kb, s, cwd, printable, v).1.Ok?
    ensures var kp2 := Bootstrap(fs, db, kp, password, kb, s, cwd, printable, v).1.value;
      && |kp2.groups| == |kp.groups| + 1
      && kp2.groups[..|kp.groups|] == kp.groups
      && kp2.groups[|kp.groups|].name == s.bootstrap
      && |kp2.groups[|kp.groups|].entries| == 1
      && kp2.groups[|kp.groups|].entries[0].title == s.bootstrapEntry
      && |AllEntries(kp2)| == |AllEntries(kp)| + 1
  {
    var kp1 := CreateBootstrapGroup(kp, s);
    var fs1 := Save(fs, db, kp1, password, kb, v).value;
    PopulateNewGroup(kp, fs1, s, cwd, printable);
  }

  /** `KeepassStore(fp_kp_db, fp_token, fp_key)`: opens the database and, only
      when it has no bootstrap group, creates the group and the entry and saves
      after each. */
  function Open(fs: FS, db: Path, token: Path, key: Option<Path>, s: Settings, cwd: Path,
                printable: char -> bool, v: Vault): (r: (FS, Result<Store>))
    ensures r.1.Ok? ==> token in fs.files && Load(fs, db, fs.files[token], key, v).Ok?
    ensures OnlyDbChanged(fs, r.0, db)
    ensures token in fs.files && Load(fs, db, fs.files[token], key, v).Ok? ==>
      var kp := Load(fs, db, fs.files[token], key, v).value;
      && (FindGroup(kp, s.bootstrap).Some? ==> r == (fs, Ok(kp)))
      && (FindGroup(kp, s.bootstrap).None? && r.1.Ok? ==>
            && |r.1.value.groups| == |kp.groups| + 1
            && r.1.value.groups[..|kp.groups|] == kp.groups
            && r.1.value.groups[|kp.groups|].name == s.bootstrap
            && |r.1.value.groups[|kp.groups|].entries| == 1
            && |AllEntries(r.1.value)| == |AllEntries(kp)| + 1
            && r.0.files == fs.files[db := v.seal(r.1.value, fs.files[token], ReadKey(fs, key).value)])
  {
    match ReadFile(fs, token)
      case Err(err) => (fs, Err(err))
      case Ok(password) =>
        match Load(fs, db, password, key, v)
          case Err(err) => (fs, Err(err))
          case Ok(kp) =>
            if FindGroup(kp, s.bootstrap).Some? then (fs, Ok(kp))
            else
              var r := Bootstrap(fs, db, kp, password, ReadKey(fs, key).value, s, cwd, printable, v);
              if r.1.Ok? then BootstrapAddsGroup(fs, db, kp, password, ReadKey(fs, key).value, s, cwd, printable, v); r else r
  }

  /** In a database without the group, the group just added is the one found. */
  lemma NewGroupFound(kp: Store, name: string)
    requires FindGroup(kp, name).None?
    ensures FindGroup(AddGroup(kp, name).0, name) == Some(Sub(|kp.groups|))
  {
    var kp1 := AddGroup(kp, name).0;
    assert kp1.groups[|kp.groups|].name == name;
    forall j | 0 <= j < |kp.groups|
      ensures kp1.groups[j].name != name
    {
      assert kp1.groups[j] == kp.groups[j];
    }
  }

  /** The credential files of `create_kp_db`: the parent of a database that is
      not a file yet is created, the token is written only when it is not a
      file, and the key only when one is given and it is not a file. */
  function WriteCredentials(fs: FS, db: Path, token: Path, key: Option<Path>, tokenText: Bytes, keyText: Bytes)
    : (r: Outcome)
    ensures forall q :: q in r.fs.files && q !in fs.files ==> q == token || Some(q) == key
    ensures Distinct(db, token, key) ==> forall q :: q in fs.files ==> q in r.fs.files && r.fs.files[q] == fs.files[q]
    ensures r.Succeeded() ==> token in r.fs.files && (token !in fs.files ==> r.fs.files[token] == tokenText)
    ensures r.Succeeded() && key.Some? ==>
      key.value in r.fs.files && (key.value !in fs.files && key.value != token ==> r.fs.files[key.value] == keyText)
  {
    match if db !in fs.files then MakeDirs(fs, Parent(db), DirMode) else Ok(fs)
      case Err(err) => Outcome(fs, Some(err))
      case Ok(fs1) =>
        match WriteIfNotFile(fs1, Some(token), tokenText)
          case Err(err) => Outcome(fs1, Some(err))
          case Ok(fs2) =>
            match WriteIfNotFile(fs2, key, keyText)
              case Err(err) => Outcome(fs2, Some(err))
              case Ok(fs3) => Outcome(fs3, None)
  }

  /** `create_kp_db`: writes the missing credentials, then creates, populates
      and saves the database with the token's contents as password. */
  function CreateKpDb(fs: FS, db: Path, token: Path, key: Option<Path>, tokenText: Bytes, keyText: Bytes,
                      s: Settings, cwd: Path, printable: char -> bool, v: Vault, rootName: string)
    : (r: (FS, Result<Store>))
    ensures Distinct(db, token, key) && token in fs.files ==>
      token in r.0.files && r.0.files[token] == fs.files[token]
    ensures Distinct(db, token, key) && key.Some? && key.value in fs.files ==>
      key.value in r.0.files && r.0.files[key.value] == fs.files[key.value]
    ensures forall p :: p in r.0.files && p !in fs.files ==> p == db || p == token || Some(p) == key
    ensures Distinct(db, token, key) && r.1.Ok? ==>
      && token in r.0.files
      && (token !in fs.files ==> r.0.files[token] == tokenText)
      && (key.Some? ==> key.value in r.0.files && (key.value !in fs.files ==> r.0.files[key.value] == keyText))
      && ReadKey(r.0, key).Ok?
      && db in r.0.files
      && r.0.files[db] == v.seal(r.1.value, r.0.files[token], ReadKey(r.0, key).value)
    ensures r.1.Ok? && rootName != s.bootstrap ==>
      && |r.1.value.groups| == 1
      && r.1.value.groups[0].name == s.bootstrap
      && |r.1.value.groups[0].entries| == 1
      && r.1.value.groups[0].entries[0].title == s.bootstrapEntry
  {
    var o := WriteCredentials(fs, db, token, key, tokenText, keyText);
    if !o.Succeeded() then (o.fs, Err(o.error.value))
    else
      match ReadKey(o.fs, key)
        case Err(err) => (o.fs, Err(err))
        case Ok(kb) =>
          var r := Bootstrap(o.fs, db, EmptyStore(rootName), o.fs.files[token], kb, s, cwd, printable, v);
          if r.1.Ok? && rootName != s.bootstrap then
            BootstrapAddsGroup(o.fs, db, EmptyStore(rootName), o.fs.files[token], kb, s, cwd, printable, v);
            r
          else r
  }

  /** A database `create_kp_db` made opens with the token it wrote, already
      has the bootstrap group, and so is left as it is by the constructor. */
  lemma CreatedDatabaseOpensUnchanged(fs: FS, db: Path, token: Path, key: Option<Path>, tokenText: Bytes,
                                      keyText: Bytes, s: Settings, cwd: Path, printable: char -> bool, v: Vault,
                                      rootName: string)
    requires Lawful(v) && Distinct(db, token, key) && rootName != s.bootstrap
    requires CreateKpDb(fs, db, token, key, tokenText, keyText, s, cwd, printable, v, rootName).1.Ok?
    ensures var c := CreateKpDb(fs, db, token, key, tokenText, keyText, s, cwd, printable, v, rootName);
      Open(c.0, db, token, key, s, cwd, printable, v) == c
  {
    var c := CreateKpDb(fs, db, token, key, tokenText, keyText, s, cwd, printable, v, rootName);
    var kp := c.1.value;
    var password := c.0.files[token];
    var kb := ReadKey(c.0, key).value;
    assert v.unseal(v.seal(kp, password, kb), password, kb) == Some(kp);
    assert Load(c.0, db, password, key, v) == Ok(kp);
    assert kp.groups[0].name == s.bootstrap;
    assert FindGroup(kp, s.bootstrap).Some?;
  }

  /** The database, token and key paths are three different files. */
  predicate Distinct(db: Path, token: Path, key: Option<Path>) {
    db != token && (key.Some? ==> key.value != db && key.value != token)
  }

  /** `if p is not None and not p.is_file()`: create the parent and write. A
      regular file where the parent should be, or a directory at the path
      itself, raises. */
  function WriteIfNotFile(fs: FS, p: Option<Path>, data: Bytes): (r: Result<FS>)
    ensures p.None? ==> r == Ok(fs)
    ensures p.Some? && p.value in fs.files ==> r == Ok(fs)
    ensures p.Some? && p.value !in fs.files ==>
      (r.Ok? <==> !Blocked(fs, Parent(p.value)) && p.value !in fs.dirs && p.value != Parent(p.value))
    ensures r.Ok? ==> forall q :: q in r.value.files ==> q in fs.files || Some(q) == p
    ensures r.Ok? ==> forall q :: q in fs.files && Some(q) != p ==> q in r.value.files && r.value.files[q] == fs.files[q]
    ensures r.Ok? && p.Some? ==> p.value in r.value.files && (p.value !in fs.files ==> r.value.files[p.value] == data)
  {
    match p
      case None => Ok(fs)
      case Some(q) =>
        if q in fs.files then Ok(fs)
        else match MakeDirs(fs, Parent(q), DirMode)
          case Err(e) => Err(e)
          case Ok(fs1) => WriteFile(fs1, q, data)
  }

  // ---------------------------------------------------------------------------
  // Copying entries between stores
  // ---------------------------------------------------------------------------

  /** The fields `add_entry` is given when copying: custom properties and
      attachments are not among them. */
  function CopyOf(e: Entry): (r: Entry)
    ensures r.custom == map[] && r.attachments == []
    ensures r.title == e.title && r.username == e.username && r.password == e.password
    ensures r.url == e.url && r.notes == e.notes && r.expiry == e.expiry
    ensures r.tags == e.tags && r.otp == e.otp && r.icon == e.icon
  {
    e.(custom := map[], attachments := [])
  }

  function Copies(src: seq<Entry>): (r: seq<Entry>)
    ensures |r| == |src| && forall i :: 0 <= i < |src| ==> r[i] == CopyOf(src[i])
  {
    seq(|src|, i requires 0 <= i < |src| => CopyOf(src[i]))
  }

  /** One `add_entry(..., force_creation=True)` per source entry. */
  function CopyLoop(kp: Store, g: GroupRef, src: seq<Entry>): (r: Store)
    requires ValidRef(kp, g)
    ensures ValidRef(r, g) && GroupAt(r, g) == GroupAt(kp, g).(entries := GroupAt(kp, g).entries + Copies(src))
    ensures |r.groups| == |kp.groups| && r.binaries == kp.binaries
    ensures g.Sub? ==> r.root == kp.root
    ensures forall i :: 0 <= i < |kp.groups| && g != Sub(i) ==> r.groups[i] == kp.groups[i]
    ensures |AllEntries(r)| == |AllEntries(kp)| + |src|
    decreases |src|
  {
    if |src| == 0 then
      assert GroupAt(kp, g).entries + Copies(src) == GroupAt(kp, g).entries;
      kp
    else
      var kp1 := AddEntry(kp, g, CopyOf(src[0]), true).value;
      AddEntryCounts(kp, g, CopyOf(src[0]), true);
      var r := CopyLoop(kp1, g, src[1..]);
      CopiesFirst(GroupAt(kp, g).entries, src);
      r
  }

  /** Copying a non-empty run is copying its first entry, then the rest. */
  lemma CopiesFirst(before: seq<Entry>, src: seq<Entry>)
    requires |src| > 0
    ensures before + Copies(src) == before + [CopyOf(src[0])] + Copies(src[1..])
  {
    var tail := [CopyOf(src[0])] + Copies(src[1..]);
    forall k | 0 <= k < |src|
      ensures Copies(src)[k] == tail[k]
    {
      if k > 0 {
        assert tail[k] == Copies(src[1..])[k - 1];
        assert src[1..][k - 1] == src[k];
      }
    }
    assert Copies(src) == tail;
  }

  /** `src.find_entries(group=...)`: `None` searches the whole database. */
  function SourceEntries(src: Store, g: Option<GroupRef>): seq<Entry>
    requires g.Some? ==> ValidRef(src, g.value)
  {
    match g
      case None => AllEntries(src)
      case Some(h) => EntriesIn(src, h)
  }

  /** `copy_group(src, src_group, dest_group)`: appends a copy of every source
      entry to the destination group; a missing destination group fails as soon
      as there is an entry to add. */
  function CopyGroup(dest: Store, src: Store, srcGroup: Option<GroupRef>, destGroup: Option<GroupRef>)
    : (r: Result<Store>)
    requires srcGroup.Some? ==> ValidRef(src, srcGroup.value)
    requires destGroup.Some? ==> ValidRef(dest, destGroup.value)
    ensures r.Err? <==> destGroup.None? && |SourceEntries(src, srcGroup)| > 0
    ensures r.Err? ==> r.error.AttributeError?
    ensures r.Ok? && destGroup.None? ==> r.value == dest
    ensures r.Ok? && destGroup.Some? ==>
      var g := destGroup.value;
      && ValidRef(r.value, g)
      && GroupAt(r.value, g).entries == GroupAt(dest, g).entries + Copies(SourceEntries(src, srcGroup))
      && GroupAt(r.value, g).name == GroupAt(dest, g).name
      && r.value.binaries == dest.binaries
      && |r.value.groups| == |dest.groups|
      && (g.Sub? ==> r.value.root == dest.root)
      && (forall i :: 0 <= i < |dest.groups| && g != Sub(i) ==> r.value.groups[i] == dest.groups[i])
    ensures r.Ok? ==> |AllEntries(r.value)| == |AllEntries(dest)| + |SourceEntries(src, srcGroup)|
  {
    var entries := SourceEntries(src, srcGroup);
    if |entries| == 0 then Ok(dest)
    else match destGroup
      case None => Err(AttributeError("append"))
      case Some(g) => Ok(CopyLoop(dest, g, entries))
  }

  /** `copy_bootstrap_entries(src)`: `copy_group` between the two bootstrap
      groups. */
  function CopyBootstrapEntries(dest: Store, src: Store, s: Settings): (r: Result<Store>)
    ensures r.Ok? && FindGroup(dest, s.bootstrap).Some? ==>
      var g := FindGroup(dest, s.bootstrap).value;
      && ValidRef(r.value, g)
      && GroupAt(r.value, g).entries
           == GroupAt(dest, g).entries + Copies(SourceEntries(src, FindGroup(src, s.bootstrap)))
    ensures r.Ok? ==> |AllEntries(r.value)| == |AllEntries(dest)| + |SourceEntries(src, FindGroup(src, s.bootstrap))|
    ensures r.Err? <==> FindGroup(dest, s.bootstrap).None? && |SourceEntries(src, FindGroup(src, s.bootstrap))| > 0
  {
    CopyGroup(dest, src, FindGroup(src, s.bootstrap), FindGroup(dest, s.bootstrap))
  }

  /** Copying the bootstrap entries of a store that has the group appends one
      copy per entry of that group, stripped of custom properties and
      attachments. */
  lemma CopyBootstrapAppends(dest: Store, src: Store, s: Settings)
    requires FindGroup(dest, s.bootstrap).Some? && FindGroup(src, s.bootstrap).Some?
    ensures var r := CopyBootstrapEntries(dest, src, s);
      var g := FindGroup(dest, s.bootstrap).value;
      var h := FindGroup(src, s.bootstrap).value;
      && r.Ok?
      && ValidRef(r.value, g)
      && |GroupAt(r.value, g).entries| == |GroupAt(dest, g).entries| + |EntriesIn(src, h)|
      && forall i :: 0 <= i < |EntriesIn(src, h)| ==>
           var c := GroupAt(r.value, g).entries[|GroupAt(dest, g).entries| + i];
           && c.custom == map[] && c.attachments == []
           && c.title == EntriesIn(src, h)[i].title
           && c.password == EntriesIn(src, h)[i].password
  {
    var r := CopyBootstrapEntries(dest, src, s).value;
    var g := FindGroup(dest, s.bootstrap).value;
    var h := FindGroup(src, s.bootstrap).value;
    var before := GroupAt(dest, g).entries;
    var copies := Copies(EntriesIn(src, h));
    assert GroupAt(r, g).entries == before + copies;
    forall i | 0 <= i < |EntriesIn(src, h)|
      ensures GroupAt(r, g).entries[|before| + i] == CopyOf(EntriesIn(src, h)[i])
    {
      assert (before + copies)[|before| + i] == copies[i];
    }
  }

  // ---------------------------------------------------------------------------
  // view_kp_db
  // ---------------------------------------------------------------------------

  /** `view_kp_db(fp_kp_db, fp_token, fp_key)`: the token file is read as the
      password, then the database is opened with it and the key file, if one is
      given. What it prints about the opened store is not modelled. */
  function ViewKpDb(fs: FS, db: Path, token: Path, key: Option<Path>, v: Vault): (r: Result<Store>)
    ensures token !in fs.files ==> r.Err?
    ensures token in fs.files && db !in fs.files && db !in fs.dirs ==> r == Err(FileNotFoundError(db))
    ensures r.Ok? <==>
      && token in fs.files && db in fs.files && (key.Some? ==> key.value in fs.files)
      && v.unseal(fs.files[db], fs.files[token], KeyBytes(fs, key)).Some?
    ensures r.Ok? ==> Some(r.value) == v.unseal(fs.files[db], fs.files[token], KeyBytes(fs, key))
  {
    match ReadFile(fs, token)
      case Err(e) => Err(e)
      case Ok(password) => Load(fs, db, password, key, v)
  }

  /** The key file's bytes, if a key is given and exists. */
  function KeyBytes(fs: FS, key: Option<Path>): Option<Bytes> {
    if key.Some? && key.value in fs.files then Some(fs.files[key.value]) else None
  }

  lemma ViewSaved(fs: FS, db: Path, token: Path, key: Path, kp: Store, v: Vault)
    requires Lawful(v)
    requires db !in fs.dirs && Parent(db) in fs.dirs
    requires token in fs.files && key in fs.files && db != token && db != key
    ensures var saved := Save(fs, db, kp, fs.files[token], Some(fs.files[key]), v);
      saved.Ok? && ViewKpDb(saved.value, db, token, Some(key), v) == Ok(kp)
  {
    SaveLoad(fs, db, kp, fs.files[token], Some(key), v);
    var saved := Save(fs, db, kp, fs.files[token], Some(fs.files[key]), v).value;
    assert saved.files[token] == fs.files[token];
  }
}
