/** Playbook and host-vars lookup (`pylibs/resources/resources/ansible.py`).

    `os.walk` is an input: the directories it yields, in order, each with its
    root and file names, and the exception (if any) it raises after them. With
    its default `onerror=None` the walk raises nothing, but the lookups are
    written to cope with a `FileNotFoundError`, so the failure is kept. */
module AnsibleResources {
  import opened Wrappers
  import opened Strings
  import opened FileSystem

  datatype Dir = Dir(root: string, files: seq<string>)
  datatype Walk = Walk(dirs: seq<Dir>, failure: Option<Error>)

  /** `os.path.join(a, b)` for two components. */
  function PathJoin(a: string, b: string): (r: string)
    ensures EndsWith(r, b)
    ensures StartsWith(b, "/") ==> r == b
    ensures !StartsWith(b, "/") ==> StartsWith(r, a)
  {
    if StartsWith(b, "/") then b
    else if |a| == 0 || EndsWith(a, "/") then a + b
    else a + "/" + b
  }

  /** `file.endswith((".yaml", ".yml"))` */
  predicate IsYaml(file: string) {
    EndsWith(file, ".yaml") || EndsWith(file, ".yml")
  }

  /** The YAML file names of one directory, in order. */
  function YamlNames(files: seq<string>): (r: seq<string>)
    ensures forall f :: f in r <==> f in files && IsYaml(f)
  {
    if |files| == 0 then []
    else
      var rest := YamlNames(files[1..]);
      if IsYaml(files[0]) then [files[0]] + rest else rest
  }

  function YamlIn(d: Dir): seq<string> {
    var names := YamlNames(d.files);
    seq(|names|, i requires 0 <= i < |names| => PathJoin(d.root, names[i]))
  }

  /** `find_yaml_files`: the YAML files of every walked directory, joined to
      the directory's root, directory by directory. */
  function FindYamlFiles(dirs: seq<Dir>): seq<string>
    decreases |dirs|
  {
    if |dirs| == 0 then [] else YamlIn(dirs[0]) + FindYamlFiles(dirs[1..])
  }

  /** The found paths are exactly the walked YAML files joined to their roots. */
  lemma {:induction false} FindYamlFilesExact(dirs: seq<Dir>)
    ensures forall p :: p in FindYamlFiles(dirs) ==>
      exists d, f :: d in dirs && f in d.files && IsYaml(f) && p == PathJoin(d.root, f)
    ensures forall d, f :: d in dirs && f in d.files && IsYaml(f) ==> PathJoin(d.root, f) in FindYamlFiles(dirs)
    decreases |dirs|
  {
    if |dirs| > 0 {
      FindYamlFilesExact(dirs[1..]);
      var d0 := dirs[0];
      var names := YamlNames(d0.files);
      var here := YamlIn(d0);
      forall p | p in here
        ensures exists d, f :: d in dirs && f in d.files && IsYaml(f) && p == PathJoin(d.root, f)
      {
        var i :| 0 <= i < |here| && here[i] == p;
        assert names[i] in names;
      }
      forall d, f | d in dirs && f in d.files && IsYaml(f)
        ensures PathJoin(d.root, f) in FindYamlFiles(dirs)
      {
        if d == d0 {
          var i :| 0 <= i < |names| && names[i] == f;
          assert here[i] == PathJoin(d.root, f);
        } else {
          assert d in dirs[1..];
        }
      }
      forall p | p in FindYamlFiles(dirs[1..])
        ensures exists d, f :: d in dirs && f in d.files && IsYaml(f) && p == PathJoin(d.root, f)
      {
        var d, f :| d in dirs[1..] && f in d.files && IsYaml(f) && p == PathJoin(d.root, f);
        assert d in dirs;
      }
    }
  }

  /** Walk order: the files found in a longer walk extend those of its start. */
  lemma {:induction false} FindYamlFilesAppend(a: seq<Dir>, b: seq<Dir>)
    ensures FindYamlFiles(a + b) == FindYamlFiles(a) + FindYamlFiles(b)
    decreases |a|
  {
    if |a| > 0 {
      assert (a + b)[1..] == a[1..] + b;
      FindYamlFilesAppend(a[1..], b);
    } else {
      assert a + b == b;
    }
  }

  /** Index of the first path starting with `prefix`, or -1. */
  function FirstStartingWith(paths: seq<string>, prefix: string): (r: int)
    ensures -1 <= r < |paths|
    ensures r >= 0 ==> StartsWith(paths[r], prefix)
    ensures forall j :: 0 <= j < |paths| && (r < 0 || j < r) ==> !StartsWith(paths[j], prefix)
  {
    if |paths| == 0 then -1
    else if StartsWith(paths[0], prefix) then 0
    else
      var i := FirstStartingWith(paths[1..], prefix);
      if i < 0 then -1 else i + 1
  }

  /** `find_playbook(app_name)` as written: the first playbook whose whole
      path starts with `app_name`; `None` when nothing matches or the walk
      raises FileNotFoundError; any other failure escapes. */
  function FindPlaybook(walk: Walk, app: string): (r: Result<Option<string>>)
    ensures r.Ok? && r.value.Some? ==>
      exists i :: 0 <= i < |FindYamlFiles(walk.dirs)| && FindYamlFiles(walk.dirs)[i] == r.value.value
        && StartsWith(r.value.value, app)
        && forall j :: 0 <= j < i ==> !StartsWith(FindYamlFiles(walk.dirs)[j], app)
    ensures r.Ok? && r.value.None? ==> forall p :: p in FindYamlFiles(walk.dirs) ==> !StartsWith(p, app)
    ensures (forall p :: p in FindYamlFiles(walk.dirs) ==> !StartsWith(p, app)) && walk.failure.None? ==> r == Ok(None)
    ensures r.Err? ==> walk.failure.Some? && r.error == walk.failure.value && !r.error.FileNotFoundError?
  {
    var files := FindYamlFiles(walk.dirs);
    var i := FirstStartingWith(files, app);
    if i >= 0 then Ok(Some(files[i]))
    else match walk.failure
      case None => Ok(None)
      case Some(e) => if e.FileNotFoundError? then Ok(None) else Err(e)
  }

  /** `find_host(app_name)`: the first host file whose whole path starts with
      `app_name`, otherwise FileNotFoundError (or the walk's own failure). */
  function FindHost(walk: Walk, app: string): (r: Result<string>)
    ensures r.Ok? ==>
      exists i :: 0 <= i < |FindYamlFiles(walk.dirs)| && FindYamlFiles(walk.dirs)[i] == r.value
        && StartsWith(r.value, app)
        && forall j :: 0 <= j < i ==> !StartsWith(FindYamlFiles(walk.dirs)[j], app)
    ensures r.Err? <==> forall p :: p in FindYamlFiles(walk.dirs) ==> !StartsWith(p, app)
    ensures r.Err? && walk.failure.None? ==> r.error.FileNotFoundError?
  {
    var files := FindYamlFiles(walk.dirs);
    var i := FirstStartingWith(files, app);
    if i >= 0 then Ok(files[i])
    else match walk.failure
      case None => Err(FileNotFoundError(""))
      case Some(e) => Err(e)
  }

  // ---------------------------------------------------------------------------
  // The full-path match cannot see a relative application name
  // ---------------------------------------------------------------------------

  /** A join onto an absolute root is absolute. */
  lemma JoinAbsolute(a: string, b: string)
    requires StartsWith(a, "/")
    ensures |PathJoin(a, b)| > 0 && PathJoin(a, b)[0] == '/'
  {
    var r := PathJoin(a, b);
    if StartsWith(b, "/") {
      assert r == b;
    } else {
      assert r[..|a|] == a;
    }
  }

  /** When every walked root is absolute and the application name is not, the
      as-written lookup never finds a playbook. */
  lemma AbsoluteRootsNeverMatch(walk: Walk, app: string)
    requires forall d :: d in walk.dirs ==> StartsWith(d.root, "/")
    requires |app| > 0 && app[0] != '/'
    requires walk.failure.None?
    ensures FindPlaybook(walk, app) == Ok(None)
  {
    var files := FindYamlFiles(walk.dirs);
    FindYamlFilesExact(walk.dirs);
    forall p | p in files
      ensures !StartsWith(p, app)
    {
      var d, f :| d in walk.dirs && f in d.files && IsYaml(f) && p == PathJoin(d.root, f);
      JoinAbsolute(d.root, f);
      assert p[0] != app[0];
    }
    assert FirstStartingWith(files, app) < 0;
  }

  /** Index of the first path whose file name starts with `prefix`, or -1. */
  function FirstNamed(paths: seq<string>, prefix: string): (r: int)
    ensures -1 <= r < |paths|
    ensures r >= 0 ==> StartsWith(Name(paths[r]), prefix)
    ensures forall j :: 0 <= j < |paths| && (r < 0 || j < r) ==> !StartsWith(Name(paths[j]), prefix)
  {
    if |paths| == 0 then -1
    else if StartsWith(Name(paths[0]), prefix) then 0
    else
      var i := FirstNamed(paths[1..], prefix);
      if i < 0 then -1 else i + 1
  }

  /** The lookup the documentation describes: the first playbook whose file
      name starts with `app_name`. */
  function FindPlaybookByName(walk: Walk, app: string): (r: Result<Option<string>>)
    ensures r.Ok? && r.value.Some? ==>
      exists i :: 0 <= i < |FindYamlFiles(walk.dirs)| && FindYamlFiles(walk.dirs)[i] == r.value.value
        && StartsWith(Name(r.value.value), app)
        && forall j :: 0 <= j < i ==> !StartsWith(Name(FindYamlFiles(walk.dirs)[j]), app)
    ensures r.Ok? && r.value.None? ==> forall p :: p in FindYamlFiles(walk.dirs) ==> !StartsWith(Name(p), app)
    ensures r.Err? ==> walk.failure.Some? && r.error == walk.failure.value && !r.error.FileNotFoundError?
  {
    var files := FindYamlFiles(walk.dirs);
    var i := FirstNamed(files, app);
    if i >= 0 then Ok(Some(files[i]))
    else match walk.failure
      case None => Ok(None)
      case Some(e) => if e.FileNotFoundError? then Ok(None) else Err(e)
  }

  /** The walk of a playbook root holding one playbook finds exactly it. */
  lemma OnePlaybookFound()
    ensures FindYamlFiles([Dir("/pb", ["jellyfin.yml"])]) == ["/pb/jellyfin.yml"]
  {
    var f := "jellyfin.yml";
    assert IsYaml(f) by {
      assert f[|f| - 4..] == ".yml";
    }
    var files: seq<string> := [f];
    assert YamlNames(files) == files by {
      assert |files[1..]| == 0;
    }
    assert !StartsWith(f, "/") by {
      assert f[0] == 'j';
    }
    assert !EndsWith("/pb", "/") by {
      assert "/pb"[2..] == "b";
    }
    assert PathJoin("/pb", f) == "/pb/jellyfin.yml";
    var dirs: seq<Dir> := [Dir("/pb", files)];
    assert |dirs[1..]| == 0;
  }

  /** A playbook named after the application, in an absolute playbook root,
      is missed by the as-written lookup. */
  lemma PlaybookByNameMissed()
    ensures FindPlaybook(Walk([Dir("/pb", ["jellyfin.yml"])], None), "jellyfin") == Ok(None)
  {
    var walk := Walk([Dir("/pb", ["jellyfin.yml"])], None);
    assert StartsWith(walk.dirs[0].root, "/");
    AbsoluteRootsNeverMatch(walk, "jellyfin");
  }

  /** The same playbook is found when the file name is matched. */
  lemma PlaybookByNameFound()
    ensures FindPlaybookByName(Walk([Dir("/pb", ["jellyfin.yml"])], None), "jellyfin") == Ok(Some("/pb/jellyfin.yml"))
  {
    OnePlaybookFound();
    PlaybookNamed();
    assert FirstNamed(["/pb/jellyfin.yml"], "jellyfin") == 0;
  }

  /** The file name of the one playbook starts with the application's name. */
  lemma PlaybookNamed()
    ensures StartsWith(Name("/pb/jellyfin.yml"), "jellyfin")
  {
    var f := "jellyfin.yml";
    var p := "/pb/jellyfin.yml";
    MissingLastNotContained(f, "/");
    JoinSplits("/pb", f);
    assert Join("/pb", f) == p;
    assert f[..8] == "jellyfin";
  }
}
