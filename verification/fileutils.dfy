/** `ensure_path`, `get_file_bytes` and `delete_files` of
    `pylibs/utils/utils/file.py` and `pylibs/resources/resources/core.py`. */
module FileUtils {
  import opened Wrappers
  import opened Strings
  import opened FileSystem

  /** `[path for path in files if not path.exists()]`, taken before anything
      is created. */
  function Missing(fs: FS, files: seq<Path>): (r: seq<Path>)
    ensures forall p :: p in r <==> p in files && !Exists(fs, p)
    ensures |r| <= |files|
    ensures |files| == 1 ==> r == if Exists(fs, files[0]) then [] else files
  {
    if |files| == 0 then []
    else
      var rest := Missing(fs, files[1..]);
      if Exists(fs, files[0]) then rest else [files[0]] + rest
  }

  /** The comprehension keeps the order of its input: filtering a
      concatenation is concatenating the filtered halves. */
  lemma {:induction false} MissingConcat(fs: FS, a: seq<Path>, b: seq<Path>)
    ensures Missing(fs, a + b) == Missing(fs, a) + Missing(fs, b)
    decreases |a|
  {
    if |a| > 0 {
      assert (a + b)[1..] == a[1..] + b;
      MissingConcat(fs, a[1..], b);
    } else {
      assert a + b == b;
    }
  }

  /** `path.parent.mkdir(parents=True, exist_ok=True, mode=dirMode)` for each
      path in turn; the first parent that is a regular file raises
      FileExistsError and stops the loop. */
  function MakeParents(fs: FS, paths: seq<Path>, dirMode: int): (r: Outcome)
    ensures r.fs.files == fs.files
    ensures fs.dirs <= r.fs.dirs <= fs.dirs + set p | p in paths :: Parent(p)
    ensures r.Succeeded() <==> forall p :: p in paths ==> !Blocked(fs, Parent(p))
    ensures r.Succeeded() ==> r.fs.dirs == fs.dirs + set p | p in paths :: Parent(p)
    ensures !r.Succeeded() ==> exists p :: p in paths && Blocked(fs, Parent(p)) && r.error == Some(FileExistsError(Parent(p)))
    ensures (forall p :: p in paths ==> Parent(p) in fs.dirs) ==> r == Outcome(fs, None)
    decreases |paths|
  {
    if |paths| == 0 then Outcome(fs, None)
    else match MakeDirs(fs, Parent(paths[0]), dirMode)
      case Err(e) => Outcome(fs, Some(e))
      case Ok(fs1) =>
        assert forall d :: Blocked(fs1, d) <==> Blocked(fs, d);
        assert forall p :: p in paths ==> p == paths[0] || p in paths[1..];
        MakeParents(fs1, paths[1..], dirMode)
  }

  /** `ensure_path` of `core.py`: the parents of the missing paths are created,
      the paths themselves are not, and the answer is whether nothing was
      missing. A parent that is a regular file raises FileExistsError. */
  function EnsurePath(fs: FS, files: seq<Path>, dirMode: int): (r: (FS, Result<bool>))
    ensures r.1.Ok? <==> forall p :: p in files && !Exists(fs, p) ==> !Blocked(fs, Parent(p))
    ensures r.1.Ok? ==> (r.1.value <==> forall p :: p in files ==> Exists(fs, p))
    ensures r.1.Err? ==> r.1.error.FileExistsError?
    ensures r.0.files == fs.files
    ensures fs.dirs <= r.0.dirs
    ensures r.1.Ok? ==> r.0.dirs == fs.dirs + set p | p in files && !Exists(fs, p) :: Parent(p)
  {
    var missing := Missing(fs, files);
    assert (set p | p in missing :: Parent(p)) == set p | p in files && !Exists(fs, p) :: Parent(p);
    var o := MakeParents(fs, missing, dirMode);
    match o.error
      case Some(e) => (o.fs, Err(e))
      case None => (o.fs, Ok(|missing| == 0))
  }

  /** The loop of `ensure_path` in `utils/file.py`: create the parent, then
      `chmod` the path itself, which raises when the path is still missing. */
  function EnsureLoop(fs: FS, paths: seq<Path>, dirMode: int, fileMode: int): (r: Outcome)
    ensures r.fs.files == fs.files
    ensures fs.dirs <= r.fs.dirs
    ensures |paths| == 0 ==> r == Outcome(fs, None)
    ensures |paths| > 0 && Blocked(fs, Parent(paths[0])) ==>
      r == Outcome(fs, Some(FileExistsError(Parent(paths[0]))))
    ensures |paths| > 0 && !Blocked(fs, Parent(paths[0])) && !Exists(fs, paths[0]) && paths[0] != Parent(paths[0]) ==>
      r == Outcome(MakeDirs(fs, Parent(paths[0]), dirMode).value, Some(FileNotFoundError(paths[0])))
    decreases |paths|
  {
    if |paths| == 0 then Outcome(fs, None)
    else match MakeDirs(fs, Parent(paths[0]), dirMode)
      case Err(e) => Outcome(fs, Some(e))
      case Ok(fs1) =>
        match Chmod(fs1, paths[0], fileMode)
          case Err(e) => Outcome(fs1, Some(e))
          case Ok(fs2) => EnsureLoop(fs2, paths[1..], dirMode, fileMode)
  }

  /** `ensure_path(*files, dir_mode, file_mode)` of `utils/file.py` as written. */
  function UtilsEnsurePath(fs: FS, files: seq<Path>, dirMode: int, fileMode: int): (r: (FS, Result<bool>))
    ensures (forall p :: p in files ==> Exists(fs, p)) ==> r == (fs, Ok(true))
    ensures r.1.Ok? && !r.1.value ==> exists p :: p in files && !Exists(fs, p)
    ensures r.1.Err? ==> r.1.error.FileExistsError? || r.1.error.FileNotFoundError?
    ensures r.0.files == fs.files
  {
    var missing := Missing(fs, files);
    var o := EnsureLoop(fs, missing, dirMode, fileMode);
    assert |missing| > 0 ==> missing[0] in missing;
    match o.error
      case Some(e) =>
        assert e.FileExistsError? || e.FileNotFoundError? by { EnsureLoopErrors(fs, missing, dirMode, fileMode); }
        (o.fs, Err(e))
      case None => (o.fs, Ok(|missing| == 0))
  }

  /** The loop raises only what `mkdir` and `chmod` raise. */
  lemma {:induction false} EnsureLoopErrors(fs: FS, paths: seq<Path>, dirMode: int, fileMode: int)
    ensures var r := EnsureLoop(fs, paths, dirMode, fileMode);
      r.error.Some? ==> r.error.value.FileExistsError? || r.error.value.FileNotFoundError?
    decreases |paths|
  {
    if |paths| > 0 && !Blocked(fs, Parent(paths[0])) {
      var fs1 := MakeDirs(fs, Parent(paths[0]), dirMode).value;
      if Exists(fs1, paths[0]) {
        EnsureLoopErrors(Chmod(fs1, paths[0], fileMode).value, paths[1..], dirMode, fileMode);
      }
    }
  }

  /** As written, the first missing path makes `ensure_path` raise instead of
      returning False: FileExistsError when its parent is a regular file,
      otherwise (unless it is its own parent) FileNotFoundError after its
      parent has been created. */
  lemma UtilsEnsurePathRaises(fs: FS, files: seq<Path>, dirMode: int, fileMode: int)
    requires exists p :: p in files && !Exists(fs, p)
    requires forall p :: p in files ==> Parent(p) != p
    ensures var missing := Missing(fs, files);
      && |missing| > 0
      && UtilsEnsurePath(fs, files, dirMode, fileMode)
           == if Blocked(fs, Parent(missing[0])) then (fs, Err(FileExistsError(Parent(missing[0]))))
              else (MakeDirs(fs, Parent(missing[0]), dirMode).value, Err(FileNotFoundError(missing[0])))
  {
    var missing := Missing(fs, files);
    var p :| p in files && !Exists(fs, p);
    assert p in missing;
    assert missing[0] in files;
  }

  /** `get_file_bytes`: the contents of a regular file, otherwise `None`. */
  function GetFileBytes(fs: FS, p: Path): (r: Option<Bytes>)
    ensures r.Some? <==> p in fs.files
    ensures r.Some? ==> r.value == fs.files[p]
  {
    if p in fs.files then Some(fs.files[p]) else None
  }

  /** Reading back a file that was just written gives its bytes. */
  lemma GetFileBytesAfterWrite(fs: FS, p: Path, data: Bytes)
    requires p !in fs.dirs && Parent(p) in fs.dirs
    ensures WriteFile(fs, p, data).Ok?
    ensures GetFileBytes(WriteFile(fs, p, data).value, p) == Some(data)
  {
  }

  /** `delete_files` of `utils/file.py`: unlink each path that is a regular file. */
  function DeleteFiles(fs: FS, files: seq<Path>): (r: FS)
    ensures r.files.Keys == fs.files.Keys - set p | p in files
    ensures forall q :: q in r.files ==> r.files[q] == fs.files[q]
    ensures r.dirs == fs.dirs && r.modes == fs.modes
    decreases |files|
  {
    if |files| == 0 then fs
    else
      var fs1 := if files[0] in fs.files then RemoveFile(fs, files[0]) else fs;
      DeleteFiles(fs1, files[1..])
  }

  /** Deleting the same paths twice is deleting them once. */
  lemma DeleteFilesIdempotent(fs: FS, files: seq<Path>)
    ensures DeleteFiles(DeleteFiles(fs, files), files) == DeleteFiles(fs, files)
  {
    var once := DeleteFiles(fs, files);
    var twice := DeleteFiles(once, files);
    assert twice.files == once.files;
  }

  /** A deleted file reads back as `None`. */
  lemma GetFileBytesAfterDelete(fs: FS, files: seq<Path>, p: Path)
    requires p in files
    ensures GetFileBytes(DeleteFiles(fs, files), p) == None
  {
  }

  /** `delete_files` of `core.py`: `unlink(missing_ok=True)` on each path; a
      directory raises IsADirectoryError and stops the loop. */
  function CoreDeleteFiles(fs: FS, files: seq<Path>): (r: Outcome)
    ensures r.Succeeded() <==> forall p :: p in files ==> p !in fs.dirs
    ensures r.Succeeded() ==> r.fs == DeleteFiles(fs, files)
    ensures r.fs.dirs == fs.dirs
    ensures forall q :: q in r.fs.files ==> q in fs.files && r.fs.files[q] == fs.files[q]
    decreases |files|
  {
    if |files| == 0 then Outcome(fs, None)
    else if files[0] in fs.dirs then Outcome(fs, Some(IsADirectoryError(files[0])))
    else
      var fs1 := if files[0] in fs.files then RemoveFile(fs, files[0]) else fs;
      CoreDeleteFiles(fs1, files[1..])
  }
}
