/** The filesystem as an immutable value: regular files with their bytes, the set
    of existing directories and the permission bits set by `chmod`/`mkdir`.

    Paths are strings in `pathlib`'s normal form (no trailing separator, no empty
    or `.` segments); pathlib's normalisation itself is not modelled. Only a
    path's immediate parent is consulted: writing a file needs its parent to be
    a directory, and creating a directory fails where a regular file stands,
    but the ancestors above the parent are not tracked. */
module FileSystem {
  import opened Wrappers
  import opened Strings

  newtype byte = b: int | 0 <= b < 256
  type Bytes = seq<byte>
  type Path = string

  const DirMode: int := 0x1C0    // 0o700
  const FileMode: int := 0x180   // 0o600

  datatype FS = FS(files: map<Path, Bytes>, dirs: set<Path>, modes: map<Path, int>)

  /** The filesystem after an operation, and the exception it raised, if any:
      side effects made before a failure stay visible. */
  datatype Outcome = Outcome(fs: FS, error: Option<Error>) {
    predicate Succeeded() { error.None? }
  }

  predicate Exists(fs: FS, p: Path) {
    p in fs.files || p in fs.dirs
  }

  /** `not p.exists() or p.stat().st_size == 0` for a path that is not a directory. */
  predicate MissingOrEmpty(fs: FS, p: Path) {
    (p !in fs.files && p !in fs.dirs) || (p in fs.files && |fs.files[p]| == 0)
  }

  /** `p.is_file() and p.stat().st_size > 0` */
  predicate NonEmptyFile(fs: FS, p: Path) {
    p in fs.files && |fs.files[p]| > 0
  }

  /** pathlib's `PurePath.parent`. */
  function Parent(p: Path): Path {
    var i := LastIndexOf(p, "/");
    if i < 0 then "." else if i == 0 then "/" else p[..i]
  }

  /** pathlib's `PurePath.name`. */
  function Name(p: Path): string {
    var i := LastIndexOf(p, "/");
    if i < 0 then p else p[i + 1..]
  }

  /** `f"{d}/{n}"`, which is also `Path(d) / n` for a normalised `d` other than "/". */
  function Join(d: Path, n: string): Path {
    d + "/" + n
  }

  lemma JoinSplits(d: Path, n: string)
    requires |d| > 0 && !Contains(n, "/")
    ensures Parent(Join(d, n)) == d
    ensures Name(Join(d, n)) == n
  {
    var p := Join(d, n);
    assert OccursAt(p, "/", |d|);
    var i := LastIndexOf(p, "/");
    if i != |d| {
      assert i > |d|;
      assert p[i..i + 1] == n[i - |d| - 1..i - |d|];
      assert OccursAt(n, "/", i - |d| - 1);
    }
    assert p[..|d|] == d;
    assert p[|d| + 1..] == n;
  }

  /** A name extended by a suffix without a separator stays in the same
      directory. */
  lemma SuffixKeepsParent(p: Path, ext: string)
    requires forall i :: 0 <= i < |ext| ==> ext[i] != '/'
    ensures Parent(p + ext) == Parent(p)
  {
    var t := p + ext;
    forall k | |p| <= k
      ensures !OccursAt(t, "/", k)
    {
      if k < |t| {
        assert t[k] == ext[k - |p|];
      }
    }
    forall k | 0 <= k < |p|
      ensures OccursAt(t, "/", k) <==> OccursAt(p, "/", k)
    {
      assert t[k..k + 1] == p[k..k + 1];
    }
    var i := LastIndexOf(p, "/");
    var j := LastIndexOf(t, "/");
    if i >= 0 {
      assert OccursAt(t, "/", i);
    }
    if j >= 0 {
      assert OccursAt(p, "/", j);
    }
    assert i == j;
    if i > 0 {
      assert t[..i] == p[..i];
    }
  }

  /** Writes a whole file, creating or truncating it (`open(p, "w")`,
      `write_text`, `write_bytes`): a directory cannot be opened for writing,
      and the file's parent must be a directory. */
  function WriteFile(fs: FS, p: Path, data: Bytes): (r: Result<FS>)
    ensures r.Ok? <==> p !in fs.dirs && Parent(p) in fs.dirs
    ensures p in fs.dirs ==> r == Err(IsADirectoryError(p))
    ensures p !in fs.dirs && Parent(p) !in fs.dirs ==>
      r == Err(if Parent(p) in fs.files then NotADirectoryError(p) else FileNotFoundError(p))
    ensures r.Ok? ==> r.value.files == fs.files[p := data] && r.value.dirs == fs.dirs && r.value.modes == fs.modes
  {
    if p in fs.dirs then Err(IsADirectoryError(p))
    else if Parent(p) !in fs.dirs then
      Err(if Parent(p) in fs.files then NotADirectoryError(p) else FileNotFoundError(p))
    else Ok(fs.(files := fs.files[p := data]))
  }

  /** `open(p, "x")`: creates a file that must not exist yet. */
  function CreateFile(fs: FS, p: Path, data: Bytes): (r: Result<FS>)
    ensures r.Ok? <==> !Exists(fs, p) && Parent(p) in fs.dirs
    ensures Exists(fs, p) ==> r == Err(FileExistsError(p))
    ensures r.Ok? ==> r.value == fs.(files := fs.files[p := data])
  {
    if Exists(fs, p) then Err(FileExistsError(p)) else WriteFile(fs, p, data)
  }

  /** Reads a whole file (`read_bytes`, `read_text`, `open(p, "rb")`). */
  function ReadFile(fs: FS, p: Path): (r: Result<Bytes>)
    ensures r.Ok? <==> p in fs.files
    ensures r.Ok? ==> r.value == fs.files[p]
  {
    if p in fs.files then Ok(fs.files[p])
    else if p in fs.dirs then Err(IsADirectoryError(p))
    else Err(FileNotFoundError(p))
  }

  /** `os.remove` / `Path.unlink` of a regular file; other paths are untouched. */
  function RemoveFile(fs: FS, p: Path): (r: FS)
    ensures r.files.Keys == fs.files.Keys - {p}
    ensures forall q :: q in r.files ==> r.files[q] == fs.files[q]
    ensures r.dirs == fs.dirs
  {
    fs.(files := fs.files - {p})
  }

  /** A regular file stands where a directory is wanted. */
  predicate Blocked(fs: FS, d: Path) {
    d in fs.files && d !in fs.dirs
  }

  /** Records `d` as a directory with the given mode, unless it already is
      one (`mkdir` of a path known to be free, such as a fresh `mkdtemp` name). */
  function AddDir(fs: FS, d: Path, mode: int): (r: FS)
    ensures r.files == fs.files
    ensures r.dirs == fs.dirs + {d}
    ensures d !in fs.dirs ==> r.modes == fs.modes[d := mode]
    ensures d in fs.dirs ==> r == fs
  {
    if d in fs.dirs then fs else fs.(dirs := fs.dirs + {d}, modes := fs.modes[d := mode])
  }

  /** `Path.mkdir(mode, parents=True, exist_ok=True)`: the mode applies only to a
      directory that is created, and a regular file at `d` raises
      FileExistsError (`exist_ok` forgives only an existing directory). */
  function MakeDirs(fs: FS, d: Path, mode: int): (r: Result<FS>)
    ensures r.Err? <==> Blocked(fs, d)
    ensures r.Err? ==> r.error == FileExistsError(d)
    ensures r.Ok? ==> r.value.files == fs.files && r.value.dirs == fs.dirs + {d}
    ensures r.Ok? && d !in fs.dirs ==> r.value.modes == fs.modes[d := mode]
    ensures d in fs.dirs ==> r == Ok(fs)
  {
    if Blocked(fs, d) then Err(FileExistsError(d)) else Ok(AddDir(fs, d, mode))
  }

  /** `os.chmod` / `Path.chmod` on a path that exists; raises otherwise. */
  function Chmod(fs: FS, p: Path, mode: int): (r: Result<FS>)
    ensures r.Ok? <==> Exists(fs, p)
    ensures r.Ok? ==> r.value == fs.(modes := fs.modes[p := mode])
  {
    if Exists(fs, p) then Ok(fs.(modes := fs.modes[p := mode])) else Err(FileNotFoundError(p))
  }
}
