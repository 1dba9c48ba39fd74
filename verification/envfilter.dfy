/** `filter_env_vars` (`pylibs/homeops-utils/homeops_utils/env.py`).

    The environment is a snapshot map, `str.isprintable` is an oracle on single
    characters, and the list the values are tested against is the result of
    `homeops_utils.file.pathify`, which is not part of this model: it is an
    input, a list of Python values. Python's `==` between a `str` and a
    `pathlib.Path` (or a list) is always false, which is what decides the
    membership test. */
module EnvFilter {

  type Env = map<string, string>

  /** The Python values the membership test compares against. */
  datatype PyValue = PyStr(s: string) | PyPath(path: string) | PyList(items: seq<PyValue>)

  /** `v == x` for a `str` v. */
  predicate StrEquals(v: string, x: PyValue) {
    x.PyStr? && x.s == v
  }

  /** `v in xs` for a `str` v and a list xs. */
  predicate InList(v: string, xs: seq<PyValue>) {
    exists i :: 0 <= i < |xs| && StrEquals(v, xs[i])
  }

  /** `v.isprintable()`: every character printable; true for "". */
  predicate Printable(v: string, printable: char -> bool) {
    forall i :: 0 <= i < |v| ==> printable(v[i])
  }

  /** The list holds no string, only paths or nested lists. */
  predicate NoStrings(xs: seq<PyValue>) {
    forall i :: 0 <= i < |xs| ==> !xs[i].PyStr?
  }

  /** `filter_env_vars` as written. */
  function FilterEnvVars(env: Env, pathified: seq<PyValue>, printable: char -> bool): (r: Env)
    ensures r.Keys <= env.Keys
    ensures forall k :: k in r ==> r[k] == env[k] && Printable(r[k], printable)
    ensures NoStrings(pathified) ==>
      forall k :: k in env ==> (k in r <==> Printable(env[k], printable))
    ensures NoStrings(pathified) ==> forall k :: k in env && env[k] == "" ==> k in r
  {
    map k | k in env && !InList(env[k], pathified) && Printable(env[k], printable) :: env[k]
  }

  /** Reference: the variables whose values are printable, nothing else. */
  function PrintableOnly(env: Env, printable: char -> bool): (r: Env)
    ensures forall k :: k in r <==> k in env && Printable(env[k], printable)
    ensures forall k :: k in r ==> r[k] == env[k]
  {
    map k | k in env && Printable(env[k], printable) :: env[k]
  }

  /** A list of paths never removes anything: the as-written filter is the
      printable filter alone. */
  lemma PathsNeverFilter(env: Env, pathified: seq<PyValue>, printable: char -> bool)
    requires NoStrings(pathified)
    ensures FilterEnvVars(env, pathified, printable) == PrintableOnly(env, printable)
  {
    var a := FilterEnvVars(env, pathified, printable);
    var b := PrintableOnly(env, printable);
    assert a.Keys == b.Keys;
  }

  /** The filter the documentation describes: values equal to one of the
      given paths, compared as strings, are removed as well. */
  function FilterEnvVarsByPath(env: Env, paths: seq<string>, printable: char -> bool): (r: Env)
    ensures r.Keys <= env.Keys
    ensures forall k :: k in r ==> r[k] == env[k] && r[k] !in paths && Printable(r[k], printable)
    ensures forall k :: k in env && env[k] !in paths && Printable(env[k], printable) ==> k in r
  {
    map k | k in env && env[k] !in paths && Printable(env[k], printable) :: env[k]
  }

  /** The paths as strings, the list the membership test can match. */
  function AsStrings(paths: seq<string>): (r: seq<PyValue>)
    ensures |r| == |paths|
    ensures forall i :: 0 <= i < |r| ==> r[i] == PyStr(paths[i])
  {
    seq(|paths|, i requires 0 <= i < |paths| => PyStr(paths[i]))
  }

  /** The intended filter is the as-written comprehension applied to the paths
      converted back to strings. */
  lemma ByPathIsStringMembership(env: Env, paths: seq<string>, printable: char -> bool)
    ensures FilterEnvVarsByPath(env, paths, printable) == FilterEnvVars(env, AsStrings(paths), printable)
  {
    var xs := AsStrings(paths);
    forall v: string
      ensures InList(v, xs) <==> v in paths
    {
      if v in paths {
        var i :| 0 <= i < |paths| && paths[i] == v;
        assert StrEquals(v, xs[i]);
      }
    }
    var a := FilterEnvVarsByPath(env, paths, printable);
    var b := FilterEnvVars(env, xs, printable);
    assert a.Keys == b.Keys;
  }

  /** `HOME=/root` filtered against `Path("/root")`: kept as written, removed
      by the intended filter. */
  lemma HomeNotFiltered(printable: char -> bool)
    requires forall c :: printable(c)
    ensures "HOME" in FilterEnvVars(map["HOME" := "/root"], [PyPath("/root")], printable)
    ensures "HOME" !in FilterEnvVarsByPath(map["HOME" := "/root"], ["/root"], printable)
  {
    assert Printable("/root", printable);
    assert NoStrings([PyPath("/root")]);
  }
}
