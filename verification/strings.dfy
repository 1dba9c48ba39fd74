/** Sequence searching and splitting with the semantics of the host languages'
    string methods: Python's `startswith`/`endswith`/`split` and Java's
    `contains`/`indexOf`/`lastIndexOf`/`split`. */
module Strings {

  predicate StartsWith<T(==)>(s: seq<T>, p: seq<T>) {
    |p| <= |s| && s[..|p|] == p
  }

  predicate EndsWith<T(==)>(s: seq<T>, p: seq<T>) {
    |p| <= |s| && s[|s| - |p|..] == p
  }

  /** `p` occurs in `s` starting at index `i`. */
  predicate OccursAt<T(==)>(s: seq<T>, p: seq<T>, i: int) {
    0 <= i && i + |p| <= |s| && s[i..i + |p|] == p
  }

  predicate Contains<T(==)>(s: seq<T>, p: seq<T>) {
    exists i :: 0 <= i <= |s| - |p| && OccursAt(s, p, i)
  }

  /** First occurrence of `p` at or after `k`, or -1. */
  function IndexFrom<T(==)>(s: seq<T>, p: seq<T>, k: nat): (r: int)
    ensures r == -1 || (k <= r && OccursAt(s, p, r))
    ensures r >= 0 ==> forall j :: k <= j < r ==> !OccursAt(s, p, j)
    ensures r == -1 ==> forall j :: k <= j ==> !OccursAt(s, p, j)
    decreases |s| - k
  {
    if k + |p| > |s| then -1
    else if s[k..k + |p|] == p then k
    else IndexFrom(s, p, k + 1)
  }

  /** Java's `String.indexOf(String)`: the first occurrence, or -1. */
  function IndexOf<T(==)>(s: seq<T>, p: seq<T>): (r: int)
    ensures r == -1 <==> !Contains(s, p)
    ensures r >= 0 ==> OccursAt(s, p, r) && forall j :: 0 <= j < r ==> !OccursAt(s, p, j)
  {
    IndexFrom(s, p, 0)
  }

  /** Last occurrence of `p` starting at or before `k`, or -1. */
  function LastFrom<T(==)>(s: seq<T>, p: seq<T>, k: int): (r: int)
    ensures r == -1 || (0 <= r <= k && OccursAt(s, p, r))
    ensures r >= 0 ==> forall j :: r < j <= k ==> !OccursAt(s, p, j)
    ensures r == -1 ==> forall j :: j <= k ==> !OccursAt(s, p, j)
    decreases k + 1
  {
    if k < 0 then -1
    else if OccursAt(s, p, k) then k
    else LastFrom(s, p, k - 1)
  }

  /** Java's `String.lastIndexOf(String)`: the last occurrence, or -1. */
  function LastIndexOf<T(==)>(s: seq<T>, p: seq<T>): (r: int)
    ensures r == -1 <==> !Contains(s, p)
    ensures r >= 0 ==> OccursAt(s, p, r) && forall j :: r < j ==> !OccursAt(s, p, j)
  {
    LastFrom(s, p, |s| - |p|)
  }

  /** A sequence that contains `p + q` contains `p`. */
  lemma ContainsPrefixOf<T>(s: seq<T>, p: seq<T>, q: seq<T>)
    requires Contains(s, p + q)
    ensures Contains(s, p)
  {
    var i :| 0 <= i <= |s| - |p + q| && OccursAt(s, p + q, i);
    assert s[i..i + |p|] == (p + q)[..|p|];
    assert OccursAt(s, p, i);
  }

  /** Re-inserts the delimiter between consecutive parts. */
  function JoinWith<T>(parts: seq<seq<T>>, d: seq<T>): seq<T>
    requires |parts| >= 1
  {
    if |parts| == 1 then parts[0] else parts[0] + d + JoinWith(parts[1..], d)
  }

  lemma PrefixBeforeFirstIsFree<T>(s: seq<T>, d: seq<T>, i: int)
    requires |d| > 0 && 0 <= i <= |s|
    requires forall j :: 0 <= j < i ==> !OccursAt(s, d, j)
    ensures !Contains(s[..i], d)
  {
    if Contains(s[..i], d) {
      var j :| 0 <= j <= i - |d| && OccursAt(s[..i], d, j);
      assert s[..i][j..j + |d|] == s[j..j + |d|];
      assert OccursAt(s, d, j);
    }
  }

  /** Every segment between occurrences of a non-empty delimiter, keeping
      empty segments (Python's `str.split(sep)`). */
  function SplitOn<T(==)>(s: seq<T>, d: seq<T>): (r: seq<seq<T>>)
    requires |d| > 0
    ensures |r| >= 1
    ensures JoinWith(r, d) == s
    ensures forall k :: 0 <= k < |r| ==> !Contains(r[k], d)
    decreases |s|
  {
    var i := IndexOf(s, d);
    if i < 0 then [s]
    else
      PrefixBeforeFirstIsFree(s, d, i);
      var rest := SplitOn(s[i + |d|..], d);
      assert s == s[..i] + d + s[i + |d|..];
      [s[..i]] + rest
  }

  /** A sequence that lacks the last element of `d` cannot contain `d`. */
  lemma MissingLastNotContained<T>(s: seq<T>, d: seq<T>)
    requires |d| > 0 && d[|d| - 1] !in s
    ensures !Contains(s, d)
  {
    forall j | 0 <= j <= |s| - |d|
      ensures !OccursAt(s, d, j)
    {
      assert s[j + |d| - 1] in s;
      assert s[j..j + |d|][|d| - 1] == s[j + |d| - 1];
    }
  }

  /** The first occurrence of `d` in `p + d + rest` is the inserted one when `p`
      does not contain `d` and is empty or ends with an element absent from `d`. */
  lemma FirstOccurrenceAfter<T>(p: seq<T>, d: seq<T>, rest: seq<T>)
    requires |d| > 0 && !Contains(p, d)
    requires |p| == 0 || p[|p| - 1] !in d
    ensures IndexOf(p + d + rest, d) == |p|
  {
    var s := p + d + rest;
    assert s[|p|..|p| + |d|] == d;
    assert OccursAt(s, d, |p|);
    forall j | 0 <= j < |p|
      ensures !OccursAt(s, d, j)
    {
      if j + |d| <= |p| {
        assert s[j..j + |d|] == p[j..j + |d|];
        assert !OccursAt(p, d, j);
      } else {
        assert s[|p| - 1] == p[|p| - 1];
      }
    }
  }

  /** Splitting joined parts gives them back when no part contains the
      delimiter and no occurrence can straddle the end of a part: each part but
      the last is empty or ends with an element absent from the delimiter. */
  lemma {:induction false} SplitJoinWith<T>(parts: seq<seq<T>>, d: seq<T>)
    requires |parts| >= 1 && |d| > 0
    requires forall k :: 0 <= k < |parts| ==> !Contains(parts[k], d)
    requires forall k :: 0 <= k < |parts| - 1 ==> |parts[k]| == 0 || parts[k][|parts[k]| - 1] !in d
    ensures SplitOn(JoinWith(parts, d), d) == parts
    decreases |parts|
  {
    if |parts| > 1 {
      var p := parts[0];
      var rest := JoinWith(parts[1..], d);
      var s := p + d + rest;
      assert JoinWith(parts, d) == s;
      FirstOccurrenceAfter(p, d, rest);
      assert s[..|p|] == p;
      assert s[|p| + |d|..] == rest;
      SplitJoinWith(parts[1..], d);
      assert [p] + parts[1..] == parts;
    }
  }

  function DropTrailingEmpty<T>(xs: seq<seq<T>>): (r: seq<seq<T>>)
    ensures |r| <= |xs| && r == xs[..|r|]
    ensures |r| > 0 ==> r[|r| - 1] != []
    ensures forall k :: |r| <= k < |xs| ==> xs[k] == []
  {
    if |xs| == 0 then []
    else if xs[|xs| - 1] == [] then DropTrailingEmpty(xs[..|xs| - 1])
    else xs
  }

  /** Java's `String.split(String)` for a delimiter without regular-expression
      metacharacters: no match gives the whole input; otherwise trailing empty
      strings are removed. */
  function JavaSplit<T(==)>(s: seq<T>, d: seq<T>): (r: seq<seq<T>>)
    requires |d| > 0
    ensures !Contains(s, d) ==> r == [s]
    ensures Contains(s, d) ==> r == DropTrailingEmpty(SplitOn(s, d))
  {
    if IndexOf(s, d) < 0 then [s] else DropTrailingEmpty(SplitOn(s, d))
  }

  function AsciiLowerChar(c: char): char {
    if 'A' <= c <= 'Z' then (c as int + 32) as char else c
  }

  /** Python's `str.lower()` restricted to ASCII letters. */
  function AsciiLower(s: string): (r: string)
    ensures |r| == |s|
    ensures forall i :: 0 <= i < |s| ==> r[i] == AsciiLowerChar(s[i])
  {
    if |s| == 0 then [] else [AsciiLowerChar(s[0])] + AsciiLower(s[1..])
  }

  function DigitChar(d: nat): (r: char)
    requires d < 10
    ensures '0' <= r <= '9' && r as int - '0' as int == d
  {
    (d + '0' as int) as char
  }

  /** Decimal text of a natural number, as Java's `Integer.toString` and
      Python's `str` write it: digits only, no leading zero. */
  function NatToString(n: nat): (r: string)
    ensures |r| > 0
    ensures forall i :: 0 <= i < |r| ==> '0' <= r[i] <= '9'
    ensures r[0] == '0' <==> n == 0
    decreases n
  {
    if n < 10 then [DigitChar(n)] else NatToString(n / 10) + [DigitChar(n % 10)]
  }

  /** Decimal text of an integer: a minus sign exactly for negative numbers. */
  function IntToString(i: int): (r: string)
    ensures |r| > 0
    ensures r[0] == '-' <==> i < 0
    ensures i >= 0 ==> r == NatToString(i)
    ensures i < 0 ==> r[1..] == NatToString(-i)
  {
    if i < 0 then "-" + NatToString(-i) else NatToString(i)
  }

  /** Reads a string of decimal digits back as a number; the partner of
      `NatToString`. */
  function ParseNat(s: string): nat
    requires forall i :: 0 <= i < |s| ==> '0' <= s[i] <= '9'
  {
    if |s| == 0 then 0 else ParseNat(s[..|s| - 1]) * 10 + (s[|s| - 1] as int - '0' as int)
  }

  lemma {:induction false} ParseNatToString(n: nat)
    ensures ParseNat(NatToString(n)) == n
    decreases n
  {
    if n >= 10 {
      var r := NatToString(n);
      var prefix := NatToString(n / 10);
      assert r[..|r| - 1] == prefix;
      ParseNatToString(n / 10);
    }
  }

  /** A character `repr` writes as it is inside single quotes. */
  predicate PlainChar(c: char) {
    c != '\'' && c != '\\' && c != '\n' && c != '\r' && c != '\t'
  }

  /** The body of a quoted `repr`: backslash, the quote in use, tab, line feed
      and carriage return are escaped; every other character is kept. */
  function EscapeFor(s: string, quote: char): (r: string)
    ensures |r| >= |s|
    ensures (forall i :: 0 <= i < |s| ==> PlainChar(s[i]) && s[i] != quote) ==> r == s
  {
    if |s| == 0 then ""
    else
      var c := s[0];
      var e := if c == '\\' then "\\\\"
               else if c == quote then "\\" + [quote]
               else if c == '\n' then "\\n"
               else if c == '\r' then "\\r"
               else if c == '\t' then "\\t"
               else [c];
      e + EscapeFor(s[1..], quote)
  }

  /** Python's `repr` of a string: single quotes, or double quotes when the
      string holds a single quote and no double quote. */
  function PyRepr(s: string): (r: string)
    ensures |r| >= |s| + 2
    ensures r[0] == r[|r| - 1] && r[0] in {'\'', '"'}
    ensures (forall i :: 0 <= i < |s| ==> PlainChar(s[i])) ==> r == "'" + s + "'"
  {
    var quote := if '\'' in s && '"' !in s then '"' else '\'';
    [quote] + EscapeFor(s, quote) + [quote]
  }
}
