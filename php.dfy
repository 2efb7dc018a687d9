/**
 * The PHP values and string functions the filesystem layer relies on:
 * dynamically typed configuration values, PHP's boolean cast, and the
 * `rtrim`/`ltrim`/`trim` and `explode`/`implode` functions for a single
 * character.
 */
module Php {

  datatype Option<+T> = None | Some(value: T)

  /**
   * A PHP value as it appears in configuration arrays and driver results.
   * Arrays are keyed by strings; floats, objects and the order of array
   * entries are not modelled.
   */
  datatype Value =
    | Null
    | Bool(b: bool)
    | Int(i: int)
    | Str(s: string)
    | Arr(entries: map<string, Value>)

  /** PHP's `(bool)` cast: null, false, 0, "", "0" and the empty array are false. */
  predicate Truthy(v: Value)
  {
    match v
    case Null => false
    case Bool(b) => b
    case Int(i) => i != 0
    case Str(s) => s != "" && s != "0"
    case Arr(m) => m != map[]
  }

  /** `isset($m[$k])`: the key is present and its value is not null. */
  predicate Isset(m: map<string, Value>, k: string)
  {
    k in m && m[k] != Null
  }

  /** Every character of `s` is `c`. */
  predicate OnlyChar(s: string, c: char)
  {
    forall i :: 0 <= i < |s| ==> s[i] == c
  }

  /** `n` copies of `c`. */
  function Repeat(c: char, n: nat): (r: string)
    ensures |r| == n && OnlyChar(r, c)
  {
    seq(n, _ => c)
  }

  /** `rtrim($s, $c)`: `s` without its trailing run of `c`. */
  function RTrim(s: string, c: char): (r: string)
    ensures r <= s
    ensures OnlyChar(s[|r|..], c)
    ensures r == [] || r[|r| - 1] != c
    decreases |s|
  {
    if |s| > 0 && s[|s| - 1] == c then
      var r := RTrim(s[..|s| - 1], c);
      assert s[|r|..] == s[..|s| - 1][|r|..] + [c];
      r
    else
      s
  }

  /** `ltrim($s, $c)`: `s` without its leading run of `c`. */
  function LTrim(s: string, c: char): (r: string)
    ensures |r| <= |s| && r == s[|s| - |r|..]
    ensures OnlyChar(s[..|s| - |r|], c)
    ensures r == [] || r[0] != c
    decreases |s|
  {
    if |s| > 0 && s[0] == c then
      var r := LTrim(s[1..], c);
      assert s[..|s| - |r|] == [c] + s[1..][..|s| - 1 - |r|];
      r
    else
      s
  }

  /**
   * `trim($s, $c)`: `s` without its leading and trailing runs of `c`. The
   * result is the infix of `s` that remains once those runs are cut off;
   * nothing inside it is touched.
   */
  function Trim(s: string, c: char): (r: string)
    ensures r == [] || (r[0] != c && r[|r| - 1] != c)
    ensures TrimmedFrom(s, r, c)
  {
    var t := RTrim(s, c);
    var r := LTrim(t, c);
    TrimWitness(s, t, r, c);
    r
  }

  /** `r` is a run of `s` with only `c`s before and after it. */
  ghost predicate TrimmedFrom(s: string, r: string, c: char)
  {
    exists i :: TrimmedAt(s, r, c, i)
  }

  ghost predicate TrimmedAt(s: string, r: string, c: char, i: int)
  {
    0 <= i <= |s| - |r| && r == s[i..i + |r|] && OnlyChar(s[..i], c) && OnlyChar(s[i + |r|..], c)
  }

  lemma TrimWitness(s: string, t: string, r: string, c: char)
    requires t <= s && OnlyChar(s[|t|..], c) && (t == [] || t[|t| - 1] != c)
    requires |r| <= |t| && r == t[|t| - |r|..] && OnlyChar(t[..|t| - |r|], c) && (r == [] || r[0] != c)
    ensures r == [] || (r[0] != c && r[|r| - 1] != c)
    ensures TrimmedFrom(s, r, c)
  {
    assert r != [] ==> r[|r| - 1] == t[|t| - 1];
    var i := |t| - |r|;
    assert s[..i] == t[..i];
    assert i + |r| == |t|;
    assert TrimmedAt(s, r, c, i);
  }

  /** The index of the first `d` in `s`. */
  function FirstIndex(s: string, d: char): (k: nat)
    requires d in s
    ensures k < |s| && s[k] == d && d !in s[..k]
  {
    if s[0] == d then 0 else 1 + FirstIndex(s[1..], d)
  }

  /** `implode($d, $parts)`. */
  function Join(parts: seq<string>, d: char): string
  {
    if parts == [] then ""
    else if |parts| == 1 then parts[0]
    else parts[0] + [d] + Join(parts[1..], d)
  }

  /** `explode($d, $s)`: the pieces of `s` between the occurrences of `d`. */
  function Split(s: string, d: char): (parts: seq<string>)
    ensures |parts| >= 1
    ensures forall i :: 0 <= i < |parts| ==> d !in parts[i]
    ensures Join(parts, d) == s
    decreases |s|
  {
    if d !in s then [s]
    else
      var k := FirstIndex(s, d);
      var rest := Split(s[k + 1..], d);
      var parts := [s[..k]] + rest;
      assert parts[1..] == rest;
      assert s == s[..k] + [d] + s[k + 1..];
      parts
  }
}
