/** The two JavaScript string built-ins the skill relies on, `String.prototype.substr`
    and `String.prototype.indexOf`, over strings as sequences of Dafny `char`s
    (Unicode scalar values). JavaScript positions count UTF-16 code units instead;
    the skill only compares a prefix with "the " and splits at a space, both of
    which lie in the Basic Multilingual Plane, so the resulting strings are the
    same under either count. Only non-negative arguments occur in the skill, so
    only those are modelled. */
module JsString {

  function Min(a: int, b: int): int {
    if a <= b then a else b
  }

  /** `s.substr(start, length)`: at most `length` characters from `start`, clamped
      to the end of the string; empty when `start` is past the end. */
  function Substr(s: string, start: nat, length: nat): (r: string)
    ensures start >= |s| ==> r == []
    ensures start < |s| ==> |r| == Min(length, |s| - start)
    ensures forall i :: 0 <= i < |r| ==> start + i < |s| && r[i] == s[start + i]
  {
    if start >= |s| then [] else s[start..Min(start + length, |s|)]
  }

  /** `s.substr(start)`: everything from `start` on; empty when `start` is past the end. */
  function SubstrFrom(s: string, start: nat): (r: string)
    ensures |r| == if start >= |s| then 0 else |s| - start
    ensures forall i :: 0 <= i < |r| ==> r[i] == s[start + i]
  {
    if start >= |s| then [] else s[start..]
  }

  /** `s.indexOf(c)` searching from position `k`. */
  function IndexOfFrom(s: string, c: char, k: nat): (r: int)
    requires k <= |s|
    ensures r == -1 || k <= r < |s|
    ensures r == -1 <==> forall j :: k <= j < |s| ==> s[j] != c
    ensures r != -1 ==> s[r] == c && forall j :: k <= j < r ==> s[j] != c
    decreases |s| - k
  {
    if k == |s| then -1
    else if s[k] == c then k
    else IndexOfFrom(s, c, k + 1)
  }

  /** `s.indexOf(c)`: the first position holding `c`, or -1 when there is none. */
  function IndexOf(s: string, c: char): (r: int)
    ensures r == -1 || 0 <= r < |s|
    ensures r == -1 <==> forall j :: 0 <= j < |s| ==> s[j] != c
    ensures r != -1 ==> s[r] == c && forall j :: 0 <= j < r ==> s[j] != c
  {
    IndexOfFrom(s, c, 0)
  }
}
