/** Strings of the composer: the sentinel, the `\s` class and clamped slicing. */
module Text {

  datatype Option<+T> = None | Some(value: T)

  /** U+2063 INVISIBLE SEPARATOR, the mark in front of a completed mention. */
  const SENTINEL: char := '\U{2063}'

  /** The regular-expression class `\s`; it does not contain the sentinel. */
  predicate IsSpace(c: char) {
    || c == ' '
    || '\t' <= c <= '\r'
    || c == '\U{00A0}'
    || c == '\U{1680}'
    || '\U{2000}' <= c <= '\U{200A}'
    || c == '\U{2028}'
    || c == '\U{2029}'
    || c == '\U{202F}'
    || c == '\U{205F}'
    || c == '\U{3000}'
    || c == '\U{FEFF}'
  }

  predicate SpaceFree(s: string) {
    forall i :: 0 <= i < |s| ==> !IsSpace(s[i])
  }

  /** `s.slice(0, n)` for a non-negative n. */
  function Before(s: string, n: nat): string {
    if n <= |s| then s[..n] else s
  }

  /** `s.slice(n)` for a non-negative n. */
  function After(s: string, n: nat): string {
    if n <= |s| then s[n..] else ""
  }

  /** `s.indexOf(c, from)`. */
  function IndexOf(s: string, c: char, from: nat): (r: int)
    ensures -1 <= r < |s|
    ensures r == -1 ==> forall k :: from <= k < |s| ==> s[k] != c
    ensures r != -1 ==> from <= r && s[r] == c && forall k :: from <= k < r ==> s[k] != c
    decreases |s| - from
  {
    if from >= |s| then -1 else if s[from] == c then from else IndexOf(s, c, from + 1)
  }

  /** `s.lastIndexOf(c)`. */
  function LastIndexOf(s: string, c: char): (r: int)
    ensures -1 <= r < |s|
    ensures r == -1 ==> c !in s
    ensures r != -1 ==> s[r] == c && forall k :: r < k < |s| ==> s[k] != c
  {
    if s == "" then -1 else if s[|s| - 1] == c then |s| - 1 else LastIndexOf(s[..|s| - 1], c)
  }

  /** `lits[0] inserts[0] lits[1] ... inserts[n - 1] lits[n]` */
  function Weave(lits: seq<string>, inserts: seq<string>): string
    requires |lits| == |inserts| + 1
  {
    if inserts == [] then lits[0] else lits[0] + inserts[0] + Weave(lits[1..], inserts[1..])
  }

  lemma {:induction false} WeaveLonger(s: string, lits: seq<string>, inserts: seq<string>)
    requires |lits| == |inserts| + 1
    ensures Weave([s + lits[0]] + lits[1..], inserts) == s + Weave(lits, inserts)
  {
    var longer := [s + lits[0]] + lits[1..];
    assert longer[1..] == lits[1..];
    if inserts != [] {
      assert (s + lits[0]) + inserts[0] == s + (lits[0] + inserts[0]);
    }
  }

  /** `\s` by code point. */
  lemma SpacesAre(c: char)
    ensures IsSpace(c) <==>
            var n := c as int;
            || 9 <= n <= 13 || n == 0x20 || n == 0xA0 || n == 0x1680 || 0x2000 <= n <= 0x200A || n == 0x2028
            || n == 0x2029 || n == 0x202F || n == 0x205F || n == 0x3000 || n == 0xFEFF
  {
  }
}
