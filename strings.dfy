/**
 * The JavaScript string primitives the core relies on (`indexOf`, `lastIndexOf`,
 * `startsWith`, `endsWith`, `trim`), over strings as sequences of characters.
 */
module Strings {

  /** `p` occurs in `s` starting at index `i`. */
  predicate OccursAt(s: string, p: string, i: int) {
    0 <= i && i + |p| <= |s| && s[i..i + |p|] == p
  }

  predicate StartsWith(s: string, p: string) {
    |p| <= |s| && s[..|p|] == p
  }

  predicate EndsWith(s: string, p: string) {
    |p| <= |s| && s[|s| - |p|..] == p
  }

  /** First occurrence of `p` in `s` at or after `from`, or -1. */
  function IndexFrom(s: string, p: string, from: nat): (r: int)
    decreases |s| - from + 1
    ensures r == -1 || (from <= r && OccursAt(s, p, r))
    ensures r == -1 ==> forall j :: from <= j ==> !OccursAt(s, p, j)
    ensures r >= 0 ==> forall j :: from <= j < r ==> !OccursAt(s, p, j)
  {
    if from + |p| > |s| then -1
    else if s[from..from + |p|] == p then from
    else IndexFrom(s, p, from + 1)
  }

  /** `s.indexOf(p)`: the least index where `p` occurs, or -1 when it occurs nowhere. */
  function IndexOf(s: string, p: string): (r: int)
    ensures r == -1 || 0 <= r <= |s| - |p|
    ensures r == -1 <==> forall j :: !OccursAt(s, p, j)
    ensures r >= 0 ==> OccursAt(s, p, r) && forall j :: 0 <= j < r ==> !OccursAt(s, p, j)
  {
    IndexFrom(s, p, 0)
  }

  /** Last occurrence of `p` in `s` at or before `from`, or -1. */
  function LastIndexFrom(s: string, p: string, from: int): (r: int)
    decreases from + 1
    ensures r == -1 || (0 <= r <= from && OccursAt(s, p, r))
    ensures r == -1 ==> forall j :: j <= from ==> !OccursAt(s, p, j)
    ensures r >= 0 ==> forall j :: r < j <= from ==> !OccursAt(s, p, j)
  {
    if from < 0 then -1
    else if OccursAt(s, p, from) then from
    else LastIndexFrom(s, p, from - 1)
  }

  /** `s.lastIndexOf(p)`: the greatest index where `p` occurs, or -1 when it occurs nowhere. */
  function LastIndexOf(s: string, p: string): (r: int)
    ensures r == -1 <==> forall j :: !OccursAt(s, p, j)
    ensures r >= 0 ==> OccursAt(s, p, r) && forall j :: r < j ==> !OccursAt(s, p, j)
  {
    LastIndexFrom(s, p, |s| - |p|)
  }

  /** Characters removed by `String.prototype.trim`: ECMAScript WhiteSpace and LineTerminator. */
  predicate IsSpace(c: char) {
    c == ' ' || c == '\t' || c == '\n' || c == '\r' || c == '\U{000B}' || c == '\U{000C}'
    || c == '\U{00A0}' || c == '\U{1680}' || ('\U{2000}' <= c <= '\U{200A}')
    || c == '\U{2028}' || c == '\U{2029}' || c == '\U{202F}' || c == '\U{205F}'
    || c == '\U{3000}' || c == '\U{FEFF}'
  }

  /** `s` with its leading white space removed: the longest suffix not starting with a space. */
  function TrimStart(s: string): (r: string)
    ensures |r| <= |s| && r == s[|s| - |r|..]
    ensures r == [] || !IsSpace(r[0])
    ensures forall k :: 0 <= k < |s| - |r| ==> IsSpace(s[k])
  {
    if s != [] && IsSpace(s[0]) then TrimStart(s[1..]) else s
  }

  /** `s` with its trailing white space removed: the longest prefix not ending with a space. */
  function TrimEnd(s: string): (r: string)
    ensures |r| <= |s| && r == s[..|r|]
    ensures r == [] || !IsSpace(r[|r| - 1])
    ensures forall k :: |r| <= k < |s| ==> IsSpace(s[k])
  {
    if s != [] && IsSpace(s[|s| - 1]) then TrimEnd(s[..|s| - 1]) else s
  }

  /** `s.trim()`. */
  function Trim(s: string): string {
    TrimEnd(TrimStart(s))
  }

  /** The trimmed string is a slice of the input with white space only around it, and neither starts nor ends with white space. */
  lemma TrimIsSlice(s: string) returns (i: nat, j: nat)
    ensures i <= j <= |s| && Trim(s) == s[i..j]
    ensures forall k :: 0 <= k < i ==> IsSpace(s[k])
    ensures forall k :: j <= k < |s| ==> IsSpace(s[k])
    ensures Trim(s) == [] || (!IsSpace(Trim(s)[0]) && !IsSpace(Trim(s)[|Trim(s)| - 1]))
  {
    var t := TrimStart(s);
    var r := TrimEnd(t);
    i := |s| - |t|;
    j := i + |r|;
    PrefixOfSuffix(s, t, r, i);
    SpacesShift(s, t, i, |r|);
    if r != [] {
      assert r[0] == t[0];
    }
  }

  /** A prefix of the suffix of `s` from `i` is the slice of `s` from `i`. */
  lemma PrefixOfSuffix(s: string, t: string, r: string, i: nat)
    requires i <= |s| && t == s[i..] && |r| <= |t| && r == t[..|r|]
    ensures r == s[i..i + |r|]
  {
  }

  /** White space from index `from` of the suffix of `s` from `i` is white space from `i + from` in `s`. */
  lemma SpacesShift(s: string, t: string, i: nat, from: nat)
    requires i <= |s| && t == s[i..]
    requires forall k :: from <= k < |t| ==> IsSpace(t[k])
    ensures forall k :: i + from <= k < |s| ==> IsSpace(s[k])
  {
    forall k | i + from <= k < |s| ensures IsSpace(s[k]) {
      assert s[k] == t[k - i];
    }
  }

  /** Trailing white space never survives `trim`: trimming `s + w` for blank `w` is trimming `s`. */
  lemma {:induction false} TrimTrailingSpace(s: string, w: string)
    requires forall k :: 0 <= k < |w| ==> IsSpace(w[k])
    ensures Trim(s + w) == Trim(s)
  {
    var a := TrimStart(s);
    if a == [] {
      // every character of s is white space, so the whole of s + w is
      assert forall k :: 0 <= k < |s| ==> IsSpace(s[k]);
      AllSpaceTrimStart(s + w);
    } else {
      TrimStartAppend(s, w);
      TrimEndAppend(a, w);
    }
  }

  lemma {:induction false} AllSpaceTrimStart(s: string)
    requires forall k :: 0 <= k < |s| ==> IsSpace(s[k])
    ensures TrimStart(s) == []
  {
    if s != [] {
      AllSpaceTrimStart(s[1..]);
    }
  }

  lemma {:induction false} TrimStartAppend(s: string, w: string)
    requires TrimStart(s) != []
    ensures TrimStart(s + w) == TrimStart(s) + w
  {
    if s != [] && IsSpace(s[0]) {
      assert (s + w)[1..] == s[1..] + w;
      TrimStartAppend(s[1..], w);
    }
  }

  lemma {:induction false} TrimEndAppend(a: string, w: string)
    requires forall k :: 0 <= k < |w| ==> IsSpace(w[k])
    ensures TrimEnd(a + w) == TrimEnd(a)
    decreases |w|
  {
    if w != [] {
      var aw := a + w;
      assert aw[..|aw| - 1] == a + w[..|w| - 1];
      TrimEndAppend(a, w[..|w| - 1]);
    } else {
      assert a + w == a;
    }
  }
}
