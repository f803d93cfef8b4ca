/**
 * The `unpre` paired shortcode of the Eleventy starter: it takes the body of a
 * fenced code block (the text between the opening fence line and the closing
 * fence) and returns it trimmed.
 */
module Shortcodes {
  import opened Strings

  const Fence: string := "```"

  /** `s.substring(start)`: a start outside `[0, |s|]` is clamped into it. */
  function SubstringFrom(s: string, start: int): (r: string)
    ensures EndsWith(s, r)
    ensures 0 <= start <= |s| ==> r == s[start..]
  {
    if start <= 0 then s else if start >= |s| then [] else s[start..]
  }

  /** `s.substring(0, end)`: an end outside `[0, |s|]` is clamped into it. */
  function SubstringTo(s: string, end: int): (r: string)
    ensures StartsWith(s, r)
    ensures 0 <= end <= |s| ==> r == s[..end]
  {
    if end <= 0 then [] else if end >= |s| then s else s[..end]
  }

  /** First step: drop everything up to and including the first fence. */
  function AfterFence(content: string): string {
    SubstringFrom(content, IndexOf(content, Fence) + 3)
  }

  /** Second step: drop the rest of the opening fence line, up to and including its newline. */
  function AfterLine(s: string): string {
    SubstringFrom(s, IndexOf(s, "\n") + 1)
  }

  /** Third step: drop everything from the last fence on. */
  function BeforeLastFence(s: string): string {
    SubstringTo(s, LastIndexOf(s, Fence))
  }

  /** The text the three steps cut out, before it is trimmed. */
  function Body(content: string): string {
    BeforeLastFence(AfterLine(AfterFence(content)))
  }

  /** The `unpre` shortcode. */
  function Unpre(content: string): string {
    Trim(Body(content))
  }

  /** A prefix of a suffix of a suffix of `s` is a slice of `s`. */
  lemma PrefixOfSuffixOfSuffix(s: string, a: string, b: string, c: string)
    requires EndsWith(s, a) && EndsWith(a, b) && StartsWith(b, c)
    ensures c == s[|s| - |b|..|s| - |b| + |c|]
  {
    assert a == s[|s| - |a|..];
    assert b == a[|a| - |b|..];
    assert b == s[|s| - |b|..];
    assert c == b[..|c|];
  }

  /** A slice of a slice of `s` is a slice of `s`. */
  lemma SliceOfSlice(s: string, off: nat, c: string, p: nat, q: nat)
    requires off + |c| <= |s| && c == s[off..off + |c|] && p <= q <= |c|
    ensures s[off + p..off + q] == c[p..q]
  {
    forall k | 0 <= k < q - p ensures s[off + p..off + q][k] == c[p..q][k] {
      assert c[p + k] == s[off..off + |c|][p + k];
    }
  }

  /** Before trimming, `unpre` has cut out one slice of its input. */
  lemma BodyIsSlice(content: string) returns (off: nat)
    ensures off + |Body(content)| <= |content| && Body(content) == content[off..off + |Body(content)|]
  {
    var a := AfterFence(content);
    var b := AfterLine(a);
    PrefixOfSuffixOfSuffix(content, a, b, BeforeLastFence(b));
    off := |content| - |b|;
  }

  /** Trimming a slice of `s` leaves a slice of `s` with no white space at either end. */
  lemma TrimmedSlice(s: string, off: nat, c: string) returns (i: nat, j: nat)
    requires off + |c| <= |s| && c == s[off..off + |c|]
    ensures i <= j <= |s| && Trim(c) == s[i..j]
    ensures Trim(c) == [] || (!IsSpace(Trim(c)[0]) && !IsSpace(Trim(c)[|Trim(c)| - 1]))
  {
    var p, q := TrimIsSlice(c);
    SliceOfSlice(s, off, c, p, q);
    i, j := off + p, off + q;
  }

  /** The result is a slice of the input, with no white space at either end. */
  lemma UnpreIsSlice(content: string) returns (i: nat, j: nat)
    ensures i <= j <= |content| && Unpre(content) == content[i..j]
    ensures var r := Unpre(content); r == [] || (!IsSpace(r[0]) && !IsSpace(r[|r| - 1]))
  {
    var off := BodyIsSlice(content);
    i, j := TrimmedSlice(content, off, Body(content));
  }

  /** When no fence is left after the opening line, the result is empty. */
  lemma NoClosingFence(content: string)
    requires forall k :: !OccursAt(AfterLine(AfterFence(content)), Fence, k)
    ensures Unpre(content) == ""
  {
  }

  /** No fence after the first one means none is left once the opening line is gone. */
  lemma NoFenceAfterOpening(content: string)
    requires forall k :: IndexOf(content, Fence) < k ==> !OccursAt(content, Fence, k)
    ensures forall k :: !OccursAt(AfterLine(AfterFence(content)), Fence, k)
  {
    var a := AfterFence(content);
    var b := AfterLine(a);
    var off := |content| - |b|;
    assert a == content[|content| - |a|..];
    assert b == a[|a| - |b|..];
    assert b == content[off..];
    assert IndexOf(content, Fence) < |content| - |a| <= off;
    forall k | 0 <= k && k + 3 <= |b| ensures !OccursAt(b, Fence, k) {
      assert content[off + k..off + k + 3] == b[k..k + 3];
      assert !OccursAt(content, Fence, off + k);
    }
  }

  /** In particular, text with at most one fence (none after the first) yields the empty string. */
  lemma AtMostOneFence(content: string)
    requires forall k :: IndexOf(content, Fence) < k ==> !OccursAt(content, Fence, k)
    ensures Unpre(content) == ""
  {
    NoFenceAfterOpening(content);
    NoClosingFence(content);
  }

  /** The first step of the round trip: the opening fence goes. */
  lemma OpeningFenceDropped(rest: string)
    ensures AfterFence(Fence + rest) == rest
  {
    assert OccursAt(Fence + rest, Fence, 0);
  }

  /** The second step: the header line goes, when it holds no newline of its own. */
  lemma HeaderLineDropped(lang: string, rest: string)
    requires '\n' !in lang
    ensures AfterLine(lang + "\n" + rest) == rest
  {
    var a := lang + "\n" + rest;
    assert OccursAt(a, "\n", |lang|);
    forall k | 0 <= k < |lang| ensures !OccursAt(a, "\n", k) {
      assert a[k] == lang[k];
    }
    assert a[|lang| + 1..] == rest;
  }

  /** The third step: the closing fence at the very end goes. */
  lemma ClosingFenceDropped(body: string)
    ensures BeforeLastFence(body + Fence) == body
  {
    assert OccursAt(body + Fence, Fence, |body|);
  }

  /** Round trip: a fenced block with a one-line header yields its body, trimmed. */
  lemma {:induction false} FencedBlock(lang: string, body: string)
    requires '\n' !in lang
    ensures Unpre(Fence + lang + "\n" + body + "\n" + Fence) == Trim(body)
  {
    var b := body + "\n" + Fence;
    var a := lang + "\n" + b;
    assert Fence + lang + "\n" + body + "\n" + Fence == Fence + a;
    OpeningFenceDropped(a);
    HeaderLineDropped(lang, b);
    assert b == (body + "\n") + Fence;
    ClosingFenceDropped(body + "\n");
    TrimTrailingSpace(body, "\n");
  }
}
