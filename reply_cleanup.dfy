/**
 * The clean-up the entity and tag routes apply to a model reply before `JSON.parse`: take the inner
 * text of the first fenced code block when it is not empty, trim it, drop what comes before the first
 * `{` and what comes after the last `}`. Every step keeps a contiguous piece of what it is given, so
 * the clean-up is described by bounds `[lo, hi)` into the reply.
 */
module ReplyCleanup {
  import opened Options
  import opened Strings

  /** A code fence, three backticks, starts at `i`. */
  predicate FenceAt(s: string, i: int) {
    0 <= i && i + 3 <= |s| && s[i] == '`' && s[i + 1] == '`' && s[i + 2] == '`'
  }

  /** The first fence starting at or after `from`, or `|s|` when there is none. */
  function NextFence(s: string, from: nat): (i: nat)
    requires from <= |s|
    ensures from <= i <= |s|
    ensures i < |s| ==> FenceAt(s, i)
    ensures forall k :: from <= k < i ==> !FenceAt(s, k)
    decreases |s| - from
  {
    if from == |s| then |s| else if FenceAt(s, from) then from else NextFence(s, from + 1)
  }

  /** The optional language tag `json` right after the opening fence. */
  predicate JsonTagAt(s: string, i: nat) {
    i + 4 <= |s| && s[i] == 'j' && s[i + 1] == 's' && s[i + 2] == 'o' && s[i + 3] == 'n'
  }

  /** The end of the whitespace run of `s[lo..hi]` that starts at `lo`. */
  function SpaceRunEnd(s: string, lo: nat, hi: nat): (w: nat)
    requires lo <= hi <= |s|
    ensures lo <= w <= hi
    ensures forall k :: lo <= k < w ==> IsSpace(s[k])
    ensures w < hi ==> !IsSpace(s[w])
    decreases hi - lo
  {
    if lo == hi || !IsSpace(s[lo]) then lo else SpaceRunEnd(s, lo + 1, hi)
  }

  /** The start of the whitespace run of `s[lo..hi]` that ends at `hi`. */
  function SpaceRunStart(s: string, lo: nat, hi: nat): (x: nat)
    requires lo <= hi <= |s|
    ensures lo <= x <= hi
    ensures forall k :: x <= k < hi ==> IsSpace(s[k])
    ensures x > lo ==> !IsSpace(s[x - 1])
    decreases hi - lo
  {
    if hi == lo || !IsSpace(s[hi - 1]) then hi else SpaceRunStart(s, lo, hi - 1)
  }

  /** No fence starts between the end of the opening fence and the end of the optional tag and the
      whitespace after it. */
  lemma NoFenceInOpening(s: string, a: nat, w: nat)
    requires a <= |s|
    requires w == SpaceRunEnd(s, if JsonTagAt(s, a) then a + 4 else a, |s|)
    ensures a <= w <= |s|
    ensures forall k :: a <= k < w ==> !FenceAt(s, k)
  {
  }

  /** The capture `[w, x)` after the first fence `p` and before the next fence: it starts at the first
      non-space after the optional tag and ends where the whitespace before that fence begins. */
  lemma CaptureFacts(s: string, p: nat, w: nat, x: nat)
    requires p == NextFence(s, 0) && p < |s| && NextFence(s, p + 3) < |s|
    requires w == SpaceRunEnd(s, if JsonTagAt(s, p + 3) then p + 7 else p + 3, |s|)
    requires x == SpaceRunStart(s, w, NextFence(s, p + 3))
    ensures var q := NextFence(s, p + 3);
      var a := if JsonTagAt(s, p + 3) then p + 7 else p + 3;
      && a <= w <= x <= q < |s|
      && (forall k :: a <= k < w ==> IsSpace(s[k]))
      && !IsSpace(s[w])
      && (forall k :: x <= k < q ==> IsSpace(s[k]))
      && (w < x ==> !IsSpace(s[x - 1]))
  {
    NoFenceInOpening(s, p + 3, w);
    assert s[NextFence(s, p + 3)] == '`';
  }

  /** `content.match(/```(?:json)?\s*([\s\S]*?)\s*```/)`, as the bounds of the captured group. The
      search starts at the first fence `p`; it matches when another fence `q` starts after it. The
      engine takes the `json` tag when present, then the longest whitespace run, then the shortest
      capture after which only whitespace precedes a fence: the capture starts at the first non-space
      after the tag and ends where the whitespace before `q` begins. */
  function FenceCapture(s: string): (r: Option<(nat, nat)>)
    ensures r.Some? ==> r.value.0 <= r.value.1 <= |s|
    ensures r.Some? ==> forall k :: r.value.0 <= k < r.value.1 ==> !FenceAt(s, k)
    ensures r.None? <==> NextFence(s, 0) == |s| || NextFence(s, NextFence(s, 0) + 3) == |s|
  {
    var p := NextFence(s, 0);
    if p == |s| then None
    else
      var a := p + 3;
      var q := NextFence(s, a);
      if q == |s| then None
      else
        var w := SpaceRunEnd(s, if JsonTagAt(s, a) then a + 4 else a, |s|);
        NoFenceInOpening(s, a, w);
        Some((w, SpaceRunStart(s, w, q)))
  }

  /** Where the capture lies: it starts at the first non-space after the opening fence and its
      optional `json` tag, and ends where the whitespace before the closing fence begins. */
  lemma FenceCaptureShape(s: string)
    ensures var r := FenceCapture(s);
      r.Some? ==>
        var p := NextFence(s, 0);
        var q := NextFence(s, p + 3);
        var a := if JsonTagAt(s, p + 3) then p + 7 else p + 3;
        && a <= r.value.0 <= r.value.1 <= q < |s|
        && (forall k :: a <= k < r.value.0 ==> IsSpace(s[k]))
        && !IsSpace(s[r.value.0])
        && (forall k :: r.value.1 <= k < q ==> IsSpace(s[k]))
        && (r.value.0 < r.value.1 ==> !IsSpace(s[r.value.1 - 1]))
  {
    var r := FenceCapture(s);
    if r.Some? {
      CaptureFacts(s, NextFence(s, 0), r.value.0, r.value.1);
    }
  }

  /** `jsonMatch && jsonMatch[1]`: the reply itself, or the fence's capture when there is one and it is
      not empty. */
  function BaseBounds(s: string): (b: (nat, nat))
    ensures b.0 <= b.1 <= |s|
  {
    var m := FenceCapture(s);
    if m.Some? && m.value.0 < m.value.1 then m.value else (0, |s|)
  }

  /** `trim` on `s[lo..hi]`, as bounds into `s`. */
  function TrimRange(s: string, lo: nat, hi: nat): (r: (nat, nat))
    requires lo <= hi <= |s|
    ensures lo <= r.0 <= r.1 <= hi
  {
    var w := SpaceRunEnd(s, lo, hi);
    (w, SpaceRunStart(s, w, hi))
  }

  /** `TrimRange` is `String.prototype.trim` on the slice. */
  lemma TrimRangeIsTrim(s: string, lo: nat, hi: nat)
    requires lo <= hi <= |s|
    ensures var r := TrimRange(s, lo, hi); Trim(s[lo..hi]) == s[r.0..r.1]
  {
    var r := TrimRange(s, lo, hi);
    TrimBoundsOfSlice(s, lo, hi);
    SliceOfSlice(s, lo, hi, r.0, r.1);
  }

  /** The bounds `trim` finds in a slice are `TrimRange`, shifted. */
  lemma TrimBoundsOfSlice(s: string, lo: nat, hi: nat)
    requires lo <= hi <= |s|
    ensures var r := TrimRange(s, lo, hi); TrimBounds(s[lo..hi]) == (r.0 - lo, r.1 - lo)
  {
    LeadingOfSlice(s, lo, hi);
    TrailOfSlice(s, lo, hi);
  }

  /** The whitespace run ending what follows the leading run of a slice, found by index. */
  lemma TrailOfSlice(s: string, lo: nat, hi: nat)
    requires lo <= hi <= |s|
    ensures var t := s[lo..hi];
      TrailingSpace(t[LeadingSpace(t)..]) == hi - SpaceRunStart(s, SpaceRunEnd(s, lo, hi), hi)
  {
    var w := SpaceRunEnd(s, lo, hi);
    LeadingOfSlice(s, lo, hi);
    DropOfSlice(s, lo, hi, w);
    TrailingOfSlice(s, w, hi);
  }

  /** The whitespace run starting a slice, found by index. */
  lemma LeadingOfSlice(s: string, lo: nat, hi: nat)
    requires lo <= hi <= |s|
    ensures LeadingSpace(s[lo..hi]) == SpaceRunEnd(s, lo, hi) - lo
  {
    var t := s[lo..hi];
    var w := SpaceRunEnd(s, lo, hi);
    SpacesOfSlice(s, lo, hi, lo, w);
    if w < hi {
      assert t[w - lo] == s[w];
    }
    LeadingSpaceIs(t, w - lo);
  }

  /** The whitespace run ending a slice, found by index. */
  lemma TrailingOfSlice(s: string, lo: nat, hi: nat)
    requires lo <= hi <= |s|
    ensures TrailingSpace(s[lo..hi]) == hi - SpaceRunStart(s, lo, hi)
  {
    var u := s[lo..hi];
    var x := SpaceRunStart(s, lo, hi);
    SpacesOfSlice(s, lo, hi, x, hi);
    if x > lo {
      assert u[x - lo - 1] == s[x - 1];
    }
    TrailingSpaceIs(u, hi - x);
  }

  /** Whitespace at `s[i..j]` is whitespace at the same places of the slice `s[lo..hi]`. */
  lemma SpacesOfSlice(s: string, lo: nat, hi: nat, i: nat, j: nat)
    requires lo <= i <= j <= hi <= |s|
    requires forall k :: i <= k < j ==> IsSpace(s[k])
    ensures forall k :: i - lo <= k < j - lo ==> IsSpace(s[lo..hi][k])
  {
    forall k | i - lo <= k < j - lo ensures IsSpace(s[lo..hi][k]) {
      assert s[lo..hi][k] == s[lo + k];
    }
  }

  /** The first `c` in `s[lo..hi]`, or `hi` when there is none. */
  function FirstAt(s: string, c: char, lo: nat, hi: nat): (i: nat)
    requires lo <= hi <= |s|
    ensures lo <= i <= hi
    ensures i < hi ==> s[i] == c
    ensures forall k :: lo <= k < i ==> s[k] != c
    decreases hi - lo
  {
    if lo == hi || s[lo] == c then lo else FirstAt(s, c, lo + 1, hi)
  }

  /** Just after the last `c` in `s[lo..hi]`, or `lo` when there is none. */
  function LastEnd(s: string, c: char, lo: nat, hi: nat): (e: nat)
    requires lo <= hi <= |s|
    ensures lo <= e <= hi
    ensures e > lo ==> s[e - 1] == c
    ensures forall k :: e <= k < hi ==> s[k] != c
    decreases hi - lo
  {
    if lo == hi || s[hi - 1] == c then hi else LastEnd(s, c, lo, hi - 1)
  }

  /** `indexOf` on a slice finds `FirstAt`. */
  lemma IndexOfSlice(s: string, c: char, lo: nat, hi: nat)
    requires lo <= hi <= |s|
    ensures var i := FirstAt(s, c, lo, hi);
      IndexOf(s[lo..hi], c) == if i < hi then i - lo else -1
  {
    var t := s[lo..hi];
    var i := FirstAt(s, c, lo, hi);
    var j := IndexOf(t, c);
    IndexOfSpec(t, c);
    if i < hi {
      assert t[i - lo] == c;
    } else {
      forall k | 0 <= k < |t| ensures t[k] != c {
        assert t[k] == s[lo + k];
      }
    }
  }

  /** `lastIndexOf` on a slice finds the position before `LastEnd`. */
  lemma LastIndexOfSlice(s: string, c: char, lo: nat, hi: nat)
    requires lo <= hi <= |s|
    ensures LastIndexOf(s[lo..hi], c) == LastEnd(s, c, lo, hi) - lo - 1
  {
    var t := s[lo..hi];
    var e := LastEnd(s, c, lo, hi);
    var j := LastIndexOf(t, c);
    LastIndexOfSpec(t, c);
    if e > lo {
      assert t[e - lo - 1] == c;
      assert j < 0 ==> c in t;
    } else {
      forall k | 0 <= k < |t| ensures t[k] != c {
        assert t[k] == s[lo + k];
      }
    }
  }

  /** The two brace steps on `s[lo..hi]`, as bounds into `s`: from the first `{` when that is not the
      first character, up to and including the last `}` after that. With no `}` left, the second step
      keeps nothing. */
  function BraceRange(s: string, lo: nat, hi: nat): (b: (nat, nat))
    requires lo <= hi <= |s|
    ensures lo <= b.0 <= b.1 <= hi
  {
    var i := FirstAt(s, '{', lo, hi);
    var from := if lo < i < hi then i else lo;
    (from, LastEnd(s, '}', from, hi))
  }

  /** What the brace steps keep: no `{` precedes the kept text, which starts with `{` unless it starts
      the slice and the slice holds no `{`; no `}` follows it, and when it is not empty it ends with
      `}`. */
  lemma BraceRangeSpec(s: string, lo: nat, hi: nat)
    requires lo <= hi <= |s|
    ensures var b := BraceRange(s, lo, hi);
      && (forall k :: lo <= k < b.0 ==> s[k] != '{')
      && (b.0 < hi ==> s[b.0] == '{' || (b.0 == lo && forall k :: lo <= k < hi ==> s[k] != '{'))
      && (forall k :: b.1 <= k < hi ==> s[k] != '}')
      && (b.0 < b.1 ==> s[b.1 - 1] == '}')
  {
    var i := FirstAt(s, '{', lo, hi);
    var from := if lo < i < hi then i else lo;
    var e := LastEnd(s, '}', from, hi);
    if e < hi {
      assert forall k :: e <= k < hi ==> s[k] != '}';
    }
  }

  /** The cleaned text, as bounds into the reply: the brace cut of the trimmed base. */
  function CleanBounds(s: string): (b: (nat, nat))
    ensures b.0 <= b.1 <= |s|
  {
    var base := BaseBounds(s);
    var t := TrimRange(s, base.0, base.1);
    BraceRange(s, t.0, t.1)
  }

  /** The text the routes hand to `JSON.parse`. */
  function CleanJson(s: string): string
  {
    var b := CleanBounds(s);
    s[b.0..b.1]
  }

  /** The brace steps as the routes write them, on the slice `s[lo..hi]`, keep `BraceRange`. */
  lemma BraceSteps(s: string, lo: nat, hi: nat)
    requires lo <= hi <= |s|
    ensures var t := s[lo..hi];
      var first := IndexOf(t, '{');
      var u := if first > 0 then t[first..] else t;
      var last := LastIndexOf(u, '}');
      var b := BraceRange(s, lo, hi);
      (if last < |u| - 1 then u[..last + 1] else u) == s[b.0..b.1]
  {
    var b := BraceRange(s, lo, hi);
    OpeningCut(s, lo, hi);
    var u := s[b.0..hi];
    LastIndexOfSlice(s, '}', b.0, hi);
    var last := LastIndexOf(u, '}');
    if last < |u| - 1 {
      assert last + 1 == b.1 - b.0;
      TakeOfSlice(s, b.0, hi, b.1);
    } else {
      assert b.1 == hi;
    }
  }

  /** The first brace step, on the slice `s[lo..hi]`, keeps the text from the start of `BraceRange`. */
  lemma OpeningCut(s: string, lo: nat, hi: nat)
    requires lo <= hi <= |s|
    ensures var t := s[lo..hi];
      var first := IndexOf(t, '{');
      (if first > 0 then t[first..] else t) == s[BraceRange(s, lo, hi).0..hi]
  {
    var b := BraceRange(s, lo, hi);
    IndexOfSlice(s, '{', lo, hi);
    var first := IndexOf(s[lo..hi], '{');
    if first > 0 {
      assert first == b.0 - lo;
      DropOfSlice(s, lo, hi, b.0);
    } else {
      assert b.0 == lo;
    }
  }

  /** The brace steps of the clean-up on `t`, the slice `s[lo..hi]`: from the first `{` when it is
      not at the start, then up to the last `}` when it is not at the end. */
  method CutBraces(ghost s: string, ghost lo: nat, ghost hi: nat, t: string) returns (r: string)
    requires lo <= hi <= |s| && t == s[lo..hi]
    ensures var b := BraceRange(s, lo, hi); r == s[b.0..b.1]
  {
    BraceSteps(s, lo, hi);
    r := t;
    var first := IndexOf(r, '{');
    if first > 0 {
      r := r[first..];
    }
    var last := LastIndexOf(r, '}');
    if last < |r| - 1 {
      r := r[..last + 1];
    }
  }

  /** The clean-up as the routes write it, reassigning `jsonContent` step by step. */
  method ExtractJson(content: string) returns (jsonContent: string)
    ensures jsonContent == CleanJson(content)
  {
    jsonContent := content;
    var jsonMatch := FenceCapture(content);
    if jsonMatch.Some? && jsonMatch.value.0 < jsonMatch.value.1 {
      jsonContent := content[jsonMatch.value.0..jsonMatch.value.1];
    }
    ghost var base := BaseBounds(content);
    assert jsonContent == content[base.0..base.1];
    jsonContent := Trim(jsonContent);
    ghost var t := TrimRange(content, base.0, base.1);
    TrimRangeIsTrim(content, base.0, base.1);
    assert jsonContent == content[t.0..t.1];
    jsonContent := CutBraces(content, t.0, t.1, jsonContent);
    assert BraceRange(content, t.0, t.1) == CleanBounds(content);
  }

  // ---------------------------------------------------------------------------------------------
  // Properties
  // ---------------------------------------------------------------------------------------------

  /** What the clean-up cuts off: before the kept text, only whitespace and text without `{`; after it,
      only text without `}`. */
  lemma CleanJsonCuts(s: string)
    ensures var base, b := BaseBounds(s), CleanBounds(s);
      && base.0 <= b.0 <= b.1 <= base.1
      && (forall k :: base.0 <= k < b.0 ==> s[k] != '{')
      && (forall k :: b.1 <= k < base.1 ==> s[k] != '}')
  {
    var base := BaseBounds(s);
    var t := TrimRange(s, base.0, base.1);
    BraceRangeSpec(s, t.0, t.1);
    assert !IsSpace('{') && !IsSpace('}');
  }

  /** The kept text ends with `}` and starts either with `{` or with a character that is not
      whitespace, in which case it holds no `{` at all. */
  lemma CleanJsonEdges(s: string)
    ensures var b := CleanBounds(s);
      && (b.0 < b.1 ==> s[b.1 - 1] == '}')
      && (b.0 < b.1 ==> s[b.0] == '{' || (!IsSpace(s[b.0]) && forall k :: b.0 <= k < b.1 ==> s[k] != '{'))
  {
    var base := BaseBounds(s);
    var t := TrimRange(s, base.0, base.1);
    BraceRangeSpec(s, t.0, t.1);
    assert t.0 < t.1 ==> !IsSpace(s[t.0]);
  }

  /** A reply without a backtick has no fence: the clean-up starts from the whole reply. */
  lemma NoFenceBase(s: string)
    requires '`' !in s
    ensures BaseBounds(s) == (0, |s|)
  {
  }

  /** A reply that already is a bare object, or more generally any fence-free text that has no
      surrounding whitespace, ends with `}` and either starts with `{` or holds no `{`, is handed to
      `JSON.parse` unchanged. */
  lemma CleanKeepsObject(s: string)
    requires '`' !in s && s != []
    requires !IsSpace(s[0]) && s[|s| - 1] == '}'
    requires s[0] == '{' || '{' !in s
    ensures CleanJson(s) == s
  {
    NoFenceBase(s);
    assert TrimRange(s, 0, |s|) == (0, |s|);
    assert FirstAt(s, '{', 0, |s|) < |s| ==> s[FirstAt(s, '{', 0, |s|)] in s;
    assert BraceRange(s, 0, |s|) == (0, |s|);
  }

  /** A cleaned text without a fence is clean: cleaning it again changes nothing. */
  lemma CleanIdempotent(s: string)
    requires '`' !in CleanJson(s)
    ensures CleanJson(CleanJson(s)) == CleanJson(s)
  {
    var r := CleanJson(s);
    if r == [] {
      NoFenceBase(r);
    } else {
      CleanShape(s);
      CleanKeepsObject(r);
    }
  }

  /** A non-empty cleaned text starts with a non-space, ends with `}` and either starts with `{` or
      holds no `{`. */
  lemma CleanShape(s: string)
    requires CleanJson(s) != []
    ensures var r := CleanJson(s);
      && !IsSpace(r[0]) && r[|r| - 1] == '}'
      && (r[0] == '{' || '{' !in r)
  {
    var b := CleanBounds(s);
    CleanJsonEdges(s);
    EdgesOfSlice(s, b.0, b.1);
    if s[b.0] != '{' {
      AbsentFromSlice(s, '{', b.0, b.1);
    }
  }

  /** The first and last elements of a non-empty slice. */
  lemma EdgesOfSlice<T>(s: seq<T>, lo: nat, hi: nat)
    requires lo < hi <= |s|
    ensures s[lo..hi][0] == s[lo] && s[lo..hi][hi - lo - 1] == s[hi - 1]
  {
  }

  /** A value found nowhere in `s[lo..hi]` by index is not in the slice. */
  lemma AbsentFromSlice<T>(s: seq<T>, c: T, lo: nat, hi: nat)
    requires lo <= hi <= |s|
    requires forall k :: lo <= k < hi ==> s[k] != c
    ensures c !in s[lo..hi]
  {
    forall k | 0 <= k < hi - lo ensures s[lo..hi][k] != c {
      assert s[lo..hi][k] == s[lo + k];
    }
  }

  /** The first fence at or after `from` is at `p` when one starts there and none before. */
  lemma NextFenceIs(s: string, from: nat, p: nat)
    requires from <= p < |s| && FenceAt(s, p)
    requires forall k :: from <= k < p ==> !FenceAt(s, k)
    ensures NextFence(s, from) == p
  {
  }

  /** The whitespace run starting at `lo` ends at `w` when it covers `[lo, w)` and stops there. */
  lemma SpaceRunEndIs(s: string, lo: nat, hi: nat, w: nat)
    requires lo <= w <= hi <= |s|
    requires forall k :: lo <= k < w ==> IsSpace(s[k])
    requires w < hi ==> !IsSpace(s[w])
    ensures SpaceRunEnd(s, lo, hi) == w
  {
  }

  /** The whitespace run ending at `hi` starts at `x` when it covers `[x, hi)` and stops there. */
  lemma SpaceRunStartIs(s: string, lo: nat, hi: nat, x: nat)
    requires lo <= x <= hi <= |s|
    requires forall k :: x <= k < hi ==> IsSpace(s[k])
    requires x > lo ==> !IsSpace(s[x - 1])
    ensures SpaceRunStart(s, lo, hi) == x
  {
  }

  /** A reply holding some text without backticks, then a ```` ```json ```` line, a body and a closing
      ```` ``` ```` line: the capture is exactly the body, provided the body is not empty, holds no
      backtick and has no whitespace at either end. */
  lemma FenceCaptureOfBlock(pre: string, body: string, post: string)
    requires '`' !in pre && '`' !in body && body != []
    requires !IsSpace(body[0]) && !IsSpace(body[|body| - 1])
    ensures var s := pre + "```json\n" + body + "\n```" + post;
      FenceCapture(s) == Some((|pre| + 8, |pre| + 8 + |body|))
  {
    BlockOpens(pre, body, post);
    BlockCloses(pre, body, post);
    BlockSpaces(pre, body, post);
  }

  /** The block's opening fence is the reply's first fence. */
  lemma BlockOpens(pre: string, body: string, post: string)
    requires '`' !in pre
    ensures NextFence(pre + "```json\n" + body + "\n```" + post, 0) == |pre|
  {
    var s := pre + "```json\n" + body + "\n```" + post;
    forall k | 0 <= k < |pre| ensures !FenceAt(s, k) {
      assert s[k] == pre[k];
      assert pre[k] in pre;
    }
    NextFenceIs(s, 0, |pre|);
  }

  /** The block's closing fence is the next fence after the opening one. */
  lemma BlockCloses(pre: string, body: string, post: string)
    requires '`' !in body
    ensures var hi := |pre| + 8 + |body|;
      NextFence(pre + "```json\n" + body + "\n```" + post, |pre| + 3) == hi + 1
  {
    var s := pre + "```json\n" + body + "\n```" + post;
    var p, lo := |pre|, |pre| + 8;
    var hi := lo + |body|;
    forall k | p + 3 <= k <= hi ensures !FenceAt(s, k) {
      if k < lo {
        assert s[k] == "json\n"[k - p - 3];
      } else if k < hi {
        assert s[k] == body[k - lo];
        assert body[k - lo] in body;
      } else {
        assert s[k] == '\n';
      }
    }
    assert FenceAt(s, hi + 1);
    NextFenceIs(s, p + 3, hi + 1);
  }

  /** The tag is `json`, and the line breaks around the body are the whitespace runs the pattern skips. */
  lemma BlockSpaces(pre: string, body: string, post: string)
    requires body != [] && !IsSpace(body[0]) && !IsSpace(body[|body| - 1])
    ensures var s, p := pre + "```json\n" + body + "\n```" + post, |pre|;
      && JsonTagAt(s, p + 3)
      && SpaceRunEnd(s, p + 7, |s|) == p + 8
      && SpaceRunStart(s, p + 8, p + 9 + |body|) == p + 8 + |body|
  {
    var s := pre + "```json\n" + body + "\n```" + post;
    var p, lo := |pre|, |pre| + 8;
    var hi := lo + |body|;
    assert s[p + 7] == '\n' && s[lo] == body[0];
    SpaceRunEndIs(s, p + 7, |s|, lo);
    assert s[hi - 1] == body[|body| - 1] && s[hi] == '\n';
    SpaceRunStartIs(s, lo, hi + 1, hi);
  }
}
