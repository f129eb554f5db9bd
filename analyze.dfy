/**
 * The summarisation route `POST /api/analyze` (src/app/api/analyze/route.ts): `chunkText` splits the
 * screen text into sentences and packs them greedily into chunks of at most about `maxLength`
 * characters, every chunk is summarised by one completion request (the map stage), and the chunk
 * summaries are joined in chunk order into the prompt of one streaming request (the reduce stage).
 */
module Analyze {
  import opened Options
  import opened Strings
  import opened Provider

  // ---------------------------------------------------------------------------------------------
  // The sentence split `text.split(/(?<=[.?!])\s+/)`
  // ---------------------------------------------------------------------------------------------

  predicate IsTerminator(c: char) {
    c == '.' || c == '?' || c == '!'
  }

  /** The split pattern matches at position `i`: a whitespace character right after a terminator. */
  predicate IsCut(s: string, i: int) {
    1 <= i < |s| && IsTerminator(s[i - 1]) && IsSpace(s[i])
  }

  /** No position of `s` is a cut. */
  predicate NoCut(s: string) {
    forall i :: 0 <= i < |s| ==> !IsCut(s, i)
  }

  /** The first cut at or after `from`, or `|s|` when there is none. */
  function FirstCut(s: string, from: nat): (i: nat)
    requires from <= |s|
    ensures from <= i <= |s|
    ensures i < |s| ==> IsCut(s, i)
    ensures forall k :: from <= k < i ==> !IsCut(s, k)
    decreases |s| - from
  {
    if from == |s| then |s| else if IsCut(s, from) then from else FirstCut(s, from + 1)
  }

  /** `text.split(/(?<=[.?!])\s+/)`: the split regular expression, scanning left to right, cuts at the
      first whitespace character that follows a terminator and removes the whole whitespace run there.
      A string without a cut is one piece, so the empty text gives `[""]`. */
  function SplitSentences(s: string): (r: seq<string>)
    ensures |r| >= 1
    decreases |s|
  {
    var i := FirstCut(s, 0);
    if i == |s| then [s]
    else
      var j := i + LeadingSpace(s[i..]);
      [s[..i]] + SplitSentences(s[j..])
  }

  /** The pieces of a split with the separators put back between them. */
  function Interleave(pieces: seq<string>, gaps: seq<string>): (r: string)
    requires |pieces| == |gaps| + 1
    ensures pieces[0] <= r
  {
    if |gaps| == 0 then pieces[0] else pieces[0] + gaps[0] + Interleave(pieces[1..], gaps[1..])
  }

  /** What makes `pieces` the sentence split of `s`: with whitespace runs `gaps` between them they
      spell `s`; each cut is right after a terminator, which stays with its sentence; a piece holds no
      cut of its own; and each whitespace run is maximal (the next piece does not start with
      whitespace). These conditions fix the pieces uniquely. */
  ghost predicate IsSentenceSplit(s: string, pieces: seq<string>, gaps: seq<string>) {
    && |pieces| == |gaps| + 1
    && s == Interleave(pieces, gaps)
    && (forall k :: 0 <= k < |gaps| ==> gaps[k] != [] && IsBlank(gaps[k]))
    && (forall k :: 0 <= k < |gaps| ==> pieces[k] != [] && IsTerminator(pieces[k][|pieces[k]| - 1]))
    && (forall k :: 0 <= k < |pieces| ==> NoCut(pieces[k]))
    && (forall k :: 1 <= k < |pieces| ==> pieces[k] == [] || !IsSpace(pieces[k][0]))
  }

  /** `SplitSentences` cuts exactly at the maximal whitespace runs that directly follow `.`, `?` or `!`,
      and loses nothing but those runs. */
  lemma {:induction false} SplitSentencesCorrect(s: string)
    ensures exists gaps :: IsSentenceSplit(s, SplitSentences(s), gaps)
    decreases |s|
  {
    var i := FirstCut(s, 0);
    if i == |s| {
      assert SplitSentences(s) == [s];
      assert NoCut(s);
      assert IsSentenceSplit(s, [s], []);
    } else {
      var j := i + LeadingSpace(s[i..]);
      SplitSentencesCorrect(s[j..]);
      var gaps' :| IsSentenceSplit(s[j..], SplitSentences(s[j..]), gaps');
      SplitStep(s, i, j, SplitSentences(s[j..]), gaps');
      assert [s[..i]] + SplitSentences(s[j..]) == SplitSentences(s);
    }
  }

  /** The text before the first cut ends with a terminator and holds no cut; the whitespace run after it
      is non-empty and maximal. */
  lemma FirstCutParts(s: string, i: nat, j: nat)
    requires i < |s| && i == FirstCut(s, 0) && j == i + LeadingSpace(s[i..])
    ensures i < j <= |s|
    ensures s[..i] != [] && IsTerminator(s[..i][i - 1]) && NoCut(s[..i])
    ensures s[i..j] != [] && IsBlank(s[i..j])
    ensures j < |s| ==> !IsSpace(s[j])
  {
    CutPrefix(s, i);
    GapAfterCut(s, i, j);
  }

  /** The text before the first cut ends with a terminator and holds no cut. */
  lemma CutPrefix(s: string, i: nat)
    requires i < |s| && IsCut(s, i)
    requires forall k :: 0 <= k < i ==> !IsCut(s, k)
    ensures s[..i] != [] && IsTerminator(s[..i][i - 1]) && NoCut(s[..i])
  {
    forall k | 0 <= k < i ensures !IsCut(s[..i], k) {
      assert IsCut(s[..i], k) ==> IsCut(s, k);
    }
  }

  /** The whitespace run starting at a whitespace character is non-empty and maximal. */
  lemma GapAfterCut(s: string, i: nat, j: nat)
    requires i < |s| && IsSpace(s[i]) && j == i + LeadingSpace(s[i..])
    ensures i < j <= |s|
    ensures s[i..j] != [] && IsBlank(s[i..j])
    ensures j < |s| ==> !IsSpace(s[j])
  {
    var t := s[i..];
    assert t[0] == s[i];
    assert s[i..j] == t[..j - i];
    assert j < |s| ==> t[j - i] == s[j];
  }

  /** A first sentence up to the first cut `i`, the whitespace run from `i` to `j`, then a split of the
      rest, is a split of the whole. */
  lemma SplitStep(s: string, i: nat, j: nat, pieces': seq<string>, gaps': seq<string>)
    requires i < |s| && i == FirstCut(s, 0) && j == i + LeadingSpace(s[i..])
    requires IsSentenceSplit(s[j..], pieces', gaps')
    ensures IsSentenceSplit(s, [s[..i]] + pieces', [s[i..j]] + gaps')
  {
    FirstCutParts(s, i, j);
    SplitAt(s, i, j, pieces', gaps');
  }

  /** A split of `s[j..]` extends to a split of `s` when `s[..i]` is a first sentence and `s[i..j]` a
      maximal whitespace run. */
  lemma SplitAt(s: string, i: nat, j: nat, pieces': seq<string>, gaps': seq<string>)
    requires i < j <= |s|
    requires s[..i] != [] && IsTerminator(s[..i][i - 1]) && NoCut(s[..i])
    requires s[i..j] != [] && IsBlank(s[i..j])
    requires j < |s| ==> !IsSpace(s[j])
    requires IsSentenceSplit(s[j..], pieces', gaps')
    ensures IsSentenceSplit(s, [s[..i]] + pieces', [s[i..j]] + gaps')
  {
    ThreeParts(s, i, j);
    assert j < |s| ==> s[j..][0] == s[j];
    SplitCons(s, s[..i], s[i..j], s[j..], pieces', gaps');
  }

  lemma ThreeParts(s: string, i: nat, j: nat)
    requires i <= j <= |s|
    ensures s == s[..i] + s[i..j] + s[j..]
  {
  }

  lemma SplitCons(s: string, p0: string, g0: string, rest: string, pieces': seq<string>, gaps': seq<string>)
    requires s == p0 + g0 + rest
    requires p0 != [] && IsTerminator(p0[|p0| - 1]) && NoCut(p0)
    requires g0 != [] && IsBlank(g0)
    requires rest != [] ==> !IsSpace(rest[0])
    requires IsSentenceSplit(rest, pieces', gaps')
    ensures IsSentenceSplit(s, [p0] + pieces', [g0] + gaps')
  {
    var pieces, gaps := [p0] + pieces', [g0] + gaps';
    assert pieces[1..] == pieces' && gaps[1..] == gaps';
    assert Interleave(pieces, gaps) == p0 + g0 + Interleave(pieces', gaps');
    assert pieces'[0] <= rest;
    forall k | 0 <= k < |gaps| ensures gaps[k] != [] && IsBlank(gaps[k]) {
      if k > 0 { assert gaps[k] == gaps'[k - 1]; }
    }
    forall k | 0 <= k < |gaps| ensures pieces[k] != [] && IsTerminator(pieces[k][|pieces[k]| - 1]) {
      if k > 0 { assert pieces[k] == pieces'[k - 1]; }
    }
    forall k | 0 <= k < |pieces| ensures NoCut(pieces[k]) {
      if k > 0 { assert pieces[k] == pieces'[k - 1]; }
    }
    forall k | 1 <= k < |pieces| ensures pieces[k] == [] || !IsSpace(pieces[k][0]) {
      assert pieces[k] == pieces'[k - 1];
    }
  }

  // ---------------------------------------------------------------------------------------------
  // The greedy packer of `chunkText`
  // ---------------------------------------------------------------------------------------------

  /** The loop state of `chunkText`: the sealed chunks and the open buffer `currentChunk`. */
  datatype PackState = PackState(chunks: seq<string>, current: string)

  /** One iteration of the `for` loop. The overflow test measures the buffer and the sentence without the
      space the other branch inserts, and both arms of `currentChunk ? " " : " "` give a space, so the
      first chunk starts with one. */
  function Step(st: PackState, sentence: string, maxLength: nat): PackState {
    if |st.current + sentence| > maxLength then
      PackState(st.chunks + [st.current], sentence)
    else
      PackState(st.chunks, st.current + (if st.current != "" then " " else " ") + sentence)
  }

  /** The loop state after the given sentences. */
  function PackPrefix(sentences: seq<string>, maxLength: nat): PackState
    decreases |sentences|
  {
    if sentences == [] then PackState([], "")
    else Step(PackPrefix(sentences[..|sentences| - 1], maxLength), sentences[|sentences| - 1], maxLength)
  }

  /** The chunks `chunkText` returns for these sentences: the sealed ones and, if it is not empty, the
      buffer left at the end. */
  function Pack(sentences: seq<string>, maxLength: nat): seq<string> {
    var st := PackPrefix(sentences, maxLength);
    if st.current != "" then st.chunks + [st.current] else st.chunks
  }

  /** `chunkText(text, maxLength)`. */
  method ChunkText(text: string, maxLength: nat) returns (chunks: seq<string>)
    ensures chunks == Pack(SplitSentences(text), maxLength)
  {
    var sentences := SplitSentences(text);
    chunks := [];
    var current := "";
    for i := 0 to |sentences|
      invariant PackPrefix(sentences[..i], maxLength) == PackState(chunks, current)
    {
      assert sentences[..i + 1][..i] == sentences[..i];
      var sentence := sentences[i];
      if |current + sentence| > maxLength {
        chunks := chunks + [current];
        current := sentence;
      } else {
        current := current + (if current != "" then " " else " ") + sentence;
      }
    }
    assert sentences[..|sentences|] == sentences;
    if current != "" {
      chunks := chunks + [current];
    }
  }

  // ---------------------------------------------------------------------------------------------
  // What the packer computes: a greedy partition of the sentences
  // ---------------------------------------------------------------------------------------------

  /** The elements of the lists, in order. */
  function Flatten<T>(xss: seq<seq<T>>): seq<T> {
    if xss == [] then [] else Flatten(xss[..|xss| - 1]) + xss[|xss| - 1]
  }

  lemma FlattenSnoc<T>(xss: seq<seq<T>>, xs: seq<T>)
    ensures Flatten(xss + [xs]) == Flatten(xss) + xs
  {
    assert (xss + [xs])[..|xss|] == xss;
  }

  /** Each group's sentences joined by single spaces. */
  function Rendered(gs: seq<seq<string>>): (r: seq<string>)
    ensures |r| == |gs|
    ensures forall k :: 0 <= k < |gs| ==> r[k] == Join(gs[k], " ")
  {
    seq(|gs|, k requires 0 <= k < |gs| => Join(gs[k], " "))
  }

  /** The chunks a partition yields: one per group, except that a last group whose text is empty yields
      none. */
  function Emitted(gs: seq<seq<string>>): (r: seq<string>)
    requires |gs| >= 1
    ensures |r| == |gs| || (|r| == |gs| - 1 && Join(gs[|gs| - 1], " ") == "")
    ensures forall k :: 0 <= k < |r| ==> r[k] == Join(gs[k], " ")
  {
    if Join(gs[|gs| - 1], " ") != "" then Rendered(gs) else Rendered(gs[..|gs| - 1])
  }

  /** `gs` cuts the sentences, preceded by the empty buffer the loop starts from, into consecutive
      non-empty groups, greedily: a sentence joins the group before it exactly when the group's text and
      the sentence together have at most `maxLength` characters. */
  ghost predicate IsGreedyPartition(gs: seq<seq<string>>, sentences: seq<string>, maxLength: nat) {
    && |gs| >= 1
    && (forall k :: 0 <= k < |gs| ==> gs[k] != [])
    && Flatten(gs) == [""] + sentences
    && (forall k :: 1 <= k < |gs| ==> |Join(gs[k - 1], " ")| + |gs[k][0]| > maxLength)
    && (forall k, j :: 0 <= k < |gs| && 1 <= j < |gs[k]| ==> |Join(gs[k][..j], " ")| + |gs[k][j]| <= maxLength)
  }

  /** The partition the packer builds, sentence by sentence (the proof's witness). */
  ghost function Groups(sentences: seq<string>, maxLength: nat): (gs: seq<seq<string>>)
    ensures |gs| >= 1
    decreases |sentences|
  {
    if sentences == [] then [[""]]
    else
      var gs := Groups(sentences[..|sentences| - 1], maxLength);
      var last, s := gs[|gs| - 1], sentences[|sentences| - 1];
      if |Join(last, " ")| + |s| > maxLength then gs + [[s]] else gs[..|gs| - 1] + [last + [s]]
  }

  /** Starting a new group with a sentence that overflows the last group keeps the partition greedy. */
  lemma GreedyNewGroup(gs: seq<seq<string>>, sentences: seq<string>, s: string, maxLength: nat)
    requires IsGreedyPartition(gs, sentences, maxLength)
    requires |Join(gs[|gs| - 1], " ")| + |s| > maxLength
    ensures IsGreedyPartition(gs + [[s]], sentences + [s], maxLength)
  {
    var gs' := gs + [[s]];
    assert gs'[..|gs|] == gs;
    assert Flatten(gs') == Flatten(gs) + [s];
    assert forall k :: 0 <= k < |gs| ==> gs'[k] == gs[k];
  }

  /** Adding a sentence that fits to the last group keeps the partition greedy. */
  lemma GreedyJoinLast(gs: seq<seq<string>>, sentences: seq<string>, s: string, maxLength: nat)
    requires IsGreedyPartition(gs, sentences, maxLength)
    requires |Join(gs[|gs| - 1], " ")| + |s| <= maxLength
    ensures IsGreedyPartition(gs[..|gs| - 1] + [gs[|gs| - 1] + [s]], sentences + [s], maxLength)
  {
    var gs' := gs[..|gs| - 1] + [gs[|gs| - 1] + [s]];
    JoinLastFlatten(gs, sentences, s);
    JoinLastBoundaries(gs, maxLength, s);
    JoinLastInside(gs, maxLength, s);
    assert forall k :: 0 <= k < |gs'| ==> gs'[k] != [] by {
      forall k | 0 <= k < |gs'| ensures gs'[k] != [] {
        if k < |gs| - 1 {
          assert gs'[k] == gs[k];
        }
      }
    }
  }

  lemma JoinLastFlatten(gs: seq<seq<string>>, sentences: seq<string>, s: string)
    requires |gs| >= 1 && Flatten(gs) == [""] + sentences
    ensures Flatten(gs[..|gs| - 1] + [gs[|gs| - 1] + [s]]) == [""] + (sentences + [s])
  {
    var init, last := gs[..|gs| - 1], gs[|gs| - 1];
    SnocSplit(gs);
    calc {
      Flatten(init + [last + [s]]);
    == { FlattenSnoc(init, last + [s]); }
      Flatten(init) + (last + [s]);
    == { ConcatAssoc(Flatten(init), last, [s]); }
      (Flatten(init) + last) + [s];
    == { FlattenSnoc(init, last); }
      Flatten(gs) + [s];
    == { ConcatAssoc([""], sentences, [s]); }
      [""] + (sentences + [s]);
    }
  }

  /** A non-empty list is its init followed by its last element. */
  lemma SnocSplit<T>(xs: seq<T>)
    requires |xs| >= 1
    ensures xs[..|xs| - 1] + [xs[|xs| - 1]] == xs
  {
  }

  lemma ConcatAssoc<T>(a: seq<T>, b: seq<T>, c: seq<T>)
    ensures a + (b + c) == (a + b) + c
  {
  }

  lemma JoinLastBoundaries(gs: seq<seq<string>>, maxLength: nat, s: string)
    requires |gs| >= 1
    requires forall k :: 1 <= k < |gs| ==> gs[k] != [] && |Join(gs[k - 1], " ")| + |gs[k][0]| > maxLength
    ensures var gs' := gs[..|gs| - 1] + [gs[|gs| - 1] + [s]];
      forall k :: 1 <= k < |gs'| ==> |Join(gs'[k - 1], " ")| + |gs'[k][0]| > maxLength
  {
    var gs' := gs[..|gs| - 1] + [gs[|gs| - 1] + [s]];
    forall k | 1 <= k < |gs'| ensures |Join(gs'[k - 1], " ")| + |gs'[k][0]| > maxLength {
      assert gs'[k - 1] == gs[k - 1];
      assert gs'[k][0] == gs[k][0];
    }
  }

  lemma JoinLastInside(gs: seq<seq<string>>, maxLength: nat, s: string)
    requires |gs| >= 1
    requires forall k, j :: 0 <= k < |gs| && 1 <= j < |gs[k]| ==> |Join(gs[k][..j], " ")| + |gs[k][j]| <= maxLength
    requires |Join(gs[|gs| - 1], " ")| + |s| <= maxLength
    ensures var gs' := gs[..|gs| - 1] + [gs[|gs| - 1] + [s]];
      forall k, j :: 0 <= k < |gs'| && 1 <= j < |gs'[k]| ==> |Join(gs'[k][..j], " ")| + |gs'[k][j]| <= maxLength
  {
    var n, last := |gs|, gs[|gs| - 1];
    var last' := last + [s];
    var gs' := gs[..n - 1] + [last'];
    assert last'[..|last|] == last;
    forall k, j | 0 <= k < n && 1 <= j < |gs'[k]|
      ensures |Join(gs'[k][..j], " ")| + |gs'[k][j]| <= maxLength
    {
      if k < n - 1 {
        assert gs'[k] == gs[k];
      } else if j < |last| {
        assert last'[..j] == last[..j];
      }
    }
  }

  lemma {:induction false} GroupsAreGreedy(sentences: seq<string>, maxLength: nat)
    ensures IsGreedyPartition(Groups(sentences, maxLength), sentences, maxLength)
    decreases |sentences|
  {
    if sentences == [] {
      assert Flatten([[""]]) == Flatten<string>([]) + [""];
    } else {
      var prefix, s := sentences[..|sentences| - 1], sentences[|sentences| - 1];
      GroupsAreGreedy(prefix, maxLength);
      assert sentences == prefix + [s];
      var gs := Groups(prefix, maxLength);
      if |Join(gs[|gs| - 1], " ")| + |s| > maxLength {
        GreedyNewGroup(gs, prefix, s, maxLength);
      } else {
        GreedyJoinLast(gs, prefix, s, maxLength);
      }
    }
  }

  /** The loop state after some sentences: the sealed chunks are the groups but the last, the buffer is
      the last group's text. */
  lemma {:induction false} GroupsArePacked(sentences: seq<string>, maxLength: nat)
    ensures var gs := Groups(sentences, maxLength);
      PackPrefix(sentences, maxLength) == PackState(Rendered(gs[..|gs| - 1]), Join(gs[|gs| - 1], " "))
    decreases |sentences|
  {
    if sentences != [] {
      var prefix, s := sentences[..|sentences| - 1], sentences[|sentences| - 1];
      GroupsArePacked(prefix, maxLength);
      var gs := Groups(prefix, maxLength);
      var n, last := |gs|, gs[|gs| - 1];
      if |Join(last, " ")| + |s| > maxLength {
        var gs' := gs + [[s]];
        assert gs'[..n] == gs;
        assert Rendered(gs) == Rendered(gs[..n - 1]) + [Join(last, " ")];
        assert Join([s], " ") == s;
      } else {
        var gs' := gs[..n - 1] + [last + [s]];
        assert gs'[..n - 1] == gs[..n - 1];
        JoinSnoc(last, s, " ");
      }
    }
  }

  /** `chunkText` packs greedily: its chunks are the groups of a greedy partition of the sentences (with
      the empty starting buffer as the first sentence of the first group), every sentence in exactly one
      group and in order, consecutive sentences of a chunk separated by one space, and a chunk sealed
      exactly when the next sentence would overflow it. The empty starting buffer explains both quirks of
      the first chunk: it is `""` when the first sentence alone overflows, and otherwise starts with a
      space. A last buffer that is empty is not emitted. */
  lemma PackIsGreedy(sentences: seq<string>, maxLength: nat)
    ensures exists gs :: IsGreedyPartition(gs, sentences, maxLength) && Pack(sentences, maxLength) == Emitted(gs)
  {
    var gs := Groups(sentences, maxLength);
    GroupsAreGreedy(sentences, maxLength);
    GroupsAreEmitted(sentences, maxLength);
    assert IsGreedyPartition(gs, sentences, maxLength) && Pack(sentences, maxLength) == Emitted(gs);
  }

  lemma GroupsAreEmitted(sentences: seq<string>, maxLength: nat)
    ensures Pack(sentences, maxLength) == Emitted(Groups(sentences, maxLength))
  {
    var gs := Groups(sentences, maxLength);
    GroupsArePacked(sentences, maxLength);
    var n := |gs|;
    if Join(gs[n - 1], " ") != "" {
      assert Rendered(gs) == Rendered(gs[..n - 1]) + [Join(gs[n - 1], " ")];
    }
  }

  lemma {:induction false} FlattenHas<T>(xss: seq<seq<T>>, k: nat, j: nat)
    requires k < |xss| && j < |xss[k]|
    ensures xss[k][j] in Flatten(xss)
    decreases |xss|
  {
    if k < |xss| - 1 {
      FlattenHas(xss[..|xss| - 1], k, j);
    }
  }

  /** A chunk longer than `maxLength + 1` is a single sentence: packing two or more sentences keeps a
      chunk within `maxLength + 1` (the test ignores the space it adds), and only one sentence on its
      own may exceed the limit. */
  lemma ChunkLengthBound(sentences: seq<string>, maxLength: nat)
    ensures forall c :: c in Pack(sentences, maxLength) ==> |c| <= maxLength + 1 || c in sentences
  {
    var gs := Groups(sentences, maxLength);
    GroupsAreGreedy(sentences, maxLength);
    GroupsAreEmitted(sentences, maxLength);
    var chunks := Emitted(gs);
    forall c | c in chunks ensures |c| <= maxLength + 1 || c in sentences {
      var k :| 0 <= k < |chunks| && chunks[k] == c;
      GroupLengthBound(gs, sentences, maxLength, k);
    }
  }

  /** One group of a greedy partition: a single sentence, or within `maxLength + 1` characters. */
  lemma GroupLengthBound(gs: seq<seq<string>>, sentences: seq<string>, maxLength: nat, k: nat)
    requires IsGreedyPartition(gs, sentences, maxLength) && k < |gs|
    ensures |Join(gs[k], " ")| <= maxLength + 1 || Join(gs[k], " ") in sentences
  {
    var g := gs[k];
    if |g| == 1 {
      FlattenHas(gs, k, 0);
      assert g[0] in [""] + sentences;
    } else {
      assert g == g[..|g| - 1] + [g[|g| - 1]];
      JoinSnoc(g[..|g| - 1], g[|g| - 1], " ");
    }
  }

  /** The loop state after the first sentence has been packed: chunk 0 is `""` if that sentence alone
      overflows, and otherwise (sealed or still open) starts with a space and the sentence. */
  lemma {:induction false} FirstChunkOfPrefix(sentences: seq<string>, maxLength: nat)
    requires |sentences| >= 1
    ensures var st, s0 := PackPrefix(sentences, maxLength), sentences[0];
      if |s0| > maxLength then |st.chunks| >= 1 && st.chunks[0] == ""
      else if st.chunks == [] then " " + s0 <= st.current
      else " " + s0 <= st.chunks[0]
    decreases |sentences|
  {
    var prefix := sentences[..|sentences| - 1];
    if |sentences| > 1 {
      FirstChunkOfPrefix(prefix, maxLength);
      assert prefix[0] == sentences[0];
      var st := PackPrefix(prefix, maxLength);
      var s0 := sentences[0];
      if |s0| <= maxLength && st.chunks == [] {
        assert " " + s0 <= st.current + (if st.current != "" then " " else " ") + sentences[|sentences| - 1];
      }
    } else {
      assert prefix == [];
      assert "" + sentences[0] == sentences[0];
    }
  }

  /** Chunk 0 is `""` exactly when the first sentence alone is longer than `maxLength`; otherwise it is a
      space followed by that sentence (and possibly more). Some chunk is always emitted. */
  lemma FirstChunk(sentences: seq<string>, maxLength: nat)
    requires |sentences| >= 1
    ensures var chunks := Pack(sentences, maxLength);
      && |chunks| >= 1
      && (chunks[0] == "" <==> |sentences[0]| > maxLength)
      && (chunks[0] != "" ==> " " + sentences[0] <= chunks[0])
  {
    FirstChunkOfPrefix(sentences, maxLength);
    var st, s0 := PackPrefix(sentences, maxLength), sentences[0];
    var chunks := Pack(sentences, maxLength);
    if st.chunks != [] {
      assert chunks[0] == st.chunks[0];
    } else {
      assert |s0| <= maxLength && " " + s0 <= st.current;
      assert chunks == [st.current];
    }
    assert |s0| <= maxLength ==> " " + s0 <= chunks[0];
  }

  /** Empty text is one empty sentence, which the loop turns into the single chunk `" "`. */
  lemma ChunkEmptyText(maxLength: nat)
    ensures Pack(SplitSentences(""), maxLength) == [" "]
  {
    assert SplitSentences("") == [""];
    assert [""][..0] == [];
    assert PackPrefix([""], maxLength) == Step(PackState([], ""), "", maxLength);
    assert PackPrefix([""], maxLength) == PackState([], " ");
  }

  // ---------------------------------------------------------------------------------------------
  // Map and reduce stages of `POST`
  // ---------------------------------------------------------------------------------------------

  /** The `maxLength` the route passes to `chunkText`. */
  const ChunkLimit: nat := 3000

  /** The user message `summarizeChunk` sends for one chunk. */
  function ChunkPrompt(chunk: string): string {
    "Summarize the following research content:\n\n" + chunk
  }

  const ReduceHeader: string := "Summarize these individual summaries into one concise summary:\n\n"

  /** `finalSummaryPrompt`: the header, then the chunk summaries joined by blank lines. */
  function ReducePrompt(summaries: seq<string>): string {
    ReduceHeader + Join(summaries, "\n\n")
  }

  /** `Promise.all(chunks.map(summarizeChunk))`, read as an order-preserving sequential map: all summaries,
      or nothing when any request fails. */
  function SummarizeAll(chunks: seq<string>, complete: string -> Completion): (r: Option<seq<string>>)
    ensures r.None? <==> exists k :: 0 <= k < |chunks| && complete(ChunkPrompt(chunks[k])).RequestFailed?
    ensures r.Some? ==> |r.value| == |chunks|
    ensures r.Some? ==> forall k :: 0 <= k < |chunks| ==> r.value[k] == ContentOrEmpty(complete(ChunkPrompt(chunks[k])).content)
  {
    if chunks == [] then Some([])
    else
      var first := complete(ChunkPrompt(chunks[0]));
      var rest := SummarizeAll(chunks[1..], complete);
      assert forall k :: 1 <= k < |chunks| ==> chunks[1..][k - 1] == chunks[k];
      if first.RequestFailed? || rest.None? then None
      else Some([ContentOrEmpty(first.content)] + rest.value)
  }

  /** The summary of chunk `k` appears in the reduce prompt, whole, after the header and after the
      summaries of all earlier chunks. */
  lemma ReducePromptOrder(summaries: seq<string>, k: nat)
    requires k < |summaries|
    ensures var p, o := ReducePrompt(summaries), |ReduceHeader| + JoinOffset(summaries, "\n\n", k);
      && p[..|ReduceHeader|] == ReduceHeader
      && o + |summaries[k]| <= |p|
      && p[o..o + |summaries[k]|] == summaries[k]
      && (k > 0 ==> JoinOffset(summaries, "\n\n", k - 1) + |summaries[k - 1]| < JoinOffset(summaries, "\n\n", k))
  {
    var j := Join(summaries, "\n\n");
    JoinSlice(summaries, "\n\n", k);
    SliceOfAppend(ReduceHeader, j, JoinOffset(summaries, "\n\n", k), JoinOffset(summaries, "\n\n", k) + |summaries[k]|);
  }

  /** What `POST /api/analyze` answers. */
  datatype AnalyzeResponse =
    | SummaryStream(prompt: string)        // the reduce stage's token stream, for this prompt
    | ServerError(status: int, message: string)

  const AnalyzeFailure: AnalyzeResponse := ServerError(500, "Failed to generate summary")

  /** `POST /api/analyze`. `text` is the body's `text` field (absent or not a string: `None`, and
      `text.split` throws); `complete` answers each chunk's completion request; `streamOpens` says
      whether the streaming request for a prompt can be opened. Every failure ends in the one 500. */
  method Post(text: Option<string>, complete: string -> Completion, streamOpens: string -> bool)
    returns (response: AnalyzeResponse)
    ensures text.None? ==> response == AnalyzeFailure
    ensures text.Some? ==>
      var chunks := Pack(SplitSentences(text.value), ChunkLimit);
      var summaries := SummarizeAll(chunks, complete);
      if summaries.None? || !streamOpens(ReducePrompt(summaries.value)) then response == AnalyzeFailure
      else response == SummaryStream(ReducePrompt(summaries.value))
  {
    if text.None? {
      return AnalyzeFailure;
    }
    var chunks := ChunkText(text.value, ChunkLimit);
    var summaries := SummarizeAll(chunks, complete);
    if summaries.None? {
      return AnalyzeFailure;
    }
    var prompt := ReducePrompt(summaries.value);
    if !streamOpens(prompt) {
      return AnalyzeFailure;
    }
    response := SummaryStream(prompt);
  }
}
