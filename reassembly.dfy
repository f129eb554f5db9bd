/**
 * The client's reader of the summary stream (`fetchSummary` in the home page). The `/api/analyze` route
 * answers with newline-delimited JSON records; the page reads the body fragment by fragment, keeps the
 * text after the last newline as carry-over, parses every complete non-blank line, appends each record's
 * `choices[0].delta.content` to the summary it shows, and after the end of the stream makes one last
 * attempt on the carry-over.
 *
 * The reader's result depends only on the concatenation of the fragments: `ReadLoop` followed by `Drain`
 * computes `Accumulate(Lines(Concat(fragments)))`, whatever the fragment boundaries.
 */
module StreamReassembly {
  import opened Options
  import opened Strings
  import opened Provider

  /** What `JSON.parse(line)` followed by `parsed.choices?.[0]?.delta?.content` yields: the line does
      not parse (or the access throws), or it is a record whose delta content may be absent. */
  datatype Parsed = Malformed | Record(deltaContent: Option<string>)

  /** `!line.trim()` is false (the trimmed line is empty exactly when the line is blank): the line is
      handed to `JSON.parse`. */
  predicate IsAttempted(line: string) {
    !IsBlank(line)
  }

  /** What one line adds to the summary: nothing when it is blank or malformed, otherwise its delta
      content, with an absent or empty content read as `""`. */
  function Contribution(line: string, parse: string -> Parsed): (c: string)
    ensures !IsAttempted(line) || parse(line).Malformed? ==> c == ""
    ensures IsAttempted(line) && parse(line).Record? ==> c == ContentOrEmpty(parse(line).deltaContent)
  {
    if !IsAttempted(line) then ""
    else match parse(line)
      case Malformed => ""
      case Record(content) => ContentOrEmpty(content)
  }

  /** The summary after the given lines have been processed in order. */
  function Accumulate(lines: seq<string>, parse: string -> Parsed): string
  {
    if lines == [] then "" else Accumulate(lines[..|lines| - 1], parse) + Contribution(lines[|lines| - 1], parse)
  }

  /** The lines handed to `JSON.parse`, in order: the non-blank ones. */
  function Attempts(lines: seq<string>): (r: seq<string>)
    ensures forall k :: 0 <= k < |r| ==> IsAttempted(r[k]) && r[k] in lines
  {
    if lines == [] then []
    else
      var last := lines[|lines| - 1];
      Attempts(lines[..|lines| - 1]) + (if IsAttempted(last) then [last] else [])
  }

  /** The values passed to `setSummary`, in order: the summary so far after each line that parsed. */
  function Published(lines: seq<string>, parse: string -> Parsed): seq<string>
  {
    if lines == [] then []
    else
      var last := lines[|lines| - 1];
      Published(lines[..|lines| - 1], parse)
        + (if IsAttempted(last) && parse(last).Record? then [Accumulate(lines, parse)] else [])
  }

  /** The stream as read so far: the fragments, concatenated in order. */
  function Concat(fragments: seq<string>): string
  {
    if fragments == [] then "" else Concat(fragments[..|fragments| - 1]) + fragments[|fragments| - 1]
  }

  /** Each value extends the one before it. */
  predicate IsChain(xs: seq<string>) {
    forall k :: 0 <= k < |xs| - 1 ==> xs[k] <= xs[k + 1]
  }

  // ---------------------------------------------------------------------------------------------
  // Properties of the accumulated summary
  // ---------------------------------------------------------------------------------------------

  /** Processing two runs of lines one after the other adds their contributions one after the other. */
  lemma {:induction false} AccumulateAppend(xs: seq<string>, ys: seq<string>, parse: string -> Parsed)
    ensures Accumulate(xs + ys, parse) == Accumulate(xs, parse) + Accumulate(ys, parse)
    decreases |ys|
  {
    if ys != [] {
      var ys' := ys[..|ys| - 1];
      AccumulateAppend(xs, ys', parse);
      assert (xs + ys)[..|xs + ys| - 1] == xs + ys';
    } else {
      assert xs + ys == xs;
    }
  }

  /** A blank line, or one that fails to parse, adds nothing and does not stop the lines after it. */
  lemma SkippedLine(xs: seq<string>, line: string, ys: seq<string>, parse: string -> Parsed)
    requires !IsAttempted(line) || parse(line).Malformed?
    ensures Accumulate(xs + [line] + ys, parse) == Accumulate(xs + ys, parse)
  {
    AccumulateAppend(xs + [line], ys, parse);
    AccumulateAppend(xs, ys, parse);
    assert (xs + [line])[..|xs|] == xs;
  }

  /** The published summaries only grow, each one extending the previous; the last one is the whole
      summary, and when nothing is published the summary is empty (so the page, which starts from `""`,
      always ends up showing the accumulated summary). */
  lemma {:induction false} PublishedGrows(lines: seq<string>, parse: string -> Parsed)
    ensures var p, acc := Published(lines, parse), Accumulate(lines, parse);
      && IsChain(p)
      && (forall k :: 0 <= k < |p| ==> p[k] <= acc)
      && (p != [] ==> p[|p| - 1] == acc)
      && (p == [] ==> acc == "")
    decreases |lines|
  {
    if lines != [] {
      var init, last := lines[..|lines| - 1], lines[|lines| - 1];
      PublishedGrows(init, parse);
      var p0, acc0 := Published(init, parse), Accumulate(init, parse);
      var acc := Accumulate(lines, parse);
      assert acc == acc0 + Contribution(last, parse);
      forall k | 0 <= k < |p0| ensures p0[k] <= acc {
        PrefixTrans(p0[k], acc0, acc);
      }
      if IsAttempted(last) && parse(last).Record? {
        assert Published(lines, parse) == p0 + [acc];
        ChainSnoc(p0, acc);
      } else {
        assert Published(lines, parse) == p0;
        assert acc == acc0;
      }
    }
  }

  lemma PrefixTrans(a: string, b: string, c: string)
    requires a <= b && b <= c
    ensures a <= c
  {
  }

  /** A value that extends every element of a chain extends the chain. */
  lemma ChainSnoc(p: seq<string>, x: string)
    requires IsChain(p) && forall k :: 0 <= k < |p| ==> p[k] <= x
    ensures IsChain(p + [x]) && forall k :: 0 <= k < |p + [x]| ==> (p + [x])[k] <= x
  {
    var q := p + [x];
    forall k | 0 <= k < |q| - 1 ensures q[k] <= q[k + 1] {
      assert q[k] == p[k];
      if k + 1 < |p| {
        assert q[k + 1] == p[k + 1];
      }
    }
    forall k | 0 <= k < |q| ensures q[k] <= x {
      if k < |p| {
        assert q[k] == p[k];
      }
    }
  }

  /** The server writes each record followed by a newline. Such a stream, however it is fragmented, is
      read as exactly its records: the empty piece after the final newline adds nothing. */
  lemma ServerStream(records: seq<string>, parse: string -> Parsed)
    requires |records| >= 1
    requires forall k :: 0 <= k < |records| ==> '\n' !in records[k]
    ensures Lines(Join(records, "\n") + "\n") == records + [""]
    ensures Accumulate(Lines(Join(records, "\n") + "\n"), parse) == Accumulate(records, parse)
  {
    JoinSnoc(records, "", "\n");
    assert Join(records, "\n") + "\n" == Join(records + [""], "\n");
    LinesOfJoin(records + [""]);
    assert (records + [""])[..|records|] == records;
    assert !IsAttempted("");
  }

  // ---------------------------------------------------------------------------------------------
  // The reader
  // ---------------------------------------------------------------------------------------------

  /** Splitting the stream read so far: the complete lines already seen stay, and the carry-over
      followed by the new fragment splits into the rest. */
  lemma CarryStep(s: string, fragment: string)
    ensures var ls := Lines(s);
      Lines(s + fragment) == ls[..|ls| - 1] + Lines(ls[|ls| - 1] + fragment)
  {
    var ls, lf := Lines(s), Lines(fragment);
    var carry := ls[|ls| - 1];
    LinesAppend(s, fragment);
    LinesHaveNoNewline(s);
    CarryLines(carry, fragment);
    SeqAssoc(ls[..|ls| - 1], [carry + lf[0]], lf[1..]);
  }

  /** A piece without a newline fuses with the first line of what follows it. */
  lemma CarryLines(carry: string, fragment: string)
    requires '\n' !in carry
    ensures var lf := Lines(fragment); Lines(carry + fragment) == [carry + lf[0]] + lf[1..]
  {
    var lf := Lines(fragment);
    LinesAppend(carry, fragment);
    LinesOfLine(carry);
    assert Lines(carry)[..0] + [carry + lf[0]] + lf[1..] == [carry + lf[0]] + lf[1..];
  }

  lemma SeqAssoc<T>(a: seq<T>, b: seq<T>, c: seq<T>)
    ensures a + b + c == a + (b + c)
  {
  }

  lemma ConcatSnoc(fragments: seq<string>, i: nat)
    requires i < |fragments|
    ensures Concat(fragments[..i + 1]) == Concat(fragments[..i]) + fragments[i]
  {
    assert fragments[..i + 1][..i] == fragments[..i];
  }

  /** One more fragment read: the complete lines of the buffer and the fragment join the lines already
      handled, and their last piece is the new buffer. */
  lemma ReadStep(fragments: seq<string>, i: nat, done: seq<string>, buffer: string)
    requires i < |fragments|
    requires Lines(Concat(fragments[..i])) == done + [buffer]
    ensures var lines := Lines(buffer + fragments[i]);
      Lines(Concat(fragments[..i + 1])) == (done + lines[..|lines| - 1]) + [lines[|lines| - 1]]
  {
    var lines := Lines(buffer + fragments[i]);
    var ls := Lines(Concat(fragments[..i]));
    ConcatSnoc(fragments, i);
    CarryStep(Concat(fragments[..i]), fragments[i]);
    LastOfSnoc(done, buffer, ls);
    SnocParts(done, lines);
  }

  lemma LastOfSnoc<T>(xs: seq<T>, x: T, ys: seq<T>)
    requires ys == xs + [x]
    ensures ys[..|ys| - 1] == xs && ys[|ys| - 1] == x
  {
  }

  lemma SnocParts<T>(xs: seq<T>, ys: seq<T>)
    requires |ys| >= 1
    ensures xs + ys == (xs + ys[..|ys| - 1]) + [ys[|ys| - 1]]
  {
    assert ys == ys[..|ys| - 1] + [ys[|ys| - 1]];
  }

  lemma PrefixSnoc<T>(xs: seq<T>, ys: seq<T>, j: nat)
    requires j < |ys|
    ensures xs + ys[..j + 1] == (xs + ys[..j]) + [ys[j]]
  {
    assert ys[..j + 1] == ys[..j] + [ys[j]];
  }

  /** One line processed after `done`: the state the loop body leaves. */
  lemma LineStep(done: seq<string>, line: string, parse: string -> Parsed)
    ensures var lines := done + [line];
      && lines[..|done|] == done
      && Accumulate(lines, parse) == Accumulate(done, parse) + Contribution(line, parse)
      && Attempts(lines) == Attempts(done) + (if IsAttempted(line) then [line] else [])
      && Published(lines, parse) == Published(done, parse)
           + (if IsAttempted(line) && parse(line).Record? then [Accumulate(lines, parse)] else [])
  {
    assert (done + [line])[..|done|] == done;
  }

  /** The inner `for` loop over the complete lines of the buffer: each line that is not blank is parsed;
      a line that parses adds its content to the result, which is then published. */
  method HandleLines(lines: seq<string>, result: string, attempts: seq<string>, published: seq<string>,
                     ghost done: seq<string>, parse: string -> Parsed)
    returns (result': string, attempts': seq<string>, published': seq<string>)
    requires result == Accumulate(done, parse)
    requires attempts == Attempts(done) && published == Published(done, parse)
    ensures result' == Accumulate(done + lines, parse)
    ensures attempts' == Attempts(done + lines)
    ensures published' == Published(done + lines, parse)
  {
    result', attempts', published' := result, attempts, published;
    assert done + lines[..0] == done;
    for j := 0 to |lines|
      invariant result' == Accumulate(done + lines[..j], parse)
      invariant attempts' == Attempts(done + lines[..j])
      invariant published' == Published(done + lines[..j], parse)
    {
      var line := lines[j];
      PrefixSnoc(done, lines, j);
      LineStep(done + lines[..j], line, parse);
      if Trim(line) != "" {
        attempts' := attempts' + [line];
        match parse(line)
        case Record(content) =>
          result' := result' + ContentOrEmpty(content);
          published' := published' + [result'];
        case Malformed =>
      }
    }
    assert lines[..|lines|] == lines;
  }

  /** The `while (true)` loop of `fetchSummary`: every fragment is appended to the buffer, the buffer is
      split on newlines, its last piece is kept as the new buffer and the complete lines before it are
      handled. On return, the lines handled are the complete lines of the whole stream and the buffer is
      the text after its last newline. */
  method ReadLoop(fragments: seq<string>, parse: string -> Parsed)
    returns (buffer: string, result: string, attempts: seq<string>, published: seq<string>)
    ensures var ls := Lines(Concat(fragments));
      && buffer == ls[|ls| - 1]
      && result == Accumulate(ls[..|ls| - 1], parse)
      && attempts == Attempts(ls[..|ls| - 1])
      && published == Published(ls[..|ls| - 1], parse)
  {
    buffer, result, attempts, published := "", "", [], [];
    ghost var done: seq<string> := [];
    var i := 0;
    while i < |fragments|
      invariant 0 <= i <= |fragments|
      invariant Lines(Concat(fragments[..i])) == done + [buffer]
      invariant result == Accumulate(done, parse)
      invariant attempts == Attempts(done)
      invariant published == Published(done, parse)
    {
      var lines := Lines(buffer + fragments[i]);
      ReadStep(fragments, i, done, buffer);
      var complete := lines[..|lines| - 1];
      buffer := lines[|lines| - 1];
      result, attempts, published := HandleLines(complete, result, attempts, published, done, parse);
      done := done + complete;
      i := i + 1;
    }
    assert fragments[..|fragments|] == fragments;
    LastOfSnoc(done, buffer, Lines(Concat(fragments)));
  }

  /** The final attempt on the carry-over after the end of the stream: it is parsed only when it is not
      blank, and then contributes like any complete line. */
  method Drain(buffer: string, result: string, attempts: seq<string>, published: seq<string>,
               ghost done: seq<string>, parse: string -> Parsed)
    returns (result': string, attempts': seq<string>, published': seq<string>)
    requires result == Accumulate(done, parse)
    requires attempts == Attempts(done) && published == Published(done, parse)
    ensures result' == Accumulate(done + [buffer], parse)
    ensures attempts' == Attempts(done + [buffer])
    ensures published' == Published(done + [buffer], parse)
  {
    LineStep(done, buffer, parse);
    result', attempts', published' := result, attempts, published;
    if Trim(buffer) != "" {
      attempts' := attempts' + [buffer];
      match parse(buffer)
      case Record(content) =>
        result' := result' + ContentOrEmpty(content);
        published' := published' + [result'];
      case Malformed =>
    }
  }

  /** What the page gets back for its request to `/api/analyze`: a request or response-decoding
      failure, a response without a body, or a body delivering `fragments` (already decoded to text),
      after which the reader either reports the end of the stream or rejects. */
  datatype Download =
    | FetchFailed
    | NoBody
    | Body(fragments: seq<string>, readFails: bool)

  const FailureMessage: string := "Failed to generate summary."

  /** `fetchSummary`: `shown` is every value the summary takes, starting with the reset to `""`, and
      `summary` is the one left on screen. A clean stream shows the accumulated summary of its lines,
      however it was fragmented; any failure outside the per-line parsing replaces it with the failure
      message. */
  method FetchSummary(download: Download, parse: string -> Parsed) returns (summary: string, shown: seq<string>)
    ensures |shown| >= 1 && shown[0] == "" && summary == shown[|shown| - 1]
    ensures download.Body? && !download.readFails ==>
      var ls := Lines(Concat(download.fragments));
      && summary == Accumulate(ls, parse)
      && shown == [""] + Published(ls, parse)
    ensures download.Body? && download.readFails ==>
      var ls := Lines(Concat(download.fragments));
      && summary == FailureMessage
      && shown == [""] + Published(ls[..|ls| - 1], parse) + [FailureMessage]
    ensures !download.Body? ==> summary == FailureMessage && shown == ["", FailureMessage]
  {
    shown := [""];
    if !download.Body? {
      summary := FailureMessage;
      shown := shown + [summary];
      return;
    }
    var buffer, result, attempts, published := ReadLoop(download.fragments, parse);
    if download.readFails {
      summary := FailureMessage;
      shown := shown + published + [summary];
      return;
    }
    ghost var ls := Lines(Concat(download.fragments));
    ghost var done := ls[..|ls| - 1];
    assert ls == done + [buffer];
    result, attempts, published := Drain(buffer, result, attempts, published, done, parse);
    PublishedGrows(ls, parse);
    summary := if published == [] then "" else published[|published| - 1];
    shown := shown + published;
  }
}
