/**
 * The synthesis route (`POST /api/generate-full-summary`): it checks for an OpenAI key and for a
 * non-empty list of summaries, groups the summary texts by topic in a dictionary, writes one prompt
 * with a section per topic, and streams the model's answer back. Opening the stream is a parameter.
 */
module FullSummary {
  import opened Options
  import opened Strings
  import opened Provider
  import opened JsObjects

  /** One element of `allSummaries`: its topic, its text and its timestamp. */
  datatype Summary = Summary(topic: string, text: string, timestamp: int)

  /** `await request.json()`: the body does not parse, or it does and `allSummaries` is an array
      (`Some`) or is missing or not an array (`None`). */
  datatype Request = MalformedBody | SummariesBody(allSummaries: Option<seq<Summary>>)

  /** The route's replies: 400 `{error: "API key missing"}`, 400 `{error: "No summaries provided"}`,
      the plain-text stream of the answer to `prompt`, and 500
      `{error: "Failed to generate comprehensive summary"}`. */
  datatype Response = ApiKeyMissing | NoSummaries | SynthesisStream(prompt: string) | SynthesisFailed

  // ---------------------------------------------------------------------------------------------
  // Grouping by topic
  // ---------------------------------------------------------------------------------------------

  /** The distinct topics of `all`, in order of first appearance: the key order of `summariesByTopic`. */
  function Topics(all: seq<Summary>): (r: seq<string>)
    ensures forall t :: t in r <==> exists i :: 0 <= i < |all| && all[i].topic == t
    ensures forall i, j :: 0 <= i < j < |r| ==> r[i] != r[j]
  {
    if all == [] then []
    else
      var last := all[|all| - 1];
      var r := Topics(all[..|all| - 1]);
      assert forall i :: 0 <= i < |all| - 1 ==> all[..|all| - 1][i] == all[i];
      if last.topic in r then r else r + [last.topic]
  }

  /** The texts of the summaries on topic `t`, in input order: the array `summariesByTopic[t]`. */
  function TextsOf(all: seq<Summary>, t: string): (r: seq<string>)
    ensures |r| <= |all|
  {
    if all == [] then []
    else
      var last := all[|all| - 1];
      TextsOf(all[..|all| - 1], t) + (if last.topic == t then [last.text] else [])
  }

  /** Some summary's topic names a property `summariesByTopic` inherits from `Object.prototype`. */
  predicate HasInheritedTopic(all: seq<Summary>) {
    exists i :: 0 <= i < |all| && IsInheritedKey(all[i].topic)
  }

  /** Whether a lookup in `summariesByTopic` meets an inherited property: the first summary whose
      topic names one is where the `forEach` throws. */
  method FindInheritedTopic(all: seq<Summary>) returns (found: bool)
    ensures found <==> HasInheritedTopic(all)
  {
    for i := 0 to |all|
      invariant forall k :: 0 <= k < i ==> !IsInheritedKey(all[k].topic)
    {
      if IsInheritedKey(all[i].topic) {
        return true;
      }
    }
    return false;
  }

  /** The `forEach` that fills `summariesByTopic`. For a topic that names an inherited property, the
      lookup finds a truthy value, so no array is made, and `.push` on that value throws: `failed`.
      The throw discards the half-filled dictionary, so the model looks for such a topic before it
      groups. Otherwise `topics` is the dictionary's key order and `groups` its contents. */
  method GroupByTopic(all: seq<Summary>) returns (failed: bool, topics: seq<string>, groups: map<string, seq<string>>)
    ensures failed <==> HasInheritedTopic(all)
    ensures !failed ==> topics == Topics(all)
    ensures !failed ==> forall t :: t in groups <==> t in topics
    ensures !failed ==> forall t | t in groups :: groups[t] == TextsOf(all, t)
  {
    topics, groups := [], map[];
    failed := FindInheritedTopic(all);
    if failed {
      return;
    }
    for i := 0 to |all|
      invariant topics == Topics(all[..i])
      invariant forall t :: t in groups <==> t in topics
      invariant forall t | t in groups :: groups[t] == TextsOf(all[..i], t)
    {
      var summary := all[i];
      assert all[..i + 1][..i] == all[..i];
      if summary.topic !in groups {
        groups := groups[summary.topic := []];
        topics := topics + [summary.topic];
        NoTexts(all[..i], summary.topic);
      }
      groups := groups[summary.topic := groups[summary.topic] + [summary.text]];
    }
    assert all[..|all|] == all;
  }

  /** A topic that does not occur has no texts. */
  lemma {:induction false} NoTexts(all: seq<Summary>, t: string)
    requires t !in Topics(all)
    ensures TextsOf(all, t) == []
  {
    if all != [] {
      assert all[|all| - 1].topic != t;
      NoTexts(all[..|all| - 1], t);
    }
  }

  /** The sizes of the groups of `topics`, added up. */
  function GroupSizes(all: seq<Summary>, topics: seq<string>): nat {
    if topics == [] then 0
    else GroupSizes(all, topics[..|topics| - 1]) + |TextsOf(all, topics[|topics| - 1])|
  }

  /** One more summary adds one to the size of its own group and to no other. */
  lemma {:induction false} GroupSizesSnoc(all: seq<Summary>, s: Summary, topics: seq<string>)
    requires forall i, j :: 0 <= i < j < |topics| ==> topics[i] != topics[j]
    ensures GroupSizes(all + [s], topics) == GroupSizes(all, topics) + (if s.topic in topics then 1 else 0)
  {
    assert (all + [s])[..|all + [s]| - 1] == all;
    if topics != [] {
      var init := topics[..|topics| - 1];
      assert forall t :: t in topics <==> t in init || t == topics[|topics| - 1];
      GroupSizesSnoc(all, s, init);
    }
  }

  /** Every summary's text goes to exactly one group: the group sizes add up to the number of
      summaries. */
  lemma {:induction false} GroupSizesSum(all: seq<Summary>)
    ensures GroupSizes(all, Topics(all)) == |all|
  {
    if all != [] {
      var init, s := all[..|all| - 1], all[|all| - 1];
      assert all == init + [s];
      GroupSizesSum(init);
      GroupSizesSnoc(init, s, Topics(init));
      if s.topic !in Topics(init) {
        var ts := Topics(init) + [s.topic];
        assert ts[..|ts| - 1] == Topics(init);
        NoTexts(init, s.topic);
        assert TextsOf(all, s.topic) == [s.text];
      }
    }
  }

  /** The texts of a prefix lead the texts of the whole list. */
  lemma {:induction false} TextsOfPrefix(all: seq<Summary>, n: nat, t: string)
    requires n <= |all|
    ensures TextsOf(all[..n], t) <= TextsOf(all, t)
    decreases |all|
  {
    if n < |all| {
      assert all[..|all| - 1][..n] == all[..n];
      TextsOfPrefix(all[..|all| - 1], n, t);
    } else {
      assert all[..n] == all;
    }
  }

  /** Summary `i` sits in its topic's group right after the texts of the earlier summaries on that
      topic: each text is placed once, and a group keeps the input order. */
  lemma TextPosition(all: seq<Summary>, i: nat)
    requires i < |all|
    ensures var t, k := all[i].topic, |TextsOf(all[..i], all[i].topic)|;
      k < |TextsOf(all, t)| && TextsOf(all, t)[k] == all[i].text
  {
    var t := all[i].topic;
    assert all[..i + 1][..i] == all[..i];
    TextsOfPrefix(all, i + 1, t);
  }

  // ---------------------------------------------------------------------------------------------
  // The prompt
  // ---------------------------------------------------------------------------------------------

  const Header: string :=
    "Create a comprehensive research summary based on the following collection of insights.\n\n"

  const Closing: string :=
    "Based on all the above research summaries, create a comprehensive synthesis that:\n"
    + "1. Identifies the major themes and findings across all topics\n"
    + "2. Highlights connections between different research areas\n"
    + "3. Identifies the most significant insights and their implications\n"
    + "4. Organizes the information in a clear, structured format with sections\n"
    + "5. Concludes with suggestions for further research directions"

  /** The period line: from the date of the last summary to the date of the first. `dateOf` is
      `new Date(timestamp).toLocaleDateString()`. */
  function PeriodLine(all: seq<Summary>, dateOf: int -> string): string
    requires all != []
  {
    "Research Period: " + dateOf(all[|all| - 1].timestamp) + " to " + dateOf(all[0].timestamp) + "\n\n"
  }

  function TopicHeading(topic: string): string {
    "## Topic: " + topic + "\n\n"
  }

  /** Entry `i` (counted from 0) of a topic's section, numbered from 1. */
  function Entry(i: nat, text: string): string {
    "Summary " + NatToString(i + 1) + ":\n" + text + "\n\n"
  }

  /** The first `k` entries of a topic's section. */
  function Entries(texts: seq<string>, k: nat): string
    requires k <= |texts|
  {
    if k == 0 then "" else Entries(texts, k - 1) + Entry(k - 1, texts[k - 1])
  }

  function Section(topic: string, texts: seq<string>): string {
    TopicHeading(topic) + Entries(texts, |texts|)
  }

  /** The sections of the first `k` topics, in key order. */
  function Sections(all: seq<Summary>, topics: seq<string>, k: nat): string
    requires k <= |topics|
  {
    if k == 0 then "" else Sections(all, topics, k - 1) + Section(topics[k - 1], TextsOf(all, topics[k - 1]))
  }

  /** The user message the route sends. */
  function Prompt(all: seq<Summary>, dateOf: int -> string): string
    requires all != []
  {
    var topics := Topics(all);
    Header + PeriodLine(all, dateOf) + Sections(all, topics, |topics|) + Closing
  }

  /** The prompt assembly: grouping, then the header, the period line, a heading per topic with its
      numbered entries, and the closing instructions, each appended in turn. No prompt when the
      grouping throws. */
  method BuildPrompt(all: seq<Summary>, dateOf: int -> string) returns (result: Option<string>)
    requires all != []
    ensures result.None? <==> HasInheritedTopic(all)
    ensures result.Some? ==> result.value == Prompt(all, dateOf)
  {
    var failed, topics, groups := GroupByTopic(all);
    if failed {
      return None;
    }
    var prompt := Header;
    prompt := prompt + PeriodLine(all, dateOf);
    prompt := AppendSections(prompt, all, topics, groups);
    prompt := prompt + Closing;
    result := Some(prompt);
  }

  /** The outer loop: the section of each topic, in key order, appended to `start`. */
  method AppendSections(start: string, all: seq<Summary>, topics: seq<string>, groups: map<string, seq<string>>)
    returns (prompt: string)
    requires forall k :: 0 <= k < |topics| ==> topics[k] in groups && groups[topics[k]] == TextsOf(all, topics[k])
    ensures prompt == start + Sections(all, topics, |topics|)
  {
    prompt := start;
    for k := 0 to |topics|
      invariant prompt == start + Sections(all, topics, k)
    {
      var texts := groups[topics[k]];
      var next := AppendSection(prompt, topics[k], texts);
      SectionsStep(start, all, topics, k, prompt, next);
      prompt := next;
    }
  }

  lemma SectionsStep(start: string, all: seq<Summary>, topics: seq<string>, k: nat, prompt: string, next: string)
    requires k < |topics|
    requires prompt == start + Sections(all, topics, k)
    requires next == prompt + Section(topics[k], TextsOf(all, topics[k]))
    ensures next == start + Sections(all, topics, k + 1)
  {
    Assoc(start, Sections(all, topics, k), Section(topics[k], TextsOf(all, topics[k])));
  }

  /** The inner loop: the topic's heading, then its texts numbered from 1, appended to `prompt`. */
  method AppendSection(start: string, topic: string, texts: seq<string>) returns (prompt: string)
    ensures prompt == start + Section(topic, texts)
  {
    prompt := start + TopicHeading(topic);
    for i := 0 to |texts|
      invariant prompt == start + TopicHeading(topic) + Entries(texts, i)
    {
      Assoc(start + TopicHeading(topic), Entries(texts, i), Entry(i, texts[i]));
      prompt := prompt + Entry(i, texts[i]);
    }
    Assoc(start, TopicHeading(topic), Entries(texts, |texts|));
  }

  /** The section of topic `i` appears whole in the sections of the first `k > i` topics, after the
      sections of all earlier topics: the topics are listed in order of first appearance. */
  lemma {:induction false} SectionsOrdered(all: seq<Summary>, topics: seq<string>, k: nat, i: nat)
    requires i < k <= |topics|
    ensures var e, sec := Sections(all, topics, k), Section(topics[i], TextsOf(all, topics[i]));
      var o := |Sections(all, topics, i)|;
      o + |sec| <= |e| && e[o..o + |sec|] == sec
  {
    var sec := Section(topics[i], TextsOf(all, topics[i]));
    var o := |Sections(all, topics, i)|;
    if k == i + 1 {
      SecondHalf(Sections(all, topics, i), sec);
    } else {
      SectionsOrdered(all, topics, k - 1, i);
      SliceOfPrefix(Sections(all, topics, k - 1), Section(topics[k - 1], TextsOf(all, topics[k - 1])), o, o + |sec|);
    }
  }

  /** Each topic's numbering starts again at "Summary 1": the entries of a section are numbered 1, 2, …
      in the order of the group, and there is one per text. */
  lemma {:induction false} EntriesNumbered(texts: seq<string>, k: nat, i: nat)
    requires i < k <= |texts|
    ensures var e, entry := Entries(texts, k), Entry(i, texts[i]);
      var o := |Entries(texts, i)|;
      o + |entry| <= |e| && e[o..o + |entry|] == entry
  {
    var entry := Entry(i, texts[i]);
    var o := |Entries(texts, i)|;
    var before, last := Entries(texts, k - 1), Entry(k - 1, texts[k - 1]);
    assert Entries(texts, k) == before + last;
    if k == i + 1 {
      SecondHalf(before, last);
    } else {
      EntriesNumbered(texts, k - 1, i);
      SliceOfPrefix(before, last, o, o + |entry|);
    }
  }

  // ---------------------------------------------------------------------------------------------
  // The route
  // ---------------------------------------------------------------------------------------------

  /** `POST /api/generate-full-summary`. `streamOpens` says whether the streaming request for a prompt
      can be opened; `dateOf` renders a timestamp as a date. `sent` is the prompt when one is built.
      A topic that names an inherited property of `summariesByTopic` makes the grouping throw. */
  method Post(settings: Settings, request: Request, dateOf: int -> string, streamOpens: string -> bool)
    returns (response: Response, sent: Option<string>)
    ensures settings.SettingsUnavailable? ==> response == SynthesisFailed && sent == None
    ensures response == ApiKeyMissing <==> settings.Settings? && KeyMissing(settings.openaiApiKey)
    ensures HasKey(settings) && request.MalformedBody? ==> response == SynthesisFailed
    ensures response == NoSummaries <==>
      HasKey(settings) && request.SummariesBody? && request.allSummaries in {None, Some([])}
    ensures sent.Some? <==>
      HasKey(settings) && request.SummariesBody? && request.allSummaries.Some? && request.allSummaries.value != []
      && !HasInheritedTopic(request.allSummaries.value)
    ensures (HasKey(settings) && request.SummariesBody? && request.allSummaries.Some?
             && request.allSummaries.value != [] && HasInheritedTopic(request.allSummaries.value))
            ==> response == SynthesisFailed
    ensures sent.Some? ==> sent.value == Prompt(request.allSummaries.value, dateOf)
    ensures sent.Some? ==>
      response == if streamOpens(sent.value) then SynthesisStream(sent.value) else SynthesisFailed
  {
    sent := None;
    if settings.SettingsUnavailable? {
      return SynthesisFailed, sent;
    }
    if KeyMissing(settings.openaiApiKey) {
      return ApiKeyMissing, sent;
    }
    if request.MalformedBody? {
      return SynthesisFailed, sent;
    }
    var allSummaries := request.allSummaries;
    if allSummaries.None? || |allSummaries.value| == 0 {
      return NoSummaries, sent;
    }
    var built := BuildPrompt(allSummaries.value, dateOf);
    if built.None? {
      return SynthesisFailed, sent;
    }
    var prompt := built.value;
    sent := Some(prompt);
    if !streamOpens(prompt) {
      return SynthesisFailed, sent;
    }
    response := SynthesisStream(prompt);
  }
}
