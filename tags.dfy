/**
 * The tag route (`POST /api/generate-tags`): it sends the topic and the first 1000 characters of a
 * summary to the model, cleans the reply up to a JSON object and returns its `tags`; when the cleaned
 * text does not parse, it falls back to the first five double-quoted strings of the raw reply.
 * `JSON.parse` followed by `parsed.tags` is a parameter.
 */
module Tags {
  import opened Options
  import opened Strings
  import opened Provider
  import opened ReplyCleanup

  /** At most this many characters of the summary are sent. */
  const MaxSent: nat := 1000

  /** At most this many fallback tags are returned. */
  const MaxFallback: nat := 5

  /** `await request.json()`: the body does not parse, or it parses and `text` and `topic` may be
      missing. */
  datatype Request = MalformedBody | TagsBody(text: Option<string>, topic: Option<string>)

  /** `JSON.parse(jsonContent)` and then `parsed.tags`: the text does not parse or parses to `null` (both
      throw), or it parses to a value whose `tags` is missing or falsy (`None`) or present. */
  datatype Parsed<J> = Unparsed | Parsed(tags: Option<J>)

  /** The route's replies: 400 `{error: "API key missing"}`, `{tags}` with the parsed value, or `{tags}`
      with a list of strings (the fallback, or `[]`). */
  datatype Response<J> = ApiKeyMissing | ParsedTags(tags: J) | TagList(list: seq<string>)

  /** `${topic}` in a template literal: a missing topic prints as `undefined`. */
  function TopicText(topic: Option<string>): (t: string)
    ensures topic.Some? ==> t == topic.value
  {
    topic.GetOr("undefined")
  }

  /** The user message: the topic (`undefined` when there is none), a blank line and at most 1000
      characters of the summary. */
  function TagMessage(topic: Option<string>, text: string): (m: string)
    ensures var header := "Topic: " + (if topic.Some? then topic.value else "undefined") + "\n\nSummary: ";
      && |header| <= |m| <= |header| + MaxSent
      && m[..|header|] == header
      && m[|header|..] == Truncate(text, MaxSent)
      && m[|header|..] <= text
  {
    "Topic: " + TopicText(topic) + "\n\nSummary: " + Truncate(text, MaxSent)
  }

  // ---------------------------------------------------------------------------------------------
  // The fallback: content.match(/"([^"]+)"/g), then t.replace(/"/g, ''), then slice(0, 5)
  // ---------------------------------------------------------------------------------------------

  /** The text holds no double quote. */
  predicate Unquoted(t: string) {
    forall j :: 0 <= j < |t| ==> t[j] != '"'
  }

  /** A full match of `/"([^"]+)"/`: a quote, one or more other characters, a quote. */
  predicate IsQuotedMatch(m: string) {
    |m| >= 3 && m[0] == '"' && m[|m| - 1] == '"' && Unquoted(m[1..|m| - 1])
  }

  /** The matches of the global pattern `/"([^"]+)"/g`, left to right. At a quote, the greedy class runs
      to the next quote; the match succeeds when that run is not empty and the closing quote exists,
      and scanning resumes after it. Otherwise scanning resumes one character later. */
  function QuotedMatches(s: string): (r: seq<string>)
    ensures forall k :: 0 <= k < |r| ==> IsQuotedMatch(r[k])
    decreases |s|
  {
    if s == [] then []
    else if s[0] != '"' then QuotedMatches(s[1..])
    else
      var k := IndexOf(s[1..], '"');
      if k > 0 then
        MatchIsQuoted(s, k);
        [s[..k + 2]] + QuotedMatches(s[k + 2..])
      else QuotedMatches(s[1..])
  }

  /** The match the scan takes at a quote is a quoted match. */
  lemma MatchIsQuoted(s: string, k: nat)
    requires s != [] && s[0] == '"' && 0 < k == IndexOf(s[1..], '"')
    ensures IsQuotedMatch(s[..k + 2])
  {
    var m := s[..k + 2];
    IndexOfSpec(s[1..], '"');
    var inner := m[1..|m| - 1];
    forall j | 0 <= j < |inner| ensures inner[j] != '"' {
      assert inner[j] == s[1..][..k][j];
    }
  }

  /** `t.replace(/"/g, '')`: every double quote removed. */
  function RemoveQuotes(t: string): (u: string)
    ensures Unquoted(u) && |u| <= |t|
  {
    if t == [] then []
    else if t[|t| - 1] == '"' then RemoveQuotes(t[..|t| - 1])
    else RemoveQuotes(t[..|t| - 1]) + [t[|t| - 1]]
  }

  /** The fallback tags: the quoted strings of the reply, in order, without their quotes, at most five. */
  function FallbackTags(content: string): (r: seq<string>)
    ensures |r| <= MaxFallback
  {
    var matches := QuotedMatches(content);
    var tags := seq(|matches|, i requires 0 <= i < |matches| => RemoveQuotes(matches[i]));
    if |tags| <= MaxFallback then tags else tags[..MaxFallback]
  }

  // ---------------------------------------------------------------------------------------------
  // The route
  // ---------------------------------------------------------------------------------------------

  /** The route. `complete` answers the user message, and `parse` is `JSON.parse` followed by
      `parsed.tags`. `sent` is the user message when the model is called. */
  method Post<J>(settings: Settings, request: Request, complete: string -> Completion,
                 parse: string -> Parsed<J>)
    returns (response: Response<J>, sent: Option<string>)
    ensures response == ApiKeyMissing <==> settings.Settings? && KeyMissing(settings.openaiApiKey)
    ensures sent.Some? <==> HasKey(settings) && request.TagsBody? && request.text.Some?
    ensures sent.Some? ==> sent.value == TagMessage(request.topic, request.text.value)
    ensures !HasKey(settings) && response != ApiKeyMissing ==> response == TagList([])
    ensures HasKey(settings) && sent.None? ==> response == TagList([])
    ensures sent.Some? ==>
      var reply := complete(sent.value);
      if reply.RequestFailed? || ContentOrEmpty(reply.content) == "" then response == TagList([])
      else
        var parsed := parse(CleanJson(reply.content.value));
        if parsed.Unparsed? then response == TagList(FallbackTags(reply.content.value))
        else if parsed.tags.None? then response == TagList([])
        else response == ParsedTags(parsed.tags.value)
  {
    sent := None;
    if settings.SettingsUnavailable? {
      return TagList([]), sent;
    }
    if KeyMissing(settings.openaiApiKey) {
      return ApiKeyMissing, sent;
    }
    if request.MalformedBody? || request.text.None? {
      return TagList([]), sent;
    }
    var message := TagMessage(request.topic, request.text.value);
    sent := Some(message);
    var reply := complete(message);
    if reply.RequestFailed? || ContentOrEmpty(reply.content) == "" {
      return TagList([]), sent;
    }
    var content := reply.content.value;
    var jsonContent := ExtractJson(content);
    var parsed := parse(jsonContent);
    if parsed.Unparsed? {
      return TagList(FallbackTags(content)), sent;
    }
    if parsed.tags.None? {
      return TagList([]), sent;
    }
    response := ParsedTags(parsed.tags.value);
  }

  // ---------------------------------------------------------------------------------------------
  // Properties
  // ---------------------------------------------------------------------------------------------

  /** Every fallback tag is one of the reply's quoted strings, non-empty and free of quotes, and they
      come in the order the strings occur. */
  lemma FallbackTagsAreQuoted(content: string)
    ensures var r, matches := FallbackTags(content), QuotedMatches(content);
      && |r| == (if |matches| < MaxFallback then |matches| else MaxFallback)
      && forall k :: 0 <= k < |r| ==> r[k] != [] && Unquoted(r[k]) && r[k] == matches[k][1..|matches[k]| - 1]
  {
    var matches := QuotedMatches(content);
    forall k | 0 <= k < |matches| ensures RemoveQuotes(matches[k]) == matches[k][1..|matches[k]| - 1] {
      StripQuotedMatch(matches[k]);
    }
  }

  /** Removing the quotes of a quoted match leaves its inner text. */
  lemma StripQuotedMatch(m: string)
    requires IsQuotedMatch(m)
    ensures RemoveQuotes(m) == m[1..|m| - 1]
  {
    var inner := m[1..|m| - 1];
    assert m == ['"'] + inner + ['"'];
    RemoveQuotesAround(inner);
  }

  lemma {:induction false} RemoveQuotesAround(inner: string)
    requires Unquoted(inner)
    ensures RemoveQuotes(['"'] + inner + ['"']) == inner
  {
    var t := ['"'] + inner + ['"'];
    assert t[..|t| - 1] == ['"'] + inner;
    RemoveQuotesLead(inner);
  }

  lemma {:induction false} RemoveQuotesLead(inner: string)
    requires Unquoted(inner)
    ensures RemoveQuotes(['"'] + inner) == inner
    decreases |inner|
  {
    var t := ['"'] + inner;
    if inner == [] {
      assert t[..|t| - 1] == [];
    } else {
      var init := inner[..|inner| - 1];
      assert t[..|t| - 1] == ['"'] + init;
      assert inner == init + [inner[|inner| - 1]];
      RemoveQuotesLead(init);
    }
  }

  /** Text without quotes yields no match and does not disturb the matches after it. */
  lemma {:induction false} SkipUnquoted(u: string, rest: string)
    requires Unquoted(u)
    ensures QuotedMatches(u + rest) == QuotedMatches(rest)
    decreases |u|
  {
    if u != [] {
      assert (u + rest)[0] == u[0] != '"';
      assert (u + rest)[1..] == u[1..] + rest;
      SkipUnquoted(u[1..], rest);
    } else {
      assert u + rest == rest;
    }
  }

  /** A quoted non-empty string without inner quotes is one match, and the scan resumes after it. */
  lemma MatchOfQuoted(t: string, rest: string)
    requires t != [] && Unquoted(t)
    ensures QuotedMatches(['"'] + t + ['"'] + rest) == [['"'] + t + ['"']] + QuotedMatches(rest)
  {
    var s := ['"'] + t + ['"'] + rest;
    assert s[1..] == t + ['"'] + rest;
    IndexOfAfter(t, '"', rest);
    assert s[..|t| + 2] == ['"'] + t + ['"'];
    assert s[|t| + 2..] == rest;
  }

  /** `indexOf(c)` stops at the first `c`, after a prefix without `c`. */
  lemma {:induction false} IndexOfAfter(u: string, c: char, v: string)
    requires forall j :: 0 <= j < |u| ==> u[j] != c
    ensures IndexOf(u + [c] + v, c) == |u|
    decreases |u|
  {
    if u != [] {
      assert (u + [c] + v)[1..] == u[1..] + [c] + v;
      IndexOfAfter(u[1..], c, v);
    }
  }

  /** A model reply listing tags as quoted strings separated by quote-free text. */
  function QuotedList(tags: seq<string>, sep: string): string {
    if tags == [] then [] else ['"'] + tags[0] + ['"'] + sep + QuotedList(tags[1..], sep)
  }

  /** Round trip: the quoted strings of such a reply are the tags themselves, in order. */
  lemma {:induction false} QuotedListMatches(tags: seq<string>, sep: string)
    requires Unquoted(sep)
    requires forall k :: 0 <= k < |tags| ==> tags[k] != [] && Unquoted(tags[k])
    ensures var matches := QuotedMatches(QuotedList(tags, sep));
      |matches| == |tags| && forall k :: 0 <= k < |tags| ==> matches[k][1..|matches[k]| - 1] == tags[k]
  {
    if tags != [] {
      var rest := QuotedList(tags[1..], sep);
      assert QuotedList(tags, sep) == ['"'] + tags[0] + ['"'] + (sep + rest);
      MatchOfQuoted(tags[0], sep + rest);
      SkipUnquoted(sep, rest);
      QuotedListMatches(tags[1..], sep);
      var m := ['"'] + tags[0] + ['"'];
      assert m[1..|m| - 1] == tags[0];
    }
  }

  /** So when the cleaned reply does not parse, a reply that quotes at most five tags gives them back. */
  lemma FallbackOfQuotedList(tags: seq<string>, sep: string)
    requires Unquoted(sep) && |tags| <= MaxFallback
    requires forall k :: 0 <= k < |tags| ==> tags[k] != [] && Unquoted(tags[k])
    ensures FallbackTags(QuotedList(tags, sep)) == tags
  {
    var content := QuotedList(tags, sep);
    QuotedListMatches(tags, sep);
    FallbackTagsAreQuoted(content);
    var r, matches := FallbackTags(content), QuotedMatches(content);
    assert |r| == |tags|;
    forall k | 0 <= k < |tags| ensures r[k] == tags[k] {
      assert r[k] == matches[k][1..|matches[k]| - 1];
    }
  }
}
