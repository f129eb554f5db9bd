/**
 * The screen-text route (`POST /api/summarize`): it asks screenpipe for what was captured in the last
 * few minutes and answers with the text of the OCR captures, one per line. The clock and the query
 * are parameters.
 */
module Summarize {
  import opened Options
  import opened Strings

  /** `await request.json()`: the body does not parse, or it does and `time` is an array of numbers
      (`Some`) or is missing (`None`). */
  datatype Request = MalformedBody | SummarizeBody(time: Option<seq<int>>)

  /** One element of `results.data`: its `type` and its `content.text`, which may be missing. */
  datatype ContentItem = ContentItem(kind: string, text: Option<string>)

  /** `pipe.queryScreenpipe(...)`: it throws, or it resolves to results whose `data` is an array
      (`Some`) or is missing or not an array (`None`). */
  datatype QueryResult = QueryFailed | Results(data: Option<seq<ContentItem>>)

  /** 200 `{text}` or 500 `{error: "Failed to retrieve screen data"}`. */
  datatype Response = ScreenText(text: string) | RetrievalFailed

  /** The query's `limit` and `contentType`. */
  const QueryLimit: nat := 10
  const ContentType: string := "all"

  /** The largest distance from the epoch, in milliseconds, that a JavaScript `Date` holds; further
      out the date is invalid and `toISOString` throws. */
  const MaxDate: int := 8_640_000_000_000_000

  /** `Date.now() - timeVal * 60 * 1000`: the start of the window, `minutes` before `now`. */
  function StartTime(now: int, minutes: int): (start: int)
    ensures now - start == minutes * 60000
    ensures minutes >= 0 ==> start <= now
  {
    now - minutes * 60 * 1000
  }

  predicate IsOcr(item: ContentItem) {
    item.kind == "OCR"
  }

  /** `filter(item.type === "OCR").map(r => r.content.text || "")`. */
  function OcrTexts(items: seq<ContentItem>): (r: seq<string>)
    ensures |r| <= |items|
    ensures r == [] <==> forall i :: 0 <= i < |items| ==> !IsOcr(items[i])
  {
    if items == [] then []
    else
      var rest := OcrTexts(items[1..]);
      assert forall i :: 1 <= i < |items| ==> items[i] == items[1..][i - 1];
      (if IsOcr(items[0]) then [items[0].text.GetOr("")] else []) + rest
  }

  /** `combinedText`: the OCR texts, in query order, one per line. */
  function CombinedText(items: seq<ContentItem>): string {
    Join(OcrTexts(items), "\n")
  }

  /** Without OCR captures the text is empty. */
  lemma NoOcrNoText(items: seq<ContentItem>)
    requires forall i :: 0 <= i < |items| ==> !IsOcr(items[i])
    ensures CombinedText(items) == ""
  {
  }

  /** Only OCR captures contribute: the other kinds can be removed without changing the text. */
  lemma {:induction false} OnlyOcrCounts(items: seq<ContentItem>, other: ContentItem, k: nat)
    requires !IsOcr(other) && k <= |items|
    ensures CombinedText(items[..k] + [other] + items[k..]) == CombinedText(items)
  {
    assert OcrTexts(items[..k] + [other] + items[k..]) == OcrTexts(items) by {
      OcrTextsInsert(items, other, k);
    }
  }

  lemma {:induction false} OcrTextsInsert(items: seq<ContentItem>, other: ContentItem, k: nat)
    requires !IsOcr(other) && k <= |items|
    ensures OcrTexts(items[..k] + [other] + items[k..]) == OcrTexts(items)
  {
    var xs := items[..k] + [other] + items[k..];
    if k == 0 {
      assert xs[1..] == items;
    } else {
      assert xs[0] == items[0];
      assert xs[1..] == items[1..][..k - 1] + [other] + items[1..][k - 1..];
      OcrTextsInsert(items[1..], other, k - 1);
    }
  }

  /** When no OCR text has a line break, splitting the answer at line breaks gives back the OCR
      texts one by one. */
  lemma TextSplitsBack(items: seq<ContentItem>)
    requires OcrTexts(items) != []
    requires forall i :: 0 <= i < |items| && IsOcr(items[i]) && items[i].text.Some? ==> '\n' !in items[i].text.value
    ensures Lines(CombinedText(items)) == OcrTexts(items)
  {
    OcrTextsNoNewline(items);
    LinesOfJoin(OcrTexts(items));
  }

  lemma {:induction false} OcrTextsNoNewline(items: seq<ContentItem>)
    requires forall i :: 0 <= i < |items| && IsOcr(items[i]) && items[i].text.Some? ==> '\n' !in items[i].text.value
    ensures forall k :: 0 <= k < |OcrTexts(items)| ==> '\n' !in OcrTexts(items)[k]
  {
    if items != [] {
      assert forall i :: 1 <= i < |items| ==> items[i] == items[1..][i - 1];
      OcrTextsNoNewline(items[1..]);
    }
  }

  /** `POST /api/summarize`. `now` is `Date.now()`; `query(start, limit, contentType)` is the
      screenpipe query. A missing `time`, an empty `time` (the start date is then invalid) or a start
      outside the range of dates, a failed query and a missing `data` array all end in the one 500. */
  method Post(request: Request, now: int, query: (int, nat, string) -> QueryResult)
    returns (response: Response)
    ensures request.MalformedBody? || request.time.None? || request.time.value == [] ==>
      response == RetrievalFailed
    ensures request.SummarizeBody? && request.time.Some? && request.time.value != [] ==>
      var start := StartTime(now, request.time.value[0]);
      var results := query(start, QueryLimit, ContentType);
      if -MaxDate <= start <= MaxDate && results.Results? && results.data.Some? then
        response == ScreenText(CombinedText(results.data.value))
      else
        response == RetrievalFailed
  {
    if request.MalformedBody? || request.time.None? || |request.time.value| == 0 {
      return RetrievalFailed;
    }
    var timeVal := request.time.value[0];
    var start := StartTime(now, timeVal);
    if !(-MaxDate <= start <= MaxDate) {
      return RetrievalFailed;
    }
    var results := query(start, QueryLimit, ContentType);
    if results.QueryFailed? || results.data.None? {
      return RetrievalFailed;
    }
    var combinedText := CombinedText(results.data.value);
    response := ScreenText(combinedText);
  }
}
