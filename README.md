# ScreenPipe Research Helper — a verified model of its core

ScreenPipe Research Helper is a Next.js app on top of screenpipe. It reads the text that screenpipe
captured from the screen in the last few minutes and has an OpenAI model summarise it. From a
list of saved summaries it builds one research synthesis. It asks the model for the entities and
tags of a summary, and it charts the user's research activity. This project models the logic of
that app in Dafny and proves what it promises:

- `strings.dfy` (module `Strings`) models the JavaScript string operations the app relies on:
  - the `\s` / `trim` whitespace class, `trim`, `substring(0, n)`;
  - `indexOf` and `lastIndexOf` of one character, `join` and `split("\n")`;
  - the round trips between `join("\n")` and `split("\n")`, and where each element lands in a join.
- `options.dfy` and `provider.dfy` (modules `Options`, `Provider`): optional values, the screenpipe
  settings (the OpenAI key) and the outcome of one chat-completion request. Requests are parameters.
- `objects.dfy` (`JsObjects`): the property names every plain object inherits from
  `Object.prototype`, which a lookup in a record used as a dictionary finds even when the record has
  no such key.
- `summarize.dfy` (`Summarize`) is `POST /api/summarize`:
  - the start of the time window;
  - the OCR texts of the query result, one per line;
  - the single 500 answer.
- `analyze.dfy` (`Analyze`) is `POST /api/analyze`:
  - the sentence split `split(/(?<=[.?!])\s+/)`, proved to cut exactly at the maximal whitespace runs
    after `.`, `?` or `!`;
  - `chunkText`, proved to pack the sentences greedily, including its two quirks: a first chunk that is
    `""` or starts with a space;
  - the map stage, one completion per chunk;
  - the reduce prompt, proved to keep every chunk summary in chunk order.
- `reassembly.dfy` (`StreamReassembly`) is the page's stream reader `fetchSummary`:
  - it splits the body on newlines fragment by fragment, carries the incomplete last line over, and
    parses each non-blank line;
  - the result is proved to depend only on the concatenated stream, not on how it was fragmented;
  - the summaries the page shows are proved to form a chain of prefixes.
- `reply_cleanup.dfy` (`ReplyCleanup`) is the clean-up the entity and tag routes share before
  `JSON.parse`:
  - the capture of the first fenced code block;
  - `trim`;
  - the cut from the first `{` to the last `}`.

  It is described as bounds into the reply. What it cuts off, the shape of what it keeps, and its
  idempotence are proved.
- `entities.dfy` (`Entities`) is `POST /api/extract-entities`.
- `tags.dfy` (`Tags`) is `POST /api/generate-tags`, including the fallback that takes the first five
  double-quoted strings of the reply. That fallback is proved to give back the tags of a reply that
  quotes them.
- `full_summary.dfy` (`FullSummary`) is `POST /api/generate-full-summary`:
  - the grouping of summary texts by topic, in order of first appearance, which throws for a topic
    named after an inherited property;
  - the prompt with one numbered section per topic;
  - the route's answers.
- `model_config.dfy` (`ModelConfig`) is `modelConfig.ts`:
  - the model for each task and tier, with the fallback to the standard tier;
  - the token estimate;
  - the price table, in exact integer units, with the `NaN` cost of a model named after an inherited
    property;
  - the usage counter, a class whose method updates its two totals.
- `activity.dfy` (`Activity`) is the `ResearchActivity` panel:
  - the per-day and per-topic counts with their key order;
  - the bars, labels and y-axis ticks the chart draws;
  - the stable sort by count and the most active topic;
  - what the panel shows.

The routes' calls to screenpipe and OpenAI, `JSON.parse`, the clock and date formatting are
parameters of the model. Every route is a method whose contract gives its answer for every
combination of their outcomes, the error paths included.

## Model

| member | source | states |
|---|---|---|
| `Strings.LeadingSpace` | src/app/api/extract-entities/route.ts:66 | the length of the leading whitespace run: all whitespace, followed by a non-space or the end |
| `Strings.TrailingSpace` | src/app/api/extract-entities/route.ts:66 | the length of the trailing whitespace run: all whitespace, preceded by a non-space or the start |
| `Strings.TrimBounds` | src/app/api/extract-entities/route.ts:66 | the bounds of the trimmed text lie within the string |
| `Strings.TrimBoundsSpec` | src/app/api/extract-entities/route.ts:66 | trim cuts off only whitespace, keeps text that neither starts nor ends with whitespace, and keeps nothing exactly when the string is blank |
| `Strings.Trim` | src/app/page.tsx:47 | the trimmed string is empty exactly when the string is blank (the `!line.trim()` test) |
| `Strings.Truncate` | src/app/api/extract-entities/route.ts:29 | `substring(0, n)` is the prefix of length min(n, length) |
| `Strings.IndexOf` | src/app/api/extract-entities/route.ts:67-68 | the result is -1 or an in-range position holding the character |
| `Strings.IndexOfSpec` | src/app/api/extract-entities/route.ts:67-68 | the position is the first occurrence, and -1 exactly when the character is absent |
| `Strings.LastIndexOf` | src/app/api/extract-entities/route.ts:70-71 | the result is -1 or an in-range position holding the character |
| `Strings.LastIndexOfSpec` | src/app/api/extract-entities/route.ts:70-71 | the position is the last occurrence, and -1 exactly when the character is absent |
| `Strings.Lines` | src/app/page.tsx:42 | `split("\n")` always yields at least one piece |
| `Strings.NatToString` | src/app/api/generate-full-summary/route.ts:50 | the numeral is non-empty, made of decimal digits and without a leading zero, and its digits spell the number back (what `parseInt` reads) |
| `Strings.LinesOfJoin` | src/app/api/summarize/route.ts:29-31 | splitting a newline join of newline-free texts gives back exactly those texts |
| `Strings.JoinOfLines` | src/app/page.tsx:42 | joining the pieces of a split with newlines gives back the string: splitting loses nothing |
| `Strings.LinesAppend` | src/app/page.tsx:40-44 | splitting a concatenation fuses the last piece of the first part with the first piece of the second and keeps all others |
| `Strings.JoinSlice` | src/app/api/analyze/route.ts:53-55 | every element of a join sits whole at its offset, after all earlier elements |
| `Strings.JoinSeparators` | src/app/api/analyze/route.ts:53-55 | every element but the last is followed by exactly the separator, and the last ends the string |
| `Summarize.OcrTexts` | src/app/api/summarize/route.ts:24-31 | at most one text per item, and none exactly when no item is an OCR capture |
| `Summarize.NoOcrNoText` | src/app/api/summarize/route.ts:24-31 | without OCR captures the combined text is empty |
| `Summarize.OnlyOcrCounts` | src/app/api/summarize/route.ts:24-27 | inserting a non-OCR item anywhere leaves the combined text unchanged |
| `Summarize.TextSplitsBack` | src/app/api/summarize/route.ts:29-31 | when no OCR text holds a newline, splitting the answer on newlines recovers the OCR texts in query order |
| `Summarize.Post` | src/app/api/summarize/route.ts:5-40 | a malformed body, a missing or empty `time`, an invalid start date, a failed query or a missing `data` array give the one 500; otherwise the answer is the combined OCR text of the query for limit 10, content type "all" and the start `StartTime`, which lies exactly `time[0]` minutes, in milliseconds, before now |
| `Analyze.FirstCut` | src/app/api/analyze/route.ts:15 | the first position where the split pattern matches, with no match before it |
| `Analyze.SplitSentences` | src/app/api/analyze/route.ts:15 | the split yields at least one sentence |
| `Analyze.SplitSentencesCorrect` | src/app/api/analyze/route.ts:15 | the sentences, with non-empty whitespace runs between them, spell the text; each cut follows a terminator; no sentence holds a cut; each run is maximal |
| `Analyze.ChunkText` | src/app/api/analyze/route.ts:14-30 | the loop over the sentences yields the chunks of the packing `Pack` of the split |
| `Analyze.Emitted` | src/app/api/analyze/route.ts:26-28 | one chunk per group, the group's sentences joined by single spaces (`Rendered`), except that a last group with empty text yields none |
| `Analyze.GreedyNewGroup` | src/app/api/analyze/route.ts:19-21 | sealing the buffer and starting a new chunk with an overflowing sentence keeps the partition greedy |
| `Analyze.GreedyJoinLast` | src/app/api/analyze/route.ts:22-23 | appending a fitting sentence to the open chunk keeps the partition greedy |
| `Analyze.GroupsAreGreedy` | src/app/api/analyze/route.ts:18-25 | the packer's groups hold every sentence once, in order, after the empty start buffer, and a group is closed exactly when the next sentence would overflow it |
| `Analyze.GroupsArePacked` | src/app/api/analyze/route.ts:17-25 | after any number of sentences, the sealed chunks are the joined groups but the last, and the buffer is the last group's text |
| `Analyze.PackIsGreedy` | src/app/api/analyze/route.ts:14-30 | the chunks are the emitted groups of a greedy partition of the sentences |
| `Analyze.GroupsAreEmitted` | src/app/api/analyze/route.ts:26-29 | the returned chunks are the packer's groups, each rendered as its sentences joined by single spaces, the empty last buffer dropped |
| `Analyze.ChunkLengthBound` | src/app/api/analyze/route.ts:19-24 | a chunk is at most maxLength + 1 characters long unless it is a single sentence |
| `Analyze.GroupLengthBound` | src/app/api/analyze/route.ts:19-24 | each group of a greedy partition is a single sentence or within maxLength + 1 characters |
| `Analyze.FirstChunkOfPrefix` | src/app/api/analyze/route.ts:17-24 | after the first sentence the first chunk is `""` if that sentence overflows, else it starts with a space and the sentence |
| `Analyze.FirstChunk` | src/app/api/analyze/route.ts:17-28 | some chunk is emitted; chunk 0 is `""` exactly when the first sentence alone exceeds maxLength, and otherwise starts with a space and that sentence |
| `Analyze.ChunkEmptyText` | src/app/api/analyze/route.ts:15-28 | the empty text yields the single chunk `" "` |
| `Analyze.SummarizeAll` | src/app/api/analyze/route.ts:32-51 | nothing exactly when some chunk's request fails; otherwise one summary per chunk, in chunk order, each the chunk's reply content, a null content read as `""` (`ContentOrEmpty`) |
| `Analyze.ReducePromptOrder` | src/app/api/analyze/route.ts:53-55 | the final prompt starts with the header, and every chunk summary appears whole at its offset, after the summaries of all earlier chunks |
| `Analyze.Post` | src/app/api/analyze/route.ts:44-71 | a missing text, a failed chunk request or a stream that does not open give the one 500 "Failed to generate summary"; otherwise the answer streams the reduce prompt of the chunk summaries of `chunkText(text, 3000)` |
| `StreamReassembly.Attempts` | src/app/page.tsx:47-49 | only non-blank lines of the stream are handed to the parser |
| `StreamReassembly.AccumulateAppend` | src/app/page.tsx:46-57 | processing two runs of lines in turn adds their contributions in turn; a line's contribution (`Contribution`) is nothing for a blank or malformed line and its delta content, absent read as `""`, for a parsed one |
| `StreamReassembly.SkippedLine` | src/app/page.tsx:47-56 | a blank or unparsable line contributes nothing, changes nothing and does not stop the lines after it |
| `StreamReassembly.PublishedGrows` | src/app/page.tsx:52-53 | each value passed to `setSummary` extends the previous one and the last is the whole summary; with none, the summary is empty |
| `StreamReassembly.ServerStream` | src/app/page.tsx:40-44 | a stream of newline-terminated records splits into the records and an empty rest, and reads as exactly its records |
| `StreamReassembly.CarryStep` | src/app/page.tsx:40-44 | the lines of the stream so far stay complete, and the carry-over followed by the next fragment splits into the rest |
| `StreamReassembly.ReadStep` | src/app/page.tsx:35-58 | after one more fragment, the lines handled plus the new buffer are the lines of the longer stream |
| `StreamReassembly.LineStep` | src/app/page.tsx:46-57 | one more line adds its contribution (its delta content, absent read as `""`, when it parses) to the summary, to the parser's inputs when not blank, and to the published values when it parses |
| `StreamReassembly.HandleLines` | src/app/page.tsx:46-57 | the inner loop leaves the summary, the parser inputs and the published values of all lines handled so far |
| `StreamReassembly.ReadLoop` | src/app/page.tsx:35-58 | after the read loop the buffer is the text after the stream's last newline and the complete lines before it have been handled, however the stream was fragmented |
| `StreamReassembly.Drain` | src/app/page.tsx:60-70 | the final attempt on the carry-over contributes like any line |
| `StreamReassembly.FetchSummary` | src/app/page.tsx:10-76 | the summary is reset to `""` first; a clean stream ends showing the accumulated summary of its lines, having shown each published prefix; a missing body, a failed request or a read failure ends with the failure message |
| `ReplyCleanup.NextFence` | src/app/api/extract-entities/route.ts:60 | the first code fence at or after a position, with none before it |
| `ReplyCleanup.FenceCapture` | src/app/api/extract-entities/route.ts:60 | the pattern matches exactly when a second fence follows the first; the capture lies within the reply and contains no fence |
| `ReplyCleanup.FenceCaptureShape` | src/app/api/extract-entities/route.ts:60 | the capture starts at the first non-space after the first fence and its optional `json` tag, and ends where the whitespace before the second fence begins: only whitespace lies between the tag and the capture and between the capture and the second fence |
| `ReplyCleanup.BaseBounds` | src/app/api/extract-entities/route.ts:57-63 | the text the clean-up starts from is a piece of the reply |
| `ReplyCleanup.TrimRange` | src/app/api/extract-entities/route.ts:66 | the trimmed piece lies within the piece |
| `ReplyCleanup.TrimRangeIsTrim` | src/app/api/extract-entities/route.ts:66 | the bounds are those of `trim` applied to the piece |
| `ReplyCleanup.FirstAt` | src/app/api/extract-entities/route.ts:67-68 | the first position of a character in a piece, with none before it |
| `ReplyCleanup.LastEnd` | src/app/api/extract-entities/route.ts:70-71 | just past the last position of a character in a piece, with none after it |
| `ReplyCleanup.IndexOfSlice` | src/app/api/extract-entities/route.ts:67-68 | `indexOf` on the piece finds `FirstAt`, shifted, or -1 when absent |
| `ReplyCleanup.LastIndexOfSlice` | src/app/api/extract-entities/route.ts:70-71 | `lastIndexOf` on the piece finds the position before `LastEnd`, shifted |
| `ReplyCleanup.BraceRange` | src/app/api/extract-entities/route.ts:67-72 | the brace cut keeps a sub-piece of the piece |
| `ReplyCleanup.BraceRangeSpec` | src/app/api/extract-entities/route.ts:67-72 | no `{` before the kept text, which starts with `{` unless the piece has none; no `}` after it, and a non-empty kept text ends with `}` |
| `ReplyCleanup.CleanBounds` | src/app/api/extract-entities/route.ts:57-72 | the cleaned text is a piece of the reply |
| `ReplyCleanup.BraceSteps` | src/app/api/extract-entities/route.ts:67-72 | the two `substring` steps as written keep exactly `BraceRange` |
| `ReplyCleanup.CutBraces` | src/app/api/extract-entities/route.ts:67-72 | reassigning the text in the two brace steps, on a slice of the reply, keeps exactly `BraceRange`, whose shape `BraceRangeSpec` states |
| `ReplyCleanup.ExtractJson` | src/app/api/extract-entities/route.ts:57-72 | reassigning `jsonContent` step by step yields `CleanJson` of the reply |
| `ReplyCleanup.CleanJsonCuts` | src/app/api/extract-entities/route.ts:57-72 | the cleaned text lies in the base text; only text without `{` precedes it there and only text without `}` follows it |
| `ReplyCleanup.CleanJsonEdges` | src/app/api/extract-entities/route.ts:66-72 | a non-empty cleaned text ends with `}` and starts with `{`, or with a non-space when it holds no `{` |
| `ReplyCleanup.NoFenceBase` | src/app/api/extract-entities/route.ts:60-63 | a reply without a backtick is cleaned from the whole reply |
| `ReplyCleanup.CleanKeepsObject` | src/app/api/extract-entities/route.ts:57-72 | a bare object reply (no fence, no surrounding whitespace, ending with `}`) reaches `JSON.parse` unchanged |
| `ReplyCleanup.CleanIdempotent` | src/app/api/extract-entities/route.ts:57-72 | cleaning a fence-free cleaned text again changes nothing |
| `ReplyCleanup.CleanShape` | src/app/api/extract-entities/route.ts:66-72 | a non-empty cleaned text starts with a non-space, ends with `}`, and starts with `{` or holds none |
| `ReplyCleanup.FenceCaptureOfBlock` | src/app/api/extract-entities/route.ts:60-63 | for a json-tagged code block whose body has no backtick and no surrounding whitespace, the capture is exactly the body |
| `Entities.Post` | src/app/api/extract-entities/route.ts:5-88 | a missing key gives 400 and nothing else does; fewer than 50 characters gives `{}` without a request; otherwise the first 3000 characters are sent, an empty or failed reply (a null content read as `""`) gives the 500, an unparsable cleaned reply gives `{}`, and a parsed one is returned |
| `Tags.TagMessage` | src/app/api/generate-tags/route.ts:32 | the message is the header "Topic: ", the topic (`undefined` when it is missing), a blank line and "Summary: ", followed by the first 1000 characters of the text |
| `Tags.QuotedMatches` | src/app/api/generate-tags/route.ts:64 | every match is a quote, one or more non-quote characters, and a quote |
| `Tags.MatchIsQuoted` | src/app/api/generate-tags/route.ts:64 | the text the scan takes at a quote is such a match |
| `Tags.RemoveQuotes` | src/app/api/generate-tags/route.ts:65 | the result holds no double quote and is no longer than the input |
| `Tags.FallbackTags` | src/app/api/generate-tags/route.ts:62-67 | at most five fallback tags |
| `Tags.FallbackTagsAreQuoted` | src/app/api/generate-tags/route.ts:64-66 | the fallback tags are the inner texts of the first min(5, n) matches, in order, each non-empty and quote-free |
| `Tags.QuotedListMatches` | src/app/api/generate-tags/route.ts:64-65 | the matches of a reply quoting tags are exactly those tags, in order |
| `Tags.FallbackOfQuotedList` | src/app/api/generate-tags/route.ts:62-67 | for a reply that quotes at most five tags, the fallback gives back exactly those tags |
| `Tags.Post` | src/app/api/generate-tags/route.ts:5-73 | a missing key gives 400 and nothing else does; every other failure, an empty reply (a null content read as `""`) included, gives `{tags: []}`; an unparsable cleaned reply gives the fallback tags of the raw reply, and a parsed one its `tags` or `[]` |
| `FullSummary.Topics` | src/app/api/generate-full-summary/route.ts:32-38 | the topics are exactly those of the summaries, each once |
| `FullSummary.TextsOf` | src/app/api/generate-full-summary/route.ts:32-38 | a topic's group holds no more texts than there are summaries |
| `FullSummary.FindInheritedTopic` | src/app/api/generate-full-summary/route.ts:33-35 | some summary's topic finds an inherited, truthy value in `summariesByTopic` exactly when one topic names a property of `Object.prototype` |
| `FullSummary.GroupByTopic` | src/app/api/generate-full-summary/route.ts:32-38 | the grouping fails exactly when some topic names a property the dictionary inherits from `Object.prototype` (the `push` throws); otherwise the dictionary's keys are the topics in order of first appearance, and each holds its topic's texts in input order |
| `FullSummary.NoTexts` | src/app/api/generate-full-summary/route.ts:32-38 | a topic that does not occur has no texts |
| `FullSummary.GroupSizesSum` | src/app/api/generate-full-summary/route.ts:32-38 | the group sizes add up to the number of summaries: each text goes to exactly one group |
| `FullSummary.TextsOfPrefix` | src/app/api/generate-full-summary/route.ts:33-37 | the texts of earlier summaries lead a topic's group |
| `FullSummary.TextPosition` | src/app/api/generate-full-summary/route.ts:33-37 | summary i sits in its topic's group right after the earlier texts on that topic |
| `FullSummary.BuildPrompt` | src/app/api/generate-full-summary/route.ts:41-59 | no prompt exactly when some topic names an inherited property; otherwise the prompt built step by step is the header, the period, the sections in key order and the closing instructions |
| `FullSummary.AppendSections` | src/app/api/generate-full-summary/route.ts:47-52 | the outer loop appends the section of each topic in key order |
| `FullSummary.AppendSection` | src/app/api/generate-full-summary/route.ts:48-51 | the inner loop appends the topic heading and its entries |
| `FullSummary.SectionsOrdered` | src/app/api/generate-full-summary/route.ts:47-52 | each topic's section appears whole, after the sections of all earlier topics |
| `FullSummary.EntriesNumbered` | src/app/api/generate-full-summary/route.ts:49-51 | entry i of a section is "Summary i+1" with text i, in group order, after the earlier entries |
| `FullSummary.Post` | src/app/api/generate-full-summary/route.ts:6-86 | a missing key gives 400 and nothing else does; no summaries gives 400 "No summaries provided"; a topic naming an inherited property of `summariesByTopic` gives the 500 without a request; otherwise the prompt is built and streamed, or the 500 when the stream does not open |
| `ModelConfig.ModelFor` | src/app/api/modelConfig.ts:49-70 | the model is never empty: the standard tier's task model, GPT-4 for every premium task |
| `ModelConfig.GetModelForTask` | src/app/api/modelConfig.ts:64-71 | in the app's tier, GPT-4 for the final synthesis and GPT-3.5 Turbo for everything else |
| `ModelConfig.EstimateTokens` | src/app/api/modelConfig.ts:15-18 | the estimate is the least n with 4n at least the length; zero exactly for the empty text |
| `ModelConfig.EstimateCost` | src/app/api/modelConfig.ts:20-29 | `NaN` exactly for a model named after a property the price table inherits from `Object.prototype`; otherwise non-negative for non-negative token counts, and any model other than GPT-4 is priced at the GPT-3.5 Turbo rates |
| `ModelConfig.CostFallback` | src/app/api/modelConfig.ts:26 | a model missing from the price table costs what GPT-3.5 Turbo costs, or `NaN` when its name is an inherited property |
| `ModelConfig.CheapModelSaves` | src/app/api/modelConfig.ts:4-5 | both models have a price, and GPT-3.5 Turbo costs at most a twentieth of GPT-4 for the same tokens (95% cheaper) |
| `ModelConfig.ModelsArePriced` | src/app/api/modelConfig.ts:21-24 | every model a task gets has its own row in the price table, so its cost is a number |
| `ModelConfig.UsageStats.constructor` | src/app/api/modelConfig.ts:32-34 | both totals start at zero |
| `ModelConfig.UsageStats.TrackUsage` | src/app/api/modelConfig.ts:37-39 | the token total grows by the input and output tokens, and the cost total by their estimated cost; the cost total is `NaN` exactly when it was already or the model's cost is |
| `Activity.Keys` | src/components/ResearchActivity.tsx:22-32 | the record's keys are the distinct values, each once |
| `Activity.Count` | src/components/ResearchActivity.tsx:22-32 | a count is positive exactly for a value that occurs, and at most the list length |
| `Activity.CountBy` | src/components/ResearchActivity.tsx:22-26 | the counting `reduce` builds the keys in insertion order and the count of each |
| `Activity.TallyStep` | src/components/ResearchActivity.tsx:24 | one more item adds its key if new and raises only its own count by one |
| `Activity.CountsSum` | src/components/ResearchActivity.tsx:22-37 | the counts of a tally add up to the number of items |
| `Activity.Entries` | src/components/ResearchActivity.tsx:114 | `Object.entries`: the keys with their counts, in key order |
| `Activity.ProcessData` | src/components/ResearchActivity.tsx:18-42 | nothing exactly for an empty list; otherwise the processed record |
| `Activity.ProcessedFacts` | src/components/ResearchActivity.tsx:34-41 | total is the item count and the sum of both tallies, over the items' dates (`DateKeys`, one per item) and topics (`TopicKeys`, one per item); the topics are exactly those of the items; recent activity is the first min(5, n) items |
| `Activity.InsertByCount` | src/components/ResearchActivity.tsx:114-115 | inserting into a count-descending list keeps it descending and a permutation, ahead of entries with a count not above its own |
| `Activity.SortByCount` | src/components/ResearchActivity.tsx:151-152 | the entries by non-increasing count, a permutation of the input |
| `Activity.WithCountInsert` | src/components/ResearchActivity.tsx:151-152 | insertion puts an entry ahead of the equal-count entries that followed it |
| `Activity.SortIsStable` | src/components/ResearchActivity.tsx:151-152 | entries with equal counts keep their order |
| `Activity.FirstMax` | src/components/ResearchActivity.tsx:114-115 | the index of the first entry with the largest count |
| `Activity.TopIsFirstMax` | src/components/ResearchActivity.tsx:114-115 | the most active topic is the first topic in key order with the largest count |
| `Activity.TextLeTotal` | src/components/ResearchActivity.tsx:61 | any two strings are comparable |
| `Activity.TextLeTrans` | src/components/ResearchActivity.tsx:61 | the string order is transitive |
| `Activity.InsertText` | src/components/ResearchActivity.tsx:61 | inserting into an ascending list keeps it ascending and a permutation |
| `Activity.SortTexts` | src/components/ResearchActivity.tsx:61 | the dates in ascending string order, a permutation of the keys |
| `Activity.MaxOf` | src/components/ResearchActivity.tsx:62 | the largest count: one of the counts and at least every count |
| `Activity.LabelStep` | src/components/ResearchActivity.tsx:81 | the label step is at least one |
| `Activity.TickStep` | src/components/ResearchActivity.tsx:95 | the tick step is at least one |
| `Activity.DrawBars` | src/components/ResearchActivity.tsx:66-87 | one bar per date with its count; labels exactly on indices that are multiples of the label step, in order |
| `Activity.YAxisLabels` | src/components/ResearchActivity.tsx:90-98 | none for a zero maximum; otherwise exactly the multiples of the tick step up to the maximum, ascending |
| `Activity.TallyPositive` | src/components/ResearchActivity.tsx:22-26 | a non-empty list has a key, and every key has a positive count |
| `Activity.DrawDays` | src/components/ResearchActivity.tsx:60-98 | the chart of the per-day counts: sorted dates, their positive bars, labels and ticks |
| `Activity.DrawChart` | src/components/ResearchActivity.tsx:45-101 | nothing exactly when there are no summaries; otherwise the chart of the per-day counts |
| `Activity.Render` | src/components/ResearchActivity.tsx:103-165 | "No data available yet" exactly for no summaries; otherwise the total, the first-max topic, the oldest and newest dates, and the topics sorted by count |

## Left out

- The network, screenpipe and OpenAI are parameters: the settings store, the screenpipe query and every
  completion request.
  - A streaming request is reduced to whether it opens. Its tokens are the fragments the page reader
    receives.
  - Model names, system prompts, `temperature` and `max_tokens` in the requests are not modelled.
  - The route does not choose a reply's content, so the model is silent on it.
- `JSON.parse` (and the property accesses after it) is a parameter. So are `request.json()`, which
  becomes a datatype of well-formed and malformed bodies. Values that are not strings, arrays or
  numbers where the routes expect them are not modelled.
- `TextDecoder` is left out. The page reader receives fragments already decoded to text, so a UTF-8
  sequence split across fragments is not modelled.
- JavaScript strings are sequences of UTF-16 code units. Here they are sequences of `char`, so
  lengths, `substring` and the string order count Unicode scalar values.
- `SortTexts` compares code points rather than UTF-16 units. The two orders differ only for characters
  outside the Basic Multilingual Plane.
- `Date.now()`, `new Date(...)`, `toISOString` and `toLocaleDateString` are parameters. The start date
  is valid exactly within the range a JavaScript `Date` holds. Fractional minutes are not modelled:
  `time` is a list of integers.
- Costs are exact integers in units of 1/10000000 of a dollar, instead of floating-point dollars.
  Rounding of the JavaScript result is not modelled. The one non-number result, `NaN` for a model
  named after a property of `Object.prototype`, is modelled.
- The canvas geometry (bar widths, heights, gradients, fonts and coordinates) is left out. So are the
  early returns when the canvas or its 2D context is missing, and React's rendering and effect
  scheduling. The chart keeps what is drawn: the bars, the labelled indices and the tick values.
- The `loading` flag of the home page and the summarize request the page makes before calling the
  analyze route are left out. That request's failure is one of the failures `FetchSummary` reports.
- The order in which JavaScript objects list integer-like keys, which come before other keys, is not
  modelled. Keys are kept in insertion order.
- `Promise.all` is read as an order-preserving sequential map. The requests' concurrency is not
  modelled.
- Console logging is left out.
- `CleanIdempotent` is proved only for a cleaned text without a backtick. A cleaned text that still
  holds a fence can be cut further by a second clean-up.
- `FenceCaptureOfBlock` covers only a reply in the form text, ```` ```json ```` line, body, closing
  fence. For any other reply, `FenceCaptureShape` gives the capture's bounds: from the first non-space
  after the first fence and its optional tag to the whitespace before the second fence.
- `Activity.CountBy` assumes no key names a property of `Object.prototype`. In the source, a topic
  such as `constructor` or `toString` reads the inherited function, so its count becomes a string
  (the function's text followed by `1`). A topic `__proto__` is dropped from `byTopic`, because
  assigning a string to it does nothing.
- `Activity.ProcessData` inherits that assumption from `CountBy`: for such topics the source's
  `byTopic` differs from the processed record of the model as described above.
- `Activity.ProcessedFacts` states the counts for topics that are not properties of
  `Object.prototype`. In the source, a `__proto__` topic is missing from `byTopic`, and a
  `constructor`-like topic holds a string instead of its count.
- `Activity.Render` sorts numeric counts. In the source, a string count from such a topic makes the
  comparator `b[1] - a[1]` give `NaN`, so the order of the topic list and the most active topic are
  then not those the model states.
