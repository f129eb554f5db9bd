/**
 * The research-activity panel (`ResearchActivity`): `processData` counts the summaries per day and per
 * topic, the effect draws one bar per day with a date label on some bars and a few y-axis labels, and
 * the panel shows the total, the most active topic, the first and latest dates and the topics ordered
 * by count. Dates are rendered by a parameter (`toLocaleDateString`); the canvas geometry is not kept.
 */
module Activity {
  import opened Options

  /** One element of `summaryData` (its optional `tags` are never read here). */
  datatype Item = Item(id: string, topic: string, timestamp: string, text: string)

  /** A `Record<string, number>` filled by a `reduce`: its keys in insertion order and its values. */
  datatype Tally = Tally(keys: seq<string>, counts: map<string, nat>)

  /** What `processData` returns for a non-empty list. */
  datatype ProcessedData = ProcessedData(
    byDate: Tally,
    byTopic: Tally,
    total: nat,
    recentActivity: seq<Item>,
    oldestTimestamp: string,
    newestTimestamp: string)

  // ---------------------------------------------------------------------------------------------
  // Counting
  // ---------------------------------------------------------------------------------------------

  /** The distinct keys of `xs`, in order of first appearance. */
  function Keys(xs: seq<string>): (r: seq<string>)
    ensures forall k :: k in r <==> k in xs
    ensures forall i, j :: 0 <= i < j < |r| ==> r[i] != r[j]
  {
    if xs == [] then []
    else
      var r := Keys(xs[..|xs| - 1]);
      assert xs == xs[..|xs| - 1] + [xs[|xs| - 1]];
      if xs[|xs| - 1] in r then r else r + [xs[|xs| - 1]]
  }

  /** How often `k` occurs in `xs`. */
  function Count(xs: seq<string>, k: string): (n: nat)
    ensures n <= |xs|
    ensures n > 0 <==> k in xs
  {
    if xs == [] then 0
    else
      assert xs == xs[..|xs| - 1] + [xs[|xs| - 1]];
      Count(xs[..|xs| - 1], k) + (if xs[|xs| - 1] == k then 1 else 0)
  }

  /** The record a counting `reduce` over `xs` builds. */
  function TallyOf(xs: seq<string>): Tally {
    Tally(Keys(xs), map k | k in Keys(xs) :: Count(xs, k))
  }

  /** `xs.reduce((acc, x) => { acc[x] = (acc[x] || 0) + 1; return acc; }, {})`. */
  method CountBy(xs: seq<string>) returns (tally: Tally)
    ensures tally == TallyOf(xs)
  {
    var keys: seq<string> := [];
    var acc: map<string, nat> := map[];
    for i := 0 to |xs|
      invariant keys == Keys(xs[..i])
      invariant forall k :: k in acc <==> k in keys
      invariant forall k | k in acc :: acc[k] == Count(xs[..i], k)
    {
      var x := xs[i];
      TallyStep(xs, i);
      if x !in acc {
        keys := keys + [x];
      }
      acc := acc[x := (if x in acc then acc[x] else 0) + 1];
    }
    assert xs[..|xs|] == xs;
    assert acc == map k | k in Keys(xs) :: Count(xs, k);
    tally := Tally(keys, acc);
  }

  /** One more element: its key is added when new, and only its own count goes up by one. */
  lemma TallyStep(xs: seq<string>, i: nat)
    requires i < |xs|
    ensures Keys(xs[..i + 1]) == if xs[i] in Keys(xs[..i]) then Keys(xs[..i]) else Keys(xs[..i]) + [xs[i]]
    ensures forall k :: Count(xs[..i + 1], k) == Count(xs[..i], k) + (if xs[i] == k then 1 else 0)
  {
    assert xs[..i + 1][..i] == xs[..i];
  }

  /** The counts of the first `n` keys, added up. */
  function CountsUpTo(xs: seq<string>, keys: seq<string>, n: nat): nat
    requires n <= |keys|
  {
    if n == 0 then 0 else CountsUpTo(xs, keys, n - 1) + Count(xs, keys[n - 1])
  }

  /** One more element adds one to its own key's count and nothing to the others. */
  lemma {:induction false} CountsSnoc(xs: seq<string>, x: string, keys: seq<string>, n: nat)
    requires n <= |keys|
    requires forall i, j :: 0 <= i < j < |keys| ==> keys[i] != keys[j]
    ensures CountsUpTo(xs + [x], keys, n) == CountsUpTo(xs, keys, n) + (if x in keys[..n] then 1 else 0)
  {
    assert (xs + [x])[..|xs + [x]| - 1] == xs;
    if n > 0 {
      CountsSnoc(xs, x, keys, n - 1);
      assert keys[..n] == keys[..n - 1] + [keys[n - 1]];
    }
  }

  /** The counts of a tally add up to the length of the counted list: `total` is the sum of the
      per-topic counts, and of the per-day counts. */
  lemma {:induction false} CountsSum(xs: seq<string>)
    ensures var t := TallyOf(xs); CountsUpTo(xs, t.keys, |t.keys|) == |xs|
  {
    if xs != [] {
      var init, x := xs[..|xs| - 1], xs[|xs| - 1];
      assert xs == init + [x];
      var keys := Keys(init);
      CountsSum(init);
      assert keys[..|keys|] == keys;
      CountsSnoc(init, x, keys, |keys|);
      if x !in keys {
        CountsUpToPrefix(xs, keys + [x], keys, |keys|);
        assert Count(init, x) == 0;
      }
    }
  }

  /** `CountsUpTo` only looks at the first `n` keys. */
  lemma {:induction false} CountsUpToPrefix(xs: seq<string>, keys: seq<string>, keys': seq<string>, n: nat)
    requires n <= |keys| && n <= |keys'|
    requires keys[..n] == keys'[..n]
    ensures CountsUpTo(xs, keys, n) == CountsUpTo(xs, keys', n)
  {
    if n > 0 {
      assert keys[n - 1] == keys[..n][n - 1] == keys'[..n][n - 1] == keys'[n - 1];
      assert keys[..n - 1] == keys[..n][..n - 1];
      assert keys'[..n - 1] == keys'[..n][..n - 1];
      CountsUpToPrefix(xs, keys, keys', n - 1);
    }
  }

  /** `Object.entries` of a tally: its keys with their counts, in key order. */
  function Entries(t: Tally): (es: seq<(string, nat)>)
    requires forall k | k in t.keys :: k in t.counts
    ensures |es| == |t.keys|
    ensures forall i :: 0 <= i < |es| ==> es[i] == (t.keys[i], t.counts[t.keys[i]])
    decreases |t.keys|
  {
    if t.keys == [] then []
    else
      var init := Tally(t.keys[..|t.keys| - 1], t.counts);
      var last := t.keys[|t.keys| - 1];
      Entries(init) + [(last, t.counts[last])]
  }

  // ---------------------------------------------------------------------------------------------
  // processData
  // ---------------------------------------------------------------------------------------------

  /** How many items `recentActivity` keeps. */
  const RecentCount: nat := 5

  function DateKeys(summaryData: seq<Item>, dateOf: string -> string): (r: seq<string>)
    ensures |r| == |summaryData|
    ensures forall i :: 0 <= i < |r| ==> r[i] == dateOf(summaryData[i].timestamp)
  {
    seq(|summaryData|, i requires 0 <= i < |summaryData| => dateOf(summaryData[i].timestamp))
  }

  function TopicKeys(summaryData: seq<Item>): (r: seq<string>)
    ensures |r| == |summaryData|
    ensures forall i :: 0 <= i < |r| ==> r[i] == summaryData[i].topic
  {
    seq(|summaryData|, i requires 0 <= i < |summaryData| => summaryData[i].topic)
  }

  /** The record `processData` builds for a non-empty list. */
  function Processed(summaryData: seq<Item>, dateOf: string -> string): ProcessedData
    requires summaryData != []
  {
    ProcessedData(
      TallyOf(DateKeys(summaryData, dateOf)),
      TallyOf(TopicKeys(summaryData)),
      |summaryData|,
      summaryData[..if |summaryData| < RecentCount then |summaryData| else RecentCount],
      dateOf(summaryData[|summaryData| - 1].timestamp),
      dateOf(summaryData[0].timestamp))
  }

  /** `processData`: nothing for an empty list, the counts and dates otherwise. */
  method ProcessData(summaryData: seq<Item>, dateOf: string -> string) returns (data: Option<ProcessedData>)
    ensures data.None? <==> summaryData == []
    ensures data.Some? ==> data.value == Processed(summaryData, dateOf)
  {
    if |summaryData| == 0 {
      return None;
    }
    var byDate := CountBy(DateKeys(summaryData, dateOf));
    var byTopic := CountBy(TopicKeys(summaryData));
    var n := |summaryData|;
    data := Some(ProcessedData(byDate, byTopic, n,
      summaryData[..if n < RecentCount then n else RecentCount],
      dateOf(summaryData[n - 1].timestamp), dateOf(summaryData[0].timestamp)));
  }

  /** The processed data agrees with the list: `total` is the number of summaries and the sum of the
      per-day and of the per-topic counts, each topic's count is its number of summaries, and
      `recentActivity` is the list's first min(5, n) items. */
  lemma ProcessedFacts(summaryData: seq<Item>, dateOf: string -> string)
    requires summaryData != []
    ensures var d := Processed(summaryData, dateOf);
      && d.total == |summaryData|
      && CountsUpTo(DateKeys(summaryData, dateOf), d.byDate.keys, |d.byDate.keys|) == d.total
      && CountsUpTo(TopicKeys(summaryData), d.byTopic.keys, |d.byTopic.keys|) == d.total
      && (forall t :: t in d.byTopic.counts <==> exists i :: 0 <= i < |summaryData| && summaryData[i].topic == t)
      && |d.recentActivity| == (if |summaryData| < RecentCount then |summaryData| else RecentCount)
      && d.recentActivity <= summaryData
  {
    CountsSum(DateKeys(summaryData, dateOf));
    CountsSum(TopicKeys(summaryData));
    var topics := TopicKeys(summaryData);
    forall t | t in Keys(topics)
      ensures exists i :: 0 <= i < |summaryData| && summaryData[i].topic == t
    {
      var i :| 0 <= i < |topics| && topics[i] == t;
    }
    forall t | exists i :: 0 <= i < |summaryData| && summaryData[i].topic == t
      ensures t in Keys(topics)
    {
      var i :| 0 <= i < |summaryData| && summaryData[i].topic == t;
      assert topics[i] == t;
    }
  }

  // ---------------------------------------------------------------------------------------------
  // Ordering topics by count
  // ---------------------------------------------------------------------------------------------

  predicate NonIncreasing(es: seq<(string, nat)>) {
    forall i, j :: 0 <= i < j < |es| ==> es[i].1 >= es[j].1
  }

  /** One step of a stable sort on `b[1] - a[1]`: `e` came before every entry of `es`, so it goes in
      front of the first entry whose count is not larger than its own. */
  function InsertByCount(e: (string, nat), es: seq<(string, nat)>): (r: seq<(string, nat)>)
    requires NonIncreasing(es)
    ensures NonIncreasing(r)
    ensures multiset(r) == multiset(es) + multiset{e}
    ensures |r| == |es| + 1
    ensures r[0] == (if es == [] || es[0].1 <= e.1 then e else es[0])
  {
    if es == [] || es[0].1 <= e.1 then
      ConsNonIncreasing(e, es);
      [e] + es
    else
      TailNonIncreasing(es);
      var rest := InsertByCount(e, es[1..]);
      assert es == [es[0]] + es[1..];
      ConsNonIncreasing(es[0], rest);
      [es[0]] + rest
  }

  lemma TailNonIncreasing(es: seq<(string, nat)>)
    requires NonIncreasing(es) && es != []
    ensures NonIncreasing(es[1..])
  {
    var t := es[1..];
    forall i, j | 0 <= i < j < |t| ensures t[i].1 >= t[j].1 {
      assert t[i] == es[i + 1] && t[j] == es[j + 1];
    }
  }

  /** An entry whose count is at least the first count of a non-increasing list can go in front. */
  lemma ConsNonIncreasing(x: (string, nat), es: seq<(string, nat)>)
    requires NonIncreasing(es) && (es != [] ==> x.1 >= es[0].1)
    ensures NonIncreasing([x] + es)
  {
    var r := [x] + es;
    forall i, j | 0 <= i < j < |r| ensures r[i].1 >= r[j].1 {
      if i == 0 {
        assert r[j] == es[j - 1];
        assert es[0].1 >= es[j - 1].1;
      } else {
        assert r[i] == es[i - 1] && r[j] == es[j - 1];
      }
    }
  }

  /** `entries.sort((a, b) => b[1] - a[1])`: the entries by non-increasing count, equal counts kept
      in their original order. */
  function SortByCount(es: seq<(string, nat)>): (r: seq<(string, nat)>)
    ensures NonIncreasing(r)
    ensures multiset(r) == multiset(es)
    ensures |r| == |es|
  {
    if es == [] then []
    else
      assert es == [es[0]] + es[1..];
      InsertByCount(es[0], SortByCount(es[1..]))
  }

  /** The entries of `es` whose count is `c`, in order. */
  function WithCount(es: seq<(string, nat)>, c: nat): seq<(string, nat)> {
    if es == [] then [] else (if es[0].1 == c then [es[0]] else []) + WithCount(es[1..], c)
  }

  lemma {:induction false} WithCountInsert(e: (string, nat), es: seq<(string, nat)>, c: nat)
    requires NonIncreasing(es)
    ensures WithCount(InsertByCount(e, es), c) == (if e.1 == c then [e] else []) + WithCount(es, c)
  {
    if es != [] && es[0].1 > e.1 {
      var r := InsertByCount(e, es);
      assert r == [es[0]] + InsertByCount(e, es[1..]);
      assert r[1..] == InsertByCount(e, es[1..]);
      WithCountInsert(e, es[1..], c);
    }
  }

  /** The sort is stable: among entries with the same count, the order is the insertion order of the
      keys. */
  lemma {:induction false} SortIsStable(es: seq<(string, nat)>, c: nat)
    ensures WithCount(SortByCount(es), c) == WithCount(es, c)
  {
    if es != [] {
      SortIsStable(es[1..], c);
      WithCountInsert(es[0], SortByCount(es[1..]), c);
    }
  }

  /** The index of the first entry with the largest count. */
  function FirstMax(es: seq<(string, nat)>): (i: nat)
    requires es != []
    ensures i < |es|
    ensures forall j :: 0 <= j < |es| ==> es[j].1 <= es[i].1
    ensures forall j :: 0 <= j < i ==> es[j].1 < es[i].1
  {
    if |es| == 1 then 0
    else
      var m := FirstMax(es[1..]);
      assert forall j :: 1 <= j < |es| ==> es[j] == es[1..][j - 1];
      if es[0].1 >= es[1 + m].1 then 0 else 1 + m
  }

  /** The most active topic is the first topic, in insertion order, that has the largest count. */
  lemma {:induction false} TopIsFirstMax(es: seq<(string, nat)>)
    requires es != []
    ensures SortByCount(es)[0] == es[FirstMax(es)]
  {
    if |es| > 1 {
      TopIsFirstMax(es[1..]);
    }
  }

  // ---------------------------------------------------------------------------------------------
  // Ordering dates
  // ---------------------------------------------------------------------------------------------

  /** `a <= b` as the default `sort` compares strings: character by character, a prefix first. */
  predicate TextLe(a: string, b: string) {
    a == [] || (b != [] && (a[0] < b[0] || (a[0] == b[0] && TextLe(a[1..], b[1..]))))
  }

  lemma {:induction false} TextLeTotal(a: string, b: string)
    ensures TextLe(a, b) || TextLe(b, a)
  {
    if a != [] && b != [] && a[0] == b[0] {
      TextLeTotal(a[1..], b[1..]);
    }
  }

  predicate Ascending(ss: seq<string>) {
    forall i, j :: 0 <= i < j < |ss| ==> TextLe(ss[i], ss[j])
  }

  lemma {:induction false} TextLeTrans(a: string, b: string, c: string)
    requires TextLe(a, b) && TextLe(b, c)
    ensures TextLe(a, c)
  {
    if a != [] && b != [] && c != [] && a[0] == b[0] == c[0] {
      TextLeTrans(a[1..], b[1..], c[1..]);
    }
  }

  /** A string not above the first of an ascending list is not above any of it. */
  lemma LeadsAscending(s: string, ss: seq<string>)
    requires Ascending(ss)
    requires ss == [] || TextLe(s, ss[0])
    ensures Ascending([s] + ss)
  {
    forall j | 0 < j < |ss| ensures TextLe(s, ss[j]) {
      TextLeTrans(s, ss[0], ss[j]);
    }
  }

  function InsertText(s: string, ss: seq<string>): (r: seq<string>)
    requires Ascending(ss)
    ensures Ascending(r)
    ensures multiset(r) == multiset(ss) + multiset{s}
    ensures |r| == |ss| + 1
    ensures r[0] == (if ss == [] || TextLe(s, ss[0]) then s else ss[0])
  {
    if ss == [] || TextLe(s, ss[0]) then
      LeadsAscending(s, ss);
      [s] + ss
    else
      TextLeTotal(s, ss[0]);
      var rest := InsertText(s, ss[1..]);
      assert ss == [ss[0]] + ss[1..];
      LeadsAscending(ss[0], rest);
      [ss[0]] + rest
  }

  /** `Object.keys(byDate).sort()`: the date keys in ascending text order. */
  function SortTexts(ss: seq<string>): (r: seq<string>)
    ensures Ascending(r)
    ensures multiset(r) == multiset(ss)
    ensures |r| == |ss|
  {
    if ss == [] then []
    else
      assert ss == [ss[0]] + ss[1..];
      InsertText(ss[0], SortTexts(ss[1..]))
  }

  // ---------------------------------------------------------------------------------------------
  // The chart
  // ---------------------------------------------------------------------------------------------

  /** `Math.max(...values)` for a non-empty list of counts. */
  function MaxOf(xs: seq<nat>): (m: nat)
    requires xs != []
    ensures m in xs
    ensures forall x | x in xs :: x <= m
  {
    if |xs| == 1 then xs[0]
    else
      var m := MaxOf(xs[1..]);
      assert xs == [xs[0]] + xs[1..];
      if xs[0] >= m then xs[0] else m
  }

  /** `Math.max(1, Math.floor(dates.length / 5))`: a date label every this many bars. */
  function LabelStep(n: nat): (s: nat)
    ensures s >= 1
  {
    if n / 5 < 1 then 1 else n / 5
  }

  /** `Math.max(1, Math.floor(maxCount / 4))`: the distance between y-axis labels. */
  function TickStep(maxCount: nat): (s: nat)
    ensures s >= 1
  {
    if maxCount / 4 < 1 then 1 else maxCount / 4
  }

  /** What the effect draws: the dates in order with one bar per date (its count), the indices of the
      bars that get a date label, and the y-axis labels. */
  datatype Chart = Chart(dates: seq<string>, bars: seq<nat>, labelled: seq<nat>, ticks: seq<nat>)

  /** `dates.forEach(...)`: one bar per date with that date's count, and a label on the bars whose
      index is a multiple of the label step. */
  method DrawBars(dates: seq<string>, byDate: Tally) returns (bars: seq<nat>, labelled: seq<nat>)
    requires forall d | d in dates :: d in byDate.counts
    ensures |bars| == |dates|
    ensures forall i :: 0 <= i < |dates| ==> bars[i] == byDate.counts[dates[i]]
    ensures forall i :: i in labelled <==> 0 <= i < |dates| && i % LabelStep(|dates|) == 0
    ensures forall j, k :: 0 <= j < k < |labelled| ==> labelled[j] < labelled[k]
  {
    var step := LabelStep(|dates|);
    bars, labelled := [], [];
    for index := 0 to |dates|
      invariant |bars| == index
      invariant forall i :: 0 <= i < index ==> bars[i] == byDate.counts[dates[i]]
      invariant forall i :: i in labelled <==> 0 <= i < index && i % step == 0
      invariant forall j, k :: 0 <= j < k < |labelled| ==> labelled[j] < labelled[k] < index
      invariant forall j :: 0 <= j < |labelled| ==> labelled[j] < index
    {
      bars := bars + [byDate.counts[dates[index]]];
      if index % step == 0 {
        labelled := labelled + [index];
      }
    }
  }

  /** The y-axis loop: 0, s, 2s, … up to `maxCount`, with `s` the tick step; nothing when `maxCount`
      is 0. */
  method YAxisLabels(maxCount: nat) returns (ticks: seq<nat>)
    ensures maxCount == 0 ==> ticks == []
    ensures maxCount > 0 ==> forall v :: v in ticks <==> 0 <= v <= maxCount && v % TickStep(maxCount) == 0
    ensures forall j, k :: 0 <= j < k < |ticks| ==> ticks[j] < ticks[k]
  {
    ticks := [];
    if maxCount > 0 {
      var step := TickStep(maxCount);
      var i := 0;
      while i <= maxCount
        invariant i % step == 0
        invariant forall v :: v in ticks <==> 0 <= v < i && v % step == 0
        invariant forall j, k :: 0 <= j < k < |ticks| ==> ticks[j] < ticks[k]
        invariant forall j :: 0 <= j < |ticks| ==> ticks[j] < i && ticks[j] <= maxCount
        decreases maxCount + 1 - i
      {
        NextMultiple(i, step);
        ticks := ticks + [i];
        i := i + step;
      }
      forall v | 0 <= v <= maxCount && v % step == 0 ensures v in ticks { }
    }
  }

  /** Between a multiple of `step` and the next one there is no other multiple. */
  lemma NextMultiple(i: nat, step: nat)
    requires step >= 1 && i % step == 0
    ensures (i + step) % step == 0
    ensures forall v :: i < v < i + step ==> v % step != 0
  {
    forall v | i < v < i + step ensures v % step != 0 {
      var q := i / step;
      assert i == q * step;
      assert v == q * step + (v - i);
      assert 0 < v - i < step;
      Remainder(q, step, v - i);
    }
    assert i + step == (i / step + 1) * step;
    Remainder(i / step + 1, step, 0);
  }

  lemma Remainder(q: nat, step: nat, r: nat)
    requires step >= 1 && r < step
    ensures (q * step + r) % step == r
  {
    var z := q * step + r;
    var k := z / step - q;
    assert k * step == r - z % step;
    if k >= 1 {
      MulAtLeast(k, step);
    } else if k <= -1 {
      MulAtLeast(-k, step);
    }
  }

  lemma MulAtLeast(k: int, step: int)
    requires k >= 1 && step >= 1
    ensures k * step >= step
  {
  }

  /** A non-empty list has at least one key, and every key has a count of at least one. */
  lemma TallyPositive(xs: seq<string>)
    requires xs != []
    ensures var t := TallyOf(xs);
      t.keys != [] && forall k | k in t.keys :: k in t.counts && t.counts[k] == Count(xs, k) > 0
  {
    assert xs[0] in Keys(xs);
  }

  /** `c` is what the effect draws for the per-day counts `t`: the dates in ascending order, one bar
      per date with its positive count, a label on the bars whose index is a multiple of the label
      step, and y-axis labels at the multiples of the tick step up to the largest count. */
  ghost predicate IsChartOf(c: Chart, t: Tally) {
    && c.dates == SortTexts(t.keys)
    && |c.bars| == |c.dates|
    && c.bars != []
    && (forall i :: 0 <= i < |c.dates| ==> c.dates[i] in t.counts && c.bars[i] == t.counts[c.dates[i]] > 0)
    && (forall i :: i in c.labelled <==> 0 <= i < |c.dates| && i % LabelStep(|c.dates|) == 0)
    && (forall v :: v in c.ticks <==> 0 <= v <= MaxOf(c.bars) && v % TickStep(MaxOf(c.bars)) == 0)
  }

  /** The drawing part of the effect, for a tally with at least one key and positive counts. */
  method DrawDays(byDate: Tally) returns (chart: Chart)
    requires byDate.keys != []
    requires forall k | k in byDate.keys :: k in byDate.counts && byDate.counts[k] > 0
    ensures IsChartOf(chart, byDate)
  {
    var dates := SortTexts(byDate.keys);
    forall d | d in dates ensures d in byDate.keys {
      assert d in multiset(dates);
    }
    assert byDate.keys[0] in multiset(dates);
    var bars, labelled := DrawBars(dates, byDate);
    assert bars[0] > 0;
    var maxCount := MaxOf(bars);
    assert maxCount >= bars[0];
    var ticks := YAxisLabels(maxCount);
    chart := Chart(dates, bars, labelled, ticks);
  }

  /** The effect: nothing without data; otherwise the chart of the per-day counts. */
  method DrawChart(summaryData: seq<Item>, dateOf: string -> string) returns (chart: Option<Chart>)
    ensures chart.None? <==> summaryData == []
    ensures chart.Some? ==> IsChartOf(chart.value, TallyOf(DateKeys(summaryData, dateOf)))
  {
    var data := ProcessData(summaryData, dateOf);
    if data.None? {
      return None;
    }
    TallyPositive(DateKeys(summaryData, dateOf));
    var c := DrawDays(data.value.byDate);
    chart := Some(c);
  }

  // ---------------------------------------------------------------------------------------------
  // The panel
  // ---------------------------------------------------------------------------------------------

  /** What the component renders: "No data available yet", or the total, the most active topic
      (`None` shows "N/A"), the first and latest dates and the topics breakdown. */
  datatype Panel =
    | NoDataYet
    | Panel(total: nat, mostActiveTopic: Option<string>, firstSummary: string, latestSummary: string,
            breakdown: seq<(string, nat)>)

  /** The rendered panel. The most active topic is the first entry of the count-sorted topics, which
      is the first topic in insertion order with the largest count. */
  function Render(summaryData: seq<Item>, dateOf: string -> string): (p: Panel)
    ensures p.NoDataYet? <==> summaryData == []
    ensures p.Panel? ==>
      var entries := Entries(TallyOf(TopicKeys(summaryData)));
      && p.total == |summaryData|
      && p.firstSummary == dateOf(summaryData[|summaryData| - 1].timestamp)
      && p.latestSummary == dateOf(summaryData[0].timestamp)
      && NonIncreasing(p.breakdown)
      && multiset(p.breakdown) == multiset(entries)
      && entries != []
      && p.mostActiveTopic == Some(entries[FirstMax(entries)].0)
  {
    if summaryData == [] then NoDataYet
    else
      var data := Processed(summaryData, dateOf);
      var entries := Entries(data.byTopic);
      var breakdown := SortByCount(entries);
      TallyPositive(TopicKeys(summaryData));
      TopIsFirstMax(entries);
      Panel(data.total, if breakdown == [] then None else Some(breakdown[0].0),
            data.oldestTimestamp, data.newestTimestamp, breakdown)
  }
}
