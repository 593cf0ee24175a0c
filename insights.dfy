/** `calculateInsights` (cmd/insights.go): totals, the busiest weekday and
    the averages on it and on the other days, and the three activities with
    the most time with their share of the total. */
module Insights {
  import opened Wrappers
  import opened Clock
  import opened Records
  import opened Sorting
  import opened Aggregates

  /** A tag and its summed duration (`tagStatPair`). */
  datatype TagTotal = TagTotal(tag: string, duration: Duration)

  /** One line of the top-activities list. */
  datatype InsightStat = InsightStat(tag: string, duration: Duration, percent: int)

  datatype InsightReport = InsightReport(
    totalSessions: int,
    totalTime: Duration,
    avgSessionLength: Duration,
    busiestDay: WeekdayKey,
    busiestDayAvg: Duration,
    otherDaysAvg: Duration,
    topActivities: seq<InsightStat>)

  const TopInsightCount: int := 3

  /** Go's `time.Weekday`: 0 for Sunday through 6 for Saturday. */
  newtype WeekdayKey = w: int | 0 <= w < 7

  /** `EndTime.Weekday()`. */
  function WeekdayOf(e: LogEntry): WeekdayKey
  {
    Weekday(e.endTime) as WeekdayKey
  }

  function TagOf(e: LogEntry): string
  {
    e.tag
  }

  predicate LongerOrSame(a: TagTotal, b: TagTotal)
  {
    a.duration >= b.duration
  }

  lemma LongerOrSameOrder()
    ensures TotalPreorder(LongerOrSame)
  {
  }

  /** The share of `d` in `total`, in whole percent, truncated toward zero. */
  function Percent(d: Duration, total: Duration): int
  {
    if total > 0 then Quot(100 * d, total) else 0
  }

  /** A share of a positive total lies between 0 and 100, and it only
      grows with the duration. */
  lemma PercentBounds(d: Duration, d2: Duration, total: Duration)
    requires 0 <= d <= d2 <= total && total > 0
    ensures 0 <= Percent(d, total) <= Percent(d2, total) <= 100
  {
    DivMonotone(100 * d, 100 * d2, total);
    DivMonotone(100 * d2, 100 * total, total);
    assert (100 * total) / total == 100;
  }

  lemma DivMonotone(a: nat, b: nat, n: int)
    requires a <= b && n > 0
    ensures a / n <= b / n
  {
    var qa, qb := a / n, b / n;
    assert qa * n <= a && b < (qb + 1) * n;
    MulCancel(qa, qb + 1, n);
  }

  lemma MulCancel(x: int, y: int, n: int)
    requires x * n < y * n && n > 0
    ensures x < y
  {
  }

  function WithPercent(t: TagTotal, total: Duration): InsightStat
  {
    InsightStat(t.tag, t.duration, Percent(t.duration, total))
  }

  ghost function TagTotalsOf(m: map<string, int>): set<TagTotal>
  {
    set t | t in m :: TagTotal(t, m[t])
  }

  /** The per-tag totals of `es`, one pair per tag. */
  ghost function TagTotals(es: seq<LogEntry>): set<TagTotal>
  {
    TagTotalsOf(TotalsBy(es, TagOf))
  }

  /** `d` is what the busiest-day loop can leave: a day with the largest
      positive total, or Sunday when no total is positive. */
  ghost predicate IsBusiest(d: WeekdayKey, m: map<WeekdayKey, int>)
  {
    && ((exists k :: k in m && m[k] > 0) ==> d in m && m[d] > 0 && forall k :: k in m ==> m[k] <= m[d])
    && ((forall k :: k in m ==> m[k] <= 0) ==> d == 0)
  }

  /** The busiest-day loop: a strict `>` over the map from a maximum of 0
      and Sunday; which of several tied days wins depends on map order. */
  method BusiestDay(m: map<WeekdayKey, int>) returns (day: WeekdayKey)
    ensures IsBusiest(day, m)
  {
    var maxDuration := 0;
    day := 0;
    var rest := m.Keys;
    while rest != {}
      invariant rest <= m.Keys
      invariant forall k :: k in m.Keys - rest ==> m[k] <= maxDuration
      invariant (maxDuration == 0 && day == 0) || (maxDuration > 0 && day in m && m[day] == maxDuration)
      decreases |rest|
    {
      var day' :| day' in rest;
      if m[day'] > maxDuration {
        maxDuration := m[day'];
        day := day';
      }
      rest := rest - {day'};
    }
    assert m.Keys - rest == m.Keys;
  }

  /** The pairs of the tags in `keys`. */
  ghost function PairsOver(m: map<string, int>, keys: set<string>): set<TagTotal>
    requires keys <= m.Keys
  {
    set t | t in keys :: TagTotal(t, m[t])
  }

  /** Listing one more tag adds exactly its pair. */
  lemma PairsOverAdd(m: map<string, int>, keys: set<string>, t: string)
    requires keys <= m.Keys && t in m && t !in keys
    ensures PairsOver(m, keys + {t}) == PairsOver(m, keys) + {TagTotal(t, m[t])}
    ensures TagTotal(t, m[t]) !in PairsOver(m, keys)
  {
  }

  /** The loop that lists the tag totals, in map order. */
  method ListTagTotals(m: map<string, int>) returns (pairs: seq<TagTotal>)
    ensures multiset(pairs) == multiset(TagTotalsOf(m))
  {
    pairs := [];
    var rest := m.Keys;
    assert m.Keys - rest == {};
    while rest != {}
      invariant rest <= m.Keys
      invariant multiset(pairs) == multiset(PairsOver(m, m.Keys - rest))
      decreases |rest|
    {
      var t :| t in rest;
      PairsOverAdd(m, m.Keys - rest, t);
      assert m.Keys - (rest - {t}) == (m.Keys - rest) + {t};
      pairs := pairs + [TagTotal(t, m[t])];
      rest := rest - {t};
    }
    assert m.Keys - rest == m.Keys;
  }

  /** The append loop with `break`: the first three pairs, each with its
      share of the total. */
  method FirstThree(sorted: seq<TagTotal>, total: Duration) returns (acts: seq<InsightStat>)
    ensures |acts| == Bound(TopInsightCount, |sorted|)
    ensures forall i :: 0 <= i < |acts| ==> acts[i] == WithPercent(sorted[i], total)
  {
    acts := [];
    var i := 0;
    while i < |sorted|
      invariant 0 <= i <= |sorted| && i <= TopInsightCount
      invariant |acts| == i
      invariant forall j :: 0 <= j < i ==> acts[j] == WithPercent(sorted[j], total)
    {
      if i >= TopInsightCount {
        break;
      }
      var percent := 0;
      if total > 0 {
        percent := Quot(100 * sorted[i].duration, total);
      }
      acts := acts + [InsightStat(sorted[i].tag, sorted[i].duration, percent)];
      i := i + 1;
    }
  }

  /** `calculateInsights`. For no entries only the (zero) count is set.
      Otherwise: the count, total and truncated average; a busiest weekday
      by summed time; the average session on that day and on all other
      days (0 when there are none); and a top-three selection, by time, of
      the per-tag totals, each with its truncated percentage. `picked` is
      that selection before the percentages are attached. */
  method CalculateInsights(es: seq<LogEntry>) returns (rep: InsightReport, ghost picked: seq<TagTotal>)
    ensures es == [] ==> rep == InsightReport(0, 0, 0, 0, 0, 0, [])
    ensures es != [] ==>
      var dayTotals, dayCounts := TotalsBy(es, WeekdayOf), CountsBy(es, WeekdayOf);
      var busyTime, busyCount := Get(dayTotals, rep.busiestDay, 0), Get(dayCounts, rep.busiestDay, 0);
      && rep.totalSessions == |es|
      && rep.totalTime == SumDurations(es)
      && rep.avgSessionLength == Quot(SumDurations(es), |es|)
      && IsBusiest(rep.busiestDay, dayTotals)
      && rep.busiestDayAvg == (if busyCount > 0 then Quot(busyTime, busyCount) else 0)
      && rep.otherDaysAvg == (if |es| - busyCount > 0 then Quot(SumDurations(es) - busyTime, |es| - busyCount) else 0)
    ensures IsTop(picked, multiset(TagTotals(es)), TopInsightCount, LongerOrSame)
    ensures |rep.topActivities| == |picked|
    ensures forall i :: 0 <= i < |picked| ==> rep.topActivities[i] == WithPercent(picked[i], rep.totalTime)
  {
    if |es| == 0 {
      rep := InsightReport(0, 0, 0, 0, 0, 0, []);
      picked := [];
      assert TagTotals(es) == {};
      return;
    }
    var total, dayTotals, dayCounts, tagTotals := TallyWeek(es);
    var busiest, busyAvg, otherAvg := DayAverages(|es|, total, dayTotals, dayCounts);
    var acts;
    acts, picked := TopActivities(tagTotals, total, es);
    rep := InsightReport(|es|, total, Quot(total, |es|), busiest, busyAvg, otherAvg, acts);
  }

  /** The top-activities part: the tag totals of `es` listed, sorted by
      time and the first three given their share of `total`. */
  method TopActivities(tagTotals: map<string, int>, total: Duration, ghost es: seq<LogEntry>)
    returns (acts: seq<InsightStat>, picked: seq<TagTotal>)
    requires tagTotals == TotalsBy(es, TagOf)
    ensures IsTop(picked, multiset(TagTotals(es)), TopInsightCount, LongerOrSame)
    ensures |acts| == |picked|
    ensures forall i :: 0 <= i < |picked| ==> acts[i] == WithPercent(picked[i], total)
  {
    var pairs := ListTagTotals(tagTotals);
    LongerOrSameOrder();
    var sorted := Sort(pairs, LongerOrSame);
    SortTruncateIsTop(pairs, TopInsightCount, LongerOrSame);
    picked := Truncate(sorted, TopInsightCount);
    acts := FirstThree(sorted, total);
  }

  /** The busiest day and the two averages, from the weekday maps. */
  method DayAverages(n: int, total: Duration, dayTotals: map<WeekdayKey, int>, dayCounts: map<WeekdayKey, int>)
    returns (busiest: WeekdayKey, busyAvg: Duration, otherAvg: Duration)
    ensures IsBusiest(busiest, dayTotals)
    ensures var busyTime, busyCount := Get(dayTotals, busiest, 0), Get(dayCounts, busiest, 0);
      && busyAvg == (if busyCount > 0 then Quot(busyTime, busyCount) else 0)
      && otherAvg == (if n - busyCount > 0 then Quot(total - busyTime, n - busyCount) else 0)
  {
    busiest := BusiestDay(dayTotals);
    var busyTime := Get(dayTotals, busiest, 0);
    var busyCount := Get(dayCounts, busiest, 0);
    busyAvg := 0;
    if busyCount > 0 {
      busyAvg := Quot(busyTime, busyCount);
    }
    otherAvg := 0;
    if n - busyCount > 0 {
      otherAvg := Quot(total - busyTime, n - busyCount);
    }
  }

  /** The accumulation loop over the entries. */
  method TallyWeek(es: seq<LogEntry>)
    returns (total: int, dayTotals: map<WeekdayKey, int>, dayCounts: map<WeekdayKey, int>, tagTotals: map<string, int>)
    ensures total == SumDurations(es)
    ensures dayTotals == TotalsBy(es, WeekdayOf) && dayCounts == CountsBy(es, WeekdayOf)
    ensures tagTotals == TotalsBy(es, TagOf)
  {
    total, dayTotals, dayCounts, tagTotals := 0, map[], map[], map[];
    var i := 0;
    while i < |es|
      invariant 0 <= i <= |es|
      invariant total == SumDurations(es[..i])
      invariant dayTotals == TotalsBy(es[..i], WeekdayOf) && dayCounts == CountsBy(es[..i], WeekdayOf)
      invariant tagTotals == TotalsBy(es[..i], TagOf)
    {
      var e := es[i];
      assert es[..i + 1][..i] == es[..i];
      total := total + e.duration;
      dayTotals := Accumulate(dayTotals, WeekdayOf(e), e.duration);
      dayCounts := Accumulate(dayCounts, WeekdayOf(e), 1);
      tagTotals := Accumulate(tagTotals, e.tag, e.duration);
      i := i + 1;
    }
    assert es[..i] == es;
  }

  /** The busiest day's total is at least that of every other weekday, and
      the per-weekday totals add up to the total time. */
  lemma BusiestDominates(es: seq<LogEntry>, d: WeekdayKey, w: WeekdayKey)
    requires IsBusiest(d, TotalsBy(es, WeekdayOf))
    ensures SumWhere(es, WeekdayOf, w) <= SumWhere(es, WeekdayOf, d) || SumWhere(es, WeekdayOf, w) <= 0
    ensures MapSum(TotalsBy(es, WeekdayOf)) == SumDurations(es)
  {
    TotalsByMeaning(es, WeekdayOf, w);
    TotalsByMeaning(es, WeekdayOf, d);
    MapSumTotals(es, WeekdayOf);
  }

  /** The pairs are exactly one per tag that occurs, with its summed time. */
  lemma TagTotalsMeaning(es: seq<LogEntry>, p: TagTotal)
    ensures p in TagTotals(es) <==>
      (exists i :: 0 <= i < |es| && es[i].tag == p.tag) && p.duration == SumWhere(es, TagOf, p.tag)
  {
    TotalsByMeaning(es, TagOf, p.tag);
    if exists i :: 0 <= i < |es| && es[i].tag == p.tag {
      var i :| 0 <= i < |es| && es[i].tag == p.tag;
      assert TagOf(es[i]) == p.tag;
    }
  }
}
