/** `CalculateStats` (core/log.go): totals, the average, the span of end
    times and the ten activities with the most time. */
module Statistics {
  import opened Wrappers
  import opened Clock
  import opened Records
  import opened Sorting
  import opened Aggregates

  /** `ActivityStat`: one tag with its summed duration and entry count. */
  datatype ActivityStat = ActivityStat(tag: string, duration: Duration, count: int)

  /** What the `DateRange` string shows: nothing (no entries), one date, or
      the earliest and latest end dates. */
  datatype DateRange = NoRange | OneDay(day: Time) | Span(earliest: Time, latest: Time)

  datatype LogStats = LogStats(
    totalTime: Duration,
    totalSessions: int,
    averageTime: Duration,
    topActivities: seq<ActivityStat>,
    dateRange: DateRange)

  const TopActivityCount: int := 10

  function TagOf(e: LogEntry): string
  {
    e.tag
  }

  /** The order handed to `sort.Slice`: more time first. */
  predicate LongerOrSame(a: ActivityStat, b: ActivityStat)
  {
    a.duration >= b.duration
  }

  lemma LongerOrSameOrder()
    ensures TotalPreorder(LongerOrSame)
  {
  }

  /** The earliest end time, as the loop's running minimum finds it. */
  function MinEnd(es: seq<LogEntry>): Time
    requires es != []
  {
    if |es| == 1 then es[0].endTime
    else
      var m := MinEnd(es[..|es| - 1]);
      var last := es[|es| - 1].endTime;
      if last < m then last else m
  }

  /** The latest end time, as the loop's running maximum finds it. */
  function MaxEnd(es: seq<LogEntry>): Time
    requires es != []
  {
    if |es| == 1 then es[0].endTime
    else
      var m := MaxEnd(es[..|es| - 1]);
      var last := es[|es| - 1].endTime;
      if last > m then last else m
  }

  /** The running minimum is the end time of some entry and bounds them all
      from below. */
  lemma {:induction false} MinEndBound(es: seq<LogEntry>) returns (w: nat)
    requires es != []
    ensures w < |es| && es[w].endTime == MinEnd(es)
    ensures forall k :: 0 <= k < |es| ==> MinEnd(es) <= es[k].endTime
  {
    if |es| == 1 {
      return 0;
    }
    var init := es[..|es| - 1];
    var n := |es| - 1;
    w := MinEndBound(init);
    assert init[w] == es[w];
    if es[n].endTime < MinEnd(init) {
      w := n;
    }
    forall k | 0 <= k < |es| ensures MinEnd(es) <= es[k].endTime {
      if k < n {
        assert init[k] == es[k];
      }
    }
  }

  /** The running maximum is the end time of some entry and bounds them all
      from above. */
  lemma {:induction false} MaxEndBound(es: seq<LogEntry>) returns (w: nat)
    requires es != []
    ensures w < |es| && es[w].endTime == MaxEnd(es)
    ensures forall k :: 0 <= k < |es| ==> es[k].endTime <= MaxEnd(es)
  {
    if |es| == 1 {
      return 0;
    }
    var init := es[..|es| - 1];
    var n := |es| - 1;
    w := MaxEndBound(init);
    assert init[w] == es[w];
    if es[n].endTime > MaxEnd(init) {
      w := n;
    }
    forall k | 0 <= k < |es| ensures es[k].endTime <= MaxEnd(es) {
      if k < n {
        assert init[k] == es[k];
      }
    }
  }

  /** The running minimum and maximum are the earliest and the latest end
      time: each is the end time of some entry and bounds them all. */
  lemma EndBounds(es: seq<LogEntry>)
    requires es != []
    ensures exists i :: 0 <= i < |es| && es[i].endTime == MinEnd(es)
    ensures exists i :: 0 <= i < |es| && es[i].endTime == MaxEnd(es)
    ensures forall i :: 0 <= i < |es| ==> MinEnd(es) <= es[i].endTime <= MaxEnd(es)
  {
    var lo := MinEndBound(es);
    var hi := MaxEndBound(es);
  }

  /** The record the activity loop builds for `tag`. */
  function StatOf(tagTimes: map<string, int>, tagCounts: map<string, int>, tag: string): ActivityStat
  {
    ActivityStat(tag, Get(tagTimes, tag, 0), Get(tagCounts, tag, 0))
  }

  ghost function StatsFor(tagTimes: map<string, int>, tagCounts: map<string, int>, tags: set<string>): set<ActivityStat>
  {
    set t | t in tags :: StatOf(tagTimes, tagCounts, t)
  }

  /** One record per distinct tag of `es`. */
  ghost function Activities(es: seq<LogEntry>): set<ActivityStat>
  {
    var times := TotalsBy(es, TagOf);
    StatsFor(times, CountsBy(es, TagOf), times.Keys)
  }

  /** The activity records are exactly one per tag that occurs, with that
      tag's summed duration and count. */
  lemma ActivitiesMeaning(es: seq<LogEntry>, a: ActivityStat)
    ensures a in Activities(es) <==>
      && (exists i :: 0 <= i < |es| && es[i].tag == a.tag)
      && a.duration == SumWhere(es, TagOf, a.tag)
      && a.count == CountWhere(es, TagOf, a.tag)
  {
    TotalsByMeaning(es, TagOf, a.tag);
    if exists i :: 0 <= i < |es| && es[i].tag == a.tag {
      var i :| 0 <= i < |es| && es[i].tag == a.tag;
      assert TagOf(es[i]) == a.tag;
    }
  }

  lemma StatsForAdd(tagTimes: map<string, int>, tagCounts: map<string, int>, tags: set<string>, t: string)
    requires t !in tags
    ensures StatsFor(tagTimes, tagCounts, tags + {t}) == StatsFor(tagTimes, tagCounts, tags) + {StatOf(tagTimes, tagCounts, t)}
    ensures StatOf(tagTimes, tagCounts, t) !in StatsFor(tagTimes, tagCounts, tags)
  {
  }

  /** The summary of the entries' end times. */
  function RangeOf(es: seq<LogEntry>): DateRange
  {
    if es == [] then NoRange
    else if DayOf(MinEnd(es)) == DayOf(MaxEnd(es)) then OneDay(MinEnd(es))
    else Span(MinEnd(es), MaxEnd(es))
  }

  /** The range shows one date exactly when every entry ends on the same
      day; otherwise it spans from the earliest to the latest end time. */
  lemma RangeOneDay(es: seq<LogEntry>)
    requires es != []
    ensures RangeOf(es).OneDay? <==>
      forall i, j :: 0 <= i < |es| && 0 <= j < |es| ==> DayOf(es[i].endTime) == DayOf(es[j].endTime)
    ensures RangeOf(es).Span? ==> RangeOf(es).earliest < RangeOf(es).latest
  {
    EndBounds(es);
    var lo :| 0 <= lo < |es| && es[lo].endTime == MinEnd(es);
    var hi :| 0 <= hi < |es| && es[hi].endTime == MaxEnd(es);
    if DayOf(MinEnd(es)) == DayOf(MaxEnd(es)) {
      forall i, j | 0 <= i < |es| && 0 <= j < |es| ensures DayOf(es[i].endTime) == DayOf(es[j].endTime) {
        DayOfMonotone(MinEnd(es), es[i].endTime);
        DayOfMonotone(es[i].endTime, MaxEnd(es));
        DayOfMonotone(MinEnd(es), es[j].endTime);
        DayOfMonotone(es[j].endTime, MaxEnd(es));
      }
    } else {
      assert DayOf(es[lo].endTime) != DayOf(es[hi].endTime);
    }
  }

  /** `CalculateStats`: the zero statistics for no entries; otherwise the
      count, the total and its truncated average, the date range of the end
      times, and a top-ten selection, by time, of the per-tag records. */
  method CalculateStats(es: seq<LogEntry>) returns (st: LogStats)
    ensures es == [] ==> st == LogStats(0, 0, 0, [], NoRange)
    ensures es != [] ==>
      && st.totalSessions == |es|
      && st.totalTime == SumDurations(es)
      && st.averageTime == Quot(SumDurations(es), |es|)
      && st.dateRange == RangeOf(es)
    ensures IsTop(st.topActivities, multiset(Activities(es)), TopActivityCount, LongerOrSame)
  {
    if |es| == 0 {
      st := LogStats(0, 0, 0, [], NoRange);
      assert Activities(es) == {};
      return;
    }
    var total, tagCounts, tagTimes, earliest, latest := Tally(es);
    var range := if DayOf(earliest) == DayOf(latest) then OneDay(earliest) else Span(earliest, latest);
    var acts := CollectActivities(tagTimes, tagCounts);
    LongerOrSameOrder();
    var sorted := Sort(acts, LongerOrSame);
    SortTruncateIsTop(acts, TopActivityCount, LongerOrSame);
    st := LogStats(total, |es|, Quot(total, |es|), Truncate(sorted, TopActivityCount), range);
  }

  /** What one more entry adds to each running value of `Tally`. */
  lemma TallyStep(es: seq<LogEntry>, i: nat)
    requires i < |es|
    ensures SumDurations(es[..i + 1]) == SumDurations(es[..i]) + es[i].duration
    ensures CountsBy(es[..i + 1], TagOf) == Accumulate(CountsBy(es[..i], TagOf), es[i].tag, 1)
    ensures TotalsBy(es[..i + 1], TagOf) == Accumulate(TotalsBy(es[..i], TagOf), es[i].tag, es[i].duration)
    ensures i > 0 ==> MinEnd(es[..i + 1]) == if es[i].endTime < MinEnd(es[..i]) then es[i].endTime else MinEnd(es[..i])
    ensures i > 0 ==> MaxEnd(es[..i + 1]) == if es[i].endTime > MaxEnd(es[..i]) then es[i].endTime else MaxEnd(es[..i])
    ensures i == 0 ==> MinEnd(es[..i + 1]) == es[0].endTime == MaxEnd(es[..i + 1])
  {
    assert es[..i + 1][..i] == es[..i];
  }

  /** The loop over the entries: the running total, the per-tag counts and
      times, and the earliest and latest end times. */
  method Tally(es: seq<LogEntry>)
    returns (total: int, tagCounts: map<string, int>, tagTimes: map<string, int>, earliest: Time, latest: Time)
    requires es != []
    ensures total == SumDurations(es)
    ensures tagCounts == CountsBy(es, TagOf) && tagTimes == TotalsBy(es, TagOf)
    ensures earliest == MinEnd(es) && latest == MaxEnd(es)
  {
    total, tagCounts, tagTimes := 0, map[], map[];
    earliest, latest := 0, 0;
    var i := 0;
    while i < |es|
      invariant 0 <= i <= |es|
      invariant total == SumDurations(es[..i])
      invariant tagCounts == CountsBy(es[..i], TagOf)
      invariant tagTimes == TotalsBy(es[..i], TagOf)
      invariant i > 0 ==> earliest == MinEnd(es[..i]) && latest == MaxEnd(es[..i])
    {
      var e := es[i];
      TallyStep(es, i);
      total := total + e.duration;
      tagCounts := Accumulate(tagCounts, e.tag, 1);
      tagTimes := Accumulate(tagTimes, e.tag, e.duration);
      if i == 0 {
        earliest, latest := e.endTime, e.endTime;
      } else {
        if e.endTime < earliest {
          earliest := e.endTime;
        }
        if e.endTime > latest {
          latest := e.endTime;
        }
      }
      i := i + 1;
    }
    assert es[..i] == es;
  }

  /** The loop over `tagTimes`: one record per key, in map order. */
  method CollectActivities(tagTimes: map<string, int>, tagCounts: map<string, int>) returns (acts: seq<ActivityStat>)
    ensures multiset(acts) == multiset(StatsFor(tagTimes, tagCounts, tagTimes.Keys))
  {
    acts := [];
    var rest := tagTimes.Keys;
    while rest != {}
      invariant rest <= tagTimes.Keys
      invariant multiset(acts) == multiset(StatsFor(tagTimes, tagCounts, tagTimes.Keys - rest))
      decreases |rest|
    {
      var t :| t in rest;
      StatsForAdd(tagTimes, tagCounts, tagTimes.Keys - rest, t);
      assert tagTimes.Keys - (rest - {t}) == (tagTimes.Keys - rest) + {t};
      acts := acts + [StatOf(tagTimes, tagCounts, t)];
      rest := rest - {t};
    }
    assert tagTimes.Keys - rest == tagTimes.Keys;
  }

  /** The per-tag totals add up to the total time. */
  lemma TagTotalsAddUp(es: seq<LogEntry>)
    ensures MapSum(TotalsBy(es, TagOf)) == SumDurations(es)
  {
    MapSumTotals(es, TagOf);
  }

  /** A top selection holds every activity when there are at most ten
      tags, and exactly ten otherwise. */
  lemma TopActivitiesSize(es: seq<LogEntry>, r: seq<ActivityStat>)
    requires IsTop(r, multiset(Activities(es)), TopActivityCount, LongerOrSame)
    ensures |r| == if |Activities(es)| > TopActivityCount then TopActivityCount else |Activities(es)|
    ensures |Activities(es)| <= TopActivityCount ==> multiset(r) == multiset(Activities(es))
  {
    if |Activities(es)| <= TopActivityCount {
      var d := multiset(Activities(es)) - multiset(r);
      assert multiset(Activities(es)) == multiset(r) + d;
    }
  }

  /** Two 30-minute coding sessions and one 30-minute writing session: 90
      minutes in all, 30 on average, and coding (60 minutes, 2 sessions)
      ranked first. */
  lemma StatsExample(r: seq<ActivityStat>)
    requires IsTop(r, multiset(Activities(ExampleEntries())), TopActivityCount, LongerOrSame)
    ensures SumDurations(ExampleEntries()) == 90 * NanosPerMinute
    ensures Quot(SumDurations(ExampleEntries()), 3) == 30 * NanosPerMinute
    ensures |r| == 2 && r[0] == ActivityStat("coding", 60 * NanosPerMinute, 2)
  {
    var coding, writing := ActivityStat("coding", 60 * NanosPerMinute, 2), ActivityStat("writing", 30 * NanosPerMinute, 1);
    ExampleActivities();
    assert multiset(Activities(ExampleEntries())) == multiset{coding, writing};
    assert r[0] in multiset(r) && r[1] in multiset(r);
    assert r[0] != r[1] by {
      if r[0] == r[1] { Twice(r, 0, 1); }
    }
  }

  lemma ExampleActivities()
    ensures SumDurations(ExampleEntries()) == 90 * NanosPerMinute
    ensures Activities(ExampleEntries()) ==
      {ActivityStat("coding", 60 * NanosPerMinute, 2), ActivityStat("writing", 30 * NanosPerMinute, 1)}
  {
    var es := ExampleEntries();
    var half := 30 * NanosPerMinute;
    var times, counts := ExampleTotals();
    var coding, writing := ActivityStat("coding", 2 * half, 2), ActivityStat("writing", half, 1);
    assert StatOf(times, counts, "coding") == coding;
    assert StatOf(times, counts, "writing") == writing;
    assert times.Keys == {"coding", "writing"};
  }

  lemma ExampleTotals() returns (times: map<string, int>, counts: map<string, int>)
    ensures times == TotalsBy(ExampleEntries(), TagOf) && counts == CountsBy(ExampleEntries(), TagOf)
    ensures times == map["coding" := 60 * NanosPerMinute, "writing" := 30 * NanosPerMinute]
    ensures counts == map["coding" := 2, "writing" := 1]
    ensures SumDurations(ExampleEntries()) == 90 * NanosPerMinute
  {
    var es := ExampleEntries();
    var half := 30 * NanosPerMinute;
    assert es[..|es| - 1] == es[..2] && es[..2][..1] == es[..1] && es[..1][..0] == [];
    assert SumDurations(es[..1]) == half && SumDurations(es[..2]) == 2 * half;
    assert TotalsBy(es[..1], TagOf) == map["coding" := half];
    assert TotalsBy(es[..2], TagOf) == map["coding" := 2 * half];
    assert CountsBy(es[..1], TagOf) == map["coding" := 1];
    assert CountsBy(es[..2], TagOf) == map["coding" := 2];
    times, counts := TotalsBy(es, TagOf), CountsBy(es, TagOf);
  }

  function ExampleEntries(): seq<LogEntry>
  {
    var half := 30 * NanosPerMinute;
    [LogEntry("coding", 0, half, half, 0), LogEntry("coding", half, 2 * half, half, 0), LogEntry("writing", 2 * half, 3 * half, half, 0)]
  }
}
