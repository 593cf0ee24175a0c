/** The numbers behind the dashboard (core/dashboard.go): per-day totals of
    the last year, the yearly total, the daily average, the current streak,
    and the colour tier of a day's cell. `yearAgo` stands for
    `now.AddDate(-1, 0, 0)`. */
module Dashboard {
  import opened Wrappers
  import opened Clock
  import opened Records
  import opened Sorting
  import opened Aggregates
  import opened Text
  import opened UI

  /** The key `time.Date(y, m, d, 0, 0, 0, 0, time.UTC)`: midnight of civil
      day `day`. */
  datatype DayKey = DayKey(day: int)

  function DayKeyOf(e: LogEntry): DayKey
  {
    DayKey(DayOf(e.endTime))
  }

  /** Whether an entry counts towards the dashboard: it has an end time and
      ended after `yearAgo`. */
  predicate InLastYear(e: LogEntry, yearAgo: Time)
  {
    e.endTime != ZeroTime && e.endTime > yearAgo
  }

  /** `InLastYear` as the test handed to `Keep`. */
  function LastYear(yearAgo: Time): LogEntry -> bool
  {
    e => InLastYear(e, yearAgo)
  }

  /** The bucketing loop of `HandleDashboard`: the durations of the
      entries of the last year, summed per civil day of their end. */
  method DailyTotals(es: seq<LogEntry>, yearAgo: Time) returns (totals: map<DayKey, int>)
    ensures totals == TotalsBy(Keep(es, LastYear(yearAgo)), DayKeyOf)
  {
    totals := map[];
    var i := 0;
    while i < |es|
      invariant 0 <= i <= |es|
      invariant totals == TotalsBy(Keep(es[..i], LastYear(yearAgo)), DayKeyOf)
    {
      var e := es[i];
      DailyTotalsStep(es, i, yearAgo);
      if e.endTime != ZeroTime && e.endTime > yearAgo {
        totals := Accumulate(totals, DayKey(DayOf(e.endTime)), e.duration);
      }
      i := i + 1;
    }
    assert es[..i] == es;
  }

  /** One more entry either adds its duration to its day's bucket or, when
      it is not of the last year, changes nothing. */
  lemma DailyTotalsStep(es: seq<LogEntry>, i: nat, yearAgo: Time)
    requires i < |es|
    ensures TotalsBy(Keep(es[..i + 1], LastYear(yearAgo)), DayKeyOf) ==
      if InLastYear(es[i], yearAgo)
      then Accumulate(TotalsBy(Keep(es[..i], LastYear(yearAgo)), DayKeyOf), DayKeyOf(es[i]), es[i].duration)
      else TotalsBy(Keep(es[..i], LastYear(yearAgo)), DayKeyOf)
  {
    var e, counts := es[i], LastYear(yearAgo);
    assert es[..i + 1][..i] == es[..i];
    var before := Keep(es[..i], counts);
    assert Keep(es[..i + 1], counts) == before + (if counts(e) then [e] else []);
    if InLastYear(e, yearAgo) {
      assert (before + [e])[..|before|] == before;
    } else {
      assert before + [] == before;
    }
  }

  /** A day's bucket is the summed duration of exactly the last-year
      entries that ended on that day; the buckets add up to their total. */
  lemma DailyTotalsMeaning(es: seq<LogEntry>, yearAgo: Time, d: int)
    ensures var kept := Keep(es, LastYear(yearAgo));
      && Get(TotalsBy(kept, DayKeyOf), DayKey(d), 0) == SumWhere(kept, DayKeyOf, DayKey(d))
      && (DayKey(d) in TotalsBy(kept, DayKeyOf) <==> exists e :: e in kept && DayOf(e.endTime) == d)
      && MapSum(TotalsBy(kept, DayKeyOf)) == SumDurations(kept)
  {
    var kept := Keep(es, LastYear(yearAgo));
    TotalsByMeaning(kept, DayKeyOf, DayKey(d));
    MapSumTotals(kept, DayKeyOf);
    if exists e :: e in kept && DayOf(e.endTime) == d {
      var e :| e in kept && DayOf(e.endTime) == d;
      var i :| 0 <= i < |kept| && kept[i] == e;
      assert DayKeyOf(kept[i]) == DayKey(d);
    }
  }

  /** Day `d` continues a streak: it is not before `yearAgo` and has time. */
  predicate CountedDay(totals: map<DayKey, int>, d: int, yearAgo: Time)
  {
    DayStart(d) >= yearAgo && Get(totals, DayKey(d), 0) > 0
  }

  /** `n` is the current streak: the `n` days back from `today` (today
      included) all count, and the one before them does not. */
  predicate IsStreak(n: int, totals: map<DayKey, int>, today: int, yearAgo: Time)
  {
    && n >= 0
    && (forall d :: today - n < d <= today ==> CountedDay(totals, d, yearAgo))
    && !CountedDay(totals, today - n, yearAgo)
  }

  /** `displayDashboardStats`: the sum of all the buckets, the average over
      365 days (0 unless the total is positive), and the streak. */
  method DashboardStats(totals: map<DayKey, int>, now: Time, yearAgo: Time)
    returns (totalTime: Duration, avgDaily: Duration, streak: int)
    ensures totalTime == MapSum(totals)
    ensures avgDaily == if totalTime > 0 then totalTime / 365 else 0
    ensures IsStreak(streak, totals, DayOf(now), yearAgo)
  {
    totalTime := SumBuckets(totals);
    avgDaily := 0;
    if totalTime > 0 {
      avgDaily := totalTime / 365;
    }
    streak := CurrentStreak(totals, now, yearAgo);
  }

  /** The loop `for _, d := range dailyTotals { totalTime += d }`. */
  method SumBuckets(totals: map<DayKey, int>) returns (sum: int)
    ensures sum == MapSum(totals)
  {
    sum := 0;
    var rest := totals.Keys;
    while rest != {}
      invariant rest <= totals.Keys
      invariant sum + SumOver(totals, rest) == MapSum(totals)
      decreases |rest|
    {
      var k :| k in rest;
      SumOverRemove(totals, rest, k);
      sum := sum + totals[k];
      rest := rest - {k};
    }
  }

  /** The streak loop: step back a day at a time from today's midnight,
      stopping before `yearAgo` or at the first day without time. */
  method CurrentStreak(totals: map<DayKey, int>, now: Time, yearAgo: Time) returns (streak: int)
    ensures IsStreak(streak, totals, DayOf(now), yearAgo)
  {
    var today := DayOf(now);
    streak := 0;
    var i := 0;
    while true
      invariant i >= 0 && streak == i
      invariant forall d :: today - i < d <= today ==> CountedDay(totals, d, yearAgo)
      decreases today - i - DayOf(yearAgo)
    {
      var day := DayStart(today - i);
      if day < yearAgo {
        break;
      }
      if Get(totals, DayKey(today - i), 0) > 0 {
        streak := streak + 1;
      } else {
        break;
      }
      DayOfMonotone(yearAgo, day);
      assert DayOf(day) == today - i by {
        assert DayStart(today - i) <= day < DayStart(today - i) + NanosPerDay;
        DayOfStart(today - i);
      }
      i := i + 1;
    }
  }

  lemma DayOfStart(d: int)
    ensures DayOf(DayStart(d)) == d
  {
    var e := DayOf(DayStart(d));
    assert e * NanosPerDay <= d * NanosPerDay < (e + 1) * NanosPerDay;
  }

  /** The streak is well defined: there is only one. */
  lemma StreakUnique(n1: int, n2: int, totals: map<DayKey, int>, today: int, yearAgo: Time)
    requires IsStreak(n1, totals, today, yearAgo) && IsStreak(n2, totals, today, yearAgo)
    ensures n1 == n2
  {
  }

  /** A day without time today means no streak. */
  lemma EmptyTodayNoStreak(n: int, totals: map<DayKey, int>, today: int, yearAgo: Time)
    requires !CountedDay(totals, today, yearAgo)
    requires IsStreak(n, totals, today, yearAgo)
    ensures n == 0
  {
    StreakUnique(n, 0, totals, today, yearAgo);
  }

  /** Time on today and the two days before, and none the day before
      those, is a streak of three. */
  lemma ThreeDayStreak(n: int, today: int, yearAgo: Time)
    requires DayStart(today - 3) >= yearAgo
    requires var totals := map[DayKey(today) := 30 * NanosPerMinute, DayKey(today - 1) := NanosPerHour, DayKey(today - 2) := NanosPerHour];
      IsStreak(n, totals, today, yearAgo)
    ensures n == 3
  {
    var totals := map[DayKey(today) := 30 * NanosPerMinute, DayKey(today - 1) := NanosPerHour, DayKey(today - 2) := NanosPerHour];
    assert DayStart(today - 3) <= DayStart(today - 2) <= DayStart(today - 1) <= DayStart(today);
    assert forall d :: today - 3 < d <= today ==> CountedDay(totals, d, yearAgo);
    assert !CountedDay(totals, today - 3, yearAgo);
    StreakUnique(n, 3, totals, today, yearAgo);
  }

  /** A single two-hour entry in the year averages to about 19.7 seconds a
      day, shown as "19s". */
  lemma SingleEntryAverage()
    ensures FormatDuration((2 * NanosPerHour) / 365) == "19s"
  {
    var avg := (2 * NanosPerHour) / 365;
    assert avg == 19_726_027_397;
    FormatSeconds(avg);
    assert avg / NanosPerSecond == 19;
    assert NatToString(19) == "19" by {
      assert NatToString(19) == NatToString(1) + [DigitChar(9)];
    }
  }

  /** The five cell colours, from empty to darkest. */
  datatype Tier = Color0 | Blue1 | Blue2 | Blue3 | Blue4

  function Rank(t: Tier): int
  {
    match t
    case Color0 => 0
    case Blue1 => 1
    case Blue2 => 2
    case Blue3 => 3
    case Blue4 => 4
  }

  /** The colour `switch` of `renderContributionGraph`. */
  function TierOf(total: Duration): Tier
  {
    if total >= 6 * NanosPerHour then Blue4
    else if total >= 4 * NanosPerHour then Blue3
    else if total >= 2 * NanosPerHour then Blue2
    else if total > 0 then Blue1
    else Color0
  }

  /** Each tier is exactly one band of totals. */
  lemma TierBands(total: Duration)
    ensures TierOf(total) == Blue4 <==> total >= 6 * NanosPerHour
    ensures TierOf(total) == Blue3 <==> 4 * NanosPerHour <= total < 6 * NanosPerHour
    ensures TierOf(total) == Blue2 <==> 2 * NanosPerHour <= total < 4 * NanosPerHour
    ensures TierOf(total) == Blue1 <==> 0 < total < 2 * NanosPerHour
    ensures TierOf(total) == Color0 <==> total <= 0
  {
  }

  /** More time never gives a lighter cell. */
  lemma TierMonotone(a: Duration, b: Duration)
    requires a <= b
    ensures Rank(TierOf(a)) <= Rank(TierOf(b))
  {
  }
}
