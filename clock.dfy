/** Instants and durations as Go's `time` package sees them, reduced to
    integers: an instant is nanoseconds since the Unix epoch, a duration a
    number of nanoseconds. Days are civil days in UTC; the civil month of a
    day is a parameter of the model (a `Calendar`). */
module Clock {

  type Time = int
  type Duration = int

  const NanosPerSecond: int := 1_000_000_000
  const NanosPerMinute: int := 60 * NanosPerSecond
  const NanosPerHour: int := 60 * NanosPerMinute
  const NanosPerDay: int := 24 * NanosPerHour

  /** Go's zero `time.Time` (January 1 of year 1, 00:00 UTC), the value
      `IsZero` tests for. */
  const ZeroTime: Time := -62_135_596_800 * NanosPerSecond

  /** The civil day holding `t`, counted from 1970-01-01. */
  function DayOf(t: Time): (d: int)
    ensures DayStart(d) <= t < DayStart(d) + NanosPerDay
  {
    t / NanosPerDay
  }

  /** Midnight (00:00:00) that begins day `d`. */
  function DayStart(d: int): Time
  {
    d * NanosPerDay
  }

  /** `t.Weekday()`: 0 for Sunday through 6 for Saturday; day 0 was a Thursday. */
  function Weekday(t: Time): (w: int)
    ensures 0 <= w < 7
  {
    (DayOf(t) + 4) % 7
  }

  lemma DayOfMonotone(t1: Time, t2: Time)
    requires t1 <= t2
    ensures DayOf(t1) <= DayOf(t2)
  {
    var d1, d2 := DayOf(t1), DayOf(t2);
    assert d1 * NanosPerDay < (d2 + 1) * NanosPerDay;
  }

  /** A `YYYYMM` month key whose year has four digits. */
  type MonthKey = k: int | 0 <= k / 100 <= 9999 && 1 <= k % 100 <= 12 witness 197001

  /** The civil month of each civil day. Time zones and Go's calendar
      arithmetic stay outside the model; this function stands for them. */
  type Calendar = int -> MonthKey

  /** `t.Year()` and `t.Month()` together. */
  function MonthOf(cal: Calendar, t: Time): MonthKey
  {
    cal(DayOf(t))
  }

  /** A calendar never goes back a month as the days advance. */
  ghost predicate MonotoneCalendar(cal: Calendar)
  {
    forall d1, d2 :: d1 <= d2 ==> cal(d1) <= cal(d2)
  }

  /** On a monotone calendar a later instant is never in an earlier month. */
  lemma MonthOfMonotone(cal: Calendar, t1: Time, t2: Time)
    requires MonotoneCalendar(cal) && t1 <= t2
    ensures MonthOf(cal, t1) <= MonthOf(cal, t2)
  {
    DayOfMonotone(t1, t2);
  }

  /** The month before `k`, as `AddDate(0, -1, 0)` on the first of the month
      gives it; before January of year 0 it is a key no file name parses to. */
  function PrevMonth(k: MonthKey): (p: int)
    ensures p < k
    ensures p >= 100 ==> p / 100 * 12 + p % 100 + 1 == k / 100 * 12 + k % 100
  {
    var y, m := k / 100, k % 100;
    if m == 1 then
      var p := (y - 1) * 100 + 12;
      Split100(p, y - 1, 12);
      p
    else
      var p := k - 1;
      Split100(p, y, m - 1);
      p
  }

  /** Year and month of a key written `q * 100 + r`. */
  lemma Split100(p: int, q: int, r: int)
    requires 0 <= r < 100 && p == q * 100 + r
    ensures p / 100 == q && p % 100 == r
  {
  }

  /** Go's integer `/` (the quotient of `time.Duration` values): it truncates
      toward zero. */
  function Quot(a: int, b: int): (q: int)
    requires b > 0
    ensures a >= 0 ==> 0 <= a - q * b < b
    ensures a < 0 ==> -b < a - q * b <= 0
  {
    if a >= 0 then a / b else -((-a) / b)
  }

  /** Go's `%`: the remainder takes the sign of the dividend. */
  function Rem(a: int, b: int): (r: int)
    requires b > 0
    ensures a == Quot(a, b) * b + r
    ensures a >= 0 ==> 0 <= r < b
    ensures a < 0 ==> -b < r <= 0
  {
    a - Quot(a, b) * b
  }
}
