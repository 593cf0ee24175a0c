/** `FormatDuration` (core/ui.go): whole hours and minutes from one hour
    up, whole minutes from one minute up, whole seconds below that. Every
    unit is truncated toward zero, never rounded. */
module UI {
  import opened Clock
  import opened Text

  function FormatDuration(d: Duration): string
  {
    var hours := Quot(d, NanosPerHour);
    var minutes := Rem(Quot(d, NanosPerMinute), 60);
    if hours > 0 then IntToString(hours) + "h " + IntToString(minutes) + "m"
    else if minutes > 0 then IntToString(minutes) + "m"
    else IntToString(Quot(d, NanosPerSecond)) + "s"
  }

  /** Splitting off the whole hours first and then the whole minutes of
      the rest gives the minute count modulo 60. */
  lemma MinutesOfHour(d: nat)
    ensures (d / NanosPerMinute) % 60 == (d % NanosPerHour) / NanosPerMinute
    ensures d / NanosPerHour == (d / NanosPerMinute) / 60
  {
    var q, r := d / NanosPerHour, d % NanosPerHour;
    assert d == q * NanosPerHour + r;
    var m, s := r / NanosPerMinute, r % NanosPerMinute;
    assert r == m * NanosPerMinute + s && 0 <= m < 60;
    assert d == (q * 60 + m) * NanosPerMinute + s;
    assert d / NanosPerMinute == q * 60 + m;
  }

  /** From one hour up: the hours, then the minutes within the hour. */
  lemma FormatHours(d: Duration)
    requires d >= NanosPerHour
    ensures FormatDuration(d) ==
      NatToString(d / NanosPerHour) + "h " + NatToString((d % NanosPerHour) / NanosPerMinute) + "m"
  {
    var h, m, q := d / NanosPerHour, (d % NanosPerHour) / NanosPerMinute, d / NanosPerMinute;
    assert Quot(d, NanosPerHour) == h >= 1;
    assert Rem(Quot(d, NanosPerMinute), 60) == m by {
      MinutesOfHour(d);
      assert Quot(d, NanosPerMinute) == q;
      assert q == (q / 60) * 60 + q % 60;
    }
  }

  /** From one minute up to an hour: the whole minutes only. */
  lemma FormatMinutes(d: Duration)
    requires NanosPerMinute <= d < NanosPerHour
    ensures FormatDuration(d) == NatToString(d / NanosPerMinute) + "m"
  {
    var q := d / NanosPerMinute;
    assert q < 60 by {
      assert q * NanosPerMinute <= d;
    }
    assert Quot(d, NanosPerHour) == 0;
    assert Quot(d, NanosPerMinute) == q;
    assert Rem(q, 60) == q;
  }

  /** Under a minute: the whole seconds, "0s" for nothing; below zero the
      seconds carry a minus sign once at least a second has gone. */
  lemma FormatSeconds(d: Duration)
    requires d < NanosPerMinute
    ensures 0 <= d ==> FormatDuration(d) == NatToString(d / NanosPerSecond) + "s"
    ensures d <= -NanosPerSecond ==> FormatDuration(d) == "-" + NatToString(-d / NanosPerSecond) + "s"
    ensures -NanosPerSecond < d < 0 ==> FormatDuration(d) == "0s"
  {
    assert Quot(d, NanosPerHour) <= 0;
    assert Rem(Quot(d, NanosPerMinute), 60) <= 0;
  }

  /** The unit shown last: minutes from one minute up, seconds below. */
  lemma FormatUnit(d: Duration)
    ensures var r := FormatDuration(d);
      |r| >= 2 && r[|r| - 1] == (if d >= NanosPerMinute then 'm' else 's')
  {
    if d >= NanosPerHour {
      FormatHours(d);
    } else if d >= NanosPerMinute {
      FormatMinutes(d);
    } else {
      FormatSeconds(d);
    }
  }

  /** What is shown never exceeds the duration and falls short of it by
      less than one unit of the last field shown. */
  lemma FormatTruncates(d: nat)
    ensures var h, m := d / NanosPerHour, (d % NanosPerHour) / NanosPerMinute;
      d >= NanosPerHour ==> h * NanosPerHour + m * NanosPerMinute <= d < h * NanosPerHour + (m + 1) * NanosPerMinute
    ensures NanosPerMinute <= d < NanosPerHour ==>
      (d / NanosPerMinute) * NanosPerMinute <= d < (d / NanosPerMinute + 1) * NanosPerMinute && 1 <= d / NanosPerMinute < 60
    ensures d < NanosPerMinute ==>
      (d / NanosPerSecond) * NanosPerSecond <= d < (d / NanosPerSecond + 1) * NanosPerSecond && d / NanosPerSecond < 60
  {
    var h, r := d / NanosPerHour, d % NanosPerHour;
    assert d == h * NanosPerHour + r;
    var m := r / NanosPerMinute;
    assert r == m * NanosPerMinute + r % NanosPerMinute;
  }

  /** `FormatHours` with the two fields already worked out. */
  lemma FormatHoursAs(d: Duration, h: nat, m: nat)
    requires d >= NanosPerHour && d / NanosPerHour == h && (d % NanosPerHour) / NanosPerMinute == m
    ensures FormatDuration(d) == NatToString(h) + "h " + NatToString(m) + "m"
  {
    FormatHours(d);
  }

  /** The examples the command tests pin down. */
  lemma FormatExampleHoursMinutes()
    ensures FormatDuration(2 * NanosPerHour + 30 * NanosPerMinute) == "2h 30m"
  {
    FormatHoursAs(2 * NanosPerHour + 30 * NanosPerMinute, 2, 30);
    assert NatToString(30) == "30" by {
      assert NatToString(30) == NatToString(3) + [DigitChar(0)];
    }
  }

  lemma FormatExampleWholeHours()
    ensures FormatDuration(3 * NanosPerHour) == "3h 0m"
  {
    FormatHoursAs(3 * NanosPerHour, 3, 0);
  }

  lemma FormatExampleTruncates()
    ensures FormatDuration(NanosPerHour + 23 * NanosPerMinute + 45 * NanosPerSecond) == "1h 23m"
  {
    FormatHoursAs(NanosPerHour + 23 * NanosPerMinute + 45 * NanosPerSecond, 1, 23);
    assert NatToString(23) == "23" by {
      assert NatToString(23) == NatToString(2) + [DigitChar(3)];
    }
  }

  lemma FormatExampleMinutes()
    ensures FormatDuration(5 * NanosPerMinute + 30 * NanosPerSecond) == "5m"
  {
    var d := 5 * NanosPerMinute + 30 * NanosPerSecond;
    assert d / NanosPerMinute == 5;
    FormatMinutes(d);
  }

  lemma FormatExampleSeconds()
    ensures FormatDuration(45 * NanosPerSecond) == "45s"
  {
    var d := 45 * NanosPerSecond;
    assert d / NanosPerSecond == 45;
    FormatSeconds(d);
    assert NatToString(45) == "45" by {
      assert NatToString(45) == NatToString(4) + [DigitChar(5)];
    }
  }

  lemma FormatExampleZero()
    ensures FormatDuration(0) == "0s"
  {
    FormatSeconds(0);
  }
}
