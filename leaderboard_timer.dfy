/**
 * The "Resets in" timer of the leaderboard panel: the next reset instant
 * of the chosen period (tomorrow's UTC midnight, next Monday's, the first
 * of next month or of next year), and the text for the time left until it.
 * Times are milliseconds since the epoch.
 */
module LeaderboardTimer {
  import opened Wrappers
  import opened Text
  import opened TimeUnits

  datatype Period = Daily | Weekly | Monthly | Yearly

  /** The literal the timer shows once the reset instant has passed (spelled as in the component). */
  const Refreshing: string := "Refresing..."

  /** `setUTCHours(0, 0, 0, 0)`: the UTC midnight that starts `t`'s day. */
  function MidnightOf(t: int): (m: int)
    ensures m % DayMs == 0 && m <= t < m + DayMs
  {
    (t / DayMs) * DayMs
  }

  /** `getUTCDay()`: 0 for Sunday to 6 for Saturday; 1 January 1970 was a Thursday. */
  function UtcDay(t: int): (d: nat)
    ensures d < 7
  {
    (t / DayMs + 4) % 7
  }

  /** The weekday `k` days after `day`. */
  function WeekdayAfter(day: nat, k: nat): nat
  {
    (day + k) % 7
  }

  /** `(7 - day + 1) % 7 || 7`. */
  function DaysUntilMonday(day: nat): (n: nat)
    requires day < 7
    ensures 1 <= n <= 7
    ensures (day + n) % 7 == 1
    ensures forall k :: 1 <= k < n ==> WeekdayAfter(day, k) != 1
  {
    var r := (7 - day + 1) % 7;
    if r == 0 then 7 else r
  }

  /** The unused `diff` of the weekly branch computes the same number of days. */
  lemma DeadDiffAgrees(day: nat)
    requires day < 7
    ensures (if day == 0 then 1 else 8 - day) == DaysUntilMonday(day)
  {
  }

  /** Monday gives a full week and Sunday a single day. */
  lemma MondayAndSunday()
    ensures DaysUntilMonday(1) == 7 && DaysUntilMonday(0) == 1
  {
  }

  /**
   * The reset instant for a date read at `t`.  The month and year
   * rollovers come from the calendar and are passed in as `calendarReset`.
   */
  function NextReset(period: Period, t: int, calendarReset: int): int
  {
    var midnight := MidnightOf(t);
    match period
    case Daily => midnight + DayMs
    case Weekly => midnight + DaysUntilMonday(UtcDay(midnight)) * DayMs
    case Monthly => calendarReset
    case Yearly => calendarReset
  }

  lemma DayShift(q: int, k: int)
    ensures ((q + k) * DayMs) / DayMs == q + k
    ensures (q * DayMs + k * DayMs) == (q + k) * DayMs
  {
  }

  /** Moving a midnight on by `k` whole days moves its weekday on by `k`. */
  lemma UtcDayShift(q: int, k: nat)
    ensures UtcDay(q * DayMs + k * DayMs) == WeekdayAfter(UtcDay(q * DayMs), k)
  {
    DayShift(q, k);
    DayShift(q, 0);
  }

  /** The daily reset is the next UTC midnight: at most a day ahead, and never now or earlier. */
  lemma DailyIsNextMidnight(t: int)
    ensures var r := NextReset(Daily, t, 0);
      r % DayMs == 0 && t < r <= t + DayMs
  {
    DayShift(t / DayMs, 1);
  }

  /**
   * The weekly reset is a Monday midnight strictly after `t`, at most seven
   * days ahead, and no midnight between today's and it is a Monday.
   */
  lemma WeeklyIsNextMonday(t: int) returns (n: nat)
    ensures NextReset(Weekly, t, 0) == MidnightOf(t) + n * DayMs
    ensures 1 <= n <= 7
    ensures var r := NextReset(Weekly, t, 0);
      r % DayMs == 0 && UtcDay(r) == 1 && t < r <= t + 7 * DayMs
    ensures forall k: nat :: 1 <= k < n ==> UtcDay(MidnightOf(t) + k * DayMs) != 1
  {
    var q := t / DayMs;
    var m := MidnightOf(t);
    assert m == q * DayMs;
    n := DaysUntilMonday(UtcDay(m));
    UtcDayShift(q, n);
    DayShift(q, n);
    forall k: nat | 1 <= k < n
      ensures UtcDay(m + k * DayMs) != 1
    {
      UtcDayShift(q, k);
    }
  }

  /** Whole days, then hours below 24, minutes below 60 and seconds below 60 of a positive difference. */
  function Decompose(diffMs: nat): (r: (nat, nat, nat, nat))
    ensures r.1 < 24 && r.2 < 60 && r.3 < 60
    ensures r.0 * DayMs + r.1 * HourMs + r.2 * MinuteMs + r.3 * SecondMs + diffMs % SecondMs == diffMs
  {
    var days := diffMs / DayMs;
    var hours := (diffMs % DayMs) / HourMs;
    var minutes := (diffMs % HourMs) / MinuteMs;
    var seconds := (diffMs % MinuteMs) / SecondMs;
    DayHourMod(diffMs);
    HourMinuteMod(diffMs);
    MinuteSecondMod(diffMs);
    (days, hours, minutes, seconds)
  }

  // A day is 24 hours, an hour 60 minutes, a minute 60 seconds: the
  // remainder by the larger unit keeps the remainder by the smaller one.

  lemma DayHourMod(x: nat)
    ensures x % DayMs % HourMs == x % HourMs
  {
    assert x == HourMs * (24 * (x / DayMs) + (x % DayMs) / HourMs) + x % DayMs % HourMs;
  }

  lemma HourMinuteMod(x: nat)
    ensures x % HourMs % MinuteMs == x % MinuteMs
  {
    assert x == MinuteMs * (60 * (x / HourMs) + (x % HourMs) / MinuteMs) + x % HourMs % MinuteMs;
  }

  lemma MinuteSecondMod(x: nat)
    ensures x % MinuteMs % SecondMs == x % SecondMs
  {
    assert x == SecondMs * (60 * (x / MinuteMs) + (x % MinuteMs) / SecondMs) + x % MinuteMs % SecondMs;
  }

  /** "{d}d {h}h {m}m {s}s", unpadded. */
  function LongForm(d: nat, h: nat, m: nat, s: nat): string
  {
    NatToString(d) + "d " + NatToString(h) + "h " + NatToString(m) + "m " + NatToString(s) + "s"
  }

  /** The text for a difference between the reset instant and the clock. */
  function TimerText(diffMs: int): string
  {
    if diffMs <= 0 then Refreshing
    else
      var (d, h, m, s) := Decompose(diffMs);
      if d > 0 then LongForm(d, h, m, s) else Clock(h, m, s)
  }

  /** `calculateTimeLeft`: builds the reset instant step by step from a date read at `t0`, then compares it with the clock at `t1`. */
  method CalculateTimeLeft(period: Period, t0: int, t1: int, calendarReset: int) returns (text: string)
    ensures text == TimerText(NextReset(period, t0, calendarReset) - t1)
  {
    var nextReset := t0;
    nextReset := MidnightOf(nextReset);
    if period == Daily {
      nextReset := nextReset + DayMs;
    } else if period == Weekly {
      var day := UtcDay(nextReset);
      var daysUntilMonday := DaysUntilMonday(day);
      nextReset := nextReset + daysUntilMonday * DayMs;
    } else {
      nextReset := calendarReset;
    }
    var diffMs := nextReset - t1;
    if diffMs <= 0 {
      return Refreshing;
    }
    text := TimerText(diffMs);
  }

  /** One unit field of the long form: decimal digits followed by the unit letter. */
  function ParseUnit(f: string, unit: char): Option<nat>
  {
    if |f| >= 2 && f[|f| - 1] == unit && AllDigits(f[..|f| - 1]) then Some(ParseNat(f[..|f| - 1])) else None
  }

  /** Reads the long form back: four space-separated fields with the units d, h, m, s. */
  function ParseLong(t: string): Option<(nat, nat, nat, nat)>
  {
    var f := Split(t, ' ');
    if |f| != 4 then None
    else
      match (ParseUnit(f[0], 'd'), ParseUnit(f[1], 'h'), ParseUnit(f[2], 'm'), ParseUnit(f[3], 's'))
      case (Some(d), Some(h), Some(m), Some(s)) => Some((d, h, m, s))
      case _ => None
  }

  lemma UnitField(n: nat, unit: char)
    requires !IsDigit(unit) && unit != ' '
    ensures ' ' !in NatToString(n) + [unit]
    ensures ParseUnit(NatToString(n) + [unit], unit) == Some(n)
  {
    var a := NatToString(n);
    DigitsHaveNo(a, ' ');
    assert (a + [unit])[..|a|] == a;
    ParseNatToString(n);
  }

  lemma LongShape(x: string, y: string, z: string, w: string)
    ensures x + "d " + y + "h " + z + "m " + w + "s"
      == (x + ['d']) + [' '] + ((y + ['h']) + [' '] + ((z + ['m']) + [' '] + (w + ['s'])))
  {
    assert "d " == ['d'] + [' '] && "h " == ['h'] + [' '] && "m " == ['m'] + [' '] && "s" == ['s'];
  }

  lemma SplitFour(a: string, b: string, c: string, e: string)
    requires ' ' !in a && ' ' !in b && ' ' !in c && ' ' !in e
    ensures Split(a + [' '] + (b + [' '] + (c + [' '] + e)), ' ') == [a, b, c, e]
  {
    SplitSingle(e, ' ');
    SplitCons(c, ' ', e);
    SplitCons(b, ' ', c + [' '] + e);
    SplitCons(a, ' ', b + [' '] + (c + [' '] + e));
  }

  /** Splitting the long form's shape at its spaces gives its four fields. */
  lemma SplitLong(x: string, y: string, z: string, w: string)
    requires ' ' !in x && ' ' !in y && ' ' !in z && ' ' !in w
    ensures Split(x + "d " + y + "h " + z + "m " + w + "s", ' ') == [x + ['d'], y + ['h'], z + ['m'], w + ['s']]
  {
    LongShape(x, y, z, w);
    SplitFour(x + ['d'], y + ['h'], z + ['m'], w + ['s']);
  }

  /** The long form splits into its four fields and reads back as the same numbers. */
  lemma LongFormReadsBack(d: nat, h: nat, m: nat, s: nat)
    ensures ParseLong(LongForm(d, h, m, s)) == Some((d, h, m, s))
  {
    UnitField(d, 'd');
    UnitField(h, 'h');
    UnitField(m, 'm');
    UnitField(s, 's');
    var x, y, z, w := NatToString(d), NatToString(h), NatToString(m), NatToString(s);
    assert ' ' !in x && ' ' !in y && ' ' !in z && ' ' !in w;
    SplitLong(x, y, z, w);
  }

  /**
   * What the timer shows: "Refresing..." once the reset has passed; the long
   * form when a day or more is left; otherwise the zero-padded clock face.
   * Either way the fields read back as a decomposition of the difference
   * that drops less than a second.
   */
  lemma TimerTextMeaning(diffMs: int)
    ensures diffMs <= 0 ==> TimerText(diffMs) == Refreshing
    ensures diffMs >= DayMs ==>
      match ParseLong(TimerText(diffMs))
      case None => false
      case Some(r) =>
        && r.0 >= 1 && r.1 < 24 && r.2 < 60 && r.3 < 60
        && diffMs - SecondMs < r.0 * DayMs + r.1 * HourMs + r.2 * MinuteMs + r.3 * SecondMs <= diffMs
    ensures 0 < diffMs < DayMs ==>
      match ParseClock(TimerText(diffMs))
      case None => false
      case Some(r) =>
        && r.0 < 24 && r.1 < 60 && r.2 < 60
        && diffMs - SecondMs < r.0 * HourMs + r.1 * MinuteMs + r.2 * SecondMs <= diffMs
  {
    if diffMs > 0 {
      var (d, h, m, s) := Decompose(diffMs);
      if d > 0 {
        LongFormReadsBack(d, h, m, s);
      } else {
        ClockRoundTrip(h, m, s);
      }
    }
  }
}
