/**
 * The countdown to the next UTC midnight: the remaining milliseconds,
 * clamped at zero, a "HH:MM:SS" face, and the result the hook hands to its
 * callers before and after it has mounted.  Times are milliseconds since
 * the epoch; each reading of the clock is a parameter.
 */
module MidnightCountdown {
  import opened Text
  import opened TimeUnits

  /** `setUTCHours(24, 0, 0, 0)` on a date read at `t`: the first UTC midnight after `t`'s day began. */
  function NextUtcMidnight(t: int): (m: int)
    ensures m % DayMs == 0 && t < m <= t + DayMs
  {
    (t / DayMs + 1) * DayMs
  }

  /**
   * `calculateTimeLeft`: the clock is read twice, at `t1` for the current
   * time and at `t2` for the date moved to midnight, and the difference is
   * clamped at zero.
   */
  function CalculateTimeLeft(t1: int, t2: int): (r: nat)
    ensures r == if NextUtcMidnight(t2) - t1 > 0 then NextUtcMidnight(t2) - t1 else 0
    ensures t1 <= t2 ==> 0 < r
    ensures t1 <= t2 <= t1 + SecondMs ==> r <= DayMs + SecondMs
  {
    var delta := NextUtcMidnight(t2) - t1;
    if delta > 0 then delta else 0
  }

  /** The whole seconds in `ms`, split into hours, minutes below 60 and seconds below 60. */
  function Split3(ms: nat): (r: (nat, nat, nat))
    ensures r.0 * 3600 + r.1 * 60 + r.2 == ms / SecondMs
    ensures r.1 < 60 && r.2 < 60
  {
    var total := ms / SecondMs;
    (total / 3600, (total % 3600) / 60, total % 60)
  }

  /** `format(ms)`: the "HH:MM:SS" face; hours may take more than two digits. */
  function Format(ms: nat): string
  {
    var (h, m, s) := Split3(ms);
    Clock(h, m, s)
  }

  /**
   * The face reads back as hours, minutes and seconds that add up to the
   * whole seconds of `ms` (the milliseconds are dropped), minutes and
   * seconds below 60, every field at least two digits wide.
   */
  lemma FormatReadsBack(ms: nat)
    ensures var f := Split(Format(ms), ':');
      && |f| == 3 && |f[0]| >= 2 && |f[1]| == 2 && |f[2]| == 2
    ensures match ParseClock(Format(ms))
      case None => false
      case Some(hms) => hms.0 * 3600 + hms.1 * 60 + hms.2 == ms / SecondMs && hms.1 < 60 && hms.2 < 60
  {
    var (h, m, s) := Split3(ms);
    ClockRoundTrip(h, m, s);
  }

  /** What the hook returns. */
  datatype CountdownResult = CountdownResult(formattedTime: string, isReset: bool, secondsRemaining: nat)

  /** The placeholder returned until the hook has mounted. */
  const Placeholder: CountdownResult := CountdownResult("00:00:00", false, 0)

  /** The hook: its two pieces of state and the effect that keeps `timeLeft` current. */
  class Countdown {
    var timeLeft: nat
    var isMounted: bool

    constructor ()
      ensures timeLeft == 0 && !isMounted
    {
      timeLeft, isMounted := 0, false;
    }

    /** The mount effect: mark mounted and take the first reading. */
    method Mount(t1: int, t2: int)
      modifies this
      ensures isMounted && timeLeft == CalculateTimeLeft(t1, t2)
    {
      isMounted := true;
      timeLeft := CalculateTimeLeft(t1, t2);
    }

    /** One tick of the one-second interval. */
    method Tick(t1: int, t2: int)
      modifies this`timeLeft
      ensures timeLeft == CalculateTimeLeft(t1, t2)
    {
      var remaining := CalculateTimeLeft(t1, t2);
      timeLeft := remaining;
    }

    /** The value the hook returns for its current state. */
    function Result(): (r: CountdownResult)
      reads this
      ensures !isMounted ==> r == Placeholder
      ensures isMounted ==> r.formattedTime == Format(timeLeft)
      ensures isMounted ==> (r.isReset <==> timeLeft == 0)
      ensures isMounted ==> r.secondsRemaining * SecondMs <= timeLeft < (r.secondsRemaining + 1) * SecondMs
    {
      if !isMounted then Placeholder
      else CountdownResult(Format(timeLeft), timeLeft <= 0, timeLeft / SecondMs)
    }
  }

  /**
   * When the two clock readings are in order, the remaining time is never
   * zero, so a mounted hook never reports `isReset`: the target is always the
   * next midnight, never one already passed.
   */
  lemma NeverResetAfterMount(c: Countdown, t1: int, t2: int)
    requires c.isMounted && c.timeLeft == CalculateTimeLeft(t1, t2) && t1 <= t2
    ensures !c.Result().isReset
  {
  }
}
