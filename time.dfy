/**
 * The arithmetic of the timer wrapper: turning performance-counter ticks
 * into a `Duration`, the `Stopwatch` state machine (counter readings are
 * passed in as `now`), the time-zone bias, and the day and month names of
 * a `SystemTime`.
 */
module Time {
  import opened Ints

  const NanosPerSec := 1_000_000_000

  type Nanos = n: nat | n < NanosPerSec

  /** `std::time::Duration`: whole seconds and the nanoseconds below one second. */
  datatype Duration = Duration(secs: nat, nanos: Nanos)
  {
    /** The length of the duration in nanoseconds. */
    function TotalNanos(): nat
    {
      secs * NanosPerSec + nanos
    }

    /** `Duration + Duration`, carrying a whole second out of the nanoseconds. */
    function Plus(other: Duration): (r: Duration)
      ensures r.TotalNanos() == TotalNanos() + other.TotalNanos()
    {
      var n := nanos + other.nanos;
      if n >= NanosPerSec then Duration(secs + other.secs + 1, n - NanosPerSec)
      else Duration(secs + other.secs, n)
    }
  }

  const Zero := Duration(0, 0)

  // ------------------------------------------------------------------
  // Facts about integer division

  /** Adding a multiple of the divisor adds to the quotient. */
  lemma DivAddMultiple(a: int, b: nat, f: int)
    requires f > 0
    ensures (a * f + b) / f == a + b / f
  {
    var k, m := b / f, b % f;
    assert a * f + b == (a + k) * f + m;
    DivUnique(a * f + b, f, a + k, m);
  }

  /** A remainder scaled by `s` and divided again stays below `s`. */
  lemma ScaledRemainder(r: nat, f: int, s: nat)
    requires 0 <= r < f && s > 0
    ensures (r * s) / f < s
  {
    var q := (r * s) / f;
    assert q * f <= r * s;
    assert r * s < f * s;
    MulSign(q - s, f);
    assert (q - s) * f == q * f - s * f;
  }

  // ------------------------------------------------------------------
  // The performance counter

  /** A performance counter with its tick rate (ticks per second). */
  datatype PerformanceCounter = PerformanceCounter(frequency: int)
  {
    /** `elapsed(start, end)` for a counter that has not gone backwards. */
    function Elapsed(start: int, end: int): (d: Duration)
      requires frequency > 0 && start <= end
      ensures d.secs * frequency <= end - start < (d.secs + 1) * frequency
    {
      var delta := end - start;
      var secs := delta / frequency;
      ScaledRemainder(delta % frequency, frequency, NanosPerSec);
      var nanos := ((delta % frequency) * NanosPerSec) / frequency;
      Duration(secs, nanos)
    }
  }

  /** The duration is the elapsed time in nanoseconds, rounded down. */
  lemma ElapsedNanos(c: PerformanceCounter, start: int, end: int)
    requires c.frequency > 0 && start <= end
    ensures c.Elapsed(start, end).TotalNanos() == ((end - start) * NanosPerSec) / c.frequency
  {
    var f, delta := c.frequency, end - start;
    var q, r := delta / f, delta % f;
    assert delta * NanosPerSec == (q * NanosPerSec) * f + r * NanosPerSec;
    DivAddMultiple(q * NanosPerSec, r * NanosPerSec, f);
  }

  /** No time passes between two equal readings, and a whole number of
      seconds' worth of ticks gives exactly that many seconds. */
  lemma ElapsedWholeSeconds(c: PerformanceCounter, start: int, n: nat)
    requires c.frequency > 0
    ensures c.Elapsed(start, start + n * c.frequency) == Duration(n, 0)
  {
    DivUnique(n * c.frequency, c.frequency, n, 0);
  }

  // ------------------------------------------------------------------
  // The stopwatch

  /** `Stopwatch`: an accumulated duration plus, while running, the counter
      reading at which the current run began. */
  class Stopwatch {
    const counter: PerformanceCounter
    var start: int
    var elapsed: Duration
    var running: bool

    /** `Stopwatch::start_new`, with the counter reading taken at creation. */
    constructor StartNew(counter: PerformanceCounter, now: int)
      ensures this.counter == counter && start == now && elapsed == Zero && running
    {
      this.counter := counter;
      start := now;
      elapsed := Zero;
      running := true;
    }

    /** `Stopwatch::new`: stopped, with nothing accumulated. */
    constructor New(counter: PerformanceCounter)
      ensures this.counter == counter && start == 0 && elapsed == Zero && !running
    {
      this.counter := counter;
      start := 0;
      elapsed := Zero;
      running := false;
    }

    /** `start`: begins a run at `now`; does nothing while running. */
    method Start(now: int)
      modifies this
      ensures old(running) ==> start == old(start)
      ensures !old(running) ==> start == now
      ensures running && elapsed == old(elapsed)
    {
      if !running {
        start := now;
        running := true;
      }
    }

    /** `stop`: adds the current run to the total; does nothing while stopped. */
    method Stop(now: int)
      requires counter.frequency > 0
      requires running ==> start <= now
      modifies this
      ensures old(running) ==> elapsed == old(elapsed).Plus(counter.Elapsed(old(start), now))
      ensures !old(running) ==> elapsed == old(elapsed)
      ensures !running && start == old(start)
    {
      if running {
        elapsed := elapsed.Plus(counter.Elapsed(start, now));
        running := false;
      }
    }

    /** `reset`: clears the total and stops. */
    method Reset()
      modifies this
      ensures elapsed == Zero && !running && start == old(start)
    {
      elapsed := Zero;
      running := false;
    }

    /** `restart`: `reset` followed by `start`. */
    method Restart(now: int)
      modifies this
      ensures elapsed == Zero && running && start == now
    {
      Reset();
      Start(now);
    }

    /** `elapsed`: the total so far, including the current run up to `now`. */
    method Elapsed(now: int) returns (d: Duration)
      requires counter.frequency > 0
      requires running ==> start <= now
      ensures running ==> d == elapsed.Plus(counter.Elapsed(start, now))
      ensures !running ==> d == elapsed
    {
      if running {
        d := elapsed.Plus(counter.Elapsed(start, now));
      } else {
        d := elapsed;
      }
    }

    /** `is_running`. */
    function IsRunning(): bool
      reads this
    {
      running
    }
  }

  /** A stopped stopwatch reports the same duration whatever the counter says,
      and that duration is the sum, in nanoseconds, of the runs it measured. */
  method StopwatchTwoRuns(c: PerformanceCounter, t0: int, t1: int, t2: int, t3: int, later: int)
    returns (d: Duration)
    requires c.frequency > 0 && t0 <= t1 <= t2 <= t3
    ensures d.TotalNanos() == c.Elapsed(t0, t1).TotalNanos() + c.Elapsed(t2, t3).TotalNanos()
  {
    var w := new Stopwatch.StartNew(c, t0);
    w.Stop(t1);
    w.Start(t2);
    w.Stop(t3);
    d := w.Elapsed(later);
  }

  // ------------------------------------------------------------------
  // Time zones

  datatype TimeZoneStatus = Standard | Daylight | Unknown

  /** The status code of `GetTimeZoneInformation`: 1 standard, 2 daylight,
      anything else unknown. */
  function StatusOf(code: U32): (s: TimeZoneStatus)
    ensures s == Standard <==> code == 1
    ensures s == Daylight <==> code == 2
    ensures s == Unknown <==> code != 1 && code != 2
  {
    match code
    case 1 => Standard
    case 2 => Daylight
    case _ => Unknown
  }

  /** `TimeZone`: the biases in minutes and the current status (the names are
      not part of this model). */
  datatype TimeZone = TimeZone(bias: I32, standardBias: I32, daylightBias: I32, status: TimeZoneStatus)
  {
    /** `is_daylight_saving`. */
    predicate IsDaylightSaving()
    {
      status == Daylight
    }

    /** `total_bias`: the daylight bias applies in daylight time, the standard
        bias otherwise (also when the status is unknown). */
    function TotalBias(): int
    {
      match status
      case Daylight => bias + daylightBias
      case _ => bias + standardBias
    }
  }

  /** `utc_offset`: the size of the total bias, in whole seconds; the sign,
      that is the direction from UTC, is lost. */
  function UtcOffset(z: TimeZone): (d: Duration)
    ensures d.nanos == 0
    ensures d.TotalNanos() == (if z.TotalBias() < 0 then -z.TotalBias() else z.TotalBias()) * 60 * NanosPerSec
  {
    var minutes := if z.TotalBias() < 0 then -z.TotalBias() else z.TotalBias();
    Duration(minutes * 60, 0)
  }

  /** Zones east and west of UTC by the same amount report the same offset. */
  lemma UtcOffsetMirror(z: TimeZone, w: TimeZone)
    requires w.status == z.status && w.bias + z.bias == 0
    requires w.standardBias + z.standardBias == 0 && w.daylightBias + z.daylightBias == 0
    ensures UtcOffset(w) == UtcOffset(z)
  {
  }

  /** The total bias is the base bias plus the bias of the period in force. */
  lemma TotalBiasByPeriod(z: TimeZone)
    ensures z.IsDaylightSaving() ==> z.TotalBias() == z.bias + z.daylightBias
    ensures !z.IsDaylightSaving() ==> z.TotalBias() == z.bias + z.standardBias
    ensures z.(status := Unknown).TotalBias() == z.(status := Standard).TotalBias()
  {
  }

  /** Entering daylight time moves the offset by the difference of the two biases. */
  lemma DaylightShift(z: TimeZone)
    ensures z.(status := Daylight).TotalBias() - z.(status := Standard).TotalBias()
      == z.daylightBias - z.standardBias
  {
  }

  // ------------------------------------------------------------------
  // Names of days and months

  const DayNames := ["Sunday", "Monday", "Tuesday", "Wednesday", "Thursday", "Friday", "Saturday"]
  const MonthNames := ["January", "February", "March", "April", "May", "June", "July",
    "August", "September", "October", "November", "December"]

  /** `day_name`: 0 is Sunday, 6 is Saturday. */
  function DayName(dayOfWeek: U16): (s: string)
    ensures s == "Unknown" <==> dayOfWeek > 6
    ensures dayOfWeek <= 6 ==> s == DayNames[dayOfWeek]
  {
    match dayOfWeek
    case 0 => "Sunday"
    case 1 => "Monday"
    case 2 => "Tuesday"
    case 3 => "Wednesday"
    case 4 => "Thursday"
    case 5 => "Friday"
    case 6 => "Saturday"
    case _ => "Unknown"
  }

  /** `month_name`: 1 is January, 12 is December. */
  function MonthName(month: U16): (s: string)
    ensures s == "Unknown" <==> month < 1 || month > 12
    ensures 1 <= month <= 12 ==> s == MonthNames[month - 1]
  {
    match month
    case 1 => "January"
    case 2 => "February"
    case 3 => "March"
    case 4 => "April"
    case 5 => "May"
    case 6 => "June"
    case 7 => "July"
    case 8 => "August"
    case 9 => "September"
    case 10 => "October"
    case 11 => "November"
    case 12 => "December"
    case _ => "Unknown"
  }

  /** Different days, and different months, have different names. */
  lemma NamesDistinct(a: U16, b: U16)
    ensures a != b && a <= 6 && b <= 6 ==> DayName(a) != DayName(b)
    ensures a != b && 1 <= a <= 12 && 1 <= b <= 12 ==> MonthName(a) != MonthName(b)
  {
  }

  // ------------------------------------------------------------------
  // File times

  const TwoTo32 := 0x1_0000_0000

  /** `from_file_time`: the low and high 32-bit halves of a file time. */
  function FileTimeParts(fileTime: U64): (parts: (U32, U32))
  {
    (fileTime % TwoTo32, fileTime / TwoTo32)
  }

  /** `to_file_time`: the high half shifted up, OR the low half (disjoint
      bits, so the OR is a sum). */
  function JoinFileTime(low: U32, high: U32): U64
  {
    high * TwoTo32 + low
  }

  /** Splitting and joining a file time are inverse. */
  lemma FileTimeRoundTrip(fileTime: U64, low: U32, high: U32)
    ensures JoinFileTime(FileTimeParts(fileTime).0, FileTimeParts(fileTime).1) == fileTime
    ensures FileTimeParts(JoinFileTime(low, high)) == (low, high)
  {
    DivUnique(high * TwoTo32 + low, TwoTo32, high, low);
  }
}
