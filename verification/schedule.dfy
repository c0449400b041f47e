/** `NextMailTarget` of src/maillog/scheduler.py and of its copy in
    src/maillog/mail/scheduler.py: the next instant at which the daily
    summary is due, and the "Xh Ym Zs" rendering of the wait.

    Instants are whole microseconds on the UTC time line (the resolution of
    Python's `datetime`); `now` is a parameter instead of a clock read. A
    day number is an instant divided by the length of a day, rounded down,
    which is what `datetime.date()` does for a UTC datetime. */
module Schedule {
  import opened Text

  const MicrosPerSecond: int := 1_000_000
  const SecondsPerDay: int := 86_400
  const MicrosPerDay: int := 86_400_000_000

  /** A `datetime.time`: an offset into the day, in microseconds. */
  type TimeOfDay = t: int | 0 <= t < MicrosPerDay

  /** The `NextMailTarget` record: the target instant and the wait until it. */
  datatype NextMailTarget = NextMailTarget(time: int, delta: int)

  /** `datetime.combine(now.date(), schedule, tzinfo=utc)`: today's target instant. */
  function TodayAt(schedule: TimeOfDay, now: int): (r: int)
    ensures r / MicrosPerDay == now / MicrosPerDay
    ensures r % MicrosPerDay == schedule
  {
    DayParts(now / MicrosPerDay, schedule);
    (now / MicrosPerDay) * MicrosPerDay + schedule
  }

  /** An instant is determined by its day number and its offset into the day. */
  lemma {:induction false} DayParts(q: int, s: int)
    requires 0 <= s < MicrosPerDay
    ensures (q * MicrosPerDay + s) / MicrosPerDay == q
    ensures (q * MicrosPerDay + s) % MicrosPerDay == s
  {
  }

  /** `NextMailTarget.get`: today's target when it is still ahead, otherwise
      the same time tomorrow; `delta` is the wait from `now`. */
  function Get(schedule: TimeOfDay, now: int): (r: NextMailTarget)
    ensures now < r.time
    ensures r.time % MicrosPerDay == schedule
    ensures r.delta == r.time - now
    ensures 0 < r.delta <= MicrosPerDay
    ensures now < TodayAt(schedule, now) ==> r.time / MicrosPerDay == now / MicrosPerDay
    ensures now >= TodayAt(schedule, now) ==> r.time / MicrosPerDay == now / MicrosPerDay + 1
  {
    var today := TodayAt(schedule, now);
    var target := if now >= today then today + MicrosPerDay else today;
    DayParts(now / MicrosPerDay + 1, schedule);
    NextMailTarget(target, target - now)
  }

  /** No instant after `now` at the schedule's time of day comes before the target. */
  lemma {:induction false} GetIsEarliest(schedule: TimeOfDay, now: int, t: int)
    requires now < t && t % MicrosPerDay == schedule
    ensures Get(schedule, now).time <= t
  {
  }

  /** The wait is a whole day exactly when `now` is today's target instant. */
  lemma {:induction false} FullDayExactlyOnTarget(schedule: TimeOfDay, now: int)
    ensures Get(schedule, now).delta == MicrosPerDay <==> now == TodayAt(schedule, now)
  {
  }

  /** `delta.seconds` of a `timedelta`: the whole seconds left after whole days
      are taken out (Python normalises with floor division). */
  function DeltaSeconds(delta: int): (s: nat)
    ensures s < SecondsPerDay
    ensures (delta / MicrosPerSecond - s) % SecondsPerDay == 0
  {
    (delta / MicrosPerSecond) % SecondsPerDay
  }

  /** The three numbers `delta_string` prints. */
  datatype Clock = Clock(hours: nat, minutes: nat, seconds: nat)

  /** `s // 3600`, `(s // 60) % 60` and `s % 60`. */
  function ClockOf(s: nat): Clock
  {
    Clock(s / 3600, (s / 60) % 60, s % 60)
  }

  /** The parts put back together give the number of seconds; minutes and
      seconds stay below 60, and below one day the hours stay below 24. */
  lemma {:induction false} ClockOfReconstructs(s: nat)
    ensures var c := ClockOf(s);
      && c.hours * 3600 + c.minutes * 60 + c.seconds == s
      && c.minutes < 60 && c.seconds < 60
      && (s < SecondsPerDay ==> c.hours < 24)
  {
  }

  /** The parts of `delta_string`, as written: built from `delta.seconds`. */
  function DeltaParts(delta: int): (c: Clock)
    ensures c.hours * 3600 + c.minutes * 60 + c.seconds == DeltaSeconds(delta)
    ensures c.hours < 24 && c.minutes < 60 && c.seconds < 60
  {
    ClockOfReconstructs(DeltaSeconds(delta));
    ClockOf(DeltaSeconds(delta))
  }

  /** `f"{h}h {m}m {s}s"`. */
  function Render(c: Clock): string
  {
    NatToString(c.hours) + "h " + NatToString(c.minutes) + "m " + NatToString(c.seconds) + "s"
  }

  /** `delta_string` as written. */
  function DeltaString(delta: int): string
  {
    Render(DeltaParts(delta))
  }

  /** As written, a wait of exactly one day renders as no wait at all. */
  lemma OneDayRendersZero()
    ensures DeltaParts(MicrosPerDay) == Clock(0, 0, 0)
    ensures DeltaString(MicrosPerDay) == "0h 0m 0s"
  {
  }

  /** The parts of the wait counted in hours without dropping whole days. */
  function TotalParts(delta: int): (c: Clock)
    requires delta >= 0
    ensures c.hours * 3600 + c.minutes * 60 + c.seconds == delta / MicrosPerSecond
    ensures c.minutes < 60 && c.seconds < 60
  {
    ClockOfReconstructs(delta / MicrosPerSecond);
    ClockOf(delta / MicrosPerSecond)
  }

  /** `delta_string` with the days folded into the hours. */
  function DeltaStringTotal(delta: int): string
    requires delta >= 0
  {
    Render(TotalParts(delta))
  }

  /** Below one day the corrected rendering agrees with the one as written;
      at one day it reads 24 hours. */
  lemma {:induction false} TotalPartsAgreeBelowOneDay(delta: int)
    requires 0 <= delta
    ensures delta < MicrosPerDay ==> TotalParts(delta) == DeltaParts(delta)
    ensures delta < MicrosPerDay ==> DeltaStringTotal(delta) == DeltaString(delta)
    ensures TotalParts(MicrosPerDay) == Clock(24, 0, 0)
  {
  }

  /** For every wait `Get` can return, the corrected rendering accounts for
      the whole wait, in seconds. */
  lemma {:induction false} TotalPartsCoverWait(schedule: TimeOfDay, now: int)
    ensures var r := Get(schedule, now);
      var c := TotalParts(r.delta);
      && c.hours * 3600 + c.minutes * 60 + c.seconds == r.delta / MicrosPerSecond
      && c.hours <= 24
  {
  }
}
