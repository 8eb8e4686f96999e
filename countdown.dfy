/** The countdown arithmetic of the hackathon page: the tick function that turns
    the current instant (milliseconds since the Unix epoch) into the
    hours/minutes/seconds shown on the timer. */
module Countdown {

  /** 2025-03-22T07:30:00Z, the start of the event, in epoch milliseconds. */
  const StartDate: int := 1742628600000
  /** 2025-03-23T07:30:00Z, the end of the event, in epoch milliseconds. */
  const EndDate: int := 1742715000000

  const MsPerSecond: int := 1000
  const MsPerMinute: int := 60 * 1000
  const MsPerHour: int := 60 * 60 * 1000

  /** The length of the event: exactly one day. */
  const Window: int := EndDate - StartDate

  /** The value shown on the timer (the page never fills in `days`). */
  datatype TimeLeft = TimeLeft(days: int, hours: int, minutes: int, seconds: int)

  /** Whole seconds a display stands for (the `days` field is always 0). */
  function TotalSeconds(t: TimeLeft): int {
    t.hours * 3600 + t.minutes * 60 + t.seconds
  }

  /** Hours, minutes and seconds in normal form, no days. */
  predicate Normal(t: TimeLeft) {
    t.days == 0 && 0 <= t.hours && 0 <= t.minutes < 60 && 0 <= t.seconds < 60
  }

  /** `t` is `ms` milliseconds rounded down to whole seconds. */
  predicate FloorsTo(t: TimeLeft, ms: int) {
    TotalSeconds(t) * MsPerSecond <= ms < TotalSeconds(t) * MsPerSecond + MsPerSecond
  }

  function Min(a: int, b: int): int { if a <= b then a else b }
  function Max(a: int, b: int): int { if a <= b then b else a }

  /** Reference definition of what the display stands for: the time left until
      the end, clamped to the event window [0, Window]. */
  function Remaining(now: int): int {
    Min(Max(EndDate - now, 0), Window)
  }

  /** The minute remainder is determined by any split into whole minutes and a rest. */
  lemma MinuteRemainder(ms: int, q: int, r: int)
    requires ms == q * MsPerMinute + r && 0 <= r < MsPerMinute
    ensures ms % MsPerMinute == r
  {
  }

  /** Splitting ms >= 0 by hours, then by minutes, then by seconds. */
  lemma Decompose(ms: int)
    requires 0 <= ms
    ensures var h, m, s := ms / MsPerHour, (ms % MsPerHour) / MsPerMinute, (ms % MsPerMinute) / MsPerSecond;
      0 <= m < 60 && 0 <= s < 60 && 0 <= h &&
      h * MsPerHour + m * MsPerMinute + s * MsPerSecond <= ms < h * MsPerHour + m * MsPerMinute + s * MsPerSecond + MsPerSecond
  {
    var h, rh := ms / MsPerHour, ms % MsPerHour;
    var m, rm := rh / MsPerMinute, rh % MsPerMinute;
    assert ms == h * MsPerHour + rh && 0 <= rh < MsPerHour;
    assert rh == m * MsPerMinute + rm && 0 <= rm < MsPerMinute;
    // the minute remainder of ms is that of the hour remainder, since a minute divides an hour
    MinuteRemainder(ms, h * 60 + m, rm);
    var s := rm / MsPerSecond;
    assert rm == s * MsPerSecond + rm % MsPerSecond;
  }

  /** `updateTimer`: before the start the timer shows 24:00:00, strictly after
      the end it shows 00:00:00, and in between it floor-divides the time left. */
  function UpdateTimer(now: int): (r: TimeLeft)
    ensures Normal(r) && r.hours <= 24
    ensures FloorsTo(r, Remaining(now))
  {
    if now < StartDate then
      TimeLeft(0, 24, 0, 0)
    else if now > EndDate then
      TimeLeft(0, 0, 0, 0)
    else
      var difference := EndDate - now;
      Decompose(difference);
      TimeLeft(0, difference / MsPerHour, (difference % MsPerHour) / MsPerMinute, (difference % MsPerMinute) / MsPerSecond)
  }

  /** A normal-form display is determined by the whole seconds it stands for. */
  lemma NormalUnique(t: TimeLeft, u: TimeLeft)
    requires Normal(t) && Normal(u) && TotalSeconds(t) == TotalSeconds(u)
    ensures t == u
  {
  }

  /** Rounding down to whole seconds has one answer. */
  lemma FloorUnique(a: int, b: int, ms: int)
    requires a * MsPerSecond <= ms < a * MsPerSecond + MsPerSecond
    requires b * MsPerSecond <= ms < b * MsPerSecond + MsPerSecond
    ensures a == b
  {
  }

  /** The display is the only normal-form value that floors the remaining time:
      the contract of UpdateTimer pins its result down completely. */
  lemma UpdateTimerUnique(now: int, t: TimeLeft)
    requires Normal(t) && FloorsTo(t, Remaining(now))
    ensures t == UpdateTimer(now)
  {
    var r := UpdateTimer(now);
    FloorUnique(TotalSeconds(t), TotalSeconds(r), Remaining(now));
    NormalUnique(t, r);
  }

  /** The three regimes of the tick function, and the days field is 0 in each. */
  lemma BeforeStartShowsFullDay(now: int)
    requires now < StartDate
    ensures UpdateTimer(now) == TimeLeft(0, 24, 0, 0)
  {
  }

  lemma AfterEndShowsZero(now: int)
    requires now > EndDate
    ensures UpdateTimer(now) == TimeLeft(0, 0, 0, 0)
  {
  }

  /** At the end instant itself the in-window branch runs and also shows zero. */
  lemma AtEndShowsZero()
    ensures UpdateTimer(EndDate) == TimeLeft(0, 0, 0, 0)
  {
  }

  /** Inside the window the display floors `EndDate - now` to whole seconds. */
  lemma InWindowFloors(now: int)
    requires StartDate <= now <= EndDate
    ensures var r := UpdateTimer(now);
      r.hours * MsPerHour + r.minutes * MsPerMinute + r.seconds * MsPerSecond <= EndDate - now
      < r.hours * MsPerHour + r.minutes * MsPerMinute + r.seconds * MsPerSecond + MsPerSecond
    ensures 0 <= UpdateTimer(now).minutes <= 59 && 0 <= UpdateTimer(now).seconds <= 59
    ensures 0 <= UpdateTimer(now).hours <= 24
  {
    var r := UpdateTimer(now);
    assert Remaining(now) == EndDate - now;
    assert TotalSeconds(r) * MsPerSecond == r.hours * MsPerHour + r.minutes * MsPerMinute + r.seconds * MsPerSecond;
  }

  /** 24 hours is shown only as 24:00:00, because the window is exactly one day. */
  lemma FullDayHasNoMinutes(now: int)
    requires UpdateTimer(now).hours == 24
    ensures UpdateTimer(now).minutes == 0 && UpdateTimer(now).seconds == 0
  {
  }

  /** The whole seconds shown never go up as time moves on, across all three regimes. */
  lemma TotalSecondsNonIncreasing(earlier: int, later: int)
    requires earlier <= later
    ensures TotalSeconds(UpdateTimer(later)) <= TotalSeconds(UpdateTimer(earlier))
  {
  }

  /** Two seconds, one hour and one millisecond before the end. */
  lemma Examples()
    ensures UpdateTimer(EndDate - 2000) == TimeLeft(0, 0, 0, 2)
    ensures UpdateTimer(EndDate - MsPerHour) == TimeLeft(0, 1, 0, 0)
    ensures UpdateTimer(EndDate - 1) == TimeLeft(0, 0, 0, 0)
  {
  }
}
