/** `is_within_time_window` and one turn of the main loop: poll between 19:00 and 21:00
    East Africa Time (UTC+3), otherwise wait. Time is whole seconds since the epoch. */
module Schedule {

  const DaySeconds: int := 86400
  const HourSeconds: int := 3600
  /** East Africa Time is three hours ahead of UTC. */
  const Offset: int := 3 * 3600
  const WindowStart: int := 19
  const WindowEnd: int := 21
  /** Sleep after a poll, and sleep outside the window. */
  const ActiveSleep: nat := 15 * 60
  const IdleSleep: nat := 5 * 60

  /** `time.gmtime(t + 3 * 3600).tm_hour`: the hour of the shifted second within its day. */
  function LocalHour(t: int): (h: int)
    ensures 0 <= h < 24
  {
    ((t + Offset) % DaySeconds) / HourSeconds
  }

  /** `19 <= current_hour < 21` */
  predicate InWindow(t: int) {
    WindowStart <= LocalHour(t) < WindowEnd
  }

  /** The hour can equally be counted in whole hours since the epoch, modulo 24. */
  lemma LocalHourInHours(t: int)
    ensures LocalHour(t) == ((t + Offset) / HourSeconds) % 24
  {
    var u := t + Offset;
    var q, r := u / DaySeconds, u % DaySeconds;
    var h, s := r / HourSeconds, r % HourSeconds;
    assert u == DaySeconds * q + r;
    assert r == HourSeconds * h + s;
    assert u == HourSeconds * (24 * q + h) + s;
    assert u / HourSeconds == 24 * q + h;
  }

  /** In UTC the window is 16:00 inclusive to 18:00 exclusive of every day: the first second
      of 19:00 local time is in it, the first second of 21:00 is not, nor the last second
      before 19:00. */
  lemma WindowInUtc(t: int)
    ensures InWindow(t) <==> 16 * HourSeconds <= t % DaySeconds < 18 * HourSeconds
  {
    var d := t % DaySeconds;
    assert t == DaySeconds * (t / DaySeconds) + d;
    if d < DaySeconds - Offset {
      assert (t + Offset) % DaySeconds == d + Offset;
    } else {
      assert (t + Offset) % DaySeconds == d + Offset - DaySeconds;
    }
  }

  /** One turn of the main loop at time `t`: whether it polls, and how long it then sleeps. */
  datatype Turn = Turn(polls: bool, sleep: nat)

  function SchedulerTurn(t: int): (r: Turn)
    ensures r.polls <==> 16 * HourSeconds <= t % DaySeconds < 18 * HourSeconds
    ensures r.sleep == if r.polls then ActiveSleep else IdleSleep
  {
    WindowInUtc(t);
    if InWindow(t) then Turn(true, ActiveSleep) else Turn(false, IdleSleep)
  }
}
