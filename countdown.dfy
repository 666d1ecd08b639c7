/**
 * The flash-sale countdown on the product details page: a number of
 * seconds split into days, hours, minutes and seconds for display.
 */
module Countdown {
  import opened Wrappers

  datatype Clock = Clock(days: int, hours: int, minutes: int, seconds: int)

  const SecondsPerMinute := 60
  const SecondsPerHour := 3600
  const SecondsPerDay := 86400

  /** The number of seconds a clock reading stands for. */
  function Seconds(c: Clock): int
  {
    c.days * SecondsPerDay + c.hours * SecondsPerHour + c.minutes * SecondsPerMinute + c.seconds
  }

  /** Every field is within its display range. */
  predicate InRange(c: Clock)
  {
    c.days >= 0 && 0 <= c.hours < 24 && 0 <= c.minutes < 60 && 0 <= c.seconds < 60
  }

  /**
   * `formatCountdown(totalSeconds)`: nothing to show when the countdown is
   * absent (`null`) or has run out; otherwise whole days, then the hours,
   * minutes and seconds left over.
   */
  function FormatCountdown(totalSeconds: Option<int>): (r: Option<Clock>)
    ensures r.None? <==> totalSeconds.None? || totalSeconds.value <= 0
    ensures r.Some? ==> InRange(r.value) && Seconds(r.value) == totalSeconds.value
    ensures r.Some? ==> r.value.days == totalSeconds.value / SecondsPerDay
  {
    match totalSeconds
    case None => None
    case Some(t) =>
      if t <= 0 then None
      else
        var c := Clock(t / SecondsPerDay, (t % SecondsPerDay) / SecondsPerHour,
                       (t % SecondsPerHour) / SecondsPerMinute, t % SecondsPerMinute);
        SplitAdds(t);
        Some(c)
  }

  /** The four fields computed from `t` add back up to `t`. */
  lemma SplitAdds(t: int)
    requires t > 0
    ensures (t / SecondsPerDay) * SecondsPerDay + ((t % SecondsPerDay) / SecondsPerHour) * SecondsPerHour
      + ((t % SecondsPerHour) / SecondsPerMinute) * SecondsPerMinute + t % SecondsPerMinute == t
  {
    var d, rd := t / 86400, t % 86400;
    var h, rh := rd / 3600, rd % 3600;
    var m, sec := rh / 60, rh % 60;
    // t is also (24d + h) hours and rh seconds, and ((24d + h) * 60 + m) minutes and sec seconds
    assert (d * 24 + h) * 3600 + rh == t;
    DivideBack(d * 24 + h, rh, SecondsPerHour);
    assert ((d * 24 + h) * 60 + m) * 60 + sec == t;
    DivideBack((d * 24 + h) * 60 + m, sec, SecondsPerMinute);
  }

  /** `q * k + r` with `0 <= r < k` divides back to `q`, remainder `r` (for the three unit sizes). */
  lemma DivideBack(q: int, r: int, k: int)
    requires k == SecondsPerDay || k == SecondsPerHour || k == SecondsPerMinute
    requires 0 <= r < k
    ensures (q * k + r) / k == q && (q * k + r) % k == r
  {
  }

  /** Two in-range readings of the same number of seconds are the same reading. */
  lemma ReadingUnique(a: Clock, b: Clock)
    requires InRange(a) && InRange(b) && Seconds(a) == Seconds(b)
    ensures a == b
  {
    DivideBack(a.days, a.hours * 3600 + a.minutes * 60 + a.seconds, SecondsPerDay);
    DivideBack(b.days, b.hours * 3600 + b.minutes * 60 + b.seconds, SecondsPerDay);
    DivideBack(a.hours, a.minutes * 60 + a.seconds, SecondsPerHour);
    DivideBack(b.hours, b.minutes * 60 + b.seconds, SecondsPerHour);
    DivideBack(a.minutes, a.seconds, SecondsPerMinute);
    DivideBack(b.minutes, b.seconds, SecondsPerMinute);
  }

  /** Formatting is the inverse of counting: any in-range, non-zero reading formats back to itself. */
  lemma FormatInvertsSeconds(c: Clock)
    requires InRange(c) && Seconds(c) > 0
    ensures FormatCountdown(Some(Seconds(c))) == Some(c)
  {
    ReadingUnique(FormatCountdown(Some(Seconds(c))).value, c);
  }
}
