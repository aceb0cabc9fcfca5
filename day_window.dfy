/** Day arithmetic on integer timestamps (seconds) with a fixed day length and no time zone:
    `Calendar.startOfDay(for:)`, `Calendar.date(byAdding: .day, ...)` and the half-open
    `date >= start AND date < end` windows every query uses. */
module DayWindow {

  /** Seconds per calendar day. */
  const DayLength: int := 86400

  /** `Calendar.current.startOfDay(for: t)`: the last day boundary at or before `t`. */
  function StartOfDay(t: int): (r: int)
    ensures r <= t < r + DayLength
    ensures r % DayLength == 0
  {
    t - t % DayLength
  }

  /** `Calendar.current.date(byAdding: .day, value: n, to: t)`. */
  function AddDays(t: int, n: int): int {
    t + n * DayLength
  }

  /** The window `[start, start + 1 day)`. */
  predicate InDay(t: int, start: int) {
    start <= t < AddDays(start, 1)
  }

  /** A day boundary is determined by any instant of its day. */
  lemma DayStartUnique(a: int, b: int, t: int)
    requires a % DayLength == 0 && b % DayLength == 0
    requires a <= t < a + DayLength && b <= t < b + DayLength
    ensures a == b
  {
    var qa, qb := a / DayLength, b / DayLength;
    assert a == qa * DayLength && b == qb * DayLength;
    assert -DayLength < (qa - qb) * DayLength < DayLength;
  }

  lemma StartOfDayOfDayStart(r: int)
    requires r % DayLength == 0
    ensures StartOfDay(r) == r
  {
  }

  /** Shifting a day boundary by whole days gives a day boundary. */
  lemma AddDaysKeepsDayStart(r: int, n: int)
    requires r % DayLength == 0
    ensures StartOfDay(AddDays(r, n)) == AddDays(r, n)
  {
    var q := r / DayLength;
    assert AddDays(r, n) == (q + n) * DayLength;
  }

  /** Adding days keeps the time of day: the day start moves by exactly `n` days, and the
      instant moves forward when `n` is positive. */
  lemma AddDaysShiftsDayStart(t: int, n: int)
    ensures StartOfDay(AddDays(t, n)) == StartOfDay(t) + n * DayLength
    ensures n > 0 ==> AddDays(t, n) > t
  {
    var r := AddDays(t, n);
    var q := t / DayLength;
    assert StartOfDay(t) + n * DayLength == (q + n) * DayLength;
    DayStartUnique(StartOfDay(r), StartOfDay(t) + n * DayLength, r);
  }

  /** The window of a day boundary holds exactly the instants of that calendar day. */
  lemma InDayIffDayStart(t: int, start: int)
    requires start % DayLength == 0
    ensures InDay(t, start) <==> StartOfDay(t) == start
  {
    if InDay(t, start) {
      DayStartUnique(StartOfDay(t), start, t);
    }
  }

  /** An instant lies in the window of `now`'s day exactly when it is on the same calendar day. */
  lemma InDayIffSameDay(t: int, now: int)
    ensures InDay(t, StartOfDay(now)) <==> StartOfDay(t) == StartOfDay(now)
  {
    if InDay(t, StartOfDay(now)) {
      DayStartUnique(StartOfDay(t), StartOfDay(now), t);
    }
  }

  /** The window of a day includes its first instant and excludes the next day's first instant. */
  lemma WindowBoundaries(now: int)
    ensures InDay(StartOfDay(now), StartOfDay(now))
    ensures !InDay(AddDays(StartOfDay(now), 1), StartOfDay(now))
    ensures InDay(AddDays(StartOfDay(now), 1) - 1, StartOfDay(now))
  {
  }

  lemma StartOfDayMonotone(a: int, b: int)
    requires a <= b
    ensures StartOfDay(a) <= StartOfDay(b)
  {
  }

  /** `StartOfDay(later)` has moved past `StartOfDay(earlier)` exactly once `later` reaches the
      next day boundary after `earlier`. */
  lemma NextDayIff(earlier: int, later: int)
    ensures StartOfDay(earlier) < StartOfDay(later) <==> later >= AddDays(StartOfDay(earlier), 1)
  {
    if later >= AddDays(StartOfDay(earlier), 1) {
      AddDaysKeepsDayStart(StartOfDay(earlier), 1);
      StartOfDayMonotone(AddDays(StartOfDay(earlier), 1), later);
    }
  }
}
