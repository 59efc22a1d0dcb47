/**
 * Instants and calendar days.
 *
 * An instant (Swift's `Date`) is a whole number of seconds from an epoch; the
 * calendar is a fixed one in which every day has exactly `SecondsPerDay`
 * seconds (no time zones, no daylight-saving shifts). Day numbers may be
 * negative: `/` on `int` is Euclidean, which for a positive divisor is the
 * floor, so `Day` is right for instants before the epoch too.
 */
module Dates {
  const SecondsPerDay: int := 86400

  /** The number of the calendar day an instant falls in. */
  function Day(t: int): int {
    t / SecondsPerDay
  }

  /** `Calendar.startOfDay(for:)`: the first instant of the day `t` falls in. */
  function StartOfDay(t: int): (r: int)
    ensures r <= t < r + SecondsPerDay
    ensures r % SecondsPerDay == 0
  {
    Day(t) * SecondsPerDay
  }

  /** `Calendar.date(byAdding: .day, value: n, to: t)`: the same time of day, `n` days later. */
  function AddDays(t: int, n: int): (r: int)
    ensures Day(r) == Day(t) + n
    ensures r - StartOfDay(r) == t - StartOfDay(t)
  {
    DayOfShift(t, n);
    t + n * SecondsPerDay
  }

  /** Shifting an instant by whole days shifts its day number by as many. */
  lemma DayOfShift(t: int, n: int)
    ensures Day(t + n * SecondsPerDay) == Day(t) + n
  {
    var q, m := t / SecondsPerDay, t % SecondsPerDay;
    assert t + n * SecondsPerDay == (q + n) * SecondsPerDay + m;
    DivUnique(t + n * SecondsPerDay, q + n, m);
  }

  /** Euclidean division by `SecondsPerDay` has exactly one quotient. */
  lemma DivUnique(a: int, q: int, m: int)
    requires a == q * SecondsPerDay + m && 0 <= m < SecondsPerDay
    ensures a / SecondsPerDay == q
  {
    var q', m' := a / SecondsPerDay, a % SecondsPerDay;
    assert a == q' * SecondsPerDay + m';
  }

  /** An earlier instant never falls on a later day. */
  lemma StartOfDayMonotone(s: int, t: int)
    requires s <= t
    ensures StartOfDay(s) <= StartOfDay(t)
  {
    assert StartOfDay(s) <= s;
    NotAfterDayIff(s, t);
  }

  /** An instant is on or before day `Day(now)` exactly when it comes before the
      start of the following day. */
  lemma {:induction false} NotAfterDayIff(t: int, now: int)
    ensures StartOfDay(t) <= StartOfDay(now) <==> t < StartOfDay(now) + SecondsPerDay
  {
    if StartOfDay(t) <= StartOfDay(now) {
      assert t < StartOfDay(t) + SecondsPerDay;
    }
    if t < StartOfDay(now) + SecondsPerDay {
      assert Day(t) * SecondsPerDay <= t;
      assert Day(t) * SecondsPerDay < (Day(now) + 1) * SecondsPerDay;
      assert Day(t) < Day(now) + 1;
    }
  }
}
