/** Timestamps are milliseconds since the epoch, as JavaScript dates are.
    The booking rules work at the granularity of a whole hour. */
module Hours {

  /** One hour, in milliseconds. */
  const HourMs: int := 3_600_000

  /** A timestamp whose minutes, seconds and milliseconds are all zero. */
  predicate OnTheHour(t: int) {
    t % HourMs == 0
  }

  /** `startOfHour`: the latest whole hour at or before `t`. Dafny's `%` is
      Euclidean, so for negative timestamps this still rounds down, as
      zeroing the minutes of a date does. */
  function StartOfHour(t: int): (h: int)
    ensures OnTheHour(h)
    ensures h <= t < h + HourMs
  {
    t - t % HourMs
  }

  /** The contract of StartOfHour pins its result down: no other whole
      hour lies within the hour that ends after `t`. */
  lemma {:induction false} StartOfHourUnique(t: int, h: int)
    requires OnTheHour(h) && h <= t < h + HourMs
    ensures h == StartOfHour(t)
  {
  }

  /** Truncating is idempotent, and exactly the whole hours are left alone. */
  lemma StartOfHourFixesWholeHours(t: int)
    ensures StartOfHour(t) == t <==> OnTheHour(t)
    ensures StartOfHour(StartOfHour(t)) == StartOfHour(t)
  {
  }

  /** `isBefore`: strictly earlier. Equal instants are not before each other. */
  predicate IsBefore(a: int, b: int) {
    a < b
  }
}
