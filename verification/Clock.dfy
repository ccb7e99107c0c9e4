/** Time, in nanoseconds; 0 is the zero time. */
module Clock {

  type Time = nat

  const MILLISECOND: Time := 1_000_000
  const SECOND: Time := 1_000 * MILLISECOND
}
