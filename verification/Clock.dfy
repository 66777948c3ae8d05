/** Go's clock arithmetic, as far as the workers use it.
    An instant counts nanoseconds from the zero time.Time; durations are signed 64-bit. */
module Clock {

  const MAX_DURATION: int := 0x7FFF_FFFF_FFFF_FFFF
  const MIN_DURATION: int := -0x8000_0000_0000_0000
  const SECOND: int := 1_000_000_000
  const HOUR: int := 3600 * SECOND

  /** Midnight of 1 January 1970. The wall clock is assumed to read no earlier than this. */
  const UNIX_EPOCH: int := 62_135_596_800 * SECOND

  type Instant = int

  /** The zero time.Time, for which IsZero holds. */
  const ZERO: Instant := 0

  type Duration = d: int | MIN_DURATION <= d <= MAX_DURATION

  /** A duration written in a configuration: never negative, and a whole number of
      milliseconds, so strictly below the largest duration. */
  type Setting = d: int | 0 <= d < MAX_DURATION

  /** time.Time.Sub saturates instead of wrapping around. */
  function Sub(t: Instant, u: Instant): Duration
  {
    if t - u > MAX_DURATION then MAX_DURATION
    else if t - u < MIN_DURATION then MIN_DURATION
    else t - u
  }
}
