/** Time as the model sees it: an integer count of nanoseconds on the
    process clock, passed to every operation that reads `time.Now()`. */
module Clock {

  /** An instant, in nanoseconds (Go's `time.Time`). */
  type Instant = int

  /** A span of time, in nanoseconds (Go's `time.Duration`). */
  type Duration = int

  const Millisecond: Duration := 1_000_000
  const Second: Duration := 1_000_000_000

  /** Go's zero `time.Time` (January 1, year 1, UTC), as the value of an unset time field. */
  const ZeroTime: Instant := -62_135_596_800 * Second

  /** `t.Unix()`: whole seconds since the epoch, rounded towards minus infinity. */
  function UnixSeconds(t: Instant): (s: int)
    ensures s * Second <= t < (s + 1) * Second
  {
    t / Second
  }
}
