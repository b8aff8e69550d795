/** Instants and durations as Go's time package sees them. */
module GoTime {

  /** Nanoseconds since the zero Time (1 January of year 1, UTC); 0 is the zero Time itself. */
  type Instant = int

  const MIN_DURATION: int := -0x8000_0000_0000_0000
  const MAX_DURATION: int := 0x7fff_ffff_ffff_ffff

  /** A Go Duration is a signed 64-bit count of nanoseconds. */
  type Duration = d: int | MIN_DURATION <= d <= MAX_DURATION

  /** `t.Sub(u)`: the distance from u to t, saturating at the ends of the 64-bit range. */
  function Sub(t: Instant, u: Instant): Duration {
    if t - u < MIN_DURATION then MIN_DURATION
    else if t - u > MAX_DURATION then MAX_DURATION
    else t - u
  }

  predicate IsZero(t: Instant) {
    t == 0
  }

  /** Saturation never changes a comparison against a window, whatever the window is
      (the least Duration aside). */
  lemma SubReachesWindow(t: Instant, u: Instant, w: Duration)
    requires w > MIN_DURATION
    ensures Sub(t, u) >= w <==> t - u >= w
  {
  }

  /** The plain difference where 64 bits hold it, and the nearest end of their range elsewhere. */
  lemma SubIs(t: Instant, u: Instant)
    ensures -9223372036854775808 <= t - u <= 9223372036854775807 ==> Sub(t, u) == t - u
    ensures t - u > 9223372036854775807 ==> Sub(t, u) == 9223372036854775807
    ensures t - u < -9223372036854775808 ==> Sub(t, u) == -9223372036854775808
    ensures IsZero(t) <==> t == 0
  {
  }
}
