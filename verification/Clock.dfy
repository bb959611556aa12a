/** Points in time, in nanoseconds, as the modules that watch the clock see them. */
module Clock {

  /** The zero time of a field never set, or a reading of the clock. */
  datatype Time = Zero | At(t: int)

  /** Durations are signed 64-bit; an elapsed time that does not fit is cut off. */
  const MAX_DURATION := 0x7fff_ffff_ffff_ffff

  function Since(now: int, t: Time): int {
    if t.Zero? || now - t.t > MAX_DURATION then MAX_DURATION else now - t.t
  }
}
