/** Clock readings. */
module Clock {
  type Time = nat

  /** `Instant::duration_since` saturates at zero. */
  function Elapsed(now: Time, t: Time): nat {
    if t <= now then now - t else 0
  }
}
