/**
 Instants and durations are nanosecond counts, as in Go's `time` package.
 The store keeps whole Unix seconds, so every column written from an instant
 goes through `Unix`, which rounds down.
 */
module Clock {

  const SECOND := 1_000_000_000

  /** `time.Time.Unix`: whole seconds since the epoch, rounded down. */
  function Unix(t: int): (s: int)
    ensures s * SECOND <= t < (s + 1) * SECOND
  {
    t / 1_000_000_000
  }

  lemma UnixMonotone(a: int, b: int)
    requires a <= b
    ensures Unix(a) <= Unix(b)
  {
  }

  /** Adding whole seconds commutes with truncation to seconds. */
  lemma UnixShift(t: int, seconds: int)
    ensures Unix(t + seconds * SECOND) == Unix(t) + seconds
  {
  }
}
