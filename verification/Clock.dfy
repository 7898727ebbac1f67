/** Durations, counted in nanoseconds. */
module Clock {
  const NANOSECONDS: int := 1_000_000_000

  /** A duration in whole seconds, truncated toward zero. */
  function WholeSeconds(duration: int): int {
    if duration >= 0 then duration / NANOSECONDS else -((-duration) / NANOSECONDS)
  }

  /** A duration reaches `n` whole seconds, n at least one, exactly when it is at least that long. */
  lemma ReachesSeconds(duration: int, n: int)
    requires n >= 1
    ensures WholeSeconds(duration) >= n <==> duration >= n * 1_000_000_000
  {
  }

  /** Truncation is toward zero: a negative duration has the seconds of its opposite, negated. */
  lemma NegativeSeconds(duration: int)
    ensures WholeSeconds(-duration) == -WholeSeconds(duration)
  {
  }

  /** A duration has more than `n` whole seconds exactly when it has reached the next, or, below zero, passed this. */
  lemma MoreThanSeconds(duration: int, n: int)
    ensures WholeSeconds(duration) > n <==>
              if n >= 0 then duration >= (n + 1) * 1_000_000_000 else duration > n * 1_000_000_000
  {
    if n >= 0 {
      ReachesSeconds(duration, n + 1);
    } else {
      ReachesSeconds(-duration, -n);
      NegativeSeconds(duration);
    }
  }
}
