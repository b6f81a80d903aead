/** Moments in nanoseconds, as the process reads them, and in whole seconds, as the database keeps
    them: CURRENT_TIMESTAMP for fire records, RFC 3339 for the last report. */
module Clock {
  const SECOND: int := 1_000_000_000

  /** What is left of a moment once it is stored. */
  function WholeSeconds(t: int): int {
    t - t % SECOND
  }

  /** Storing a moment drops less than a second. */
  lemma StoredWithin(t: int)
    ensures t - SECOND < WholeSeconds(t) <= t && WholeSeconds(t) % SECOND == 0
  {
  }
}
