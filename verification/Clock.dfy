/** Time as the manager compares it: clock ticks are nanoseconds, ages are cut to whole seconds. */
module Clock {

  /** Clock ticks in a second. */
  const SECOND := 1_000_000_000

  /** Duration-cast to whole seconds, truncating toward zero. */
  function WholeSeconds(d: int): int {
    if d >= 0 then d / SECOND else -((-d) / SECOND)
  }

  /** The age test of the sweeper and of the online status. */
  predicate Stale(now: int, at: int) {
    WholeSeconds(now - at) > 60
  }

  /** It fires once the age reaches 61 seconds, not at the documented 60. */
  lemma StaleMeansAge61(now: int, at: int)
    ensures Stale(now, at) <==> now - at >= 61_000_000_000
  {
  }
}
