/** The pool that owns the in-flight count of every physical query provider. */
module CapacityPool {
  import opened Prelude

  const UNKNOWN_SOURCE := "unknown-source"
  const MAX_CONCURRENCY := 16

  /** `normalized_query_concurrency`; None stands for a value that is not an integer. */
  function NormalizedConcurrency(value: Option<int>, fallback: int := 1): (n: nat)
    ensures 1 <= n <= MAX_CONCURRENCY
    ensures value.Some? && 1 <= value.value <= MAX_CONCURRENCY ==> n == value.value
    ensures value.None? && 1 <= fallback <= MAX_CONCURRENCY ==> n == fallback
    ensures value.Some? && value.value < 1 ==> n == 1
    ensures value.Some? && value.value > MAX_CONCURRENCY ==> n == MAX_CONCURRENCY
  {
    var numeric := if value.Some? then value.value else fallback;
    if numeric < 1 then 1 else if numeric > MAX_CONCURRENCY then MAX_CONCURRENCY else numeric
  }

  function SourceKey(source: string): string {
    if source == "" then UNKNOWN_SOURCE else source
  }

  type Active = map<string, int>

  function Count(active: Active, source: string): int {
    if source in active then active[source] else 0
  }

  /** Only sources with a permit out are listed. */
  ghost predicate Normal(active: Active) {
    forall s :: s in active ==> active[s] > 0
  }

  function Acquired(active: Active, source: string): Active {
    active[source := Count(active, source) + 1]
  }

  function Released(active: Active, source: string): Active {
    var remaining := (if source in active then active[source] else 1) - 1;
    if remaining > 0 then active[source := remaining] else active - {source}
  }

  /** A release undoes one acquire of its source and leaves other sources alone; with no permit out it is ignored. */
  lemma ReleaseUndoesAcquire(active: Active, source: string, other: string)
    requires Normal(active)
    ensures Released(Acquired(active, source), source) == active
    ensures Normal(Acquired(active, source)) && Normal(Released(active, source))
    ensures Count(Released(active, source), other) ==
            if other == source && Count(active, source) > 0 then Count(active, other) - 1 else Count(active, other)
  {
  }

  class SourceCapacityPool {
    var active: Active

    constructor ()
      ensures active == map[]
    {
      active := map[];
    }

    /** Grants a permit exactly when the source is below the capacity asked for, and then stays within it. */
    method TryAcquire(source: string, limit: Option<int>) returns (granted: bool)
      modifies this
      ensures var key := if source == "" then "unknown-source" else source;
              && (granted <==> old(Count(active, key)) < NormalizedConcurrency(limit))
              && active == (if granted then old(active)[key := old(Count(active, key)) + 1] else old(active))
              && (granted ==> Count(active, key) <= NormalizedConcurrency(limit))
    {
      var key := SourceKey(source);
      if Count(active, key) >= NormalizedConcurrency(limit) {
        return false;
      }
      active := active[key := Count(active, key) + 1];
      granted := true;
    }

    method Release(source: string)
      modifies this
      ensures active == Released(old(active), if source == "" then "unknown-source" else source)
    {
      var key := SourceKey(source);
      var remaining := (if key in active then active[key] else 1) - 1;
      if remaining > 0 {
        active := active[key := remaining];
      } else {
        active := active - {key};
      }
    }
  }
}
