/** A cached entry and its three-state freshness (stampede.go:84-107).

    Time is an integer count of nanoseconds, the unit of Go's `time.Duration`;
    an absolute instant is the same count measured from some fixed origin.
 */
module Entries {
  import opened Results

  /** One cached result: the payload and its two cutoffs. */
  datatype Entry<V> = Entry(v: V, bestBefore: int, expiry: int)

  /** The classification the read path acts on. */
  datatype Freshness = Fresh | Stale | Expired

  /** `value.IsFresh`: a missing entry is never fresh; otherwise the
      freshness cutoff must lie strictly after `now`. */
  predicate IsFresh<V>(e: Option<Entry<V>>, now: int)
  {
    match e
    case None => false
    case Some(x) => x.bestBefore > now
  }

  /** `value.IsExpired`: a missing entry is always expired; otherwise the
      expiry cutoff must lie strictly before `now`. */
  predicate IsExpired<V>(e: Option<Entry<V>>, now: int)
  {
    match e
    case None => true
    case Some(x) => x.expiry < now
  }

  /** `value.Value`: the payload (only ever called on a present entry). */
  function Value<V>(x: Entry<V>): V
  {
    x.v
  }

  /** The state the read path sees, checking freshness before expiry as
      `Cache.get` does. */
  function Classify<V>(e: Option<Entry<V>>, now: int): (f: Freshness)
    ensures f == Fresh <==> e.Some? && now < e.value.bestBefore
    ensures f == Stale <==> e.Some? && e.value.bestBefore <= now <= e.value.expiry
    ensures f == Expired <==> e.None? || (e.value.bestBefore <= now && e.value.expiry < now)
  {
    if IsFresh(e, now) then Fresh
    else if !IsExpired(e, now) then Stale
    else Expired
  }

  /** Position of a state in the order Fresh, Stale, Expired. */
  function Rank(f: Freshness): nat
  {
    match f
    case Fresh => 0
    case Stale => 1
    case Expired => 2
  }

  /** With time standing still nothing changes, and as time passes an entry
      only ever moves forward through Fresh, Stale, Expired. */
  lemma ClassifyIsMonotone<V>(e: Option<Entry<V>>, t1: int, t2: int)
    requires t1 <= t2
    ensures Rank(Classify(e, t1)) <= Rank(Classify(e, t2))
  {
  }

  /** When the freshness cutoff lies after the expiry cutoff, the entry is
      never Stale: fresh wins until `bestBefore`, and from then on it is
      already past `expiry`. */
  lemma NoStaleWindowWhenFreshOutlivesExpiry<V>(x: Entry<V>, now: int)
    requires x.bestBefore > x.expiry
    ensures Classify(Some(x), now) != Stale
  {
  }
}
