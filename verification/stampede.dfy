/** The cache's read and write paths (stampede.go:14-82).

    The clock is the parameter `now` of each operation, the fetch function is
    the `Result` it would return, and the goroutine the stale read path starts
    is the `refresh` flag it returns. Locking and the single-flight group are
    not part of this model.
 */
module Stampede {
  import opened Results
  import opened Entries

  /** What `Cache.get` decides to do with the entry it looked up. */
  datatype Plan<V> =
    | Serve(v: V)              // return the stored value, no fetch at all
    | ServeAndRefresh(v: V)    // return the stored value, refresh in the background
    | FetchNow                 // run the write-back and return its outcome

  /** `c.values[key]`, with a missing key read as nil. */
  function Lookup<V>(values: map<string, Entry<V>>, key: string): Option<Entry<V>>
  {
    if key in values then Some(values[key]) else None
  }

  /** The branch `Cache.get` takes for entry `e` at time `now`; `freshOnly`
      is the strictness flag that tells `GetFresh` from `Get`. */
  function PlanRead<V>(e: Option<Entry<V>>, freshOnly: bool, now: int): (p: Plan<V>)
    // fresh wins, whatever the mode and whatever the expiry cutoff says
    ensures p.Serve? <==> Classify(e, now) == Fresh
    // only a lenient read serves a stale entry, and then asks for one refresh
    ensures p.ServeAndRefresh? <==> !freshOnly && Classify(e, now) == Stale
    // everything else, a missing entry above all, fetches synchronously
    ensures p.FetchNow? <==> e.None? || (freshOnly && Classify(e, now) != Fresh) || Classify(e, now) == Expired
    // whatever is served is the stored payload
    ensures !p.FetchNow? ==> e.Some? && p.v == e.value.v
  {
    if IsFresh(e, now) then Serve(Value(e.value))
    else if !freshOnly && !IsExpired(e, now) then ServeAndRefresh(Value(e.value))
    else FetchNow
  }

  /** The `values` map after the write-back closure of `Cache.set` has run
      with fetch outcome `fetch` at time `now`. */
  function Stored<V, E>(values: map<string, Entry<V>>, key: string, fetch: Result<V, E>,
                        now: int, freshFor: int, ttl: int): (m: map<string, Entry<V>>)
    // a failed fetch leaves every entry, including the one for `key`, alone
    ensures fetch.Err? ==> m == values
    // a successful one installs its value with both cutoffs measured from `now`
    ensures fetch.Ok? ==> Lookup(m, key) == Some(Entry(fetch.value, now + freshFor, now + ttl))
    ensures fetch.Ok? ==> m.Keys == values.Keys + {key}
    // and no other key sees any change
    ensures forall k :: k != key ==> Lookup(m, k) == Lookup(values, k)
  {
    match fetch
    case Err(_) => values
    case Ok(v) => values[key := Entry(v, now + freshFor, now + ttl)]
  }

  /** `Get` and `GetFresh` decide alike on every entry except a stale one. */
  lemma StrictnessMattersOnlyWhenStale<V>(e: Option<Entry<V>>, now: int)
    ensures PlanRead(e, false, now) != PlanRead(e, true, now) <==> Classify(e, now) == Stale
  {
  }

  /** A value just written back is served from the cache, in either mode and
      without a fetch, for the whole of its freshness window. */
  lemma WrittenValueIsServedWhileFresh<V, E>(values: map<string, Entry<V>>, key: string, v: V,
                                             written: int, freshFor: int, ttl: int,
                                             freshOnly: bool, now: int)
    requires written <= now < written + freshFor
    ensures PlanRead(Lookup(Stored<V, E>(values, key, Ok(v), written, freshFor, ttl), key), freshOnly, now) == Serve(v)
  {
  }

  /** The in-process cache: entries by key, and the two durations every
      entry gets when it is written. */
  class Cache<V> {
    var values: map<string, Entry<V>>
    const freshFor: int
    const ttl: int

    /** `NewCache`: an empty map and the given durations. */
    constructor (freshFor: int, ttl: int)
      ensures values == map[]
      ensures this.freshFor == freshFor && this.ttl == ttl
    {
      this.freshFor := freshFor;
      this.ttl := ttl;
      values := map[];
    }

    /** The closure built by `Cache.set`: run the fetch, and store its value
        only when it succeeded. The outcome is handed back unchanged (an error
        comes back as `(nil, err)`). */
    method WriteBack<E>(key: string, fetch: Result<V, E>, now: int) returns (r: Result<V, E>)
      modifies this
      ensures r == fetch
      ensures values == Stored(old(values), key, fetch, now, freshFor, ttl)
    {
      match fetch {
        case Err(err) =>
          r := Err(err);
        case Ok(v) =>
          values := values[key := Entry(v, now + freshFor, now + ttl)];
          r := Ok(v);
      }
    }

    /** `Cache.Set`: the write-back run through the single-flight group. With
        one caller at a time every caller leads its own flight, so the outcome
        is never one shared with other callers. */
    method Set<E>(key: string, fetch: Result<V, E>, now: int) returns (r: Result<V, E>, shared: bool)
      modifies this
      ensures r == fetch && !shared
      ensures values == Stored(old(values), key, fetch, now, freshFor, ttl)
    {
      r := WriteBack(key, fetch, now);
      shared := false;
    }

    /** `Cache.get`: look the key up, then serve, serve and ask for a
        background refresh, or fetch synchronously, as `PlanRead` says.
        `fetched` tells whether the fetch function ran during this call. */
    method Read<E>(key: string, freshOnly: bool, fetch: Result<V, E>, now: int)
      returns (r: Result<V, E>, refresh: bool, fetched: bool)
      modifies this
      ensures match PlanRead(Lookup(old(values), key), freshOnly, now)
        case Serve(v) => r == Ok(v) && !refresh && !fetched && values == old(values)
        case ServeAndRefresh(v) => r == Ok(v) && refresh && !fetched && values == old(values)
        case FetchNow => r == fetch && !refresh && fetched
                         && values == Stored(old(values), key, fetch, now, freshFor, ttl)
    {
      var val := Lookup(values, key);
      if IsFresh(val, now) {
        return Ok(Value(val.value)), false, false;
      }
      if !freshOnly && !IsExpired(val, now) {
        return Ok(Value(val.value)), true, false;
      }
      var shared;
      r, shared := Set(key, fetch, now);
      refresh, fetched := false, true;
    }

    /** `Cache.Get`: a read that accepts a stale entry. */
    method Get<E>(key: string, fetch: Result<V, E>, now: int) returns (r: Result<V, E>, refresh: bool, fetched: bool)
      modifies this
      ensures match PlanRead(Lookup(old(values), key), false, now)
        case Serve(v) => r == Ok(v) && !refresh && !fetched && values == old(values)
        case ServeAndRefresh(v) => r == Ok(v) && refresh && !fetched && values == old(values)
        case FetchNow => r == fetch && !refresh && fetched
                         && values == Stored(old(values), key, fetch, now, freshFor, ttl)
    {
      r, refresh, fetched := Read(key, false, fetch, now);
    }

    /** `Cache.GetFresh`: a read that insists on a fresh entry, so it never
        asks for a background refresh. */
    method GetFresh<E>(key: string, fetch: Result<V, E>, now: int) returns (r: Result<V, E>, refresh: bool, fetched: bool)
      modifies this
      ensures !refresh
      ensures match PlanRead(Lookup(old(values), key), true, now)
        case Serve(v) => r == Ok(v) && !fetched && values == old(values)
        case ServeAndRefresh(v) => false
        case FetchNow => r == fetch && fetched
                         && values == Stored(old(values), key, fetch, now, freshFor, ttl)
    {
      r, refresh, fetched := Read(key, true, fetch, now);
    }
  }

  /** A walk through the three states with `freshFor` = 50ms and `ttl` =
      200ms, times in nanoseconds: a write at 0; a fresh read at 30ms that
      runs no fetch; a
      lenient stale read at 100ms that asks for a refresh; that refresh
      landing at 100ms; a fresh read of the new value at 120ms, again with no
      fetch; a strict read
      at 260ms whose fetch fails, which leaves the stale value in place; and a
      read at 310ms, past the refreshed entry's expiry, that fetches again. */
  method ThreeStateWalk() returns (atThirty: Result<string, string>, fetchedAtThirty: bool,
                                   atHundred: Result<string, string>, refreshAsked: bool,
                                   atHundredTwenty: Result<string, string>, fetchedAtHundredTwenty: bool,
                                   failedStrict: Result<string, string>, staleAfterFailure: Result<string, string>,
                                   afterExpiry: Result<string, string>, fetchedAfterExpiry: bool)
    ensures atThirty == Ok("v1") && !fetchedAtThirty
    ensures atHundred == Ok("v1") && refreshAsked
    ensures atHundredTwenty == Ok("v2") && !fetchedAtHundredTwenty
    ensures failedStrict == Err("timeout")
    ensures staleAfterFailure == Ok("v2")
    ensures afterExpiry == Ok("v3") && fetchedAfterExpiry
  {
    var ms := 1_000_000;
    var c := new Cache<string>(50 * ms, 200 * ms);
    var shared, refresh, fetched;
    var r: Result<string, string>;
    r, shared := c.Set("k", Ok("v1"), 0);
    atThirty, refresh, fetchedAtThirty := c.Get("k", Ok("unused"), 30 * ms);
    atHundred, refreshAsked, fetched := c.Get("k", Ok("v2"), 100 * ms);
    r, shared := c.Set("k", Ok("v2"), 100 * ms);
    atHundredTwenty, refresh, fetchedAtHundredTwenty := c.Get("k", Ok("unused"), 120 * ms);
    failedStrict, refresh, fetched := c.GetFresh("k", Err("timeout"), 260 * ms);
    staleAfterFailure, refresh, fetched := c.Get("k", Ok("unused"), 260 * ms);
    afterExpiry, refresh, fetchedAfterExpiry := c.Get("k", Ok("v3"), 310 * ms);
  }
}
