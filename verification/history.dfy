/** What the cache's map goes through over a sequence of calls.

    Each call is `Get`, `GetFresh` or `Set` on one key, with the outcome its
    fetch function would produce and the clock reading at which it runs. A
    background refresh that a lenient read asks for shows up here as a later
    `Set` call on the same key, when it actually runs.
 */
module History {
  import opened Results
  import opened Entries
  import opened Stampede

  /** Which public entry point a call goes through. */
  datatype Mode = Lenient | Strict | Force   // Get, GetFresh, Set

  datatype Call<V, E> = Call(mode: Mode, key: string, fetch: Result<V, E>, now: int)

  /** Whether call `c` runs the write-back on map `values`: `Set` always does,
      a read only when `Cache.get` takes its synchronous branch. */
  predicate RunsWriteBack<V, E>(values: map<string, Entry<V>>, c: Call<V, E>)
  {
    c.mode == Force || PlanRead(Lookup(values, c.key), c.mode == Strict, c.now).FetchNow?
  }

  /** The map after one call; `ApplyCall` shows it is what the calls on
      `Cache` leave behind. */
  function Step<V, E>(values: map<string, Entry<V>>, freshFor: int, ttl: int, c: Call<V, E>): map<string, Entry<V>>
  {
    if RunsWriteBack(values, c) then Stored(values, c.key, c.fetch, c.now, freshFor, ttl) else values
  }

  /** The map after the calls in order. */
  function Replay<V, E>(values: map<string, Entry<V>>, freshFor: int, ttl: int, calls: seq<Call<V, E>>): map<string, Entry<V>>
    decreases |calls|
  {
    if calls == [] then values
    else Step(Replay(values, freshFor, ttl, calls[..|calls| - 1]), freshFor, ttl, calls[|calls| - 1])
  }

  /** Call `i` of `calls` stores a new entry for `k`: it is on `k`, its fetch
      succeeds, and it runs the write-back on the map the earlier calls left. */
  predicate WritesKey<V, E>(values: map<string, Entry<V>>, freshFor: int, ttl: int, calls: seq<Call<V, E>>, i: int, k: string)
    requires 0 <= i < |calls|
  {
    calls[i].key == k && calls[i].fetch.Ok? && RunsWriteBack(Replay(values, freshFor, ttl, calls[..i]), calls[i])
  }

  /** Runs one call on the cache object, through `Get`, `GetFresh` or `Set`. */
  method ApplyCall<V, E>(cache: Cache<V>, c: Call<V, E>) returns (r: Result<V, E>)
    modifies cache
    ensures cache.values == Step(old(cache.values), cache.freshFor, cache.ttl, c)
  {
    match c.mode {
      case Lenient =>
        var refresh, fetched;
        r, refresh, fetched := cache.Get(c.key, c.fetch, c.now);
      case Strict =>
        var refresh, fetched;
        r, refresh, fetched := cache.GetFresh(c.key, c.fetch, c.now);
      case Force =>
        var shared;
        r, shared := cache.Set(c.key, c.fetch, c.now);
    }
  }

  /** Fetches that fail never touch the map: after any sequence of calls
      whose fetches all fail, every entry is what it was. */
  lemma {:induction false} FailedFetchesChangeNothing<V, E>(values: map<string, Entry<V>>, freshFor: int, ttl: int, calls: seq<Call<V, E>>)
    requires forall i :: 0 <= i < |calls| ==> calls[i].fetch.Err?
    ensures Replay(values, freshFor, ttl, calls) == values
    decreases |calls|
  {
    if calls != [] {
      var pre := calls[..|calls| - 1];
      FailedFetchesChangeNothing(values, freshFor, ttl, pre);
      assert calls[|calls| - 1].fetch.Err?;
    }
  }

  /** Entries are only ever overwritten, never removed. */
  lemma {:induction false} EntriesAreNeverRemoved<V, E>(values: map<string, Entry<V>>, freshFor: int, ttl: int, calls: seq<Call<V, E>>)
    ensures values.Keys <= Replay(values, freshFor, ttl, calls).Keys
    decreases |calls|
  {
    if calls != [] {
      EntriesAreNeverRemoved(values, freshFor, ttl, calls[..|calls| - 1]);
    }
  }

  /** Calls on other keys never change the entry for `k`. */
  lemma {:induction false} OtherKeysAreUntouched<V, E>(values: map<string, Entry<V>>, freshFor: int, ttl: int, calls: seq<Call<V, E>>, k: string)
    requires forall i :: 0 <= i < |calls| ==> calls[i].key != k
    ensures Lookup(Replay(values, freshFor, ttl, calls), k) == Lookup(values, k)
    decreases |calls|
  {
    if calls != [] {
      var pre := calls[..|calls| - 1];
      forall i | 0 <= i < |pre| ensures pre[i].key != k {
        assert pre[i] == calls[i];
      }
      OtherKeysAreUntouched(values, freshFor, ttl, pre, k);
      assert calls[|calls| - 1].key != k;
    }
  }

  /** Whether call `i` writes `k` depends only on the calls up to `i`. */
  lemma WritesKeyOnPrefix<V, E>(values: map<string, Entry<V>>, freshFor: int, ttl: int, calls: seq<Call<V, E>>, n: nat, i: int, k: string)
    requires 0 <= i < n <= |calls|
    ensures WritesKey(values, freshFor, ttl, calls[..n], i, k) == WritesKey(values, freshFor, ttl, calls, i, k)
  {
    assert calls[..n][..i] == calls[..i];
  }

  /** No call of `calls` from index `lo` on writes `k`. */
  ghost predicate NoWriteFrom<V, E>(values: map<string, Entry<V>>, freshFor: int, ttl: int, calls: seq<Call<V, E>>, lo: int, k: string)
  {
    forall j :: 0 <= lo <= j < |calls| ==> !WritesKey(values, freshFor, ttl, calls, j, k)
  }

  /** The entry a successful call stores. */
  function WrittenBy<V, E>(c: Call<V, E>, freshFor: int, ttl: int): Option<Entry<V>>
    requires c.fetch.Ok?
  {
    Some(Entry(c.fetch.value, c.now + freshFor, c.now + ttl))
  }

  /** The last call either writes `k` or leaves its entry as it was. */
  lemma LastCallOnKey<V, E>(values: map<string, Entry<V>>, freshFor: int, ttl: int, calls: seq<Call<V, E>>, k: string)
    requires calls != []
    ensures var n := |calls| - 1;
            Lookup(Replay(values, freshFor, ttl, calls), k)
            == if WritesKey(values, freshFor, ttl, calls, n, k) then WrittenBy(calls[n], freshFor, ttl)
               else Lookup(Replay(values, freshFor, ttl, calls[..n]), k)
  {
  }

  /** A call that does not write `k` keeps "no write from `lo` on" true. */
  lemma NoWriteExtends<V, E>(values: map<string, Entry<V>>, freshFor: int, ttl: int, calls: seq<Call<V, E>>, lo: nat, k: string)
    requires calls != [] && lo <= |calls| - 1
    requires NoWriteFrom(values, freshFor, ttl, calls[..|calls| - 1], lo, k)
    requires !WritesKey(values, freshFor, ttl, calls, |calls| - 1, k)
    ensures NoWriteFrom(values, freshFor, ttl, calls, lo, k)
  {
    var n := |calls| - 1;
    forall j | lo <= j < |calls| ensures !WritesKey(values, freshFor, ttl, calls, j, k) {
      if j < n {
        WritesKeyOnPrefix(values, freshFor, ttl, calls, n, j, k);
      }
    }
  }

  /** The last write wins: after any sequence of calls, the entry for `k` is
      the one present at the start if no call wrote `k`, and otherwise the
      value of the last call that did, with both cutoffs stamped from that
      call's time. */
  lemma {:induction false} LastWriteWins<V, E>(values: map<string, Entry<V>>, freshFor: int, ttl: int, calls: seq<Call<V, E>>, k: string)
    ensures var e := Lookup(Replay(values, freshFor, ttl, calls), k);
            || (NoWriteFrom(values, freshFor, ttl, calls, 0, k) && e == Lookup(values, k))
            || exists i :: 0 <= i < |calls| && WritesKey(values, freshFor, ttl, calls, i, k)
                           && NoWriteFrom(values, freshFor, ttl, calls, i + 1, k)
                           && e == WrittenBy(calls[i], freshFor, ttl)
    decreases |calls|
  {
    if calls != [] {
      var n := |calls| - 1;
      var pre := calls[..n];
      var e := Lookup(Replay(values, freshFor, ttl, calls), k);
      LastCallOnKey(values, freshFor, ttl, calls, k);
      if WritesKey(values, freshFor, ttl, calls, n, k) {
        assert NoWriteFrom(values, freshFor, ttl, calls, n + 1, k);
      } else {
        LastWriteWins(values, freshFor, ttl, pre, k);
        if NoWriteFrom(values, freshFor, ttl, pre, 0, k) {
          NoWriteExtends(values, freshFor, ttl, calls, 0, k);
        } else {
          var i :| 0 <= i < n && WritesKey(values, freshFor, ttl, pre, i, k)
                   && NoWriteFrom(values, freshFor, ttl, pre, i + 1, k)
                   && Lookup(Replay(values, freshFor, ttl, pre), k) == WrittenBy(pre[i], freshFor, ttl);
          WritesKeyOnPrefix(values, freshFor, ttl, calls, n, i, k);
          NoWriteExtends(values, freshFor, ttl, calls, i + 1, k);
          assert pre[i] == calls[i];
        }
      }
    }
  }
}
