# stampede — a verified model of the cache core

The package keeps one entry per key: a value plus two cutoffs, `bestBefore`
(freshness) and `expiry` (time to live), both stamped when a fetch succeeds. A
read classifies the entry as fresh, stale-but-usable or expired and then either
serves the stored value, serves it while asking for a background refresh, or
runs the fetch synchronously and returns its outcome as it is. A failed fetch
never touches the map.

The model is in four modules:

- `Results` (results.dfy): `Option` for a nil-able `*value`, `Result` for the
  `(value, error)` pair a fetch function returns.
- `Entries` (entries.dfy): the entry datatype, `IsFresh`, `IsExpired`, `Value`,
  and `Classify`, which puts the first two together in the order `Cache.get`
  checks them.
- `Stampede` (stampede.dfy): `PlanRead`, the read-path decision as a function;
  `Stored`, the map after a write-back; and the class `Cache`, whose `values`
  map field is updated in place by `WriteBack` (the closure `Cache.set`
  builds) and read by `Read` (`Cache.get`), `Get`, `GetFresh` and `Set`.
- `History` (history.dfy): the map over any sequence of `Get`, `GetFresh` and
  `Set` calls (`ApplyCall` runs one such call on a `Cache` object and leaves
  the map `Step` gives), and what stays true along it.

Time is an integer number of nanoseconds, the unit of `time.Duration`. Each
operation takes one clock reading `now`; the fetch function becomes the
`Result` it returns; the `go c.Set(...)` of the stale path becomes the
`refresh` output of a read.

`IsFresh` and `IsExpired` are strict comparisons (`After` and `Before`): an
entry is expired only once `expiry` lies strictly before `now`, so at
`now == expiry` it is still stale-but-usable.
When `freshFor > ttl`, freshness is checked first, so the entry is fresh until
`bestBefore` and expired right after it, never stale
(`Entries.NoStaleWindowWhenFreshOutlivesExpiry`).

## Model

| member | source | states |
|---|---|---|
| `Entries.Classify` | stampede.go:91-103 | fresh exactly when `now < bestBefore`; stale exactly when `bestBefore <= now <= expiry`; expired exactly when the entry is missing or past both cutoffs, so a missing entry is never fresh and always expired |
| `Entries.ClassifyIsMonotone` | stampede.go:91-103 | as the clock advances an entry only moves forward through fresh, stale, expired |
| `Entries.NoStaleWindowWhenFreshOutlivesExpiry` | stampede.go:49-58 | with `bestBefore > expiry` the read path never sees a stale entry: fresh wins over expired |
| `Stampede.PlanRead` | stampede.go:44-63 | a fresh entry is served with no fetch in either mode; a stale entry is served with a refresh request only in lenient mode; a missing or expired entry, or a non-fresh one in strict mode, is fetched synchronously; whatever is served is the stored payload |
| `Stampede.Stored` | stampede.go:65-82 | a failed fetch leaves the whole map unchanged; a successful one installs the value with cutoffs `now+freshFor` and `now+ttl`, adds only that key, and leaves every other key's entry as it was |
| `Stampede.StrictnessMattersOnlyWhenStale` | stampede.go:32-38 | `Get` and `GetFresh` decide differently exactly on a stale entry |
| `Stampede.WrittenValueIsServedWhileFresh` | stampede.go:72-96 | a value written back at time `t` is served, with no fetch, at every time in `[t, t+freshFor)` |
| `Stampede.Cache.constructor` | stampede.go:14-20 | a new cache has an empty map and the given `freshFor` and `ttl` |
| `Stampede.Cache.WriteBack` | stampede.go:65-82 | returns the fetch outcome verbatim; on error the map is unchanged, on success only `values[key]` is replaced with the value and both cutoffs |
| `Stampede.Cache.Set` | stampede.go:40-42 | runs the write-back and returns its outcome, never marked as shared |
| `Stampede.Cache.Read` | stampede.go:44-63 | follows `PlanRead` on the entry it looks up: the served branches return the stored value and leave the map alone (the lenient stale one asking for one refresh); the synchronous branch runs the fetch, returns its outcome verbatim and leaves the map as the write-back does |
| `Stampede.Cache.Get` | stampede.go:32-34 | `Read` with strictness off: a fresh entry is returned with no fetch; a stale one is returned with one refresh request and the map untouched; a missing or expired one is fetched, its outcome returned verbatim and written back |
| `Stampede.Cache.GetFresh` | stampede.go:36-38 | `Read` with strictness on: a fresh entry is returned with no fetch; any other entry, or none, is fetched, its outcome returned verbatim and written back; it never asks for a background refresh |
| `Stampede.ThreeStateWalk` | stampede.go:14-82 | with `freshFor` = 50ms and `ttl` = 200ms: a fresh read serves the written value; a lenient stale read serves it and asks for a refresh; after the refresh the new value is served; a strict stale read returns its fetch's error and leaves the stale entry readable; a read past expiry returns a new fetch's value |
| `History.FailedFetchesChangeNothing` | stampede.go:66-70 | after any sequence of calls whose fetches all fail, the map is exactly what it was |
| `History.EntriesAreNeverRemoved` | stampede.go:72-78 | no sequence of calls removes a key from the map |
| `History.OtherKeysAreUntouched` | stampede.go:72-78 | calls on other keys never change a key's entry |
| `History.ApplyCall` | stampede.go:32-42 | running a `Get`, `GetFresh` or `Set` call on the cache leaves exactly the map `Step` describes, so the lemmas below speak of calls on `Cache` |
| `History.LastWriteWins` | stampede.go:65-82 | after any sequence of calls, the entry for a key is the starting one if no call wrote that key, and otherwise the value of the last call that did write it (a successful fetch whose call ran the write-back, not a read that only served), with cutoffs stamped from that call's time |

`IsFresh`, `IsExpired` and `Value` (stampede.go:91-107) and the map lookup
`Lookup` (stampede.go:45-47) are definitions, read directly: a missing entry is
never fresh and always expired; a present one is fresh when `now < bestBefore`
and expired when `expiry < now`, each on its own. `IsExpired` can hold of an
entry that is still fresh (when `bestBefore > expiry`); `Classify` combines the
two in `Cache.get`'s order, so such an entry counts as fresh; `Classify`'s
own contract gives the three resulting states in terms of the cutoffs.

## Left out

- The single-flight group (`github.com/goware/stampede/singleflight`, stampede.go:8, 29, 41): it is not part of this model. Its deduplication of concurrent fetches for one key is a concurrency property; the sequential model has one caller at a time.
- `Stampede.Cache.Set`: `shared` is always false, because with one caller at a time every caller leads its own flight; the value a follower would share is not modelled.
- The goroutine `go c.Set(ctx, key, fn)` (stampede.go:56): a lenient stale read only returns `refresh = true`; the refresh itself is a later `Set` call with its own fetch outcome and time, and its error is never seen by the reader.
- `sync.RWMutex` locking (stampede.go:28, 45-47, 72-78): only there for thread safety; map reads and writes are plain map operations here.
- `context.Context` cancellation and deadlines passed to the fetch function: foreign, concurrent concerns; a cancelled fetch is just an `Err` outcome.
- The wall clock: the source calls `time.Now()` separately in `IsFresh`, `IsExpired` and twice in `set`; the model uses one reading per operation, so a synchronous fetch takes no time and both cutoffs are stamped from the same instant.
- `time.Time` range limits: instants and durations are unbounded integers, so `now + ttl` never overflows.
- `interface{}` payloads and Go's `error`: the payload is a type parameter `V` and the error a type parameter `E`, both opaque to the cache.
