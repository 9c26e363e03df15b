# Connection pool and expiring query cache of the movie API

This project models the caching layer of the improved movie-search service in
`improved_architecture.py`, and proves properties of the model.

- `ConnectionPool` keeps a bounded LIFO stack of reusable database connections.
  It is filled with `pool_size` connections at construction.
  `get_connection` pops the most recently returned connection. When the stack
  is empty it opens a new "overflow" connection instead of blocking.
  `return_connection` pushes a connection back while fewer than `pool_size`
  are idle, and closes it otherwise.
- `ImprovedMovieDatabase` keeps two dictionaries: key to value, and key to the
  time the value was stored. The cache duration is 300 seconds.
  `_get_from_cache` expires entries lazily. `_set_cache` overwrites.
  `search_movies` and `get_movie_details` look their key up first. Only a
  truthy value counts as a hit. On a miss they take a connection, read from
  storage, store the result and give the connection back in `finally`.

Layout, one module per component:

- `wrappers.dfy` (`Wrappers`): `Option` and `Result`.
- `pool.dfy` (`Pool`): the pool state as a value, `Acquire` and `Release` as
  functions with their lemmas, and the class `ConnectionPool`. Its methods are
  proved to update the fields exactly as those functions say.
- `pool_ownership.dfy` (`PoolOwnership`): any sequence of checkouts and
  returns, starting from a fresh pool. Each connection is idle, checked out by
  one caller, or closed, and never two of these at once.
- `cache.dfy` (`Cache`): the two dictionaries as a value, with `Get` and `Put`.
- `cache_history.dfy` (`CacheHistory`): what a lookup serves after any history
  of lookups and stores.
- `keys.dfy` (`Keys`): the cache keys `search_<query>_<limit>` and
  `movie_<tconst>`. The proofs show each key names exactly one request, and
  that the two key families are disjoint.
- `movies.dfy` (`Movies`): rows, detail records, cached values, and Python
  truthiness of a cached value. The storage engine is the oracle `Store`.
- `service.dfy` (`Service`): the two query flows as functions of the pool and
  cache states, their lemmas, and the class `MovieDatabase`. Its methods are
  proved to follow those functions.

Modelling choices:

- Connections are natural numbers. A counter field, `nextId`, hands out fresh
  ones in place of `sqlite3.connect`. Closing a connection appends it to a log
  field, `closed`.
- Every `time.time()` call is an integer parameter. A query may read the
  clock at two points: in the lookup, when the key is present
  (`lookupTime`, :54-55), and at the store, when a value is stored
  (`storeTime`, :64). No store happens after a failed read or a not-found.
- A storage read is a total function that returns either rows or a `DbError`.
  A failing read therefore takes the `finally` path: the connection goes back
  and nothing is stored.
- Each method body that runs under `Lock` is one atomic step, and so is each
  of the two cache methods (see "## Left out").
- Not-found detail lookups are not cached: improved_architecture.py:113-114
  returns `None` before the store at :148. `NotFoundNotCached` proves that a
  second lookup goes back to storage.
- An empty search result is stored but never served, because `if
  cached_result:` treats the empty list as a miss (:69). The same check at :97
  applies to details. `EmptySearchNeverServed` states this.

## Model

| member | source | states |
|---|---|---|
| `Pool.InitFillsPool` | improved_architecture.py:23-27 | the initial pool holds exactly `pool_size` distinct connections, all freshly opened, and none is closed |
| `Pool.AcquireIdle` | improved_architecture.py:29-32 | on a non-empty stack the top connection is handed out and the rest of the stack is unchanged (LIFO); no connection is opened |
| `Pool.AcquireOverflow` | improved_architecture.py:33-37 | on an empty stack a never-used connection, the counter's next one, is opened and handed out; the stack stays empty |
| `Pool.ReleaseCases` | improved_architecture.py:39-44 | a return pushes exactly when fewer than `pool_size` are idle and closes otherwise; nothing else changes |
| `Pool.AcquirePreservesValid` | improved_architecture.py:29-37 | a checkout keeps the stack within capacity, duplicate-free and made of opened connections |
| `Pool.AcquiredIsNotIdle` | improved_architecture.py:29-37 | the connection handed out is no longer on the idle stack and was opened by the pool |
| `Pool.ReleasePreservesValid` | improved_architecture.py:39-44 | returning a checked-out connection keeps the stack within capacity (`len(connections) <= pool_size`) and duplicate-free |
| `Pool.ReleaseThenAcquire` | improved_architecture.py:29-44 | a return below capacity followed at once by a checkout yields the same connection and restores the earlier state |
| `Pool.AcquireThenRelease` | improved_architecture.py:29-44 | a checkout followed by returning that connection leaves the pool as it was; an overflow connection is kept when there is room and closed when capacity is zero |
| `Pool.ConnectionPool.constructor` | improved_architecture.py:16-21 | a new pool is in the initial state (`pool_size` connections opened and idle) |
| `Pool.ConnectionPool.Connect` | improved_architecture.py:35 | opening a connection yields the next never-used handle |
| `Pool.ConnectionPool.InitializePool` | improved_architecture.py:23-27 | the loop appends `pool_size` freshly opened connections, in order |
| `Pool.ConnectionPool.GetConnection` | improved_architecture.py:29-37 | the handle returned and the new fields are exactly those of `Acquire`; the pool invariant is kept |
| `Pool.ConnectionPool.ReturnConnection` | improved_architecture.py:39-44 | the new fields are exactly those of `Release` |
| `PoolOwnership.InitOwned` | improved_architecture.py:23-27 | after construction every connection is in exactly one place and was opened by the pool |
| `PoolOwnership.GetIdleKeepsOwned` | improved_architecture.py:31-32 | popping an idle connection moves it to the caller; every connection stays in exactly one place |
| `PoolOwnership.GetOverflowKeepsOwned` | improved_architecture.py:33-37 | an overflow connection is new, so it collides with no idle, checked-out or closed one |
| `PoolOwnership.GetKeepsOwned` | improved_architecture.py:29-37 | a checkout moves one connection from idle to the caller, or opens a new one; none is in two places |
| `PoolOwnership.PutKeepsOwned` | improved_architecture.py:39-44 | a return moves the caller's connection to idle or to closed; none is in two places |
| `PoolOwnership.StepKeepsOwned` | improved_architecture.py:29-44 | every caller action keeps each connection in exactly one place |
| `PoolOwnership.RunKeepsOwned` | improved_architecture.py:29-44 | any sequence of caller actions keeps each connection in exactly one place |
| `PoolOwnership.Conservation` | improved_architecture.py:15-44 | after any sequence of checkouts and returns: idle count at most `pool_size`, no connection checked out twice, a checked-out connection is neither idle nor closed, an idle one is never closed, and every connection the pool opened is idle, checked out or closed |
| `PoolOwnership.OverflowScenario` | improved_architecture.py:29-44 | pool of two, three checkouts: the third caller gets a freshly opened connection, and after all three returns exactly two are idle and one is closed. Returned in checkout order, the overflow connection comes back last and is closed; returned in reverse order, it is kept and the first one checked out is closed |
| `Cache.Get` | improved_architecture.py:53-60 | a value is served exactly when the key is present and `now - stored_at < cache_duration` (strict), and it is the stored one; a hit changes nothing; the dictionaries keep equal key sets |
| `Cache.GetEvictsOnlyStale` | improved_architecture.py:57-60 | a miss removes the key exactly when it was present, from both dictionaries, and leaves every other entry untouched |
| `Cache.PutOverwrites` | improved_architecture.py:62-64 | a store overwrites value and stamp, adds only its key and touches no other entry: no size bound, no other eviction |
| `Cache.PutThenGet` | improved_architecture.py:53-64 | with a positive duration, a lookup at the instant of a store serves the stored value |
| `Cache.PutThenGetExpired` | improved_architecture.py:53-64 | once `cache_duration` has elapsed, the lookup serves nothing and deletes the entry from both dictionaries |
| `CacheHistory.Apply` | improved_architecture.py:53-64 | each lookup or store keeps the two dictionaries' key sets equal |
| `CacheHistory.Replay` | improved_architecture.py:49-64 | from the empty cache, any history of lookups and stores keeps the key sets equal |
| `CacheHistory.ReplayInvariant` | improved_architecture.py:53-64 | with a clock that never runs backwards, a present entry is the last store under its key, and an absent stored key had already expired |
| `CacheHistory.ServesLastFreshStore` | improved_architecture.py:53-64 | after any such history a lookup serves a value exactly when the last store under the key is younger than the duration, and serves that store's value |
| `Keys.NatToStringShape` | improved_architecture.py:67 | the decimal rendering of the limit is non-empty and made of digits only |
| `Keys.NatToStringInjective` | improved_architecture.py:67 | different natural numbers render differently |
| `Keys.IntToStringShape` | improved_architecture.py:67 | `str(limit)` starts with `-` exactly for negative limits and contains no underscore |
| `Keys.IntToStringInjective` | improved_architecture.py:67 | different limits render differently |
| `Keys.SearchKeyInjective` | improved_architecture.py:67 | two searches share a cache key exactly when query text and limit are both equal |
| `Keys.MovieKeyInjective` | improved_architecture.py:95 | two detail lookups share a cache key exactly when the ids are equal |
| `Keys.KeyFamilies` | improved_architecture.py:66-95 | search keys and detail keys never coincide |
| `Service.SearchFlow` | improved_architecture.py:66-92 | the search keeps the dictionaries consistent, and search keys keep holding search rows |
| `Service.DetailsFlow` | improved_architecture.py:94-151 | the detail lookup keeps the dictionaries consistent, and detail keys keep holding records |
| `Service.SearchPaths` | improved_architecture.py:66-92 | a hit returns the cached rows and touches neither pool nor cache; a miss returns the connection exactly once (`finally`), which leaves the pool as it was when a connection was idle (on an empty stack the overflow connection is kept, or closed at capacity zero), returns what storage returned, and stores rows only when the read succeeded |
| `Service.DetailsPaths` | improved_architecture.py:94-151 | a hit returns the cached record without the pool; every miss exit (failure, not found, success) returns the connection exactly once, which restores the pool as for the search; the result is what the reads give, with the first failing read's error reaching the caller, and "not found" exactly when the movie row is missing; only a record is stored |
| `Service.DetailsFromStore` | improved_architecture.py:116-146 | a miss that reads a movie returns exactly its directors and its actors in order with their characters |
| `Service.EmptySearchNeverServed` | improved_architecture.py:67-92 | an empty result is stored, yet the same search at any later time misses and takes a connection again |
| `Service.SearchServedWhileFresh` | improved_architecture.py:66-92 | non-empty rows read on a miss are served by the same search while fresh, with pool and cache untouched |
| `Service.NotFoundNotCached` | improved_architecture.py:94-114 | after "not found" the key is absent from the cache, and the same lookup at any later time takes a connection and reads storage again |
| `Service.DetailsServedWhileFresh` | improved_architecture.py:94-151 | a record read on a miss is served by the same lookup while fresh, with pool and cache untouched |
| `Service.MovieDatabase.constructor` | improved_architecture.py:47-51 | a pool of 10 in its initial state and an empty cache |
| `Service.MovieDatabase.GetFromCache` | improved_architecture.py:53-60 | the value returned and the new dictionaries are exactly those of `Cache.Get` with a duration of 300 |
| `Service.MovieDatabase.SetCache` | improved_architecture.py:62-64 | the new dictionaries are exactly those of `Cache.Put` |
| `Service.MovieDatabase.SearchMovies` | improved_architecture.py:66-92 | the result, the new pool and the new dictionaries are exactly those of `SearchFlow`; the object invariant is kept |
| `Service.MovieDatabase.GetMovieDetails` | improved_architecture.py:94-151 | the result, the new pool and the new dictionaries are exactly those of `DetailsFlow`; the object invariant is kept |
| `Service.MovieDatabase.ReadDetails` | improved_architecture.py:100-149 | the reads of the `try` block, with the store done only when a record was built |

## Left out

- SQL text and its execution by sqlite (improved_architecture.py:74-85, 102-134) are an oracle. The model does not check `LIKE` matching, `ORDER BY num_votes DESC`, `LIMIT ?` or the actors' `LIMIT 5`. The directors' rows and the `dict(row)` conversion are taken as the oracle returns them.
- `threading.Lock` is concurrency machinery. Each locked pool block is one atomic step, and interleaved checkouts and returns are sequences of those steps (as in `PoolOwnership`).
- `_get_from_cache` and `_set_cache` (improved_architecture.py:53-64) take no lock, yet the model makes each of them one atomic step. So `Cache.Consistent` (equal key sets) is an invariant of sequential use only. Under concurrent requests a lookup can run between :63 and :64 of a store of a new key and raise `KeyError` at :55. Two lookups of the same stale key can both pass :55, and the second then raises `KeyError` at :58. The model does not capture these races.
- A failure to open a connection is not modelled: the counter always yields a fresh handle. `row_factory` and `check_same_thread` have no effect here.
- Time is an integer, not a float. The model does not assume the clock is monotonic. Only `CacheHistory.ServesLastFreshStore` and `CacheHistory.ReplayInvariant` assume that clock readings along the history never decrease.
- `ConnectionPool`'s `poolSize` is a natural number. Python accepts a negative `pool_size`, which behaves like 0: `range` is empty and `len(connections) < pool_size` never holds. So no behaviour is lost.
- The `db_path` argument is stored and not otherwise used, because every connection reaches the same storage.
- `search_movies`' default `limit=10` is not modelled: Dafny methods have no default arguments, so callers pass the limit.
- The FastAPI routes (improved_architecture.py:153-202) are HTTP wrappers with exception translation, and are not modelled.
- database.py, api.py and the analysis, load-test and report scripts are not part of this model.
- Python's dynamic typing of cached values is replaced by the invariant `Service.WellTyped`: search keys hold rows and detail keys hold records. `Keys.KeyFamilies` justifies it.
- Using a connection after it was closed or by two callers at once is not defended against in the code. `PoolOwnership` models callers that return only what they hold.
