/** `ImprovedMovieDatabase`: the search and detail queries composed from the
    expiring cache and the connection pool. Storage reads are the oracle
    `Store`; every clock reading is an integer parameter. */
module Service {
  import opened Wrappers
  import opened Pool
  import opened Cache
  import opened Keys
  import opened Movies

  /** `cache_duration`: five minutes, in seconds. */
  const CacheDuration: int := 300

  /** The pool size `ImprovedMovieDatabase` asks for (the default of
      `ConnectionPool`). */
  const DefaultPoolSize: nat := 10

  /** Search keys hold search rows and detail keys hold detail records. */
  ghost predicate WellTyped(c: CacheState<CachedValue>)
  {
    forall k :: k in c.values ==>
      && (IsSearchKey(k) ==> c.values[k].SearchRows?)
      && (IsMovieKey(k) ==> c.values[k].Record?)
  }

  /** What a query returns, and the pool and the cache after it. */
  datatype Outcome<T> = Outcome(result: Result<T, DbError>, pool: PoolState, cache: CacheState<CachedValue>)

  /** The lookup at the head of both queries counts as a hit only when it
      finds a fresh entry whose value is truthy. */
  predicate Hit(c: CacheState<CachedValue>, key: string, now: int)
    requires Consistent(c)
  {
    var found := Get(c, key, now, CacheDuration).0;
    found.Some? && Truthy(found.value)
  }

  lemma WellTypedAfterGet(c: CacheState<CachedValue>, key: string, now: int)
    requires Consistent(c) && WellTyped(c)
    ensures WellTyped(Get(c, key, now, CacheDuration).1)
  {
  }

  /** `search_movies`: look the key up; on a hit return the cached rows;
      on a miss take a connection, read, store the rows if the read
      succeeded, and give the connection back on every path. */
  function SearchFlow(p: PoolState, c: CacheState<CachedValue>, store: Store, query: string, limit: int,
                      lookupTime: int, storeTime: int): (o: Outcome<seq<MovieRow>>)
    requires Consistent(c) && WellTyped(c)
    ensures Consistent(o.cache) && WellTyped(o.cache)
  {
    var key := SearchKey(query, limit);
    KeyFamilies(query, limit, "");
    WellTypedAfterGet(c, key, lookupTime);
    var (found, c1) := Get(c, key, lookupTime, CacheDuration);
    if found.Some? && Truthy(found.value) then
      Outcome(Ok(found.value.rows), p, c1)
    else
      var (p1, conn) := Acquire(p);
      var rows := store.search(query, limit);
      var c2 := if rows.Ok? then Put(c1, key, SearchRows(rows.value), storeTime) else c1;
      Outcome(rows, Release(p1, conn), c2)
  }

  /** The reads of `get_movie_details` on its connection: the movie row,
      an early "not found" when there is none, then the directors and the
      actors, assembled into a record. The first failing read ends it. */
  function ReadDetailsFrom(store: Store, tconst: string): Result<Option<MovieDetails>, DbError>
  {
    match store.movie(tconst)
    case Err(e) => Err(e)
    case Ok(None) => Ok(None)
    case Ok(Some(m)) =>
      match store.directors(tconst)
      case Err(e) => Err(e)
      case Ok(ds) =>
        match store.actors(tconst)
        case Err(e) => Err(e)
        case Ok(actors) => Ok(Some(Assemble(m, ds, actors)))
  }

  /** `get_movie_details`: like the search, except that only a record is
      stored; a movie that does not exist ends the miss path before the
      store. */
  function DetailsFlow(p: PoolState, c: CacheState<CachedValue>, store: Store, tconst: string,
                       lookupTime: int, storeTime: int): (o: Outcome<Option<MovieDetails>>)
    requires Consistent(c) && WellTyped(c)
    ensures Consistent(o.cache) && WellTyped(o.cache)
  {
    var key := MovieKey(tconst);
    KeyFamilies("", 0, tconst);
    WellTypedAfterGet(c, key, lookupTime);
    var (found, c1) := Get(c, key, lookupTime, CacheDuration);
    if found.Some? && Truthy(found.value) then
      Outcome(Ok(Some(found.value.details)), p, c1)
    else
      var (p1, conn) := Acquire(p);
      var r := ReadDetailsFrom(store, tconst);
      var c2 := if r.Ok? && r.value.Some? then Put(c1, key, Record(r.value.value), storeTime) else c1;
      Outcome(r, Release(p1, conn), c2)
  }

  /** A search hit returns the cached rows and touches neither the pool nor
      the cache; a miss hands its connection back exactly once, whether the
      read succeeded or failed, which leaves the pool as it was whenever a
      handle was idle, stores the rows only when it succeeded, and
      always returns what the read returned. */
  lemma SearchPaths(p: PoolState, c: CacheState<CachedValue>, store: Store, query: string, limit: int,
                    lookupTime: int, storeTime: int)
    requires Consistent(c) && WellTyped(c)
    ensures var key := SearchKey(query, limit);
      var o := SearchFlow(p, c, store, query, limit, lookupTime, storeTime);
      var c1 := Get(c, key, lookupTime, CacheDuration).1;
      && (Hit(c, key, lookupTime) ==>
            && o.result == Ok(c.values[key].rows)
            && o.pool == p && o.cache == c)
      && (!Hit(c, key, lookupTime) ==>
            && o.pool == Release(Acquire(p).0, Acquire(p).1)
            && (Valid(p) ==> Restored(p, o.pool))
            && o.result == store.search(query, limit)
            && (o.result.Ok? ==> o.cache == Put(c1, key, SearchRows(o.result.value), storeTime))
            && (o.result.Err? ==> o.cache == c1))
  {
    if Valid(p) {
      AcquireThenRelease(p);
    }
  }

  /** A detail hit returns the cached record without touching the pool; a
      miss hands its connection back exactly once on each of its exits (read
      failure, movie not found, success), which restores the pool, returns what the reads gave (the
      first failing read's error reaches the caller), and stores a record
      only on success. A movie that does not exist is not stored. */
  lemma DetailsPaths(p: PoolState, c: CacheState<CachedValue>, store: Store, tconst: string,
                     lookupTime: int, storeTime: int)
    requires Consistent(c) && WellTyped(c)
    ensures var key := MovieKey(tconst);
      var o := DetailsFlow(p, c, store, tconst, lookupTime, storeTime);
      var c1 := Get(c, key, lookupTime, CacheDuration).1;
      && (Hit(c, key, lookupTime) ==>
            && o.result == Ok(Some(c.values[key].details))
            && o.pool == p && o.cache == c)
      && (!Hit(c, key, lookupTime) ==>
            && o.pool == Release(Acquire(p).0, Acquire(p).1)
            && (Valid(p) ==> Restored(p, o.pool))
            && o.result == ReadDetailsFrom(store, tconst)
            && (o.result == Ok(None) <==> store.movie(tconst) == Ok(None))
            && (store.movie(tconst).Err? ==> o.result == Err(store.movie(tconst).error))
            && (store.movie(tconst).Ok? && store.movie(tconst).value.Some? ==>
                  && (store.directors(tconst).Err? ==> o.result == Err(store.directors(tconst).error))
                  && (store.directors(tconst).Ok? && store.actors(tconst).Err? ==>
                        o.result == Err(store.actors(tconst).error)))
            && (o.result.Ok? && o.result.value.Some? ==>
                  o.cache == Put(c1, key, Record(o.result.value.value), storeTime))
            && (!(o.result.Ok? && o.result.value.Some?) ==> o.cache == c1))
  {
    if Valid(p) {
      AcquireThenRelease(p);
    }
  }

  /** A detail lookup that succeeds from storage carries exactly the movie's
      directors and its actor rows, in order, with their characters. */
  lemma DetailsFromStore(p: PoolState, c: CacheState<CachedValue>, store: Store, tconst: string,
                         lookupTime: int, storeTime: int)
    requires Consistent(c) && WellTyped(c)
    requires !Hit(c, MovieKey(tconst), lookupTime)
    requires store.movie(tconst).Ok? && store.movie(tconst).value.Some?
    requires store.directors(tconst).Ok? && store.actors(tconst).Ok?
    ensures var o := DetailsFlow(p, c, store, tconst, lookupTime, storeTime);
      var actors := store.actors(tconst).value;
      && o.result.Ok? && o.result.value.Some?
      && o.result.value.value.tconst == store.movie(tconst).value.value.tconst
      && o.result.value.value.directors == store.directors(tconst).value
      && |o.result.value.value.actors| == |actors|
      && (forall i :: 0 <= i < |actors| ==>
            o.result.value.value.actors[i] == Actor(actors[i].primaryName, actors[i].characters))
  {
  }

  /** An empty search result is stored but, being falsy, is never served:
      the same search afterwards, at any time, misses again and goes back to
      storage. */
  lemma EmptySearchNeverServed(p: PoolState, c: CacheState<CachedValue>, store: Store, query: string,
                               limit: int, lookupTime: int, storeTime: int, later: int)
    requires Consistent(c) && WellTyped(c)
    requires SearchFlow(p, c, store, query, limit, lookupTime, storeTime).result == Ok([])
    ensures var o := SearchFlow(p, c, store, query, limit, lookupTime, storeTime);
      var key := SearchKey(query, limit);
      && key in o.cache.values && o.cache.values[key] == SearchRows([])
      && !Hit(o.cache, key, later)
      && SearchFlow(o.pool, o.cache, store, query, limit, later, later).pool
           == Release(Acquire(o.pool).0, Acquire(o.pool).1)
  {
    var o := SearchFlow(p, c, store, query, limit, lookupTime, storeTime);
    var key := SearchKey(query, limit);
    SearchPaths(p, c, store, query, limit, lookupTime, storeTime);
    SearchPaths(o.pool, o.cache, store, query, limit, later, later);
    // A hit would have returned a non-empty list.
    assert !Hit(c, key, lookupTime);
  }

  /** A non-empty search result read from storage is served by the same
      search while it is fresh, from the cache and without a connection. */
  lemma SearchServedWhileFresh(p: PoolState, c: CacheState<CachedValue>, store: Store, query: string,
                               limit: int, lookupTime: int, storeTime: int, later: int)
    requires Consistent(c) && WellTyped(c)
    requires !Hit(c, SearchKey(query, limit), lookupTime)
    requires store.search(query, limit).Ok? && |store.search(query, limit).value| > 0
    requires later - storeTime < CacheDuration
    ensures var o := SearchFlow(p, c, store, query, limit, lookupTime, storeTime);
      var o2 := SearchFlow(o.pool, o.cache, store, query, limit, later, later);
      && o2.result == store.search(query, limit)
      && o2.pool == o.pool && o2.cache == o.cache
  {
    var o := SearchFlow(p, c, store, query, limit, lookupTime, storeTime);
    SearchPaths(p, c, store, query, limit, lookupTime, storeTime);
    SearchPaths(o.pool, o.cache, store, query, limit, later, later);
  }

  /** A movie that was not found is not remembered: the entry for its key
      is absent afterwards, and the same lookup at any later time misses and
      reads storage again (on a fresh connection that it returns). */
  lemma NotFoundNotCached(p: PoolState, c: CacheState<CachedValue>, store: Store, tconst: string,
                          lookupTime: int, storeTime: int, later: int)
    requires Consistent(c) && WellTyped(c)
    requires DetailsFlow(p, c, store, tconst, lookupTime, storeTime).result == Ok(None)
    ensures var o := DetailsFlow(p, c, store, tconst, lookupTime, storeTime);
      && MovieKey(tconst) !in o.cache.values
      && !Hit(o.cache, MovieKey(tconst), later)
      && DetailsFlow(o.pool, o.cache, store, tconst, later, later).pool
           == Release(Acquire(o.pool).0, Acquire(o.pool).1)
      && DetailsFlow(o.pool, o.cache, store, tconst, later, later).result == Ok(None)
  {
    var o := DetailsFlow(p, c, store, tconst, lookupTime, storeTime);
    var key := MovieKey(tconst);
    DetailsPaths(p, c, store, tconst, lookupTime, storeTime);
    DetailsPaths(o.pool, o.cache, store, tconst, later, later);
    // Every detail record is truthy, so a fresh entry would have been a hit.
    assert !Hit(c, key, lookupTime);
  }

  /** A record read from storage is served by the same lookup while fresh,
      from the cache and without a connection. */
  lemma DetailsServedWhileFresh(p: PoolState, c: CacheState<CachedValue>, store: Store, tconst: string,
                                lookupTime: int, storeTime: int, later: int)
    requires Consistent(c) && WellTyped(c)
    requires DetailsFlow(p, c, store, tconst, lookupTime, storeTime).result.Ok?
    requires DetailsFlow(p, c, store, tconst, lookupTime, storeTime).result.value.Some?
    requires !Hit(c, MovieKey(tconst), lookupTime)
    requires later - storeTime < CacheDuration
    ensures var o := DetailsFlow(p, c, store, tconst, lookupTime, storeTime);
      var o2 := DetailsFlow(o.pool, o.cache, store, tconst, later, later);
      && o2.result == o.result
      && o2.pool == o.pool && o2.cache == o.cache
  {
    var o := DetailsFlow(p, c, store, tconst, lookupTime, storeTime);
    DetailsPaths(p, c, store, tconst, lookupTime, storeTime);
    DetailsPaths(o.pool, o.cache, store, tconst, later, later);
  }

  /** The database object: its pool, and the two cache dictionaries as map
      fields. */
  class MovieDatabase {
    const pool: ConnectionPool
    var cache: map<string, CachedValue>
    var cacheTtl: map<string, int>

    /** The two dictionaries as one cache value. */
    function Entries(): CacheState<CachedValue>
      reads this
    {
      CacheState(cache, cacheTtl)
    }

    ghost predicate Valid()
      reads this, pool
    {
      pool.IsValid() && Consistent(Entries()) && WellTyped(Entries())
    }

    constructor (dbPath: string)
      ensures Valid() && fresh(pool)
      ensures pool.State() == Init(DefaultPoolSize) && pool.dbPath == dbPath
      ensures Entries() == Empty()
    {
      pool := new ConnectionPool(dbPath, DefaultPoolSize);
      cache := map[];
      cacheTtl := map[];
    }

    /** `_get_from_cache`. */
    method GetFromCache(key: string, now: int) returns (r: Option<CachedValue>)
      requires Consistent(Entries())
      modifies this`cache, this`cacheTtl
      ensures (r, Entries()) == Get(old(Entries()), key, now, CacheDuration)
    {
      if key in cache {
        if now - cacheTtl[key] < CacheDuration {
          return Some(cache[key]);
        } else {
          cache := cache - {key};
          cacheTtl := cacheTtl - {key};
        }
      }
      return None;
    }

    /** `_set_cache`. */
    method SetCache(key: string, value: CachedValue, now: int)
      modifies this`cache, this`cacheTtl
      ensures Entries() == Put(old(Entries()), key, value, now)
    {
      cache := cache[key := value];
      cacheTtl := cacheTtl[key := now];
    }

    /** `search_movies`, with the two clock readings it makes. */
    method SearchMovies(query: string, limit: int, store: Store, lookupTime: int, storeTime: int)
      returns (r: Result<seq<MovieRow>, DbError>)
      requires Valid()
      modifies this`cache, this`cacheTtl, pool
      ensures Valid()
      ensures Outcome(r, pool.State(), Entries())
        == SearchFlow(old(pool.State()), old(Entries()), store, query, limit, lookupTime, storeTime)
    {
      var key := SearchKey(query, limit);
      KeyFamilies(query, limit, "");
      WellTypedAfterGet(Entries(), key, lookupTime);
      var cached := GetFromCache(key, lookupTime);
      if cached.Some? && Truthy(cached.value) {
        return Ok(cached.value.rows);
      }
      AcquiredIsNotIdle(pool.State());
      AcquirePreservesValid(pool.State());
      var conn := pool.GetConnection();
      var rows := store.search(query, limit);
      if rows.Ok? {
        SetCache(key, SearchRows(rows.value), storeTime);
      }
      ReleasePreservesValid(pool.State(), conn);
      pool.ReturnConnection(conn);
      r := rows;
    }

    /** `get_movie_details`, with the two clock readings it makes. */
    method GetMovieDetails(tconst: string, store: Store, lookupTime: int, storeTime: int)
      returns (r: Result<Option<MovieDetails>, DbError>)
      requires Valid()
      modifies this`cache, this`cacheTtl, pool
      ensures Valid()
      ensures Outcome(r, pool.State(), Entries())
        == DetailsFlow(old(pool.State()), old(Entries()), store, tconst, lookupTime, storeTime)
    {
      var key := MovieKey(tconst);
      KeyFamilies("", 0, tconst);
      WellTypedAfterGet(Entries(), key, lookupTime);
      var cached := GetFromCache(key, lookupTime);
      if cached.Some? && Truthy(cached.value) {
        return Ok(Some(cached.value.details));
      }
      AcquiredIsNotIdle(pool.State());
      AcquirePreservesValid(pool.State());
      var conn := pool.GetConnection();
      r := ReadDetails(tconst, store, storeTime);
      ReleasePreservesValid(pool.State(), conn);
      pool.ReturnConnection(conn);
    }

    /** The body of the `try` block of `get_movie_details`: the three reads,
        the early return when the movie does not exist, and the store. */
    method ReadDetails(tconst: string, store: Store, storeTime: int)
      returns (r: Result<Option<MovieDetails>, DbError>)
      requires Consistent(Entries()) && WellTyped(Entries())
      modifies this`cache, this`cacheTtl
      ensures Consistent(Entries()) && WellTyped(Entries())
      ensures r.Ok? && r.value.Some? ==> Entries() == Put(old(Entries()), MovieKey(tconst), Record(r.value.value), storeTime)
      ensures !(r.Ok? && r.value.Some?) ==> Entries() == old(Entries())
      ensures r == ReadDetailsFrom(store, tconst)
    {
      var movie := store.movie(tconst);
      if movie.Err? {
        return Err(movie.error);
      }
      if movie.value.None? {
        return Ok(None);
      }
      var directors := store.directors(tconst);
      if directors.Err? {
        return Err(directors.error);
      }
      var actors := store.actors(tconst);
      if actors.Err? {
        return Err(actors.error);
      }
      var result := Assemble(movie.value.value, directors.value, actors.value);
      KeyFamilies("", 0, tconst);
      SetCache(MovieKey(tconst), Record(result), storeTime);
      r := Ok(Some(result));
    }
  }
}
