/** The time-to-live cache of `ImprovedMovieDatabase`: two dictionaries, one
    from key to value and one from key to the time the value was stored,
    with lazy expiry on lookup. Times are integers standing for the wall
    clock. */
module Cache {
  import opened Wrappers

  /** `_cache` and `_cache_ttl`. */
  datatype CacheState<V> = CacheState(values: map<string, V>, stamps: map<string, int>)

  function Empty<V>(): CacheState<V>
  {
    CacheState(map[], map[])
  }

  /** The two dictionaries have the same keys. Every operation of this
      model keeps this, each operation being one atomic step. */
  predicate Consistent<V>(c: CacheState<V>)
  {
    c.values.Keys == c.stamps.Keys
  }

  /** An entry stored at `stamp` is still served at `now`: the comparison
      is strict, so an entry exactly `duration` old has expired. */
  predicate Fresh(stamp: int, now: int, duration: int)
  {
    now - stamp < duration
  }

  /** `_get_from_cache`: the stored value when the key is present and fresh;
      otherwise nothing, and a present but stale entry is deleted from both
      dictionaries. Returns what was found and the cache afterwards. */
  function Get<V>(c: CacheState<V>, key: string, now: int, duration: int): (r: (Option<V>, CacheState<V>))
    requires Consistent(c)
    ensures r.0.Some? <==> key in c.values && Fresh(c.stamps[key], now, duration)
    ensures r.0.Some? ==> r.0.value == c.values[key] && r.1 == c
    ensures Consistent(r.1)
  {
    if key in c.values then
      if now - c.stamps[key] < duration then
        (Some(c.values[key]), c)
      else
        (None, CacheState(c.values - {key}, c.stamps - {key}))
    else
      (None, c)
  }

  /** `_set_cache`: store `value` under `key`, stamped `now`, whatever was
      there before. */
  function Put<V>(c: CacheState<V>, key: string, value: V, now: int): CacheState<V>
  {
    CacheState(c.values[key := value], c.stamps[key := now])
  }

  /** A lookup that misses deletes the key exactly when it was present, and
      leaves every other entry, value and stamp alike, as it was. */
  lemma GetEvictsOnlyStale<V>(c: CacheState<V>, key: string, now: int, duration: int)
    requires Consistent(c)
    ensures var (found, c') := Get(c, key, now, duration);
      && (found.None? ==> c'.values.Keys == c.values.Keys - {key})
      && (forall k :: k != key && k in c.values ==> k in c'.values && c'.values[k] == c.values[k] && c'.stamps[k] == c.stamps[k])
      && c'.values.Keys <= c.values.Keys
  {
  }

  /** Storing keeps the two dictionaries in step, adds `key` to the keys and
      nothing else, and leaves every other entry alone: there is no size
      bound and no eviction besides expiry. */
  lemma PutOverwrites<V>(c: CacheState<V>, key: string, value: V, now: int)
    requires Consistent(c)
    ensures var c' := Put(c, key, value, now);
      && Consistent(c')
      && c'.values.Keys == c.values.Keys + {key}
      && c'.values[key] == value && c'.stamps[key] == now
      && (forall k :: k != key && k in c.values ==> c'.values[k] == c.values[k] && c'.stamps[k] == c.stamps[k])
  {
  }

  /** With a positive lifetime, a lookup at the instant of a store serves the
      stored value and changes nothing. */
  lemma PutThenGet<V>(c: CacheState<V>, key: string, value: V, now: int, duration: int)
    requires Consistent(c) && duration > 0
    ensures Consistent(Put(c, key, value, now))
    ensures Get(Put(c, key, value, now), key, now, duration) == (Some(value), Put(c, key, value, now))
  {
  }

  /** Once the lifetime has elapsed, the lookup serves nothing and the entry
      is gone from both dictionaries. */
  lemma PutThenGetExpired<V>(c: CacheState<V>, key: string, value: V, now: int, later: int, duration: int)
    requires Consistent(c) && later - now >= duration
    ensures Consistent(Put(c, key, value, now))
    ensures var (found, c') := Get(Put(c, key, value, now), key, later, duration);
      found == None && key !in c'.values && key !in c'.stamps
  {
  }
}
