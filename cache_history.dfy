/** What the cache serves after any history of lookups and stores made with
    a clock that does not run backwards: exactly the last value stored under
    the key, and only while that store is younger than the lifetime. */
module CacheHistory {
  import opened Wrappers
  import opened Cache

  /** A call on the cache and the clock reading it makes. */
  datatype CacheOp<V> = Lookup(key: string, at: int) | Store(key: string, value: V, at: int)

  function Apply<V>(c: CacheState<V>, op: CacheOp<V>, duration: int): (c': CacheState<V>)
    requires Consistent(c)
    ensures Consistent(c')
  {
    match op
    case Lookup(k, t) => Get(c, k, t, duration).1
    case Store(k, v, t) => Put(c, k, v, t)
  }

  /** The cache after running `ops` from empty. */
  function Replay<V>(ops: seq<CacheOp<V>>, duration: int): (c: CacheState<V>)
    ensures Consistent(c)
    decreases |ops|
  {
    if ops == [] then Empty() else Apply(Replay(ops[..|ops| - 1], duration), ops[|ops| - 1], duration)
  }

  /** The value and time of the last store under `key`, if any. */
  function LastStore<V>(ops: seq<CacheOp<V>>, key: string): Option<(V, int)>
    decreases |ops|
  {
    if ops == [] then None
    else
      match ops[|ops| - 1]
      case Store(k, v, t) => if k == key then Some((v, t)) else LastStore(ops[..|ops| - 1], key)
      case Lookup(_, _) => LastStore(ops[..|ops| - 1], key)
  }

  /** Clock readings never decrease along the history. */
  predicate Monotone<V>(ops: seq<CacheOp<V>>)
  {
    forall i, j :: 0 <= i < j < |ops| ==> ops[i].at <= ops[j].at
  }

  /** The history invariant: a present entry is the last store under its
      key, and a key that was stored but is absent was found stale by a
      lookup, so it was already `duration` old at the latest clock reading. */
  lemma {:induction false} ReplayInvariant<V>(ops: seq<CacheOp<V>>, duration: int)
    requires Monotone(ops)
    ensures var c := Replay(ops, duration);
      forall k ::
        && (k in c.values ==> LastStore(ops, k) == Some((c.values[k], c.stamps[k])))
        && (k !in c.values && LastStore(ops, k).Some? ==> ops[|ops| - 1].at - LastStore(ops, k).value.1 >= duration)
    decreases |ops|
  {
    if ops != [] {
      var pre := ops[..|ops| - 1];
      var op := ops[|ops| - 1];
      assert Monotone(pre) by {
        forall i, j | 0 <= i < j < |pre| ensures pre[i].at <= pre[j].at {
          assert pre[i] == ops[i] && pre[j] == ops[j];
        }
      }
      ReplayInvariant(pre, duration);
      var c0 := Replay(pre, duration);
      var c := Replay(ops, duration);
      assert c == Apply(c0, op, duration);
      assert pre != [] ==> pre[|pre| - 1].at <= op.at by {
        if pre != [] {
          assert pre[|pre| - 1] == ops[|ops| - 2];
        }
      }
      forall k
        ensures k in c.values ==> LastStore(ops, k) == Some((c.values[k], c.stamps[k]))
        ensures k !in c.values && LastStore(ops, k).Some? ==> op.at - LastStore(ops, k).value.1 >= duration
      {
        match op
        case Store(k0, v, t) =>
          if k != k0 {
            assert LastStore(ops, k) == LastStore(pre, k);
          }
        case Lookup(k0, t) =>
          assert LastStore(ops, k) == LastStore(pre, k);
      }
    }
  }

  /** For a history whose clock never runs backwards, a lookup at `now` (no
      earlier than any reading in the history) serves a value exactly when
      the last store under the key is younger than the lifetime, and then it
      serves that store's value. */
  lemma ServesLastFreshStore<V>(ops: seq<CacheOp<V>>, key: string, now: int, duration: int)
    requires Monotone(ops)
    requires forall i :: 0 <= i < |ops| ==> ops[i].at <= now
    ensures var found := Get(Replay(ops, duration), key, now, duration).0;
      var last := LastStore(ops, key);
      && (found.Some? <==> last.Some? && Fresh(last.value.1, now, duration))
      && (found.Some? ==> found.value == last.value.0)
  {
    ReplayInvariant(ops, duration);
    var c := Replay(ops, duration);
    if key !in c.values && LastStore(ops, key).Some? {
      assert ops[|ops| - 1].at <= now;
    }
  }
}
