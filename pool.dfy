/** The bounded LIFO pool of reusable database connections
    (`ConnectionPool` in improved_architecture.py). */
module Pool {

  /** A connection handle. Handles are opaque; a counter hands out fresh ones
      in place of opening a new storage session. */
  type Conn = nat

  /** The observable state of a pool: its capacity, the idle handles (the
      last one is the top of the stack), the next fresh handle and the log of
      handles closed so far. */
  datatype PoolState = PoolState(poolSize: nat, idle: seq<Conn>, nextId: nat, closed: seq<Conn>)

  /** The handles `lo`, `lo + 1`, ..., `hi - 1`, in that order. */
  function Ids(lo: nat, hi: nat): (r: seq<Conn>)
    requires lo <= hi
    ensures |r| == hi - lo
    ensures forall i :: 0 <= i < |r| ==> r[i] == lo + i
  {
    seq(hi - lo, i requires 0 <= i < hi - lo => lo + i)
  }

  /** No handle occurs twice in `s`. */
  predicate NoDup(s: seq<Conn>)
  {
    forall i, j :: 0 <= i < j < |s| ==> s[i] != s[j]
  }

  /** The invariant every pool operation keeps: at most `poolSize` idle
      handles, no idle handle twice, every idle handle already handed out by
      the counter. */
  predicate Valid(s: PoolState)
  {
    && |s.idle| <= s.poolSize
    && NoDup(s.idle)
    && forall c :: c in s.idle ==> c < s.nextId
  }

  /** The state right after construction: `poolSize` connections opened one
      after another and pushed onto the idle stack. */
  function Init(poolSize: nat): PoolState
  {
    PoolState(poolSize, Ids(0, poolSize), poolSize, [])
  }

  /** `get_connection`: pop the most recently returned handle, or open a new
      (overflow) one when the idle stack is empty. Returns the new state and
      the handle. */
  function Acquire(s: PoolState): (PoolState, Conn)
  {
    if |s.idle| > 0 then
      (s.(idle := s.idle[..|s.idle| - 1]), s.idle[|s.idle| - 1])
    else
      (s.(nextId := s.nextId + 1), s.nextId)
  }

  /** `return_connection`: push the handle back while fewer than `poolSize`
      are idle, close it otherwise. */
  function Release(s: PoolState, c: Conn): PoolState
  {
    if |s.idle| < s.poolSize then
      s.(idle := s.idle + [c])
    else
      s.(closed := s.closed + [c])
  }

  /** Initialisation opens exactly `poolSize` distinct fresh connections and
      closes none. */
  lemma InitFillsPool(poolSize: nat)
    ensures Valid(Init(poolSize))
    ensures |Init(poolSize).idle| == poolSize
    ensures Init(poolSize).closed == []
  {
  }

  /** On a non-empty stack `Acquire` hands out the top handle and keeps the
      rest of the stack as it was (LIFO); the counter is not touched. */
  lemma AcquireIdle(s: PoolState)
    requires |s.idle| > 0
    ensures Acquire(s).1 == s.idle[|s.idle| - 1]
    ensures Acquire(s).0.idle + [Acquire(s).1] == s.idle
    ensures Acquire(s).0.nextId == s.nextId && Acquire(s).0.closed == s.closed
    ensures Acquire(s).0.poolSize == s.poolSize
  {
  }

  /** On an empty stack `Acquire` opens a handle never handed out before and
      the stack stays empty. */
  lemma AcquireOverflow(s: PoolState)
    requires |s.idle| == 0
    ensures Acquire(s).1 == s.nextId
    ensures Acquire(s).0.idle == [] && Acquire(s).0.closed == s.closed
    ensures Acquire(s).0.nextId == s.nextId + 1
  {
  }

  /** `Release` pushes exactly when the stack is below capacity and closes
      otherwise; in both cases nothing else changes. */
  lemma ReleaseCases(s: PoolState, c: Conn)
    ensures |s.idle| < s.poolSize ==> Release(s, c) == s.(idle := s.idle + [c])
    ensures |s.idle| >= s.poolSize ==> Release(s, c) == s.(closed := s.closed + [c])
    ensures Release(s, c).nextId == s.nextId && Release(s, c).poolSize == s.poolSize
  {
  }

  /** A checkout keeps the idle stack within capacity, free of duplicates
      and made of handed-out handles. */
  lemma AcquirePreservesValid(s: PoolState)
    requires Valid(s)
    ensures Valid(Acquire(s).0)
  {
    if |s.idle| > 0 {
      var rest := s.idle[..|s.idle| - 1];
      forall c | c in rest ensures c < s.nextId {
        var k :| 0 <= k < |rest| && rest[k] == c;
        assert s.idle[k] == c && s.idle[k] in s.idle;
      }
    }
  }

  /** The handle `Acquire` gives out is not left on the idle stack and was
      handed out by the counter, so returning it keeps the pool valid. */
  lemma AcquiredIsNotIdle(s: PoolState)
    requires Valid(s)
    ensures Acquire(s).1 !in Acquire(s).0.idle && Acquire(s).1 < Acquire(s).0.nextId
  {
    if |s.idle| > 0 {
      var n := |s.idle| - 1;
      forall k | 0 <= k < n ensures Acquire(s).0.idle[k] != s.idle[n] {
        assert Acquire(s).0.idle[k] == s.idle[k];
      }
      assert s.idle[n] in s.idle;
    }
  }

  /** Returning a handed-out handle that is not idle already keeps the idle
      stack within capacity, free of duplicates and made of handed-out
      handles. */
  lemma ReleasePreservesValid(s: PoolState, c: Conn)
    requires Valid(s) && c !in s.idle && c < s.nextId
    ensures Valid(Release(s, c))
    ensures |Release(s, c).idle| <= s.poolSize
  {
  }

  /** A return below capacity followed immediately by an acquire hands the
      same handle back and restores the state before the return. */
  lemma ReleaseThenAcquire(s: PoolState, c: Conn)
    requires |s.idle| < s.poolSize
    ensures Acquire(Release(s, c)).1 == c
    ensures Acquire(Release(s, c)).0 == s
  {
    assert (s.idle + [c])[..|s.idle|] == s.idle;
  }

  /** `q` is `s` after one handle was checked out and given back: `s`
      itself when a handle was idle; on an empty stack, `s` with the overflow
      handle opened and then kept when there is room, or closed when the
      capacity is zero. */
  predicate Restored(s: PoolState, q: PoolState)
  {
    && (|s.idle| > 0 ==> q == s)
    && (|s.idle| == 0 && s.poolSize > 0 ==> q == s.(idle := [s.nextId], nextId := s.nextId + 1))
    && (|s.idle| == 0 && s.poolSize == 0 ==> q == s.(closed := s.closed + [s.nextId], nextId := s.nextId + 1))
  }

  /** An acquire followed by returning that handle restores the pool. */
  lemma AcquireThenRelease(s: PoolState)
    requires Valid(s)
    ensures Restored(s, Release(Acquire(s).0, Acquire(s).1))
  {
    if |s.idle| > 0 {
      assert s.idle[..|s.idle| - 1] + [s.idle[|s.idle| - 1]] == s.idle;
    }
  }

  /** The pool object: the idle stack is a sequence field that the methods
      reassign, and the counter stands for the storage engine's `connect`. */
  class ConnectionPool {
    const dbPath: string
    const poolSize: nat
    var connections: seq<Conn>
    var nextId: nat
    var closed: seq<Conn>

    /** The pool's state as a value. */
    function State(): PoolState
      reads this
    {
      PoolState(poolSize, connections, nextId, closed)
    }

    predicate IsValid()
      reads this
    {
      Valid(State())
    }

    /** `__init__` followed by `_initialize_pool`. */
    constructor (dbPath: string, poolSize: nat)
      ensures State() == Init(poolSize) && IsValid()
      ensures this.dbPath == dbPath
    {
      this.dbPath := dbPath;
      this.poolSize := poolSize;
      connections := [];
      nextId := 0;
      closed := [];
      new;
      InitializePool();
    }

    /** Opens a brand-new connection to `dbPath`: the next unused handle. */
    method Connect() returns (c: Conn)
      modifies this`nextId
      ensures c == old(nextId) && nextId == old(nextId) + 1
    {
      c := nextId;
      nextId := nextId + 1;
    }

    /** `_initialize_pool`: opens `poolSize` connections one after another
        and appends each to the idle stack. */
    method InitializePool()
      modifies this`connections, this`nextId
      ensures connections == old(connections) + Ids(old(nextId), old(nextId) + poolSize)
      ensures nextId == old(nextId) + poolSize
    {
      for i := 0 to poolSize
        invariant nextId == old(nextId) + i
        invariant connections == old(connections) + Ids(old(nextId), old(nextId) + i)
      {
        var conn := Connect();
        connections := connections + [conn];
      }
    }

    /** `get_connection`. */
    method GetConnection() returns (c: Conn)
      requires IsValid()
      modifies this`connections, this`nextId
      ensures IsValid()
      ensures (State(), c) == Acquire(old(State()))
    {
      AcquirePreservesValid(State());
      if |connections| > 0 {
        c := connections[|connections| - 1];
        connections := connections[..|connections| - 1];
      } else {
        c := Connect();
      }
    }

    /** `return_connection`. */
    method ReturnConnection(c: Conn)
      modifies this`connections, this`closed
      ensures State() == Release(old(State()), c)
    {
      if |connections| < poolSize {
        connections := connections + [c];
      } else {
        closed := closed + [c];
      }
    }
  }
}
