/** The life cycle of connections under any sequence of pool calls made by
    well-behaved callers: each handle is idle, checked out by exactly one
    caller, or closed, and never two of these at once. */
module PoolOwnership {
  import opened Pool

  /** What callers do with the pool: check a handle out, or return the
      handle they hold at position `index` among the checked-out ones. */
  datatype ClientOp = Get | Put(index: nat)

  /** The pool together with the handles currently checked out. */
  datatype World = World(pool: PoolState, held: seq<Conn>)

  function RemoveAt(s: seq<Conn>, i: nat): (r: seq<Conn>)
    requires i < |s|
    ensures |r| == |s| - 1
  {
    s[..i] + s[i + 1..]
  }

  /** One caller action. Returning a position that holds nothing is no call. */
  function Step(w: World, op: ClientOp): World
  {
    match op
    case Get =>
      var (p, c) := Acquire(w.pool);
      World(p, w.held + [c])
    case Put(i) =>
      if i < |w.held| then World(Release(w.pool, w.held[i]), RemoveAt(w.held, i)) else w
  }

  function Run(w: World, ops: seq<ClientOp>): World
    decreases |ops|
  {
    if ops == [] then w else Run(Step(w, ops[0]), ops[1..])
  }

  /** Every handle the pool has ever opened, by where it is now. */
  function Everything(w: World): multiset<Conn>
  {
    multiset(w.pool.idle) + multiset(w.held) + multiset(w.pool.closed)
  }

  /** Each handle is in exactly one place: none is in two places, and the
      handles found somewhere are exactly those the counter gave out. The
      idle stack is within capacity. */
  ghost predicate Owned(w: World)
  {
    && |w.pool.idle| <= w.pool.poolSize
    && (forall c :: Everything(w)[c] <= 1)
    && (forall c: Conn :: c in Everything(w) <==> c < w.pool.nextId)
  }

  lemma {:induction false} CountNoDup(s: seq<Conn>)
    requires NoDup(s)
    ensures forall c :: multiset(s)[c] <= 1
  {
    if s != [] {
      var t := s[1..];
      assert s == [s[0]] + t;
      assert NoDup(t) by {
        forall i, j | 0 <= i < j < |t| ensures t[i] != t[j] {
          assert t[i] == s[i + 1] && t[j] == s[j + 1];
        }
      }
      CountNoDup(t);
      forall k | 0 <= k < |t| ensures t[k] != s[0] {
        assert t[k] == s[k + 1];
      }
      assert s[0] !in t;
      assert multiset(s) == multiset{s[0]} + multiset(t);
    }
  }

  /** Two equal entries at distinct positions count twice. */
  lemma CountTwo(s: seq<Conn>, i: nat, j: nat)
    requires i < j < |s|
    ensures s[i] == s[j] ==> multiset(s)[s[i]] >= 2
  {
    assert s == s[..j] + s[j..];
    assert s[i] in multiset(s[..j]);
    assert s[j] == s[j..][0];
    assert s[j] in multiset(s[j..]);
    assert multiset(s) == multiset(s[..j]) + multiset(s[j..]);
  }

  lemma NoDupFromCount(s: seq<Conn>, bag: multiset<Conn>)
    requires multiset(s) <= bag
    requires forall c :: bag[c] <= 1
    ensures NoDup(s)
  {
    forall i, j | 0 <= i < j < |s| ensures s[i] != s[j] {
      CountTwo(s, i, j);
      assert bag[s[i]] <= 1;
    }
  }

  lemma InitOwned(poolSize: nat)
    ensures Owned(World(Init(poolSize), []))
  {
    var w := World(Init(poolSize), []);
    var ids := Ids(0, poolSize);
    assert Everything(w) == multiset(ids);
    CountNoDup(ids);
    forall c: Conn ensures c in Everything(w) <==> c < w.pool.nextId {
      assert c in Everything(w) <==> c in ids;
      if c < poolSize {
        assert ids[c] == c;
      }
      if c in ids {
        var k :| 0 <= k < |ids| && ids[k] == c;
      }
    }
  }

  /** Popping an idle handle moves it to the caller. */
  lemma GetIdleKeepsOwned(w: World)
    requires Owned(w) && |w.pool.idle| > 0
    ensures Owned(Step(w, Get))
  {
    var w' := Step(w, Get);
    var idle := w.pool.idle;
    var c := idle[|idle| - 1];
    assert w'.pool.idle == idle[..|idle| - 1];
    assert w'.held == w.held + [c];
    assert idle == w'.pool.idle + [c];
    assert multiset(idle) == multiset(w'.pool.idle) + multiset{c};
    assert multiset(w'.held) == multiset(w.held) + multiset{c};
    assert w'.pool.closed == w.pool.closed && w'.pool.nextId == w.pool.nextId;
    assert Everything(w') == Everything(w);
  }

  /** An overflow handle is new, so it cannot collide with any other. */
  lemma GetOverflowKeepsOwned(w: World)
    requires Owned(w) && |w.pool.idle| == 0
    ensures Owned(Step(w, Get))
  {
    var w' := Step(w, Get);
    var n := w.pool.nextId;
    var e := Everything(w);
    assert w'.pool == w.pool.(nextId := n + 1);
    assert w'.held == w.held + [n];
    assert n !in e;
    assert multiset(w'.held) == multiset(w.held) + multiset{n};
    var e' := Everything(w');
    assert e' == e + multiset{n};
    forall c ensures e'[c] <= 1 {
      assert e'[c] == e[c] + multiset{n}[c];
    }
    forall c: Conn ensures c in e' <==> c < n + 1 {
      assert c in e' <==> c == n || c in e;
    }
  }

  lemma GetKeepsOwned(w: World)
    requires Owned(w)
    ensures Owned(Step(w, Get))
  {
    if |w.pool.idle| > 0 {
      GetIdleKeepsOwned(w);
    } else {
      GetOverflowKeepsOwned(w);
    }
  }

  lemma PutKeepsOwned(w: World, i: nat)
    requires Owned(w)
    ensures Owned(Step(w, Put(i)))
  {
    if i < |w.held| {
      var w' := Step(w, Put(i));
      var c := w.held[i];
      assert w.held == w.held[..i] + [c] + w.held[i + 1..];
      assert multiset(w.held) == multiset(RemoveAt(w.held, i)) + multiset{c};
      assert multiset(w'.pool.idle) + multiset(w'.pool.closed)
          == multiset(w.pool.idle) + multiset(w.pool.closed) + multiset{c};
      assert Everything(w') == Everything(w);
    }
  }

  lemma StepKeepsOwned(w: World, op: ClientOp)
    requires Owned(w)
    ensures Owned(Step(w, op))
  {
    match op
    case Get => GetKeepsOwned(w);
    case Put(i) => PutKeepsOwned(w, i);
  }

  lemma {:induction false} RunKeepsOwned(w: World, ops: seq<ClientOp>)
    requires Owned(w)
    ensures Owned(Run(w, ops))
    decreases |ops|
  {
    if ops != [] {
      StepKeepsOwned(w, ops[0]);
      RunKeepsOwned(Step(w, ops[0]), ops[1..]);
    }
  }

  /** Pool conservation: starting from a fresh pool, after any sequence of
      checkouts and returns the idle stack holds at most `poolSize` handles,
      no handle is checked out twice, and no checked-out handle is idle or
      closed; idle handles are never closed ones; and every handle the pool
      ever opened is idle, checked out or closed. */
  lemma Conservation(poolSize: nat, ops: seq<ClientOp>)
    ensures var w := Run(World(Init(poolSize), []), ops);
      && |w.pool.idle| <= poolSize
      && NoDup(w.held) && NoDup(w.pool.idle) && NoDup(w.pool.closed)
      && (forall c :: c in w.held ==> c !in w.pool.idle && c !in w.pool.closed)
      && (forall c :: c in w.pool.idle ==> c !in w.pool.closed)
      && (forall c: Conn :: c < w.pool.nextId ==> c in w.pool.idle || c in w.held || c in w.pool.closed)
  {
    var w0 := World(Init(poolSize), []);
    InitOwned(poolSize);
    RunKeepsOwned(w0, ops);
    var w := Run(w0, ops);
    RunKeepsPoolSize(w0, ops);
    var e := Everything(w);
    NoDupFromCount(w.held, e);
    NoDupFromCount(w.pool.idle, e);
    NoDupFromCount(w.pool.closed, e);
    forall c | c in w.held ensures c !in w.pool.idle && c !in w.pool.closed {
      assert e[c] >= multiset(w.held)[c];
    }
    forall c | c in w.pool.idle ensures c !in w.pool.closed {
      assert e[c] >= multiset(w.pool.idle)[c];
    }
    forall c: Conn | c < w.pool.nextId ensures c in w.pool.idle || c in w.held || c in w.pool.closed {
      assert c in e;
    }
  }

  lemma {:induction false} RunKeepsPoolSize(w: World, ops: seq<ClientOp>)
    ensures Run(w, ops).pool.poolSize == w.pool.poolSize
    decreases |ops|
  {
    if ops != [] {
      RunKeepsPoolSize(Step(w, ops[0]), ops[1..]);
    }
  }

  /** The overflow scenario: a pool of two and three callers that each check
      a handle out before any returns one. The third caller gets a freshly
      opened handle instead of waiting. Once all three are back, exactly two
      are idle and one is closed. The pool does not single out the overflow
      handle: whichever handle comes back onto a full stack is closed. When
      the handles come back in checkout order, the overflow one comes back
      last and is closed. When they come back in reverse order, the overflow
      one is kept and the first handle checked out is closed. */
  lemma OverflowScenario()
    ensures var w := Run(World(Init(2), []), [Get, Get, Get]);
      w.held == [1, 0, 2] && w.pool.idle == []
    ensures var w := Run(World(Init(2), []), [Get, Get, Get, Put(0), Put(0), Put(0)]);
      w.held == [] && w.pool.idle == [1, 0] && w.pool.closed == [2]
    ensures var w := Run(World(Init(2), []), [Get, Get, Get, Put(2), Put(1), Put(0)]);
      w.held == [] && w.pool.idle == [2, 0] && w.pool.closed == [1]
  {
  }
}
