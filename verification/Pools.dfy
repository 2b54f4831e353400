/** Connection pools and the connections they own. Pools and connections are objects in the source; here each is a
    record in a store, named by its index, so that one connection can be seen from a pool and from its holder. */
module Pools {
  import opened Words

  type Address = Bytes

  /** emptied counts calls of Empty: closing closeCh a second time would panic. */
  datatype Pool = Pool(addr: Address, idle: seq<nat>, emptied: nat)

  /** Who is answerable for a connection: the pool it is idle in, a caller, a caller between the lookup and the Put of
      Cluster.Put, code that will return it to the same pool (the ping routine, a reset), or nobody. */
  datatype Owner = IdleIn(pool: nat) | Caller(tid: nat) | Putting(tid: nat, pool: nat) | Borrowed(pool: nat) | Nobody

  /** critical is LastCritical != nil; open says that Close was not called. */
  datatype Conn = Conn(addr: Address, open: bool, critical: bool, owner: Owner)

  datatype Store = Store(size: nat, pools: seq<Pool>, conns: seq<Conn>)

  //---- operations --------------------------------------------------------------------------------------------------

  function Dial(s: Store, addr: Address, owner: Owner): Store {
    s.(conns := s.conns + [Conn(addr, true, false, owner)])
  }

  /** NewCustom when the dial succeeds: one connection, already idle. */
  function Open(s: Store, addr: Address): Store {
    Dial(s, addr, IdleIn(|s.pools|)).(pools := s.pools + [Pool(addr, [|s.conns|], 0)])
  }

  function SetConn(s: Store, c: nat, conn: Conn): Store
    requires c < |s.conns|
  {
    s.(conns := s.conns[c := conn])
  }

  function CloseConn(s: Store, c: nat): Store
    requires c < |s.conns|
  {
    SetConn(s, c, s.conns[c].(open := false, owner := Nobody))
  }

  datatype Got = Got(conn: nat) | Refused

  /** Pool.Get: an idle connection first, then the stop signal, then a dial. */
  function Get(s: Store, p: nat, dialed: bool, owner: Owner): (Store, Got)
    requires p < |s.pools| && (forall i | 0 <= i < |s.pools[p].idle| :: s.pools[p].idle[i] < |s.conns|)
  {
    var pool := s.pools[p];
    if pool.idle != [] then
      var c := pool.idle[0];
      (SetConn(s, c, s.conns[c].(owner := owner)).(pools := s.pools[p := pool.(idle := pool.idle[1..])]), Got(c))
    else if pool.emptied > 0 || !dialed then (s, Refused)
    else (Dial(s, pool.addr, owner), Got(|s.conns|))
  }

  /** Pool.Put: a connection with a critical error is left alone, on the belief that it was closed. */
  function PoolPut(s: Store, p: nat, c: nat): Store
    requires p < |s.pools| && c < |s.conns|
  {
    var pool, conn := s.pools[p], s.conns[c];
    if conn.critical then SetConn(s, c, conn.(owner := Nobody))
    else if pool.emptied > 0 || |pool.idle| >= s.size then CloseConn(s, c)
    else SetConn(s, c, conn.(owner := IdleIn(p))).(pools := s.pools[p := pool.(idle := pool.idle + [c])])
  }

  /** clusterPool.Put. */
  function Put(s: Store, p: nat, c: nat): Store
    requires p < |s.pools| && c < |s.conns|
  {
    if s.pools[p].emptied > 0 then CloseConn(s, c) else PoolPut(s, p, c)
  }

  /** clusterPool.Empty on each pool of a set: signals closed once more, every idle connection closed. */
  function Empty(s: Store, ps: set<nat>): Store {
    s.(pools := seq(|s.pools|, p requires 0 <= p < |s.pools| => Emptied(s.pools[p], p in ps)),
       conns := seq(|s.conns|, c requires 0 <= c < |s.conns| => Shut(s.conns[c], ps)))
  }

  function Emptied(pool: Pool, hit: bool): Pool {
    if hit then pool.(idle := [], emptied := pool.emptied + 1) else pool
  }

  function Shut(conn: Conn, ps: set<nat>): Conn {
    if conn.owner.IdleIn? && conn.owner.pool in ps then conn.(open := false, owner := Nobody) else conn
  }

  //---- what every operation keeps ----------------------------------------------------------------------------------

  /** Emptied at most once and then idle-free; never over capacity; holding only connections of its own node that
      name it as their owner, each once. */
  ghost predicate GoodPool(s: Store, p: nat)
    requires p < |s.pools|
  {
    var pool := s.pools[p];
    && pool.emptied <= 1 && (pool.emptied == 1 ==> pool.idle == []) && |pool.idle| <= s.size
    && (forall i | 0 <= i < |pool.idle| :: HoldsOwn(s, p, pool.idle[i]))
    && (forall i, j | 0 <= i < j < |pool.idle| :: pool.idle[i] != pool.idle[j])
  }

  ghost predicate HoldsOwn(s: Store, p: nat, c: nat)
    requires p < |s.pools|
  {
    c < |s.conns| && s.conns[c].owner == IdleIn(p) && s.conns[c].addr == s.pools[p].addr
  }

  /** An idle connection is open, healthy and really in the pool it names; one with a critical error is closed; one
      nobody answers for is closed. */
  ghost predicate GoodConn(s: Store, c: nat)
    requires c < |s.conns|
  {
    var conn := s.conns[c];
    match conn.owner
    case IdleIn(p) => p < |s.pools| && c in s.pools[p].idle && conn.open && !conn.critical
    case Caller(_) => conn.open != conn.critical
    case Putting(_, p) => p < |s.pools| && s.pools[p].addr == conn.addr && conn.open != conn.critical
    case Borrowed(p) => p < |s.pools| && s.pools[p].addr == conn.addr && conn.open != conn.critical
    case Nobody => !conn.open
  }

  ghost predicate Good(s: Store) {
    && s.size >= 1
    && (forall p | 0 <= p < |s.pools| :: GoodPool(s, p))
    && (forall c | 0 <= c < |s.conns| :: GoodConn(s, c))
  }

  /** Every pool of s is still there, dials the same node, and was not emptied less often. */
  predicate Extends(s: Store, t: Store) {
    && t.size == s.size && |s.pools| <= |t.pools| && |s.conns| <= |t.conns|
    && (forall p | 0 <= p < |s.pools| :: t.pools[p].addr == s.pools[p].addr && t.pools[p].emptied >= s.pools[p].emptied)
    && (forall c | 0 <= c < |s.conns| :: t.conns[c].addr == s.conns[c].addr)
  }

  predicate SameEmptied(s: Store, t: Store) {
    && |s.pools| <= |t.pools|
    && (forall p | 0 <= p < |s.pools| :: t.pools[p].emptied == s.pools[p].emptied)
    && (forall p | |s.pools| <= p < |t.pools| :: t.pools[p].emptied == 0)
  }

  predicate OwnerFits(s: Store, addr: Address, o: Owner) {
    match o
    case IdleIn(_) => false
    case Caller(_) => true
    case Putting(_, p) => p < |s.pools| && s.pools[p].addr == addr
    case Borrowed(p) => p < |s.pools| && s.pools[p].addr == addr
    case Nobody => false
  }

  lemma DialGood(s: Store, addr: Address, owner: Owner)
    requires Good(s) && OwnerFits(s, addr, owner)
    ensures Good(Dial(s, addr, owner)) && Extends(s, Dial(s, addr, owner)) && SameEmptied(s, Dial(s, addr, owner))
  {
    var t := Dial(s, addr, owner);
    forall p | 0 <= p < |t.pools| ensures GoodPool(t, p) { assert GoodPool(s, p); }
    forall c | 0 <= c < |t.conns| ensures GoodConn(t, c) { if c < |s.conns| { assert GoodConn(s, c); } }
  }

  lemma OpenGood(s: Store, addr: Address)
    requires Good(s)
    ensures Good(Open(s, addr)) && Extends(s, Open(s, addr)) && SameEmptied(s, Open(s, addr))
    ensures |Open(s, addr).pools| == |s.pools| + 1 && Open(s, addr).pools[|s.pools|].addr == addr
  {
    var t := Open(s, addr);
    forall p | 0 <= p < |t.pools| ensures GoodPool(t, p) {
      if p < |s.pools| { assert GoodPool(s, p); }
    }
    forall c | 0 <= c < |t.conns| ensures GoodConn(t, c) { if c < |s.conns| { assert GoodConn(s, c); } }
  }

  /** Changing a connection that is idle neither before nor after disturbs no pool. */
  lemma SetConnGood(s: Store, c: nat, conn: Conn)
    requires Good(s) && c < |s.conns| && !s.conns[c].owner.IdleIn? && conn.addr == s.conns[c].addr
    requires conn.owner.Nobody? ==> !conn.open
    requires !conn.owner.Nobody? ==> OwnerFits(s, conn.addr, conn.owner) && conn.open != conn.critical
    ensures Good(SetConn(s, c, conn)) && Extends(s, SetConn(s, c, conn)) && SameEmptied(s, SetConn(s, c, conn))
  {
    var t := SetConn(s, c, conn);
    forall p | 0 <= p < |t.pools| ensures GoodPool(t, p) {
      assert GoodPool(s, p);
      forall i | 0 <= i < |t.pools[p].idle| ensures HoldsOwn(t, p, t.pools[p].idle[i]) {
        assert HoldsOwn(s, p, s.pools[p].idle[i]);
      }
    }
    forall d | 0 <= d < |t.conns| ensures GoodConn(t, d) { assert GoodConn(s, d); }
  }

  lemma TakeGood(s: Store, p: nat, owner: Owner)
    requires Good(s) && p < |s.pools| && s.pools[p].idle != [] && OwnerFits(s, s.pools[p].addr, owner)
    ensures IdleExist(s, p)
    ensures var t := Get(s, p, false, owner).0; Good(t) && Extends(s, t) && SameEmptied(s, t)
  {
    IdleAreConns(s, p);
    var c, t := s.pools[p].idle[0], Get(s, p, false, owner).0;
    assert GoodPool(s, p) && HoldsOwn(s, p, c) && GoodConn(s, c);
    forall q | 0 <= q < |t.pools| ensures GoodPool(t, q) {
      assert GoodPool(s, q);
      forall i | 0 <= i < |t.pools[q].idle| ensures HoldsOwn(t, q, t.pools[q].idle[i]) {
        assert HoldsOwn(s, q, s.pools[q].idle[if q == p then i + 1 else i]);
      }
    }
    forall d | 0 <= d < |t.conns| ensures GoodConn(t, d) {
      assert GoodConn(s, d);
      if d != c && s.conns[d].owner == IdleIn(p) {
        assert d in s.pools[p].idle[1..] by { assert s.pools[p].idle == [c] + s.pools[p].idle[1..]; }
      }
    }
  }

  ghost predicate IdleExist(s: Store, p: nat) {
    p < |s.pools| && forall i | 0 <= i < |s.pools[p].idle| :: s.pools[p].idle[i] < |s.conns|
  }

  lemma IdleAreConns(s: Store, p: nat)
    requires Good(s) && p < |s.pools|
    ensures IdleExist(s, p)
  {
    assert GoodPool(s, p);
    forall i | 0 <= i < |s.pools[p].idle| ensures s.pools[p].idle[i] < |s.conns| {
      assert HoldsOwn(s, p, s.pools[p].idle[i]);
    }
  }

  /** Get keeps the store good; a connection it hands out is new or was idle in that very pool, is open and
      healthy, belongs to the pool's node, and is now the taker's. It hands out the longest idle one if there is any,
      otherwise a new one exactly when the pool was not emptied and its node can be dialed. */
  lemma GetGood(s: Store, p: nat, dialed: bool, owner: Owner)
    requires Good(s) && p < |s.pools| && OwnerFits(s, s.pools[p].addr, owner)
    ensures IdleExist(s, p)
    ensures var (t, g) := Get(s, p, dialed, owner);
            && Good(t) && Extends(s, t) && SameEmptied(s, t) && |t.pools| == |s.pools|
            && (g.Refused? ==> t == s)
            && (g.Got? <==> s.pools[p].idle != [] || (s.pools[p].emptied == 0 && dialed))
            && (s.pools[p].idle != [] ==> g == Got(s.pools[p].idle[0]) && t.pools[p].idle == s.pools[p].idle[1..])
            && (g.Got? ==> s.pools[p].emptied == 0 && g.conn < |t.conns|
                           && t.conns[g.conn] == Conn(s.pools[p].addr, true, false, owner)
                           && (g.conn < |s.conns| ==> s.conns[g.conn].owner == IdleIn(p)))
            && (forall c | 0 <= c < |s.conns| && !(g.Got? && c == g.conn) :: t.conns[c] == s.conns[c])
            && (|t.conns| > |s.conns| ==> g == Got(|s.conns|) && |t.conns| == |s.conns| + 1)
  {
    IdleAreConns(s, p);
    assert GoodPool(s, p);
    if s.pools[p].idle != [] {
      assert HoldsOwn(s, p, s.pools[p].idle[0]) && GoodConn(s, s.pools[p].idle[0]);
      TakeGood(s, p, owner);
    } else if s.pools[p].emptied == 0 && dialed {
      DialGood(s, s.pools[p].addr, owner);
    }
  }

  lemma PushGood(s: Store, p: nat, c: nat)
    requires Good(s) && p < |s.pools| && c < |s.conns| && !s.conns[c].owner.IdleIn?
    requires s.conns[c].addr == s.pools[p].addr && s.conns[c].open && !s.conns[c].critical
    requires s.pools[p].emptied == 0 && |s.pools[p].idle| < s.size
    ensures var t := PoolPut(s, p, c); Good(t) && Extends(s, t) && SameEmptied(s, t)
  {
    var t := PoolPut(s, p, c);
    forall q | 0 <= q < |t.pools| ensures GoodPool(t, q) {
      assert GoodPool(s, q);
      forall i | 0 <= i < |t.pools[q].idle| ensures HoldsOwn(t, q, t.pools[q].idle[i]) {
        if q != p || i < |s.pools[p].idle| { assert HoldsOwn(s, q, s.pools[q].idle[i]); }
      }
      if q == p {
        forall i | 0 <= i < |s.pools[p].idle| ensures s.pools[p].idle[i] != c {
          assert HoldsOwn(s, p, s.pools[p].idle[i]);
        }
      }
    }
    forall d | 0 <= d < |t.conns| ensures GoodConn(t, d) { assert GoodConn(s, d); }
  }

  /** Put keeps the store good, and the connection ends idle in this pool, which is live, or closed; idle exactly
      when it is healthy, the pool was not emptied and has room. A connection with a critical error is neither pooled
      nor closed here: that nothing leaks rests on the error having closed it. */
  lemma PutGood(s: Store, p: nat, c: nat)
    requires Good(s) && p < |s.pools| && c < |s.conns|
    requires OwnerFits(s, s.pools[p].addr, s.conns[c].owner) && s.conns[c].addr == s.pools[p].addr
    ensures var t := Put(s, p, c);
            && Good(t) && Extends(s, t) && SameEmptied(s, t) && |t.pools| == |s.pools| && |t.conns| == |s.conns|
            && (forall d | 0 <= d < |s.conns| && d != c :: t.conns[d] == s.conns[d])
            && ((t.conns[c].owner == IdleIn(p) && t.pools[p].emptied == 0)
                || (t.conns[c].owner == Nobody && !t.conns[c].open))
            && (t.conns[c].owner == IdleIn(p)
                <==> !s.conns[c].critical && s.pools[p].emptied == 0 && |s.pools[p].idle| < s.size)
            && (t.conns[c].owner == IdleIn(p) ==> t.pools[p].idle == s.pools[p].idle + [c])
    ensures PoolPut(s, p, c) == Put(s, p, c)
  {
    var pool, conn := s.pools[p], s.conns[c];
    assert GoodConn(s, c) && GoodPool(s, p);
    if pool.emptied > 0 || |pool.idle| >= s.size { SetConnGood(s, c, conn.(open := false, owner := Nobody)); }
    if conn.critical {
      assert !conn.open;
      SetConnGood(s, c, conn.(owner := Nobody));
      assert conn.(owner := Nobody) == conn.(open := false, owner := Nobody);
    } else if pool.emptied == 0 && |pool.idle| < s.size {
      PushGood(s, p, c);
    }
  }

  /** Emptying pools that were never emptied keeps the store good and leaves the other pools' connections alone. */
  lemma EmptyGood(s: Store, ps: set<nat>)
    requires Good(s) && (forall p | p in ps :: p < |s.pools| && s.pools[p].emptied == 0)
    ensures Good(Empty(s, ps)) && Extends(s, Empty(s, ps))
  {
    var t := Empty(s, ps);
    forall p | 0 <= p < |t.pools| ensures GoodPool(t, p) {
      assert GoodPool(s, p);
      forall i | 0 <= i < |t.pools[p].idle| ensures HoldsOwn(t, p, t.pools[p].idle[i]) {
        assert HoldsOwn(s, p, s.pools[p].idle[i]);
      }
    }
    forall c | 0 <= c < |t.conns| ensures GoodConn(t, c) { assert GoodConn(s, c); }
  }

  lemma EmptyNone(s: Store)
    ensures Empty(s, {}) == s
  {
  }

  /** Emptying a set and then one more pool is emptying the larger set. */
  lemma EmptyOneMore(s: Store, ps: set<nat>, p: nat)
    requires p !in ps
    ensures Empty(Empty(s, ps), {p}) == Empty(s, ps + {p})
  {
  }
}
