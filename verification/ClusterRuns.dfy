/** All runs of the cluster client: any number of callers, the ping routines, starts, resets and Close, interleaved one
    closure or pool operation at a time. */
module ClusterRuns {
  import opened Pools
  import opened Cluster
  import opened ClusterReset

  //---- GetEvery ----------------------------------------------------------------------------------------------------

  /** Connections held by tid in t are those it held in s, untouched, and those in got. */
  ghost predicate HoldsAlso(s: Store, t: Store, tid: nat, got: seq<nat>) {
    && |s.conns| <= |t.conns|
    && (forall c | 0 <= c < |s.conns| && HeldBy(s.conns[c], tid) :: t.conns[c] == s.conns[c] && c !in got)
    && (forall c | 0 <= c < |t.conns| && HeldBy(t.conns[c], tid) ::
        c in got || (c < |s.conns| && HeldBy(s.conns[c], tid)))
  }

  predicate NoDup(cs: seq<nat>) {
    forall i, j | 0 <= i < j < |cs| :: cs[i] != cs[j]
  }

  ghost predicate AllHeld(s: State, tid: nat, got: seq<nat>, addrs: seq<Address>) {
    && |got| == |addrs| && NoDup(got)
    && (forall i | 0 <= i < |got| :: addrs[i] in s.table && got[i] < |s.store.conns|
                                     && s.store.conns[got[i]] == Conn(addrs[i], true, false, Caller(tid)))
  }

  function GiveBack(s: State, tid: nat, got: seq<nat>, addrs: seq<Address>): State
    requires Inv(s) && AllHeld(s, tid, got, addrs)
    decreases |got|
  {
    if got == [] then s
    else
      GiveOne(s, tid, got, addrs);
      GiveBack(s.(store := Put(s.store, s.table[addrs[0]], got[0])), tid, got[1..], addrs[1..])
  }

  lemma GiveOne(s: State, tid: nat, got: seq<nat>, addrs: seq<Address>)
    requires Inv(s) && AllHeld(s, tid, got, addrs) && got != []
    ensures s.table[addrs[0]] < |s.store.pools|
    ensures var t := s.(store := Put(s.store, s.table[addrs[0]], got[0]));
            && Inv(t) && AllHeld(t, tid, got[1..], addrs[1..]) && Extends(s.store, t.store)
            && (forall s0 | HoldsAlso(s0, s.store, tid, got) :: HoldsAlso(s0, t.store, tid, got[1..]))
            && (forall other | other != tid :: Undisturbed(s.store, t.store, other))
  {
    hide Good;
    assert Fits(s.store, addrs[0], s.table[addrs[0]]);
    PutGood(s.store, s.table[addrs[0]], got[0]);
    StoreInv(s, Put(s.store, s.table[addrs[0]], got[0]));
  }

  lemma {:induction false} GiveBackReturnsAll(s: State, tid: nat, got: seq<nat>, addrs: seq<Address>, s0: Store)
    requires Inv(s) && AllHeld(s, tid, got, addrs) && HoldsAlso(s0, s.store, tid, got)
    ensures var t := GiveBack(s, tid, got, addrs);
            && Inv(t) && t == s.(store := t.store) && Extends(s.store, t.store) && HoldsAlso(s0, t.store, tid, [])
            && (forall other | other != tid :: Undisturbed(s.store, t.store, other))
    decreases |got|
  {
    hide Inv, Put, HoldsAlso, Undisturbed, Extends;
    SameStore(s.store);
    if got != [] {
      GiveOne(s, tid, got, addrs);
      var n := s.(store := Put(s.store, s.table[addrs[0]], got[0]));
      GiveBackReturnsAll(n, tid, got[1..], addrs[1..], s0);
      var t := GiveBack(n, tid, got[1..], addrs[1..]);
      ExtendsChain(s.store, n.store, t.store);
      OthersChain(s.store, n.store, t.store, tid);
    }
  }

  lemma SameStore(s: Store)
    ensures Extends(s, s) && (forall tid :: Undisturbed(s, s, tid))
  {
  }

  lemma OthersChain(a: Store, b: Store, c: Store, tid: nat)
    requires forall other | other != tid :: Undisturbed(a, b, other)
    requires forall other | other != tid :: Undisturbed(b, c, other)
    ensures forall other | other != tid :: Undisturbed(a, c, other)
  {
    forall other | other != tid ensures Undisturbed(a, c, other) {
      assert Undisturbed(a, b, other) && Undisturbed(b, c, other);
    }
  }

  /** GetEvery's closure, for the rest of the table in some order: one connection per node, or on a refusal all
      those taken so far given back. */
  function Every(s: State, tid: nat, order: seq<Address>, dials: seq<bool>, got: seq<nat>, seen: seq<Address>)
      : (State, seq<nat>, bool)
    requires Inv(s) && AllHeld(s, tid, got, seen) && |dials| == |order|
    requires forall i | 0 <= i < |order| :: order[i] in s.table
    decreases |order|
  {
    if order == [] then (s, got, true)
    else
      var a := order[0];
      assert Fits(s.store, a, s.table[a]);
      TakeOne(s, tid, a, dials[0], got, seen);
      var (t, g) := Take(s, tid, s.table[a], dials[0]);
      if g.Refused? then (GiveBack(t, tid, got, seen), [], false)
      else Every(t, tid, order[1..], dials[1..], got + [g.conn], seen + [a])
  }

  lemma TakeOne(s: State, tid: nat, a: Address, dialed: bool, got: seq<nat>, seen: seq<Address>)
    requires Inv(s) && AllHeld(s, tid, got, seen) && a in s.table
    ensures s.table[a] < |s.store.pools|
    ensures var (t, g) := Take(s, tid, s.table[a], dialed);
            && Inv(t) && t == s.(store := t.store) && Extends(s.store, t.store)
            && (g.Refused? ==> t == s)
            && (g.Got? ==> AllHeld(t, tid, got + [g.conn], seen + [a]))
            && (g.Got? ==> forall s0 | HoldsAlso(s0, s.store, tid, got) :: HoldsAlso(s0, t.store, tid, got + [g.conn]))
            && (forall other | other != tid :: Undisturbed(s.store, t.store, other))
  {
    hide Good;
    assert Fits(s.store, a, s.table[a]);
    TakeInv(s, tid, s.table[a], dialed);
    var (t, g) := Take(s, tid, s.table[a], dialed);
    if g.Got? {
      forall s0 | HoldsAlso(s0, s.store, tid, got) ensures HoldsAlso(s0, t.store, tid, got + [g.conn]) {
        HoldsOneMore(s0, s.store, t.store, tid, got, g.conn);
      }
    }
  }

  lemma HoldsOneMore(s0: Store, s: Store, t: Store, tid: nat, got: seq<nat>, c: nat)
    requires c <= |s.conns| && HoldsAlso(s0, s, tid, got)
        && |s.conns| <= |t.conns| <= (if c < |s.conns| then |s.conns| else c + 1)
    requires c < |s.conns| ==> !HeldBy(s.conns[c], tid)
    requires forall d | 0 <= d < |s.conns| && d != c :: t.conns[d] == s.conns[d]
    ensures HoldsAlso(s0, t, tid, got + [c])
  {
    forall d | 0 <= d < |t.conns| && HeldBy(t.conns[d], tid)
      ensures d in got + [c] || (d < |s0.conns| && HeldBy(s0.conns[d], tid))
    {
      if d == c { assert (got + [c])[|got|] == d; }
      else if d in got { assert d in got + [c]; }
    }
  }

  lemma {:induction false} EveryFrom(s: State, tid: nat, order: seq<Address>, dials: seq<bool>, got: seq<nat>,
      seen: seq<Address>, s0: Store)
    requires Inv(s) && AllHeld(s, tid, got, seen) && |dials| == |order| && HoldsAlso(s0, s.store, tid, got)
    requires forall i | 0 <= i < |order| :: order[i] in s.table
    ensures var (t, all, ok) := Every(s, tid, order, dials, got, seen);
            && Inv(t) && t == s.(store := t.store) && Extends(s.store, t.store)
            && (if ok then AllHeld(t, tid, all, seen + order) && HoldsAlso(s0, t.store, tid, all)
                else all == [] && HoldsAlso(s0, t.store, tid, []))
            && (forall other | other != tid :: Undisturbed(s.store, t.store, other))
    decreases |order|
  {
    hide Inv, Take, AllHeld, HoldsAlso, Undisturbed, Extends, GiveBack;
    SameStore(s.store);
    if order == [] {
      assert seen + order == seen;
    } else {
      var a := order[0];
      TakeOne(s, tid, a, dials[0], got, seen);
      var (n, g) := Take(s, tid, s.table[a], dials[0]);
      if g.Refused? {
        GiveBackReturnsAll(n, tid, got, seen, s0);
      } else {
        EveryFrom(n, tid, order[1..], dials[1..], got + [g.conn], seen + [a], s0);
        assert seen + [a] + order[1..] == seen + order;
        var t := Every(n, tid, order[1..], dials[1..], got + [g.conn], seen + [a]).0;
        ExtendsChain(s.store, n.store, t.store);
        OthersChain(s.store, n.store, t.store, tid);
      }
    }
  }

  predicate Lists(table: map<Address, nat>, order: seq<Address>) {
    && (forall i | 0 <= i < |order| :: order[i] in table)
    && (forall a | a in table :: a in order)
    && (forall i, j | 0 <= i < j < |order| :: order[i] != order[j])
  }

  function GetEvery(s: State, tid: nat, order: seq<Address>, dials: seq<bool>): (State, seq<nat>, bool)
    requires Inv(s) && Lists(s.table, order) && |dials| == |order|
  {
    Every(s, tid, order, dials, [], [])
  }

  /** GetEvery hands out exactly one open connection per known node, all different and each of its own node; or,
      when one cannot be had, none: every connection taken on the way was put back. */
  lemma GetEveryMeaning(s: State, tid: nat, order: seq<Address>, dials: seq<bool>)
    requires Inv(s) && Lists(s.table, order) && |dials| == |order|
    ensures var (t, got, ok) := GetEvery(s, tid, order, dials);
            && Inv(t) && t == s.(store := t.store) && Extends(s.store, t.store)
            && (ok ==> AllHeld(t, tid, got, order) && HoldsAlso(s.store, t.store, tid, got))
            && (!ok ==> got == [] && Undisturbed(s.store, t.store, tid))
            && (forall other | other != tid :: Undisturbed(s.store, t.store, other))
  {
    hide Inv, Undisturbed, Extends, Every;
    assert HoldsAlso(s.store, s.store, tid, []) && AllHeld(s, tid, [], []);
    EveryFrom(s, tid, order, dials, [], [], s.store);
    assert [] + order == order;
    HoldsNoMore(s.store, GetEvery(s, tid, order, dials).0.store, tid);
  }

  lemma HoldsNoMore(s: Store, t: Store, tid: nat)
    ensures HoldsAlso(s, t, tid, []) <==> Undisturbed(s, t, tid)
  {
  }

  //---- steps -------------------------------------------------------------------------------------------------------

  datatype Event =
    | Starting(addr: Address, dialed: bool)
    | Looking(addr: Address, dialed: bool, any: Address)
    | Taking(tid: nat, pool: nat, dialed: bool)
    | PutLooking(tid: nat, conn: nat)
    | PutEnding(tid: nat, conn: nat)
    | Breaking(tid: nat, conn: nat)
    | PingTaking(pool: nat, dialed: bool)
    | PingFailing(conn: nat)
    | PingPutting(conn: nat)
    | Resetting(via: Address, dialed: bool, answer: Answer, down: set<Address>)
    | TakingEvery(tid: nat, order: seq<Address>, dials: seq<bool>)
    | Closing
    | Clearing
    | Stopping

  predicate Owns(s: State, c: nat, o: Owner) {
    c < |s.store.conns| && s.store.conns[c].owner == o
  }

  /** Closures run only while spin does; a crashed process does nothing. */
  predicate Enabled(s: State, e: Event) {
    !s.crashed &&
    match e
    case Starting(_, _) => true
    case Looking(_, _, any) => s.spinning && (any in s.table || s.table == map[])
    case Taking(_, p, _) => p in s.handed
    case PutLooking(tid, c) => s.spinning && Owns(s, c, Caller(tid))
    case PutEnding(tid, c) => c < |s.store.conns| && s.store.conns[c].owner.Putting?
        && s.store.conns[c].owner.tid == tid
    case Breaking(tid, c) => Owns(s, c, Caller(tid))
    case PingTaking(p, _) => p < |s.store.pools|
    case PingFailing(c) => c < |s.store.conns| && s.store.conns[c].owner.Borrowed?
    case PingPutting(c) => c < |s.store.conns| && s.store.conns[c].owner.Borrowed?
    case Resetting(via, _, _, _) => s.spinning && via in s.table
    case TakingEvery(_, order, dials) => s.spinning && Lists(s.table, order) && |dials| == |order|
    case Closing => true
    case Clearing => s.spinning && s.closed
    case Stopping => s.spinning && s.closed
  }

  function Apply(s: State, e: Event): State
    requires Inv(s) && Enabled(s, e)
  {
    match e
    case Starting(addr, dialed) => Start(s, addr, dialed)
    case Looking(addr, dialed, any) => Lookup(s, addr, dialed, any).0
    case Taking(tid, p, dialed) => Take(s, tid, p, dialed).0
    case PutLooking(tid, c) => PutLookup(s, tid, c)
    case PutEnding(_, c) => PutDoneInv(s, c); PutDone(s, c)
    case Breaking(_, c) => s.(store := Break(s.store, c))
    case PingTaking(p, dialed) => PingTake(s, p, dialed)
    case PingFailing(c) => s.(store := Break(s.store, c))
    case PingPutting(c) => PingPutInv(s, c); PingPut(s, c)
    case Resetting(via, dialed, answer, down) => ResetUsing(s, via, dialed, answer, down).0
    case TakingEvery(tid, order, dials) => GetEvery(s, tid, order, dials).0
    case Closing => s.(closed := true)
    case Clearing => CloseTable(s)
    case Stopping => s.(spinning := false)
  }

  predicate By(e: Event, tid: nat) {
    (e.Taking? || e.PutLooking? || e.PutEnding? || e.Breaking? || e.TakingEvery?) && e.tid == tid
  }

  lemma StartUndisturbed(s: State, addr: Address, dialed: bool)
    requires Inv(s)
    ensures forall tid :: Undisturbed(s.store, Start(s, addr, dialed).store, tid)
  {
    hide Good;
  }

  /** Every step keeps the invariant, and leaves alone the connections held by callers other than the one who takes
      it. */
  lemma StepInv(s: State, e: Event)
    requires Inv(s) && Enabled(s, e)
    ensures Inv(Apply(s, e)) && Extends(s.store, Apply(s, e).store)
    ensures forall tid | !By(e, tid) :: Undisturbed(s.store, Apply(s, e).store, tid)
  {
    hide Good, TableFits, Extends, Undisturbed, ResetUsing, GetEvery, CloseTable, PutLookup, PutDone, Break,
      Start, Take,
      Lookup, PingTake, PingPut, Lists;
    SameStore(s.store);
    match e
    case Starting(addr, dialed) => StartInv(s, addr, dialed); StartUndisturbed(s, addr, dialed);
    case Looking(addr, dialed, any) => LookupInv(s, addr, dialed, any);
    case Taking(tid, p, dialed) => TakeInv(s, tid, p, dialed);
    case PutLooking(tid, c) => PutLookupInv(s, tid, c);
    case PutEnding(tid, c) => PutDoneInv(s, c);
    case Breaking(tid, c) => BreakInv(s, c); BreakOthers(s, c);
    case PingTaking(p, dialed) => PingTakeInv(s, p, dialed);
    case PingFailing(c) => BreakInv(s, c);
    case PingPutting(c) => PingPutInv(s, c);
    case Resetting(via, dialed, answer, down) => ResetInv(s, via, dialed, answer, down);
    case TakingEvery(tid, order, dials) => GetEveryMeaning(s, tid, order, dials);
    case Clearing => CloseTableInv(s);
    case _ =>
  }

  lemma BreakOthers(s: State, c: nat)
    requires c < |s.store.conns| && s.store.conns[c].owner.Caller?
    ensures forall tid | tid != s.store.conns[c].owner.tid :: Undisturbed(s.store, Break(s.store, c), tid)
  {
  }

  predicate Runs(s: State, es: seq<Event>)
    requires Inv(s)
    decreases |es|
  {
    es == [] || (Enabled(s, es[0]) && (StepInv(s, es[0]); Runs(Apply(s, es[0]), es[1..])))
  }

  function Final(s: State, es: seq<Event>): State
    requires Inv(s) && Runs(s, es)
    decreases |es|
  {
    if es == [] then s else StepInv(s, es[0]); Final(Apply(s, es[0]), es[1..])
  }

  lemma NewInv(size: nat)
    requires size >= 1
    ensures Inv(New(size))
  {
  }

  lemma {:induction false} RunInv(s: State, es: seq<Event>)
    requires Inv(s) && Runs(s, es)
    ensures Inv(Final(s, es)) && Extends(s.store, Final(s, es).store)
    decreases |es|
  {
    hide Inv, Enabled, Apply, Extends;
    if es == [] { SameStore(s.store); }
    else {
      StepInv(s, es[0]);
      RunInv(Apply(s, es[0]), es[1..]);
      ExtendsChain(s.store, Apply(s, es[0]).store, Final(s, es).store);
    }
  }

  /** In every run: the pool stored under an address dials that address and has not been emptied, and no pool at all was
      emptied twice (which would panic). */
  lemma PoolsInEveryRun(size: nat, es: seq<Event>)
    requires size >= 1
    ensures Inv(New(size))
    requires Runs(New(size), es)
    ensures var s := Final(New(size), es);
            && (forall a | a in s.table :: Fits(s.store, a, s.table[a]))
            && (forall p | 0 <= p < |s.store.pools| :: s.store.pools[p].emptied <= 1)
  {
    hide Runs, Final;
    NewInv(size);
    RunInv(New(size), es);
    var s := Final(New(size), es);
    forall p | 0 <= p < |s.store.pools| ensures s.store.pools[p].emptied <= 1 { assert GoodPool(s.store, p); }
  }

  /** In every run each connection is in exactly one place: idle once in one live pool of its own node, in
      somebody's hands and in no pool, or abandoned, in no pool and closed. */
  lemma ConnectionsInEveryRun(size: nat, es: seq<Event>)
    requires size >= 1
    ensures Inv(New(size))
    requires Runs(New(size), es)
    ensures var s := Final(New(size), es).store;
            && (forall p, c | 0 <= p < |s.pools| && 0 <= c < |s.conns| ::
                  c in s.pools[p].idle <==> s.conns[c].owner == IdleIn(p))
            && (forall p | 0 <= p < |s.pools| :: NoDup(s.pools[p].idle) && |s.pools[p].idle| <= size)
            && (forall c | 0 <= c < |s.conns| && s.conns[c].owner.IdleIn? :: IdleAtHome(s, c))
            && (forall c | 0 <= c < |s.conns| && s.conns[c].owner.Nobody? :: !s.conns[c].open)
  {
    hide Runs, Final;
    NewInv(size);
    RunInv(New(size), es);
    var s := Final(New(size), es).store;
    forall p, c | 0 <= p < |s.pools| && 0 <= c < |s.conns|
      ensures c in s.pools[p].idle <==> s.conns[c].owner == IdleIn(p)
    {
      assert GoodPool(s, p) && GoodConn(s, c);
      if c in s.pools[p].idle {
        var i :| 0 <= i < |s.pools[p].idle| && s.pools[p].idle[i] == c;
        assert HoldsOwn(s, p, s.pools[p].idle[i]);
      }
    }
    forall p | 0 <= p < |s.pools| ensures NoDup(s.pools[p].idle) && |s.pools[p].idle| <= size { assert GoodPool(s, p); }
    forall c | 0 <= c < |s.conns| ensures GoodConn(s, c) && (s.conns[c].owner.IdleIn? ==> IdleAtHome(s, c)) {
      assert GoodConn(s, c);
      if s.conns[c].owner.IdleIn? { Home(s, c); }
    }
  }

  predicate IdleAtHome(s: Store, c: nat)
    requires c < |s.conns| && s.conns[c].owner.IdleIn?
  {
    var p := s.conns[c].owner.pool;
    p < |s.pools| && s.pools[p].emptied == 0 && s.pools[p].addr == s.conns[c].addr && s.conns[c].open
        && !s.conns[c].critical
  }

  lemma Home(s: Store, c: nat)
    requires Good(s) && c < |s.conns| && s.conns[c].owner.IdleIn?
    ensures IdleAtHome(s, c)
  {
    assert GoodConn(s, c);
    var p := s.conns[c].owner.pool;
    assert GoodPool(s, p);
    var i :| 0 <= i < |s.pools[p].idle| && s.pools[p].idle[i] == c;
    assert HoldsOwn(s, p, s.pools[p].idle[i]);
  }

  //---- pools that stay reachable -----------------------------------------------------------------------------------

  /** A reset whose answer makes it lose a pool. */
  ghost predicate StepLosesPools(s: State, e: Event)
    requires Inv(s) && Enabled(s, e)
  {
    && e.Resetting? && e.answer.Slots? && BorrowFor(s, e.via, e.dialed).1.Got?
    && LosesPools(s.table, e.via, e.down, e.answer.groups)
  }

  lemma SamePoolsTidy(s: State, t: State)
    requires SamePoolSet(s.store, t.store) && s.table == t.table
    ensures Tidy(s) <==> Tidy(t)
  {
    if Tidy(s) {
      forall p | 0 <= p < |t.store.pools| && t.store.pools[p].emptied == 0
        ensures t.store.pools[p].addr in t.table && t.table[t.store.pools[p].addr] == p
      {
        assert s.store.pools[p].emptied == 0;
      }
    }
    if Tidy(t) {
      forall p | 0 <= p < |s.store.pools| && s.store.pools[p].emptied == 0
        ensures s.store.pools[p].addr in s.table && s.table[s.store.pools[p].addr] == p
      {
        assert t.store.pools[p].emptied == 0;
      }
    }
  }

  lemma NoArrayKeeps(s: State, via: Address, io: bool, down: set<Address>)
    ensures Regroup(s, via, NoArray(io), down).0 == s
  {
  }

  lemma ResetTidy(s: State, e: Event)
    requires Inv(s) && Enabled(s, e) && e.Resetting? && Tidy(s) && !Apply(s, e).crashed
    ensures Tidy(Apply(s, e)) <==> !StepLosesPools(s, e)
  {
    hide Good, Tidy, BorrowFor, Put, Regroup, TableFits, Extends, SameEmptied, LosesPools;
    var (b, g) := BorrowFor(s, e.via, e.dialed);
    BorrowInv(s, e.via, e.dialed);
    if g.Got? {
      var asked := Asked(s, e.via, e.dialed, e.answer);
      AskedInv(s, e.via, e.dialed, e.answer);
      AskedSamePools(s, e.via, e.dialed, e.answer);
      SamePoolsTidy(s, asked);
      RegroupInv(asked, e.via, e.answer, e.down, g.conn);
      if e.answer.Slots? { RegroupTidyExactly(asked, e.via, e.answer.groups, e.down); }
      else { NoArrayKeeps(asked, e.via, e.answer.io, e.down); }
      var r := Regroup(asked, e.via, e.answer, e.down).0;
      PutSamePools(r.store, s.table[e.via], g.conn);
      SamePoolsTidy(r, Apply(s, e));
    }
  }

  lemma AskedSamePools(s: State, via: Address, dialed: bool, answer: Answer)
    requires Inv(s) && via in s.table && BorrowFor(s, via, dialed).1.Got?
    ensures Asked(s, via, dialed, answer).table == s.table
    ensures SamePoolSet(s.store, Asked(s, via, dialed, answer).store)
  {
    hide BorrowFor, Good;
    BorrowInv(s, via, dialed);
  }

  lemma OpenTidy(s: State, addr: Address)
    requires Inv(s) && Tidy(s) && addr !in s.table
    ensures Tidy(s.(store := Open(s.store, addr), table := s.table[addr := |s.store.pools|]))
  {
    hide Good;
  }

  lemma ClearTidy(s: State)
    requires Inv(s) && Tidy(s)
    ensures Tidy(CloseTable(s))
  {
    hide Good;
  }

  /** A reset that fails half way is the only step after which a live pool is in no table: from then on nothing
      empties it. */
  lemma StepTidyExactly(s: State, e: Event)
    requires Inv(s) && Enabled(s, e) && Tidy(s) && !Apply(s, e).crashed
    ensures Tidy(Apply(s, e)) <==> !StepLosesPools(s, e)
  {
    if e.Resetting? { ResetTidy(s, e); }
    else if e.Starting? { StartTidy(s, e); }
    else if e.Looking? { LookTidy(s, e); }
    else if e.Clearing? { ClearTidy(s); }
    else {
      StepSamePools(s, e);
      SamePoolsTidy(s, Apply(s, e));
    }
  }

  lemma StartTidy(s: State, e: Event)
    requires Inv(s) && Enabled(s, e) && Tidy(s) && e.Starting?
    ensures Tidy(Apply(s, e))
  {
    hide Good, Tidy, Open, TableFits;
    if !s.closed && !s.started && e.dialed {
      OpenTidy(s, e.addr);
      TidyFields(s.(store := Open(s.store, e.addr), table := s.table[e.addr := |s.store.pools|]), Apply(s, e));
    }
  }

  lemma LookTidy(s: State, e: Event)
    requires Inv(s) && Enabled(s, e) && Tidy(s) && e.Looking?
    ensures Tidy(Apply(s, e))
  {
    hide Good, Tidy, Open, TableFits;
    if e.addr !in s.table && e.dialed {
      OpenTidy(s, e.addr);
      TidyFields(s.(store := Open(s.store, e.addr), table := s.table[e.addr := |s.store.pools|]), Apply(s, e));
    } else {
      TidyFields(s, Apply(s, e));
    }
  }

  lemma TidyFields(s: State, t: State)
    requires s.store == t.store && s.table == t.table
    ensures Tidy(s) <==> Tidy(t)
  {
  }

  predicate SamePoolSet(s: Store, t: Store) {
    && t.size == s.size && |t.pools| == |s.pools|
    && (forall p | 0 <= p < |s.pools| :: t.pools[p].addr == s.pools[p].addr && t.pools[p].emptied == s.pools[p].emptied)
  }

  lemma PutSamePools(s: Store, p: nat, c: nat)
    requires p < |s.pools| && c < |s.conns|
    ensures SamePoolSet(s, Put(s, p, c)) && SamePoolSet(s, PoolPut(s, p, c))
  {
  }

  lemma GetSamePools(s: Store, p: nat, dialed: bool, o: Owner)
    requires IdleExist(s, p)
    ensures SamePoolSet(s, Get(s, p, dialed, o).0)
  {
  }

  lemma {:induction false} GiveBackSamePools(s: State, tid: nat, got: seq<nat>, addrs: seq<Address>)
    requires Inv(s) && AllHeld(s, tid, got, addrs)
    ensures SamePoolSet(s.store, GiveBack(s, tid, got, addrs).store)
    decreases |got|
  {
    hide Inv, Put;
    if got != [] {
      GiveOne(s, tid, got, addrs);
      PutSamePools(s.store, s.table[addrs[0]], got[0]);
      GiveBackSamePools(s.(store := Put(s.store, s.table[addrs[0]], got[0])), tid, got[1..], addrs[1..]);
    }
  }

  lemma {:induction false} EverySamePools(s: State, tid: nat, order: seq<Address>, dials: seq<bool>, got: seq<nat>,
      seen: seq<Address>)
    requires Inv(s) && AllHeld(s, tid, got, seen) && |dials| == |order|
    requires forall i | 0 <= i < |order| :: order[i] in s.table
    ensures SamePoolSet(s.store, Every(s, tid, order, dials, got, seen).0.store)
    decreases |order|
  {
    hide Good, Get, AllHeld, GiveBack;
    if order != [] {
      var a := order[0];
      TakeOne(s, tid, a, dials[0], got, seen);
      IdleAreConns(s.store, s.table[a]);
      GetSamePools(s.store, s.table[a], dials[0], Caller(tid));
      var (n, g) := Take(s, tid, s.table[a], dials[0]);
      if g.Refused? {
        GiveBackSamePools(n, tid, got, seen);
      } else {
        EverySamePools(n, tid, order[1..], dials[1..], got + [g.conn], seen + [a]);
      }
    }
  }

  lemma StepSamePools(s: State, e: Event)
    requires Inv(s) && Enabled(s, e) && !e.Resetting? && !e.Starting? && !e.Looking? && !e.Clearing?
    ensures Apply(s, e).table == s.table && SamePoolSet(s.store, Apply(s, e).store)
  {
    hide Good, Get, Put, PoolPut, Every, ResetUsing, Lookup, Start, CloseTable;
    match e
    case Taking(tid, p, dialed) => IdleAreConns(s.store, p); GetSamePools(s.store, p, dialed, Caller(tid));
    case PutEnding(_, c) => PutDoneInv(s, c); PutSamePools(s.store, s.store.conns[c].owner.pool, c);
    case PingTaking(p, dialed) => IdleAreConns(s.store, p); GetSamePools(s.store, p, dialed, Borrowed(p));
    case PingPutting(c) => PingPutInv(s, c); PutSamePools(s.store, s.store.conns[c].owner.pool, c);
    case TakingEvery(tid, order, dials) =>
      GetEveryMeaning(s, tid, order, dials);
      assert AllHeld(s, tid, [], []);
      EverySamePools(s, tid, order, dials, [], []);
    case _ =>
  }

  lemma NothingOpen(s: State)
    requires s.store.pools == []
    ensures Tidy(s)
  {
  }

  lemma LastStep(s: State, e: Event)
    requires Inv(s) && Enabled(s, e)
    ensures Runs(s, [e]) && Final(s, [e]) == Apply(s, e)
  {
    hide Inv, Apply, Enabled;
    StepInv(s, e);
    assert [e][1..] == [] && Runs(Apply(s, e), []);
  }

  lemma FirstStep(s: State, e: Event, es: seq<Event>)
    requires Inv(s) && Enabled(s, e) && Inv(Apply(s, e)) && Runs(Apply(s, e), es)
    ensures Runs(s, [e] + es) && Final(s, [e] + es) == Final(Apply(s, e), es)
  {
    hide Inv, Apply, Enabled;
    StepInv(s, e);
    assert ([e] + es)[1..] == es;
  }

  const HALF_READABLE := [Listed(0, 5, [66], 1), Malformed]

  lemma HalfReadableLoses(table: map<Address, nat>, self: Address)
    requires table.Keys == {[65]}
    ensures LosesPools(table, self, {}, HALF_READABLE)
  {
    var gs := HALF_READABLE;
    assert SlotAddr(gs[0], self)[0] == 66;
    assert gs[..1][0] == gs[0];
    assert NamesNew(table, self, gs[..1]);
    assert FailsAt(table, self, {}, gs, 1);
  }

  lemma HalfReadableFails(s: State, self: Address)
    requires !s.crashed
    ensures !Regroup(s, self, Slots(HALF_READABLE), {}).0.crashed
  {
    hide SlotAddr, Fill, Open;
    var gs := HALF_READABLE;
    var w := Work(s.store, s.mapping, map[], Going);
    StopsAt(s.table, self, {}, w, gs, 1);
  }

  lemma HalfReadableReset(s: State, via: Address)
    requires Inv(s) && !s.crashed && via in s.table && s.store.pools[s.table[via]].idle != []
    ensures BorrowFor(s, via, true).1.Got? && !ResetUsing(s, via, true, Slots(HALF_READABLE), {}).0.crashed
  {
    hide Good, TableFits, Regroup, Put;
    BorrowInv(s, via, true);
    AskedInv(s, via, true, Slots(HALF_READABLE));
    HalfReadableFails(Asked(s, via, true, Slots(HALF_READABLE)), via);
  }

  /** The first node answers with one readable group, naming a second node, and one unreadable group: the pool just
      opened for the second node is in no table. */
  lemma LostPool()
    ensures Inv(New(1))
    ensures exists es: seq<Event> :: Runs(New(1), es) && !Final(New(1), es).crashed && !Tidy(Final(New(1), es))
  {
    hide Inv, Tidy, ResetUsing, Runs, Final, BorrowFor, LosesPools;
    NewInv(1);
    var s0, a := New(1), [65];
    var e1 := Starting(a, true);
    var s1 := Apply(s0, e1);
    StepInv(s0, e1);
    NothingOpen(s0);
    StartTidy(s0, e1);
    assert s1.table == map[a := 0] && s1.spinning && !s1.crashed;
    assert s1.table.Keys == {[65]};
    var e2 := Resetting(a, true, Slots(HALF_READABLE), {});
    HalfReadableLoses(s1.table, a);
    HalfReadableReset(s1, a);
    StepTidyExactly(s1, e2);
    LastStep(s1, e2);
    FirstStep(s0, e1, [e2]);
  }
}
