/** The closures that change the topology, in place: the slot array, the table of pools and the pools' idle queues. */
module ClusterTopology {
  import opened Pools
  import opened Cluster
  import opened ClusterReset
  import opened ClusterRuns
  import Routing

  class Topology {
    const mapping: array<Address>
    var pools: map<Address, nat>
    var store: Store
    var started: bool
    var closed: bool
    var spinning: bool
    var handed: set<nat>
    var crashed: bool

    ghost function View(): State
      reads this, mapping
    {
      State(store, started, closed, spinning, pools, mapping[..], handed, crashed)
    }

    constructor (size: nat)
      requires size >= 1
      ensures View() == New(size) && Inv(View()) && fresh(mapping)
    {
      mapping := new Address[Routing.NUM_SLOTS](_ => []);
      pools, store := map[], Store(size, [], []);
      started, closed, spinning, handed, crashed := false, false, false, {}, false;
      new;
      assert mapping[..] == New(size).mapping;
      NewInv(size);
    }

    /** startWithRetry, one round. */
    method StartRound(addr: Address, dialed: bool)
      requires Inv(View())
      modifies this
      ensures View() == Start(old(View()), addr, dialed) && Inv(View())
    {
      StartInv(View(), addr, dialed);
      if closed || started || !dialed { return; }
      var p := |store.pools|;
      store := Open(store, addr);
      pools := pools[addr := p];
      started, spinning := true, true;
    }

    method FillSlots(start: int, end: int, addr: Address)
      requires start <= end ==> 0 <= start && end < mapping.Length
      modifies mapping
      ensures mapping[..] == Fill(old(mapping[..]), start, end, addr)
    {
      var i := start;
      while i <= end
        invariant if start <= end then start <= i <= end + 1 else i == start
        invariant forall k | 0 <= k < mapping.Length ::
            mapping[k] == if start <= k < i then addr else old(mapping[..])[k]
      {
        mapping[i] := addr;
        i := i + 1;
      }
      assert mapping[..] == Fill(old(mapping[..]), start, end, addr);
    }

    /** clusterPool.Empty and the drain loop of Pool.Empty: afterwards no connection that was idle there is open. */
    method EmptyPool(p: nat)
      requires Good(store) && p < |store.pools|
      modifies this`store
      ensures store == Empty(old(store), {p})
    {
      hide Good;
      var pool := store.pools[p];
      ghost var s0, k := store, 0;
      IdleAreConns(store, p);
      store := store.(pools := store.pools[p := pool.(emptied := pool.emptied + 1)]);
      while store.pools[p].idle != []
        invariant 0 <= k <= |pool.idle| && |store.pools| == |s0.pools| && |store.conns| == |s0.conns|
            && store.size == s0.size
        invariant store.pools == s0.pools[p := Pool(pool.addr, pool.idle[k..], pool.emptied + 1)]
        invariant forall c | 0 <= c < |s0.conns| :: store.conns[c] == ClosedIf(s0.conns[c], c in pool.idle[..k])
        decreases |store.pools[p].idle|
      {
        var c := store.pools[p].idle[0];
        assert c == pool.idle[k] && pool.idle[..k + 1] == pool.idle[..k] + [c];
        store := store.(pools := store.pools[p := store.pools[p].(idle := store.pools[p].idle[1..])]);
        store := CloseConn(store, c);
        k := k + 1;
      }
      assert pool.idle[..k] == pool.idle;
      IdleExactly(s0, p);
      assert store.conns == Empty(s0, {p}).conns;
    }

    /** Empties the pools whose address is not to be kept. */
    method DropMissing(keep: map<Address, nat>)
      requires Good(store) && TableFits(store, pools)
      modifies this`store
      ensures store == Empty(old(store), Dropped(pools, keep))
    {
      hide Good, Empty;
      ghost var s0 := store;
      var todo := pools.Keys;
      ghost var done: set<nat> := {};
      EmptyNone(s0);
      while todo != {}
        invariant todo <= pools.Keys
        invariant done == set a | a in pools && a !in keep && a !in todo :: pools[a]
        invariant store == Empty(s0, done)
        decreases todo
      {
        var a :| a in todo;
        todo := todo - {a};
        if a !in keep {
          DropStep(s0, pools, done, a, todo, keep);
          EmptyPool(pools[a]);
          EmptyOneMore(s0, done, pools[a]);
          done := done + {pools[a]};
        }
      }
      assert done == Dropped(pools, keep);
    }

    /** resetInnerUsingPool. */
    method ResetInner(via: Address, dialed: bool, answer: Answer, down: set<Address>) returns (ok: bool)
      requires Inv(View()) && via in pools && !crashed
      modifies this, mapping
      ensures (View(), ok) == ResetUsing(old(View()), via, dialed, answer, down) && Inv(View())
    {
      hide Good, TableFits, Visits, Adopt, Get, Pools.Put, WorkFits, Extends, SameEmptied;
      ghost var s0 := View();
      ResetInv(s0, via, dialed, answer, down);
      var p := pools[via];
      assert Fits(store, via, p) by { TableEntry(s0, via); }
      IdleAreConns(store, p);
      var (b, g) := Get(store, p, dialed, Borrowed(p));
      if g.Refused? { return false; }
      BorrowInv(s0, via, dialed);
      AskedInv(s0, via, dialed, answer);
      store := b;
      if answer == NoArray(true) { store := Break(store, g.conn); }
      ghost var asked := Asked(s0, via, dialed, answer);
      assert View() == asked;
      RegroupInv(asked, via, answer, down, g.conn);
      if answer.NoArray? || answer.groups == [] {
        ok := false;
      } else {
        ok := Regrouped(via, answer.groups, down);
      }
      if !crashed { store := Put(store, p, g.conn); }
    }

    /** The loop over the slot groups and what follows it. */
    method Regrouped(via: Address, gs: seq<Group>, down: set<Address>) returns (ok: bool)
      requires Inv(View()) && !crashed
      modifies this, mapping
      ensures (View(), ok) == Adopt(old(View()),
          Visits(old(pools), via, down, Work(old(store), old(mapping[..]), map[], Going), gs))
    {
      hide Good, TableFits, Inv, WorkFits, Visits, Fill, Open, Empty, Dropped;
      ghost var s0 := View();
      ghost var w0 := Work(store, mapping[..], map[], Going);
      var found: map<Address, nat> := map[];
      var end := Going;
      var i := 0;
      InvParts(s0);
      NoVisits(pools, via, down, w0);
      while i < |gs| && end == Going
        invariant 0 <= i <= |gs| && View() == s0.(store := store, mapping := mapping[..])
        invariant Work(store, mapping[..], found, end) == Visits(pools, via, down, w0, gs[..i])
      {
        ghost var w := Work(store, mapping[..], found, end);
        var g := gs[i];
        OneMoreVisit(pools, via, down, w0, gs, i);
        if g.Malformed? {
          end := Failed;
        } else if g.Truncated? || !InRange(g) {
          end := Panicked;
        } else {
          var addr := SlotAddr(g, via);
          MappingLength(s0, via, down, w0, gs[..i]);
          FillSlots(g.start, g.end, addr);
          if addr in pools {
            found := found[addr := pools[addr]];
          } else if addr !in found {
            if addr in down {
              end := Stopped;
            } else {
              found := found[addr := |store.pools|];
              store := Open(store, addr);
            }
          }
        }
        assert Work(store, mapping[..], found, end) == Visit(pools, via, down, w, g);
        i := i + 1;
      }
      StuckVisits(pools, via, down, w0, gs, i);
      if end == Failed { return false; }
      if end == Panicked { crashed := true; return false; }
      DropReady(s0, via, down, w0, gs);
      DropMissing(found);
      pools := found;
      return true;
    }

    /** Close's closure: every pool emptied and taken out of the table. */
    method CloseAll()
      requires Inv(View())
      modifies this
      ensures View() == CloseTable(old(View())) && Inv(View())
    {
      hide Good, Empty;
      CloseTableInv(View());
      DropMissing(map[]);
      assert Dropped(pools, map[]) == Values(pools);
      pools := map[];
    }
  }

  function ClosedIf(conn: Conn, hit: bool): Conn {
    if hit then conn.(open := false, owner := Nobody) else conn
  }

  lemma IdleExactly(s: Store, p: nat)
    requires Good(s) && p < |s.pools|
    ensures forall c | 0 <= c < |s.conns| :: c in s.pools[p].idle <==> s.conns[c].owner == IdleIn(p)
  {
    forall c | 0 <= c < |s.conns| ensures c in s.pools[p].idle <==> s.conns[c].owner == IdleIn(p) {
      assert GoodPool(s, p) && GoodConn(s, c);
      if c in s.pools[p].idle {
        var i :| 0 <= i < |s.pools[p].idle| && s.pools[p].idle[i] == c;
        assert HoldsOwn(s, p, s.pools[p].idle[i]);
      }
    }
  }

  lemma DropStep(s0: Store, table: map<Address, nat>, done: set<nat>, a: Address, todo: set<Address>,
      keep: map<Address, nat>)
    requires Good(s0) && TableFits(s0, table) && a in table && a !in keep && a !in todo
    requires done == set b | b in table && b !in keep && b !in todo + {a} :: table[b]
    ensures Good(Empty(s0, done)) && table[a] < |Empty(s0, done).pools| && table[a] !in done
    ensures done + {table[a]} == set b | b in table && b !in keep && b !in todo :: table[b]
  {
    hide Good;
    assert Fits(s0, a, table[a]);
    forall p | p in done ensures p < |s0.pools| && s0.pools[p].emptied == 0 && p != table[a] {
      var b :| b in table && b !in keep && b !in todo + {a} && table[b] == p;
      assert Fits(s0, b, p);
    }
    EmptyGood(s0, done);
  }

  lemma TableEntry(s: State, a: Address)
    requires Inv(s) && a in s.table
    ensures Fits(s.store, a, s.table[a])
  {
  }

  lemma MappingLength(s: State, self: Address, down: set<Address>, w: Work, gs: seq<Group>)
    requires Good(s.store) && TableFits(s.store, s.table) && |s.mapping| == Routing.NUM_SLOTS
    requires w == Work(s.store, s.mapping, map[], Going)
    ensures |Visits(s.table, self, down, w, gs).mapping| == Routing.NUM_SLOTS
  {
    hide Visits;
    StartsFit(s.store, s.table, s.mapping);
    VisitsFit(s.store, s.table, self, down, w, gs);
  }

  lemma DropReady(s: State, self: Address, down: set<Address>, w: Work, gs: seq<Group>)
    requires Good(s.store) && TableFits(s.store, s.table) && |s.mapping| == Routing.NUM_SLOTS
    requires w == Work(s.store, s.mapping, map[], Going)
    ensures var v := Visits(s.table, self, down, w, gs); Good(v.store) && TableFits(v.store, s.table)
  {
    hide Visits, Good;
    StartsFit(s.store, s.table, s.mapping);
    VisitsFit(s.store, s.table, self, down, w, gs);
    TableLasts(s.store, Visits(s.table, self, down, w, gs).store, s.table);
  }
}
