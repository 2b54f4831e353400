/** The cluster client's topology: the table of pools, the slot mapping, and the closures that change them, each one
    atomic step among the steps of any number of callers. */
module Cluster {
  import opened Words
  import opened Pools
  import Decimal
  import Routing

  datatype State = State(
    store: Store,
    started: bool,
    closed: bool,
    spinning: bool,
    table: map<Address, nat>,
    mapping: seq<Address>,
    handed: set<nat>,
    crashed: bool)

  function New(size: nat): State
    requires size >= 1
  {
    State(Store(size, [], []), false, false, false, map[], seq(Routing.NUM_SLOTS, _ => []), {}, false)
  }

  /** No pool in the table has been emptied, the pool under an address dials that address; a caller can only hold pools
      that exist; before the start there is nothing. */
  ghost predicate Inv(s: State) {
    && Good(s.store)
    && |s.mapping| == Routing.NUM_SLOTS
    && TableFits(s.store, s.table)
    && (forall p | p in s.handed :: p < |s.store.pools|)
    && (!s.started ==> s.table == map[] && !s.spinning)
  }

  ghost predicate TableFits(store: Store, table: map<Address, nat>) {
    forall a | a in table :: Fits(store, a, table[a])
  }

  predicate Fits(store: Store, a: Address, p: nat) {
    p < |store.pools| && store.pools[p].addr == a && store.pools[p].emptied == 0
  }

  //---- the closures ------------------------------------------------------------------------------------------------

  /** startWithRetry, one round. */
  function Start(s: State, addr: Address, dialed: bool): State {
    if s.closed || s.started || !dialed then s
    else
      var store := Open(s.store, addr);
      s.(store := if addr in s.table then Empty(store, {s.table[addr]}) else store,
         table := s.table[addr := |s.store.pools|], started := true, spinning := true)
  }

  /** getConn's closure: the pool handed to the caller. With no pool at all, Get on the zero pool panics. */
  function Lookup(s: State, addr: Address, dialed: bool, any: Address): (State, Option<nat>)
    requires any in s.table || s.table == map[]
  {
    if addr in s.table then (s.(handed := s.handed + {s.table[addr]}), Some(s.table[addr]))
    else if dialed then
      var p := |s.store.pools|;
      (s.(store := Open(s.store, addr), table := s.table[addr := p], handed := s.handed + {p}), Some(p))
    else if s.table == map[] then (s.(crashed := true), None)
    else (s.(handed := s.handed + {s.table[any]}), Some(s.table[any]))
  }

  function Take(s: State, tid: nat, p: nat, dialed: bool): (State, Got)
    requires Inv(s) && p < |s.store.pools|
  {
    IdleAreConns(s.store, p);
    var (store, g) := Get(s.store, p, dialed, Caller(tid));
    (s.(store := store), g)
  }

  /** Cluster.Put's closure. */
  function PutLookup(s: State, tid: nat, c: nat): State
    requires c < |s.store.conns|
  {
    var conn := s.store.conns[c];
    s.(store := if conn.addr in s.table then SetConn(s.store, c, conn.(owner := Putting(tid, s.table[conn.addr])))
                else CloseConn(s.store, c))
  }

  function PutDone(s: State, c: nat): State
    requires c < |s.store.conns| && s.store.conns[c].owner.Putting? && s.store.conns[c].owner.pool < |s.store.pools|
  {
    s.(store := Put(s.store, s.store.conns[c].owner.pool, c))
  }

  /** A read or write error on a connection in use: LastCritical set, connection closed. */
  function Break(store: Store, c: nat): Store
    requires c < |store.conns|
  {
    SetConn(store, c, store.conns[c].(critical := true, open := false))
  }

  /** The ping routine of a pool takes a connection of that pool, and puts it back with the plain Pool.Put. */
  function PingTake(s: State, p: nat, dialed: bool): State
    requires Inv(s) && p < |s.store.pools|
  {
    IdleAreConns(s.store, p);
    s.(store := Get(s.store, p, dialed, Borrowed(p)).0)
  }

  function PingPut(s: State, c: nat): State
    requires c < |s.store.conns| && s.store.conns[c].owner.Borrowed? && s.store.conns[c].owner.pool < |s.store.pools|
  {
    s.(store := PoolPut(s.store, s.store.conns[c].owner.pool, c))
  }

  /** Close's closure. */
  function CloseTable(s: State): State {
    s.(store := Empty(s.store, Values(s.table)), table := map[])
  }

  function Values(table: map<Address, nat>): set<nat> {
    set a | a in table :: table[a]
  }

  //---- reset -------------------------------------------------------------------------------------------------------

  /** One element of the CLUSTER SLOTS reply: a range and its master, an element some accessor refuses, or one too short
      for the indexing. */
  datatype Group = Listed(start: int, end: int, ip: Bytes, port: int) | Malformed | Truncated

  datatype Answer = NoArray(io: bool) | Slots(groups: seq<Group>)

  datatype Ending = Going | Stopped | Failed | Panicked

  datatype Work = Work(store: Store, mapping: seq<Address>, found: map<Address, nat>, end: Ending)

  /** A blank ip stands for the node that was asked. */
  function SlotAddr(g: Group, self: Address): Address
    requires g.Listed?
  {
    if g.ip == [] then self else g.ip + [58] + Decimal.Print(g.port)
  }

  function Fill(mapping: seq<Address>, start: int, end: int, addr: Address): (r: seq<Address>)
    ensures |r| == |mapping|
  {
    seq(|mapping|, i requires 0 <= i < |mapping| => if start <= i <= end then addr else mapping[i])
  }

  predicate InRange(g: Group)
    requires g.Listed?
  {
    g.start <= g.end ==> 0 <= g.start && g.end < Routing.NUM_SLOTS
  }

  /** The body of the loop over slot groups; a pool that cannot be opened ends the loop without an error. */
  function Visit(table: map<Address, nat>, self: Address, down: set<Address>, w: Work, g: Group): Work {
    if w.end != Going then w
    else if g.Malformed? then w.(end := Failed)
    else if g.Truncated? || !InRange(g) then w.(end := Panicked)
    else
      var addr := SlotAddr(g, self);
      var w := w.(mapping := Fill(w.mapping, g.start, g.end, addr));
      if addr in table then w.(found := w.found[addr := table[addr]])
      else if addr in w.found then w
      else if addr in down then w.(end := Stopped)
      else w.(store := Open(w.store, addr), found := w.found[addr := |w.store.pools|])
  }

  function Visits(table: map<Address, nat>, self: Address, down: set<Address>, w: Work, gs: seq<Group>): Work {
    if gs == [] then w else Visit(table, self, down, Visits(table, self, down, w, gs[..|gs| - 1]), gs[|gs| - 1])
  }

  function Dropped(table: map<Address, nat>, found: map<Address, nat>): set<nat> {
    set a | a in table && a !in found :: table[a]
  }

  /** What is left when resetInnerUsingPool has looked at every group it looks at; the flag says that no error is
      returned. After an error the groups already seen have changed the mapping and opened pools, but not the table. */
  function Adopt(s: State, w: Work): (State, bool) {
    match w.end
    case Failed => (s.(store := w.store, mapping := w.mapping), false)
    case Panicked => (s.(store := w.store, mapping := w.mapping, crashed := true), false)
    case _ => (s.(store := Empty(w.store, Dropped(s.table, w.found)), mapping := w.mapping, table := w.found), true)
  }

  function Regroup(s: State, self: Address, answer: Answer, down: set<Address>): (State, bool) {
    if answer.NoArray? || answer.groups == [] then (s, false)
    else Adopt(s, Visits(s.table, self, down, Work(s.store, s.mapping, map[], Going), answer.groups))
  }

  //---- what each closure keeps -------------------------------------------------------------------------------------

  /** Connections that caller tid holds are the same in both stores. */
  ghost predicate Undisturbed(s: Store, t: Store, tid: nat) {
    && |s.conns| <= |t.conns|
    && (forall c | 0 <= c < |s.conns| && HeldBy(s.conns[c], tid) :: t.conns[c] == s.conns[c])
    && (forall c | 0 <= c < |t.conns| && HeldBy(t.conns[c], tid) :: c < |s.conns| && HeldBy(s.conns[c], tid))
  }

  predicate HeldBy(conn: Conn, tid: nat) {
    conn.owner == Caller(tid) || (conn.owner.Putting? && conn.owner.tid == tid)
  }

  lemma TableLasts(s: Store, t: Store, table: map<Address, nat>)
    requires TableFits(s, table) && Extends(s, t) && SameEmptied(s, t)
    ensures TableFits(t, table)
  {
    forall a | a in table ensures Fits(t, a, table[a]) { assert Fits(s, a, table[a]); }
  }

  lemma StartInv(s: State, addr: Address, dialed: bool)
    requires Inv(s)
    ensures Inv(Start(s, addr, dialed)) && Extends(s.store, Start(s, addr, dialed).store)
    ensures var t := Start(s, addr, dialed);
            if !s.closed && !s.started && dialed
            then t.started && t.spinning && t.table.Keys == {addr} && |t.store.pools[t.table[addr]].idle| == 1
            else t == s
  {
    OpenGood(s.store, addr);
  }

  lemma LookupInv(s: State, addr: Address, dialed: bool, any: Address)
    requires Inv(s) && s.started && (any in s.table || s.table == map[])
    ensures var (t, p) := Lookup(s, addr, dialed, any);
            && Inv(t) && t.started && t.spinning == s.spinning && Extends(s.store, t.store)
            && (p.Some? ==> p.value in t.handed)
            && (p.None? <==> addr !in s.table && !dialed && s.table == map[]) && (t.crashed <==> s.crashed || p.None?)
            && (addr in s.table || dialed ==> p.Some? && t.store.pools[p.value].addr == addr)
            && (forall tid :: Undisturbed(s.store, t.store, tid))
  {
    if addr !in s.table && dialed {
      OpenGood(s.store, addr);
      TableLasts(s.store, Open(s.store, addr), s.table);
    }
    if addr in s.table { assert Fits(s.store, addr, s.table[addr]); }
    if any in s.table { assert Fits(s.store, any, s.table[any]); }
  }

  /** A change of store that opens and empties no pool keeps the invariant. */
  lemma StoreInv(s: State, t: Store)
    requires Inv(s) && Good(t) && Extends(s.store, t) && SameEmptied(s.store, t)
    ensures Inv(s.(store := t))
  {
    TableLasts(s.store, t, s.table);
  }

  lemma TakeInv(s: State, tid: nat, p: nat, dialed: bool)
    requires Inv(s) && p < |s.store.pools|
    ensures var (t, g) := Take(s, tid, p, dialed);
            && Inv(t) && Extends(s.store, t.store) && t == s.(store := t.store)
            && (g.Refused? ==> t == s)
            && (g.Got? ==> g.conn < |t.store.conns| && g.conn <= |s.store.conns|
                           && t.store.conns[g.conn] == Conn(s.store.pools[p].addr, true, false, Caller(tid))
                           && (g.conn < |s.store.conns| ==> s.store.conns[g.conn].owner == IdleIn(p))
                           && (forall c | 0 <= c < |s.store.conns| && c != g.conn ::
                               t.store.conns[c] == s.store.conns[c])
                           && |t.store.conns| <= (if g.conn < |s.store.conns| then |s.store.conns| else g.conn + 1))
            && (forall other | other != tid :: Undisturbed(s.store, t.store, other))
  {
    GetGood(s.store, p, dialed, Caller(tid));
    StoreInv(s, Take(s, tid, p, dialed).0.store);
  }

  lemma PutLookupInv(s: State, tid: nat, c: nat)
    requires Inv(s) && c < |s.store.conns| && s.store.conns[c].owner == Caller(tid)
    ensures var t := PutLookup(s, tid, c);
            && Inv(t) && Extends(s.store, t.store) && |t.store.conns| == |s.store.conns|
            && (forall other | other != tid :: Undisturbed(s.store, t.store, other))
            && (forall d | 0 <= d < |s.store.conns| && d != c :: t.store.conns[d] == s.store.conns[d])
            && (HeldBy(t.store.conns[c], tid) <==> t.store.conns[c].owner.Putting?)
            && (t.store.conns[c].owner.Putting? || (t.store.conns[c].owner.Nobody? && !t.store.conns[c].open))
  {
    hide Good, TableFits, Extends, SameEmptied;
    PutLookupGood(s, tid, c);
  }

  lemma PutLookupGood(s: State, tid: nat, c: nat)
    requires Inv(s) && c < |s.store.conns| && s.store.conns[c].owner == Caller(tid)
    ensures Inv(PutLookup(s, tid, c)) && Extends(s.store, PutLookup(s, tid, c).store)
  {
    hide Good, GoodConn, GoodPool;
    var conn := s.store.conns[c];
    HeldOpenUnlessCritical(s.store, c);
    if conn.addr in s.table {
      assert Fits(s.store, conn.addr, s.table[conn.addr]);
      SetConnGood(s.store, c, conn.(owner := Putting(tid, s.table[conn.addr])));
    } else {
      SetConnGood(s.store, c, conn.(open := false, owner := Nobody));
    }
    StoreInv(s, PutLookup(s, tid, c).store);
  }

  lemma HeldOpenUnlessCritical(s: Store, c: nat)
    requires Good(s) && c < |s.conns| && s.conns[c].owner.Caller?
    ensures s.conns[c].open != s.conns[c].critical
  {
    assert GoodConn(s, c);
  }

  lemma PutDoneInv(s: State, c: nat)
    requires Inv(s) && c < |s.store.conns| && s.store.conns[c].owner.Putting?
    ensures s.store.conns[c].owner.pool < |s.store.pools|
    ensures var t := PutDone(s, c);
            && Inv(t) && t == s.(store := t.store) && Extends(s.store, t.store) && |t.store.conns| == |s.store.conns|
            && (forall other | other != s.store.conns[c].owner.tid :: Undisturbed(s.store, t.store, other))
            && (forall d | 0 <= d < |s.store.conns| && d != c :: t.store.conns[d] == s.store.conns[d])
            && (t.store.conns[c].owner.IdleIn? || (t.store.conns[c].owner.Nobody? && !t.store.conns[c].open))
  {
    assert GoodConn(s.store, c);
    PutGood(s.store, s.store.conns[c].owner.pool, c);
    StoreInv(s, PutDone(s, c).store);
  }

  lemma BreakInv(s: State, c: nat)
    requires Inv(s) && c < |s.store.conns| && (s.store.conns[c].owner.Caller? || s.store.conns[c].owner.Borrowed?)
    ensures var t := s.(store := Break(s.store, c));
            && Inv(t) && Extends(s.store, t.store) && SameEmptied(s.store, t.store)
                && |t.store.conns| == |s.store.conns|
            && (forall d | 0 <= d < |s.store.conns| && d != c :: t.store.conns[d] == s.store.conns[d])
            && t.store.conns[c].owner == s.store.conns[c].owner
    ensures s.store.conns[c].owner.Borrowed? ==> forall tid :: Undisturbed(s.store, Break(s.store, c), tid)
  {
    assert GoodConn(s.store, c);
    SetConnGood(s.store, c, s.store.conns[c].(critical := true, open := false));
    StoreInv(s, Break(s.store, c));
  }

  lemma PingTakeInv(s: State, p: nat, dialed: bool)
    requires Inv(s) && p < |s.store.pools|
    ensures Inv(PingTake(s, p, dialed)) && Extends(s.store, PingTake(s, p, dialed).store)
    ensures forall tid :: Undisturbed(s.store, PingTake(s, p, dialed).store, tid)
  {
    GetGood(s.store, p, dialed, Borrowed(p));
    StoreInv(s, PingTake(s, p, dialed).store);
  }

  lemma PingPutInv(s: State, c: nat)
    requires Inv(s) && c < |s.store.conns| && s.store.conns[c].owner.Borrowed?
    ensures s.store.conns[c].owner.pool < |s.store.pools|
    ensures Inv(PingPut(s, c)) && Extends(s.store, PingPut(s, c).store)
    ensures forall tid :: Undisturbed(s.store, PingPut(s, c).store, tid)
  {
    assert GoodConn(s.store, c);
    PutGood(s.store, s.store.conns[c].owner.pool, c);
    StoreInv(s, PingPut(s, c).store);
  }

  lemma CloseTableInv(s: State)
    requires Inv(s)
    ensures Inv(CloseTable(s)) && Extends(s.store, CloseTable(s).store)
    ensures forall tid :: Undisturbed(s.store, CloseTable(s).store, tid)
  {
    forall p | p in Values(s.table) ensures p < |s.store.pools| && s.store.pools[p].emptied == 0 {
      var a :| a in s.table && s.table[a] == p;
      assert Fits(s.store, a, p);
    }
    EmptyGood(s.store, Values(s.table));
  }

  /** While groups are visited: old and new entries are live pools of their address, an old address keeps its pool, a
      new one has a pool opened by this reset. */
  ghost predicate WorkFits(s: Store, table: map<Address, nat>, w: Work) {
    && Good(w.store) && Extends(s, w.store) && SameEmptied(s, w.store) && w.store.conns[..|s.conns|] == s.conns
    && (forall c | |s.conns| <= c < |w.store.conns| :: w.store.conns[c].owner.IdleIn?)
    && |w.mapping| == Routing.NUM_SLOTS
    && TableFits(w.store, w.found)
    && (forall a | a in w.found :: if a in table then w.found[a] == table[a] else w.found[a] >= |s.pools|)
    && (forall p | |s.pools| <= p < |w.store.pools| ::
        w.store.pools[p].addr in w.found && w.found[w.store.pools[p].addr] == p)
  }

  lemma OpenFits(s: Store, table: map<Address, nat>, w: Work, addr: Address)
    requires WorkFits(s, table, w) && addr !in table && addr !in w.found
    ensures WorkFits(s, table, w.(store := Open(w.store, addr), found := w.found[addr := |w.store.pools|]))
  {
    hide Good;
    OpenGood(w.store, addr);
    TableLasts(w.store, Open(w.store, addr), w.found);
  }

  lemma KeepFits(s: Store, table: map<Address, nat>, w: Work, addr: Address)
    requires TableFits(s, table) && WorkFits(s, table, w) && addr in table
    ensures WorkFits(s, table, w.(found := w.found[addr := table[addr]]))
  {
    hide Good;
    assert Fits(s, addr, table[addr]);
    assert Fits(w.store, addr, table[addr]);
  }

  lemma VisitFits(s: Store, table: map<Address, nat>, self: Address, down: set<Address>, w: Work, g: Group)
    requires TableFits(s, table) && WorkFits(s, table, w)
    ensures WorkFits(s, table, Visit(table, self, down, w, g))
  {
    hide WorkFits, Fill, SlotAddr, Open;
    if w.end == Going {
      if g.Listed? && InRange(g) {
        var addr := SlotAddr(g, self);
        var v := w.(mapping := Fill(w.mapping, g.start, g.end, addr));
        FilledFits(s, table, w, v.mapping, w.end);
        if addr in table { KeepFits(s, table, v, addr); }
        else if addr !in w.found && addr !in down { OpenFits(s, table, v, addr); }
        FilledFits(s, table, v, v.mapping, Stopped);
      } else {
        FilledFits(s, table, w, w.mapping, Failed);
        FilledFits(s, table, w, w.mapping, Panicked);
      }
    }
  }

  lemma FilledFits(s: Store, table: map<Address, nat>, w: Work, mapping: seq<Address>, end: Ending)
    requires WorkFits(s, table, w) && |mapping| == |w.mapping|
    ensures WorkFits(s, table, w.(mapping := mapping, end := end))
  {
  }

  lemma {:induction false} VisitsFit(s: Store, table: map<Address, nat>, self: Address, down: set<Address>, w: Work,
      gs: seq<Group>)
    requires TableFits(s, table) && WorkFits(s, table, w)
    ensures WorkFits(s, table, Visits(table, self, down, w, gs))
  {
    hide WorkFits;
    if gs != [] {
      VisitsFit(s, table, self, down, w, gs[..|gs| - 1]);
      VisitFits(s, table, self, down, Visits(table, self, down, w, gs[..|gs| - 1]), gs[|gs| - 1]);
    }
  }

  lemma StartsFit(s: Store, table: map<Address, nat>, mapping: seq<Address>)
    requires Good(s) && |mapping| == Routing.NUM_SLOTS
    ensures WorkFits(s, table, Work(s, mapping, map[], Going))
  {
  }

  lemma DropGood(s: State, w: Work)
    requires Inv(s) && WorkFits(s.store, s.table, w)
    ensures var t := Empty(w.store, Dropped(s.table, w.found)); Good(t) && Extends(s.store, t)
  {
    hide Good;
    var drop := Dropped(s.table, w.found);
    forall p | p in drop ensures p < |w.store.pools| && w.store.pools[p].emptied == 0 {
      var a :| a in s.table && a !in w.found && s.table[a] == p;
      assert Fits(s.store, a, p);
    }
    EmptyGood(w.store, drop);
  }

  lemma FoundSpared(s: State, w: Work)
    requires Inv(s) && WorkFits(s.store, s.table, w)
    ensures TableFits(Empty(w.store, Dropped(s.table, w.found)), w.found)
  {
    hide Good;
    var drop := Dropped(s.table, w.found);
    forall a | a in w.found ensures Fits(Empty(w.store, drop), a, w.found[a]) {
      assert Fits(w.store, a, w.found[a]);
      forall b | b in s.table && b !in w.found ensures s.table[b] != w.found[a] { assert Fits(s.store, b, s.table[b]); }
    }
  }

  /** Only pools of the old table that are not in the new one are emptied, so none twice and none in the new table. */
  lemma AdoptInv(s: State, w: Work)
    requires Inv(s) && s.started && WorkFits(s.store, s.table, w)
    ensures var (t, _) := Adopt(s, w);
            Inv(t) && t.started && Extends(s.store, t.store) && (forall tid :: Undisturbed(s.store, t.store, tid))
  {
    AdoptUndisturbed(s, w);
    hide Good, Undisturbed;
    DropGood(s, w);
    FoundSpared(s, w);
    if w.end == Failed || w.end == Panicked { TableLasts(s.store, w.store, s.table); }
  }

  lemma ConnsKept(s: Store, table: map<Address, nat>, w: Work)
    requires WorkFits(s, table, w)
    ensures |s.conns| <= |w.store.conns|
    ensures forall c | 0 <= c < |s.conns| :: w.store.conns[c] == s.conns[c]
    ensures forall c | |s.conns| <= c < |w.store.conns| :: w.store.conns[c].owner.IdleIn?
  {
    forall c | 0 <= c < |s.conns| ensures w.store.conns[c] == s.conns[c] {
      assert w.store.conns[..|s.conns|][c] == s.conns[c];
    }
  }

  lemma AdoptUndisturbed(s: State, w: Work)
    requires WorkFits(s.store, s.table, w)
    ensures forall tid :: Undisturbed(s.store, Adopt(s, w).0.store, tid)
  {
    hide WorkFits, Dropped;
    ConnsKept(s.store, s.table, w);
  }
}
