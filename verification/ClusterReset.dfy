/** What a reset does to the slot mapping, the table of pools and the pools themselves. */
module ClusterReset {
  import opened Words
  import opened Pools
  import opened Cluster
  import Routing
  import Decimal

  /** resetInnerUsingPool through the pool under address via; down holds the addresses that cannot be dialed now. The
      flag says that no error is returned. */
  function ResetUsing(s: State, via: Address, dialed: bool, answer: Answer, down: set<Address>): (State, bool)
    requires Inv(s) && via in s.table
  {
    var p := s.table[via];
    var (b, g) := BorrowFor(s, via, dialed);
    if g.Refused? then (s, false)
    else
      AskedInv(s, via, dialed, answer);
      var asked := Asked(s, via, dialed, answer);
      var (r, ok) := Regroup(asked, via, answer, down);
      RegroupInv(asked, via, answer, down, g.conn);
      if r.crashed then (r, ok) else (r.(store := Put(r.store, p, g.conn)), ok)
  }

  function BorrowFor(s: State, via: Address, dialed: bool): (State, Got)
    requires Inv(s) && via in s.table
  {
    assert Fits(s.store, via, s.table[via]);
    IdleAreConns(s.store, s.table[via]);
    var (store, g) := Get(s.store, s.table[via], dialed, Borrowed(s.table[via]));
    (s.(store := store), g)
  }

  lemma BorrowInv(s: State, via: Address, dialed: bool)
    requires Inv(s) && via in s.table
    ensures var (b, g) := BorrowFor(s, via, dialed);
            && Inv(b) && b == s.(store := b.store) && Extends(s.store, b.store) && SameEmptied(s.store, b.store)
            && |b.store.pools| == |s.store.pools|
            && (g.Refused? ==> b == s)
            && (g.Got? ==> LentBy(b, via, g.conn))
            && (forall tid :: Undisturbed(s.store, b.store, tid))
  {
    hide Good;
    assert Fits(s.store, via, s.table[via]);
    GetGood(s.store, s.table[via], dialed, Borrowed(s.table[via]));
    StoreInv(s, BorrowFor(s, via, dialed).0.store);
  }

  /** The connection used for the reset belongs to the node asked and will be put back in its pool. */
  ghost predicate LentBy(s: State, via: Address, c: nat) {
    via in s.table && c < |s.store.conns| && s.store.conns[c].owner == Borrowed(s.table[via])
        && s.store.conns[c].addr == via
  }

  /** The connection is borrowed and CLUSTER SLOTS was sent on it; a read error closed it. */
  function Asked(s: State, via: Address, dialed: bool, answer: Answer): State
    requires Inv(s) && via in s.table && BorrowFor(s, via, dialed).1.Got?
  {
    BorrowInv(s, via, dialed);
    var (b, g) := BorrowFor(s, via, dialed);
    if answer == NoArray(true) then b.(store := Break(b.store, g.conn)) else b
  }

  lemma AskedInv(s: State, via: Address, dialed: bool, answer: Answer)
    requires Inv(s) && via in s.table && BorrowFor(s, via, dialed).1.Got?
    ensures var asked, g := Asked(s, via, dialed, answer), BorrowFor(s, via, dialed).1;
            && Inv(asked) && asked == s.(store := asked.store) && LentBy(asked, via, g.conn)
            && Extends(s.store, asked.store) && SameEmptied(s.store, asked.store)
            && |asked.store.pools| == |s.store.pools|
            && (forall tid :: Undisturbed(s.store, asked.store, tid))
  {
    hide Good, BorrowFor, Undisturbed;
    BorrowInv(s, via, dialed);
    var (b, g) := BorrowFor(s, via, dialed);
    BreakInv(b, g.conn);
    Chain(s.store, b.store, Break(b.store, g.conn), Break(b.store, g.conn));
  }

  lemma RegroupInv(s: State, via: Address, answer: Answer, down: set<Address>, c: nat)
    requires Inv(s) && LentBy(s, via, c)
    ensures var (r, _) := Regroup(s, via, answer, down);
            && Inv(r) && r.started && Extends(s.store, r.store) && (forall tid :: Undisturbed(s.store, r.store, tid))
            && c < |r.store.conns| && r.store.conns[c] == s.store.conns[c]
            && s.table[via] < |r.store.pools| && r.store.pools[s.table[via]].addr == via
  {
    hide Good, WorkFits, Undisturbed, Adopt, Visits;
    assert Fits(s.store, via, s.table[via]);
    Undisturbs(s.store);
    if answer.Slots? && answer.groups != [] {
      var w := Visits(s.table, via, down, Work(s.store, s.mapping, map[], Going), answer.groups);
      StartsFit(s.store, s.table, s.mapping);
      VisitsFit(s.store, s.table, via, down, Work(s.store, s.mapping, map[], Going), answer.groups);
      AdoptInv(s, w);
      LoanKept(s, w, c);
    }
  }

  lemma Undisturbs(s: Store)
    ensures forall tid :: Undisturbed(s, s, tid)
  {
  }

  lemma LoanKept(s: State, w: Work, c: nat)
    requires Inv(s) && WorkFits(s.store, s.table, w) && c < |s.store.conns| && !s.store.conns[c].owner.IdleIn?
    ensures c < |Adopt(s, w).0.store.conns| && Adopt(s, w).0.store.conns[c] == s.store.conns[c]
  {
    hide WorkFits, Dropped;
    ConnsKept(s.store, s.table, w);
  }

  /** Whatever the node answers and whichever nodes are down, a reset keeps the invariant, and the connection it used
      is idle in its live pool or closed when it returns. */
  lemma ResetInv(s: State, via: Address, dialed: bool, answer: Answer, down: set<Address>)
    requires Inv(s) && via in s.table
    ensures var (t, _) := ResetUsing(s, via, dialed, answer, down);
            && Inv(t) && t.started && Extends(s.store, t.store) && (forall tid :: Undisturbed(s.store, t.store, tid))
    ensures var (t, _) := ResetUsing(s, via, dialed, answer, down);
            var g := BorrowFor(s, via, dialed).1;
            g.Got? && !t.crashed ==> g.conn < |t.store.conns| && Returned(t.store, g.conn)
  {
    hide Good, Regroup, BorrowFor, Put, Undisturbed, Extends, SameEmptied, Returned, TableFits;
    var (b, g) := BorrowFor(s, via, dialed);
    BorrowInv(s, via, dialed);
    if g.Got? {
      var asked := Asked(s, via, dialed, answer);
      AskedInv(s, via, dialed, answer);
      RegroupInv(asked, via, answer, down, g.conn);
      var r := Regroup(asked, via, answer, down).0;
      var t := ResetUsing(s, via, dialed, answer, down).0.store;
      ExtendsChain(s.store, asked.store, r.store);
      if !r.crashed {
        GivenBack(r, s.table[via], g.conn);
        ExtendsChain(s.store, r.store, t);
      }
      Chain(s.store, asked.store, r.store, t);
    } else {
      Undisturbs(s.store);
    }
  }

  lemma ExtendsChain(a: Store, b: Store, c: Store)
    requires Extends(a, b) && Extends(b, c)
    ensures Extends(a, c)
  {
  }

  predicate Returned(s: Store, c: nat)
    requires c < |s.conns|
  {
    match s.conns[c].owner
    case IdleIn(p) => p < |s.pools| && s.pools[p].emptied == 0
    case Nobody => !s.conns[c].open
    case _ => false
  }

  lemma GivenBack(r: State, p: nat, c: nat)
    requires Inv(r) && p < |r.store.pools| && c < |r.store.conns|
    requires r.store.conns[c].owner == Borrowed(p) && r.store.conns[c].addr == r.store.pools[p].addr
    ensures var t := Put(r.store, p, c);
            && Inv(r.(store := t)) && Extends(r.store, t) && SameEmptied(r.store, t) && |t.conns| == |r.store.conns|
            && Returned(t, c) && (forall tid :: Undisturbed(r.store, t, tid))
  {
    hide Good;
    PutGood(r.store, p, c);
    StoreInv(r, Put(r.store, p, c));
  }

  lemma Chain(a: Store, b: Store, c: Store, d: Store)
    requires (forall tid :: Undisturbed(a, b, tid)) && (forall tid :: Undisturbed(b, c, tid))
    requires (c == d || forall tid :: Undisturbed(c, d, tid))
    ensures forall tid :: Undisturbed(a, d, tid)
  {
    forall tid ensures Undisturbed(a, d, tid) {
      assert Undisturbed(a, b, tid) && Undisturbed(b, c, tid) && (c == d || Undisturbed(c, d, tid));
    }
  }

  //---- the meaning of a reset --------------------------------------------------------------------------------------

  predicate Covers(g: Group, slot: int) {
    g.Listed? && g.start <= slot <= g.end
  }

  predicate WellFormed(g: Group) {
    g.Listed? && InRange(g)
  }

  function ListedAddrs(gs: seq<Group>, self: Address): set<Address>
  {
    set i | 0 <= i < |gs| && gs[i].Listed? :: SlotAddr(gs[i], self)
  }

  predicate Openable(table: map<Address, nat>, down: set<Address>, a: Address) {
    a in table || a !in down
  }

  /** Each slot has the address of the last listed group that covers it; a slot that none covers is unchanged. */
  ghost predicate LastOneWins(before: seq<Address>, after: seq<Address>, gs: seq<Group>, self: Address) {
    && |after| == |before|
    && (forall slot, j | 0 <= slot < |before| && 0 <= j < |gs| && Covers(gs[j], slot)
                         && (forall k | j < k < |gs| :: !Covers(gs[k], slot)) :: after[slot] == SlotAddr(gs[j], self))
    && (forall slot | 0 <= slot < |before| && (forall k | 0 <= k < |gs| :: !Covers(gs[k], slot)) ::
        after[slot] == before[slot])
  }

  lemma LastOneMore(before: seq<Address>, mid: seq<Address>, gs: seq<Group>, self: Address, g: Group)
    requires g.Listed? && LastOneWins(before, mid, gs, self)
    ensures LastOneWins(before, Fill(mid, g.start, g.end, SlotAddr(g, self)), gs + [g], self)
  {
    hide SlotAddr;
    var after, all := Fill(mid, g.start, g.end, SlotAddr(g, self)), gs + [g];
    forall slot, j | 0 <= slot < |before| && 0 <= j < |all| && Covers(all[j], slot)
                     && (forall k | j < k < |all| :: !Covers(all[k], slot))
      ensures after[slot] == SlotAddr(all[j], self)
    {
      if j < |gs| {
        assert !Covers(all[|gs|], slot);
        forall k | j < k < |gs| ensures !Covers(gs[k], slot) { assert !Covers(all[k], slot); }
      }
    }
    forall slot | 0 <= slot < |before| && (forall k | 0 <= k < |all| :: !Covers(all[k], slot))
      ensures after[slot] == before[slot]
    {
      assert !Covers(all[|gs|], slot);
      forall k | 0 <= k < |gs| ensures !Covers(gs[k], slot) { assert !Covers(all[k], slot); }
    }
  }

  /** A pass over well-formed groups whose new addresses can all be dialed sees every one of them. */
  lemma {:induction false} FullPass(table: map<Address, nat>, self: Address, down: set<Address>, w: Work,
      gs: seq<Group>)
    requires (forall i | 0 <= i < |gs| :: WellFormed(gs[i])) && w.end == Going && w.found == map[]
    requires forall a | a in ListedAddrs(gs, self) :: Openable(table, down, a)
    ensures var v := Visits(table, self, down, w, gs);
            v.end == Going && v.found.Keys == ListedAddrs(gs, self) && LastOneWins(w.mapping, v.mapping, gs, self)
  {
    hide SlotAddr, Fill, Open, InRange, LastOneWins;
    if gs == [] {
      NothingListed(w.mapping, self);
    } else {
      var init, g := gs[..|gs| - 1], gs[|gs| - 1];
      assert gs == init + [g] && WellFormed(g);
      forall i | 0 <= i < |init| ensures WellFormed(init[i]) { assert init[i] == gs[i]; }
      ListedOneMore(init, g, self);
      FullPass(table, self, down, w, init);
      var v := Visits(table, self, down, w, init);
      assert Openable(table, down, SlotAddr(g, self));
      LastOneMore(w.mapping, v.mapping, init, self, g);
    }
  }

  lemma NothingListed(m: seq<Address>, self: Address)
    ensures LastOneWins(m, m, [], self)
  {
  }

  lemma ListedOneMore(gs: seq<Group>, g: Group, self: Address)
    requires g.Listed?
    ensures ListedAddrs(gs + [g], self) == ListedAddrs(gs, self) + {SlotAddr(g, self)}
  {
    hide SlotAddr;
    var all := gs + [g];
    forall a | a in ListedAddrs(gs, self) + {SlotAddr(g, self)} ensures a in ListedAddrs(all, self) {
      if a == SlotAddr(g, self) { assert all[|gs|] == g; }
      else {
        var i :| 0 <= i < |gs| && gs[i].Listed? && SlotAddr(gs[i], self) == a;
        assert all[i] == gs[i];
      }
    }
  }

  /** A pass never finds a pool for a new address that cannot be dialed. */
  lemma {:induction false} FoundOpenable(table: map<Address, nat>, self: Address, down: set<Address>, w: Work,
      gs: seq<Group>)
    requires forall a | a in w.found :: Openable(table, down, a)
    ensures forall a | a in Visits(table, self, down, w, gs).found :: Openable(table, down, a)
  {
    hide SlotAddr, Fill, Open, InRange;
    if gs != [] { FoundOpenable(table, self, down, w, gs[..|gs| - 1]); }
  }

  /** A pass over well-formed groups never ends in an error. */
  lemma {:induction false} NoError(table: map<Address, nat>, self: Address, down: set<Address>, w: Work, gs: seq<Group>)
    requires (forall i | 0 <= i < |gs| :: WellFormed(gs[i])) && w.end == Going
    ensures Visits(table, self, down, w, gs).end in {Going, Stopped}
  {
    hide SlotAddr, Fill, Open;
    if gs != [] {
      var init := gs[..|gs| - 1];
      forall i | 0 <= i < |init| ensures WellFormed(init[i]) { assert init[i] == gs[i]; }
      NoError(table, self, down, w, init);
      assert WellFormed(gs[|gs| - 1]);
    }
  }

  ghost predicate DroppedEmptied(s: State, t: State) {
    && |s.store.pools| <= |t.store.pools|
    && (forall a | a in s.table && s.table[a] < |t.store.pools| ::
          t.store.pools[s.table[a]].emptied == if a in t.table then 0 else 1)
    && (forall p | 0 <= p < |s.store.pools| && p !in Values(s.table) ::
        t.store.pools[p].emptied == s.store.pools[p].emptied)
  }

  ghost predicate KeptOrNew(s: State, t: State) {
    && (forall a | a in t.table :: if a in s.table then t.table[a] == s.table[a] else t.table[a] >= |s.store.pools|)
    && (forall p | |s.store.pools| <= p < |t.store.pools| ::
          && t.store.pools[p].addr !in s.table && t.store.pools[p].addr in t.table
              && t.table[t.store.pools[p].addr] == p)
  }

  lemma DropExactly(s: State, w: Work, a: Address)
    requires Inv(s) && a in s.table
    ensures Fits(s.store, a, s.table[a]) && (s.table[a] in Dropped(s.table, w.found) <==> a !in w.found)
  {
    hide Good;
    assert Fits(s.store, a, s.table[a]);
    if s.table[a] in Dropped(s.table, w.found) {
      var b :| b in s.table && b !in w.found && s.table[b] == s.table[a];
      assert Fits(s.store, b, s.table[b]);
    }
  }

  lemma AdoptEmpties(s: State, w: Work)
    requires Inv(s) && WorkFits(s.store, s.table, w) && w.end in {Going, Stopped}
    ensures DroppedEmptied(s, Adopt(s, w).0)
  {
    hide Good, TableFits, Extends;
    forall a | a in s.table
      ensures Fits(s.store, a, s.table[a]) && (s.table[a] in Dropped(s.table, w.found) <==> a !in w.found)
    {
      DropExactly(s, w, a);
    }
  }

  lemma AdoptMeaning(s: State, w: Work)
    requires Inv(s) && WorkFits(s.store, s.table, w) && w.end in {Going, Stopped}
    ensures DroppedEmptied(s, Adopt(s, w).0) && KeptOrNew(s, Adopt(s, w).0)
  {
    hide Good, DroppedEmptied, Dropped, SameEmptied;
    AdoptEmpties(s, w);
    forall a | a in s.table ensures Fits(s.store, a, s.table[a]) { assert Fits(s.store, a, s.table[a]); }
  }

  lemma PutKeepsMeaning(s: State, r: State, t: State)
    requires DroppedEmptied(s, r) && KeptOrNew(s, r) && t == r.(store := t.store)
    requires Extends(r.store, t.store) && SameEmptied(r.store, t.store) && |t.store.pools| == |r.store.pools|
    ensures DroppedEmptied(s, t) && KeptOrNew(s, t)
  {
  }

  /** After a reset answered with well-formed groups, every pool that left the table was emptied exactly once and no
      other was touched; a kept address keeps its pool; at most one pool was opened per new address, and it is in the
      table. */
  lemma ResetMovesPools(s: State, via: Address, dialed: bool, gs: seq<Group>, down: set<Address>)
    requires Inv(s) && via in s.table && BorrowFor(s, via, dialed).1.Got?
    requires gs != [] && (forall i | 0 <= i < |gs| :: WellFormed(gs[i]))
    ensures var (t, ok) := ResetUsing(s, via, dialed, Slots(gs), down);
            ok && (t.crashed <==> s.crashed) && (!s.crashed ==> DroppedEmptied(s, t) && KeptOrNew(s, t))
  {
    hide Good, BorrowFor, Put, WorkFits, DroppedEmptied, KeptOrNew, Visits, WellFormed, Inv, TableFits;
    var (b, g) := BorrowFor(s, via, dialed);
    BorrowInv(s, via, dialed);
    AskedInv(s, via, dialed, Slots(gs));
    var w0 := Work(b.store, s.mapping, map[], Going);
    var w := Visits(s.table, via, down, w0, gs);
    var r := Adopt(b, w).0;
    InvParts(b);
    StartsFit(b.store, s.table, s.mapping);
    VisitsFit(b.store, s.table, via, down, w0, gs);
    NoError(s.table, via, down, w0, gs);
    AdoptMeaning(b, w);
    RegroupInv(b, via, Slots(gs), down, g.conn);
    if !s.crashed {
      InvParts(r);
      GivenBack(r, s.table[via], g.conn);
      SamePools(r.store, s.table[via], g.conn);
      var t := ResetUsing(s, via, dialed, Slots(gs), down).0;
      PutKeepsMeaning(b, r, t);
      BorrowKeepsMeaning(s, b, t);
    }
  }

  lemma InvParts(s: State)
    requires Inv(s)
    ensures Good(s.store) && TableFits(s.store, s.table) && |s.mapping| == Routing.NUM_SLOTS
  {
  }

  lemma SamePools(s: Store, p: nat, c: nat)
    requires p < |s.pools| && c < |s.conns|
    ensures |Put(s, p, c).pools| == |s.pools|
  {
  }

  lemma BorrowKeepsMeaning(s: State, b: State, t: State)
    requires DroppedEmptied(b, t) && KeptOrNew(b, t) && b == s.(store := b.store)
    requires SameEmptied(s.store, b.store) && |b.store.pools| == |s.store.pools|
    ensures DroppedEmptied(s, t) && KeptOrNew(s, t)
  {
  }

  /** After a reset in which every new node can be dialed: the table's addresses are exactly the listed ones, and each
      slot maps to the last listed group that covers it, the others being unchanged. */
  lemma ResetMeaning(s: State, via: Address, dialed: bool, gs: seq<Group>, down: set<Address>)
    requires Inv(s) && !s.crashed && via in s.table && BorrowFor(s, via, dialed).1.Got?
    requires gs != [] && (forall i | 0 <= i < |gs| :: WellFormed(gs[i]))
    requires forall a | a in ListedAddrs(gs, via) :: Openable(s.table, down, a)
    ensures var (t, _) := ResetUsing(s, via, dialed, Slots(gs), down);
            t.table.Keys == ListedAddrs(gs, via) && LastOneWins(s.mapping, t.mapping, gs, via)
  {
    hide BorrowFor, Put, Visits, WellFormed, ListedAddrs, LastOneWins, Inv;
    var (b, g) := BorrowFor(s, via, dialed);
    BorrowInv(s, via, dialed);
    var w0 := Work(b.store, s.mapping, map[], Going);
    FullPass(s.table, via, down, w0, gs);
    RegroupInv(b, via, Slots(gs), down, g.conn);
  }

  //---- the addresses themselves ------------------------------------------------------------------------------------

  /** What stands before the first colon of a node's address is its ip, what stands after it reads back as its port. */
  lemma AddressSplits(g: Group, self: Address)
    requires g.Listed? && g.ip != [] && 58 !in g.ip && Decimal.IsInt64(g.port)
    ensures var a := SlotAddr(g, self);
            && Routing.IndexOf(a, 58) == Some(|g.ip|)
            && a[..|g.ip|] == g.ip && Decimal.ParseInt(a[|g.ip| + 1..]) == Some(g.port)
  {
    var a := SlotAddr(g, self);
    Routing.IndexOfFirst(g.ip, 58, Decimal.Print(g.port));
    Decimal.ParsePrint(g.port);
    assert a[|g.ip| + 1..] == Decimal.Print(g.port);
  }

  /** Two groups have one address exactly when they name the same ip and port, whatever their ranges. */
  lemma SameAddressExactly(g: Group, h: Group, self: Address)
    requires g.Listed? && g.ip != [] && 58 !in g.ip && Decimal.IsInt64(g.port)
    requires h.Listed? && h.ip != [] && 58 !in h.ip && Decimal.IsInt64(h.port)
    ensures SlotAddr(g, self) == SlotAddr(h, self) <==> g.ip == h.ip && g.port == h.port
  {
    AddressSplits(g, self);
    AddressSplits(h, self);
  }

  /** A blank ip is the node that was asked. */
  lemma BlankIsSelf(start: int, end: int, port: int, self: Address)
    ensures SlotAddr(Listed(start, end, [], port), self) == self
  {
  }

  /** 10.0.0.1 and 10.0.0.2. */
  const IP_A: Bytes := [49, 48, 46, 48, 46, 48, 46, 49]
  const IP_B: Bytes := [49, 48, 46, 48, 46, 48, 46, 50]

  /** 10.0.0.1:7000 and 10.0.0.2:7001. */
  const NODE_A: Address := [49, 48, 46, 48, 46, 48, 46, 49, 58, 55, 48, 48, 48]
  const NODE_B: Address := [49, 48, 46, 48, 46, 48, 46, 50, 58, 55, 48, 48, 49]

  lemma NodeAddresses(start: int, end: int, self: Address)
    ensures SlotAddr(Listed(start, end, IP_A, 7000), self) == NODE_A
    ensures SlotAddr(Listed(start, end, IP_B, 7001), self) == NODE_B
  {
    assert Decimal.Digits(7) == [55] && Decimal.Digits(70) == [55, 48] && Decimal.Digits(700) == [55, 48, 48];
    assert Decimal.Print(7000) == [55, 48, 48, 48] && Decimal.Print(7001) == [55, 48, 48, 49];
  }

  /** After a reset answered with two groups, the lower half of the slots at 10.0.0.1:7000 and the upper half at
      10.0.0.2:7001, the table holds these two addresses and each slot has its own. */
  lemma TwoGroups(s: State, via: Address, dialed: bool)
    requires Inv(s) && !s.crashed && via in s.table && BorrowFor(s, via, dialed).1.Got?
    ensures var gs := [Listed(0, 8191, IP_A, 7000), Listed(8192, 16383, IP_B, 7001)];
            var (t, ok) := ResetUsing(s, via, dialed, Slots(gs), {});
            && t.table.Keys == {NODE_A, NODE_B} && |t.mapping| == 16384
            && (forall slot | 0 <= slot < 16384 :: t.mapping[slot] == if slot <= 8191 then NODE_A else NODE_B)
  {
    hide BorrowFor, ResetUsing, Inv, SlotAddr, Decimal.Print;
    var gs := [Listed(0, 8191, IP_A, 7000), Listed(8192, 16383, IP_B, 7001)];
    NodeAddresses(0, 8191, via);
    NodeAddresses(8192, 16383, via);
    ResetMeaning(s, via, dialed, gs, {});
    InvParts(s);
    var t := ResetUsing(s, via, dialed, Slots(gs), {}).0;
    assert ListedAddrs(gs, via) == {NODE_A, NODE_B} by {
      assert SlotAddr(gs[0], via) == NODE_A && SlotAddr(gs[1], via) == NODE_B;
    }
    forall slot | 0 <= slot < 16384 ensures t.mapping[slot] == if slot <= 8191 then NODE_A else NODE_B {
      var j := if slot <= 8191 then 0 else 1;
      assert Covers(gs[j], slot) && forall k | j < k < |gs| :: !Covers(gs[k], slot);
    }
  }

  /** A group is in range exactly when every slot it names exists; a group that names no slot always is. */
  lemma InRangeExactly(g: Group)
    requires g.Listed?
    ensures InRange(g) <==> forall slot: int | Covers(g, slot) :: 0 <= slot < 16384
  {
    if g.start <= g.end { assert Covers(g, g.start) && Covers(g, g.end); }
  }

  /** A node that cannot be dialed cuts the pass short without an error, so the table then lacks listed addresses: it is
      complete if and only if every listed address had a pool or can be dialed. */
  lemma TableCompleteExactly(s: State, via: Address, dialed: bool, gs: seq<Group>, down: set<Address>)
    requires Inv(s) && !s.crashed && via in s.table && BorrowFor(s, via, dialed).1.Got?
    requires gs != [] && (forall i | 0 <= i < |gs| :: WellFormed(gs[i]))
    ensures ResetUsing(s, via, dialed, Slots(gs), down).0.table.Keys == ListedAddrs(gs, via)
            <==> forall a | a in ListedAddrs(gs, via) :: Openable(s.table, down, a)
  {
    if forall a | a in ListedAddrs(gs, via) :: Openable(s.table, down, a) {
      ResetMeaning(s, via, dialed, gs, down);
    } else {
      hide BorrowFor, Put, Visits, WellFormed, ListedAddrs, Inv, Openable;
      var (b, g) := BorrowFor(s, via, dialed);
      BorrowInv(s, via, dialed);
      var w0 := Work(b.store, s.mapping, map[], Going);
      NoError(s.table, via, down, w0, gs);
      FoundOpenable(s.table, via, down, w0, gs);
      RegroupInv(b, via, Slots(gs), down, g.conn);
      var a :| a in ListedAddrs(gs, via) && !Openable(s.table, down, a);
      assert a !in ResetUsing(s, via, dialed, Slots(gs), down).0.table;
    }
  }

  lemma NoVisits(table: map<Address, nat>, self: Address, down: set<Address>, w: Work)
    ensures Visits(table, self, down, w, []) == w
  {
  }

  lemma OneMoreVisit(table: map<Address, nat>, self: Address, down: set<Address>, w: Work, gs: seq<Group>, i: nat)
    requires i < |gs|
    ensures Visits(table, self, down, w, gs[..i + 1])
            == Visit(table, self, down, Visits(table, self, down, w, gs[..i]), gs[i])
  {
    assert gs[..i + 1][..i] == gs[..i];
  }

  /** Once the loop has ended for one group, the groups after it change nothing. */
  lemma {:induction false} StuckVisits(table: map<Address, nat>, self: Address, down: set<Address>, w: Work,
      gs: seq<Group>, i: nat)
    requires i <= |gs| && (i == |gs| || Visits(table, self, down, w, gs[..i]).end != Going)
    ensures Visits(table, self, down, w, gs) == Visits(table, self, down, w, gs[..i])
    decreases |gs| - i
  {
    hide Visits;
    if i < |gs| {
      OneMoreVisit(table, self, down, w, gs, i);
      StuckVisits(table, self, down, w, gs, i + 1);
    } else {
      assert gs[..i] == gs;
    }
  }

  //---- resets that stop early --------------------------------------------------------------------------------------

  lemma StoppedPass(table: map<Address, nat>, self: Address, down: set<Address>, w: Work, gs: seq<Group>, i: nat)
    requires w.end == Going && w.found == map[] && i < |gs|
    requires (forall j | 0 <= j < i :: Passable(table, self, down, gs[j])) && !Passable(table, self, down, gs[i])
    ensures var v := Visits(table, self, down, w, gs);
            && v.found.Keys == ListedAddrs(gs[..i], self)
            && (gs[i].Malformed? ==> v.end == Failed && LastOneWins(w.mapping, v.mapping, gs[..i], self))
            && (gs[i].Truncated? || (gs[i].Listed? && !InRange(gs[i])) ==> v.end == Panicked)
            && (WellFormed(gs[i]) ==> v.end == Stopped && LastOneWins(w.mapping, v.mapping, gs[..i + 1], self))
  {
    hide SlotAddr, Visits, Fill, Open, LastOneWins, ListedAddrs, InRange;
    PassedMeaning(table, self, down, w, gs, i);
    OneMoreVisit(table, self, down, w, gs, i);
    var before := Visits(table, self, down, w, gs[..i]);
    if WellFormed(gs[i]) {
      var a := SlotAddr(gs[i], self);
      assert !Openable(table, down, a);
      FoundOpenable(table, self, down, w, gs[..i]);
      assert a !in before.found;
      LastOneMore(w.mapping, before.mapping, gs[..i], self, gs[i]);
      assert gs[..i] + [gs[i]] == gs[..i + 1];
    }
    StuckVisits(table, self, down, w, gs, i + 1);
  }

  lemma PassedMeaning(table: map<Address, nat>, self: Address, down: set<Address>, w: Work, gs: seq<Group>, i: nat)
    requires w.end == Going && w.found == map[] && i <= |gs|
    requires forall j | 0 <= j < i :: Passable(table, self, down, gs[j])
    ensures var v := Visits(table, self, down, w, gs[..i]);
            v.end == Going && v.found.Keys == ListedAddrs(gs[..i], self)
                && LastOneWins(w.mapping, v.mapping, gs[..i], self)
  {
    hide SlotAddr, Visits, LastOneWins;
    var ps := gs[..i];
    forall j | 0 <= j < i ensures WellFormed(ps[j]) { assert Passable(table, self, down, gs[j]); }
    forall a | a in ListedAddrs(ps, self) ensures Openable(table, down, a) {
      var j :| 0 <= j < |ps| && ps[j].Listed? && SlotAddr(ps[j], self) == a;
      assert Passable(table, self, down, gs[j]);
    }
    FullPass(table, self, down, w, ps);
  }

  /** A reset whose pass stops at group i. A group that cannot be read: an error, the table as before, but the
      slots of the groups before it changed. One too short or out of range: a crash. A node that cannot be dialed: no
      error, the table holds the addresses before it only, and its own slots map to it all the same. */
  lemma ResetStops(s: State, via: Address, dialed: bool, gs: seq<Group>, down: set<Address>, i: nat)
    requires Inv(s) && !s.crashed && via in s.table && BorrowFor(s, via, dialed).1.Got? && i < |gs|
    requires (forall j | 0 <= j < i :: Passable(s.table, via, down, gs[j])) && !Passable(s.table, via, down, gs[i])
    ensures var (t, ok) := ResetUsing(s, via, dialed, Slots(gs), down);
            && (ok <==> WellFormed(gs[i]))
            && (t.crashed <==> gs[i].Truncated? || (gs[i].Listed? && !InRange(gs[i])))
            && (gs[i].Malformed? ==> t.table == s.table && LastOneWins(s.mapping, t.mapping, gs[..i], via))
            && (WellFormed(gs[i]) ==> t.table.Keys == ListedAddrs(gs[..i], via)
                                      && LastOneWins(s.mapping, t.mapping, gs[..i + 1], via))
  {
    hide BorrowFor, Put, Visits, ListedAddrs, LastOneWins, Inv, InRange, Passable;
    var (b, g) := BorrowFor(s, via, dialed);
    BorrowInv(s, via, dialed);
    AskedInv(s, via, dialed, Slots(gs));
    var w0 := Work(b.store, s.mapping, map[], Going);
    StoppedPass(s.table, via, down, w0, gs, i);
    RegroupInv(b, via, Slots(gs), down, g.conn);
  }

  /** An answer that is no list, or an empty one, is an error that changes neither table nor slots. */
  lemma NoAnswerChangesNothing(s: State, via: Address, dialed: bool, answer: Answer, down: set<Address>)
    requires Inv(s) && !s.crashed && via in s.table && (answer.NoArray? || answer.groups == [])
    ensures var (t, ok) := ResetUsing(s, via, dialed, answer, down);
            !ok && !t.crashed && t.table == s.table && t.mapping == s.mapping
  {
    hide BorrowFor, Put, Inv;
    BorrowInv(s, via, dialed);
    if BorrowFor(s, via, dialed).1.Got? { AskedInv(s, via, dialed, answer); }
  }

  /** A read error during a reset closes the connection it was asked on. */
  lemma FailedAskCloses(s: State, via: Address, dialed: bool, down: set<Address>)
    requires Inv(s) && !s.crashed && via in s.table && BorrowFor(s, via, dialed).1.Got?
    ensures var t, c := ResetUsing(s, via, dialed, NoArray(true), down).0.store, BorrowFor(s, via, dialed).1.conn;
            c < |t.conns| && t.conns[c].owner == Nobody && !t.conns[c].open && t.conns[c].critical
  {
    hide BorrowFor, Inv, Good;
    BorrowInv(s, via, dialed);
    AskedInv(s, via, dialed, NoArray(true));
    var asked := Asked(s, via, dialed, NoArray(true));
    RegroupInv(asked, via, NoArray(true), down, BorrowFor(s, via, dialed).1.conn);
  }

  //---- pools nobody can reach --------------------------------------------------------------------------------------

  /** The pass gets past this group. */
  predicate Passable(table: map<Address, nat>, self: Address, down: set<Address>, g: Group) {
    WellFormed(g) && Openable(table, down, SlotAddr(g, self))
  }

  /** Group i cannot be read, and the pass gets that far. */
  ghost predicate FailsAt(table: map<Address, nat>, self: Address, down: set<Address>, gs: seq<Group>, i: nat)
    requires i < |gs|
  {
    gs[i].Malformed? && forall j | 0 <= j < i :: Passable(table, self, down, gs[j])
  }

  /** An answer that names a node without a pool, and only then, before anything else stops the pass, holds a group that
      cannot be read. */
  ghost predicate LosesPools(table: map<Address, nat>, self: Address, down: set<Address>, gs: seq<Group>) {
    exists i | 0 <= i < |gs| :: FailsAt(table, self, down, gs, i) && NamesNew(table, self, gs[..i])
  }

  ghost predicate NamesNew(table: map<Address, nat>, self: Address, gs: seq<Group>) {
    exists j | 0 <= j < |gs| :: gs[j].Listed? && SlotAddr(gs[j], self) !in table
  }

  lemma PassedSoFar(table: map<Address, nat>, self: Address, down: set<Address>, w: Work, gs: seq<Group>)
    requires w.end == Going && w.found == map[] && (forall j | 0 <= j < |gs| :: Passable(table, self, down, gs[j]))
    ensures Visits(table, self, down, w, gs).end == Going
    ensures Visits(table, self, down, w, gs).found.Keys == ListedAddrs(gs, self)
  {
    hide SlotAddr, Visits;
    forall i | 0 <= i < |gs| ensures WellFormed(gs[i]) { assert Passable(table, self, down, gs[i]); }
    forall a | a in ListedAddrs(gs, self) ensures Openable(table, down, a) {
      var i :| 0 <= i < |gs| && gs[i].Listed? && SlotAddr(gs[i], self) == a;
      assert Passable(table, self, down, gs[i]);
    }
    FullPass(table, self, down, w, gs);
  }

  /** The pass stops at the first group it does not get past, and how it stops is decided there. */
  lemma StopsAt(table: map<Address, nat>, self: Address, down: set<Address>, w: Work, gs: seq<Group>, i: nat)
    requires w.end == Going && w.found == map[] && i < |gs| && !Passable(table, self, down, gs[i])
    requires forall j | 0 <= j < i :: Passable(table, self, down, gs[j])
    ensures var v := Visits(table, self, down, w, gs);
            && (v.end == Failed <==> gs[i].Malformed?)
            && (gs[i].Malformed? ==> v.found.Keys == ListedAddrs(gs[..i], self)
                                     && v.store == Visits(table, self, down, w, gs[..i]).store)
  {
    hide SlotAddr, Visits, Fill, Open;
    forall j | 0 <= j < i ensures Passable(table, self, down, gs[..i][j]) { assert Passable(table, self, down, gs[j]); }
    PassedSoFar(table, self, down, w, gs[..i]);
    OneMoreVisit(table, self, down, w, gs, i);
    if gs[i].Listed? && InRange(gs[i]) {
      assert !Openable(table, down, SlotAddr(gs[i], self));
    }
    StuckVisits(table, self, down, w, gs, i + 1);
  }

  lemma {:induction false} FirstStop(table: map<Address, nat>, self: Address, down: set<Address>, gs: seq<Group>)
      returns (i: nat)
    ensures i <= |gs| && (forall j | 0 <= j < i :: Passable(table, self, down, gs[j]))
    ensures i < |gs| ==> !Passable(table, self, down, gs[i])
  {
    i := 0;
    while i < |gs| && Passable(table, self, down, gs[i])
      invariant i <= |gs| && forall j | 0 <= j < i :: Passable(table, self, down, gs[j])
    {
      i := i + 1;
    }
  }

  lemma OpenedExactly(s: Store, table: map<Address, nat>, w: Work)
    requires TableFits(s, table) && WorkFits(s, table, w)
    ensures |w.store.pools| >= |s.pools|
    ensures |w.store.pools| > |s.pools| <==> exists a :: a in w.found && a !in table
  {
    if |w.store.pools| > |s.pools| {
      var p := |s.pools|;
      var a := w.store.pools[p].addr;
      assert a in w.found && w.found[a] == p;
      assert a !in table;
    }
    if a :| a in w.found && a !in table { assert Fits(w.store, a, w.found[a]); }
  }

  /** A pass ends in an error after opening a pool exactly when the answer says so. */
  lemma LosesExactly(s: Store, table: map<Address, nat>, self: Address, down: set<Address>, w: Work, gs: seq<Group>)
    requires TableFits(s, table) && WorkFits(s, table, w) && w.end == Going && w.found == map[]
    ensures var v := Visits(table, self, down, w, gs);
            v.end == Failed && |v.store.pools| > |s.pools| <==> LosesPools(table, self, down, gs)
  {
    hide WorkFits, Visits, SlotAddr, TableFits, Passable;
    var v := Visits(table, self, down, w, gs);
    VisitsFit(s, table, self, down, w, gs);
    OpenedExactly(s, table, v);
    var i := FirstStop(table, self, down, gs);
    if i == |gs| {
      PassedSoFar(table, self, down, w, gs);
      NoFailure(table, self, down, gs);
    } else {
      StopsAt(table, self, down, w, gs, i);
      ListedNew(table, self, gs[..i]);
      OnlyStop(table, self, down, gs, i);
    }
  }

  lemma NoFailure(table: map<Address, nat>, self: Address, down: set<Address>, gs: seq<Group>)
    requires forall j | 0 <= j < |gs| :: Passable(table, self, down, gs[j])
    ensures !LosesPools(table, self, down, gs)
  {
    forall i | 0 <= i < |gs| ensures !FailsAt(table, self, down, gs, i) { assert Passable(table, self, down, gs[i]); }
  }

  lemma OnlyStop(table: map<Address, nat>, self: Address, down: set<Address>, gs: seq<Group>, i: nat)
    requires i < |gs| && !Passable(table, self, down, gs[i])
    requires forall j | 0 <= j < i :: Passable(table, self, down, gs[j])
    ensures LosesPools(table, self, down, gs) <==> gs[i].Malformed? && NamesNew(table, self, gs[..i])
  {
    hide NamesNew;
    forall k | 0 <= k < |gs| && FailsAt(table, self, down, gs, k) ensures k == i {
      assert !(i < k);
    }
    if gs[i].Malformed? { assert FailsAt(table, self, down, gs, i); }
  }

  lemma ListedNew(table: map<Address, nat>, self: Address, gs: seq<Group>)
    ensures NamesNew(table, self, gs) <==> exists a :: a in ListedAddrs(gs, self) && a !in table
  {
    hide SlotAddr;
    if NamesNew(table, self, gs) {
      var j :| 0 <= j < |gs| && gs[j].Listed? && SlotAddr(gs[j], self) !in table;
      assert SlotAddr(gs[j], self) in ListedAddrs(gs, self);
    }
  }

  /** Every pool that was not emptied is in the table, where a later reset or Close will find it. */
  ghost predicate Tidy(s: State) {
    forall p | 0 <= p < |s.store.pools| && s.store.pools[p].emptied == 0 ::
      s.store.pools[p].addr in s.table && s.table[s.store.pools[p].addr] == p
  }

  lemma AdoptTidy(s: State, w: Work)
    requires Inv(s) && Tidy(s) && WorkFits(s.store, s.table, w) && w.end != Panicked
    ensures Tidy(Adopt(s, w).0) <==> w.end != Failed || |w.store.pools| == |s.store.pools|
  {
    hide Good;
    var t := Adopt(s, w).0;
    if w.end == Failed {
      if |w.store.pools| > |s.store.pools| {
        var p := |s.store.pools|;
        var a := w.store.pools[p].addr;
        assert a !in s.table;
        assert t.store.pools[p].emptied == 0;
      }
    } else {
      AdoptMeaning(s, w);
      forall p | 0 <= p < |t.store.pools| && t.store.pools[p].emptied == 0
        ensures t.store.pools[p].addr in t.table && t.table[t.store.pools[p].addr] == p
      {
        if p < |s.store.pools| {
          assert s.store.pools[p].emptied == 0;
          assert t.store.pools[p].addr == s.store.pools[p].addr;
        }
      }
    }
  }

  /** A reset that meets a group it cannot read keeps the table and forgets the pools it had opened: they stay open
      with nothing left to empty them. That happens exactly for answers that name a node without a pool before such a
      group. */
  lemma RegroupTidyExactly(s: State, self: Address, gs: seq<Group>, down: set<Address>)
    requires Inv(s) && Tidy(s) && !Regroup(s, self, Slots(gs), down).0.crashed
    ensures Tidy(Regroup(s, self, Slots(gs), down).0) <==> !LosesPools(s.table, self, down, gs)
  {
    hide Good, Tidy, WorkFits, Visits, TableFits, LosesPools;
    var w0 := Work(s.store, s.mapping, map[], Going);
    StartsFit(s.store, s.table, s.mapping);
    LosesExactly(s.store, s.table, self, down, w0, gs);
    if gs != [] {
      VisitsFit(s.store, s.table, self, down, w0, gs);
      var w := Visits(s.table, self, down, w0, gs);
      OpenedExactly(s.store, s.table, w);
      AdoptTidy(s, w);
    } else {
      NoVisits(s.table, self, down, w0);
    }
  }
}
