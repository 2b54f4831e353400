/** One caller's Cmd, among the steps of all other callers: redirections, and what becomes of its connections. */
module ClusterCmd {
  import opened Words
  import opened Pools
  import opened Cluster
  import opened ClusterReset
  import opened ClusterRuns
  import Routing

  /** What a node answers; a redirection carries the address it names. */
  datatype Reply = Value(id: nat) | AppError(id: nat) | Redirect(ask: bool, addr: Address) | IoError

  /** One request sent by this caller: on which connection, to which node, whether that node is a random substitute for
      one that could not be dialed, whether the request was ASKING, and what came back. */
  datatype Sent = Sent(conn: nat, addr: Address, substitute: bool, asking: bool, reply: Reply)

  /** What Cmd returns; after a panic the process is gone. */
  datatype Outcome = Answered(reply: Reply) | NoSense(addr: Address) | ResetFailed | NoConn | Unavailable | Panic

  /** The redirection protocol for one connection: ASKING first if asked to; the command, unless ASKING failed; the last
      answer decides. A redirection is followed only once, to another connection. */
  ghost predicate Protocol(conn: nat, ask: bool, haveReset: bool, trace: seq<Sent>, r: Outcome)
    decreases !haveReset
  {
    trace != [] && trace[0].conn == conn && trace[0].asking == ask &&
    if ask && trace[0].reply.Value? then
      |trace| >= 2 && trace[1].conn == conn && !trace[1].asking && Decided(haveReset, trace[1].reply, trace[2..], r)
    else
      Decided(haveReset, trace[0].reply, trace[1..], r)
  }

  ghost predicate Decided(haveReset: bool, reply: Reply, rest: seq<Sent>, r: Outcome)
    decreases !haveReset, 0
  {
    if !reply.Redirect? then rest == [] && r == Answered(reply)
    else if haveReset then rest == [] && r == NoSense(reply.addr)
    else (rest == [] && (r.ResetFailed? || r.NoConn? || r.Panic?))
         || (rest != [] && (rest[0].addr == reply.addr || rest[0].substitute)
             && Protocol(rest[0].conn, reply.ask, true, rest, r))
  }

  function Commands(trace: seq<Sent>): nat {
    if trace == [] then 0 else (if trace[0].asking then 0 else 1) + Commands(trace[1..])
  }

  /** Whatever redirections arrive, the command is tried at most twice and ASKING at most once; a redirection is never
      the caller's answer; ASKING goes only to the second connection, and only on a redirection that said ASK. */
  lemma {:induction false} AtMostTwoTries(conn: nat, trace: seq<Sent>, r: Outcome)
    requires Protocol(conn, false, false, trace, r)
    ensures 1 <= Commands(trace) <= 2 && |trace| <= 3
    ensures r.Answered? ==> !r.reply.Redirect? && trace[|trace| - 1].reply == r.reply
    ensures forall i | 0 <= i < |trace| && trace[i].asking :: i == 1 && trace[0].reply.Redirect? && trace[0].reply.ask
  {
    var first := trace[0].reply;
    assert Decided(false, first, trace[1..], r);
    if |trace| > 1 {
      var rest := trace[1..];
      assert Protocol(rest[0].conn, first.ask, true, rest, r);
      assert if first.ask && rest[0].reply.Value? then Decided(true, rest[1].reply, rest[2..], r)
             else Decided(true, rest[0].reply, rest[1..], r);
      assert rest[0].asking == first.ask;
      assert trace == [trace[0]] + rest;
      assert rest == [rest[0]] + rest[1..];
      if |rest| > 1 {
        assert rest[2..] == [] && rest[1..] == [rest[1]];
        assert Commands(rest[1..]) == 1;
        assert trace == [trace[0], rest[0], rest[1]];
      } else {
        assert rest[1..] == [] && trace == [trace[0], rest[0]];
        assert Commands(rest) <= 1;
      }
    }
  }

  /** Each state came from the one before by a step of the cluster client. */
  ghost predicate Trail(ss: seq<State>) {
    forall i | 0 <= i < |ss| - 1 :: Leads(ss[i], ss[i + 1])
  }

  ghost predicate Leads(s: State, t: State) {
    exists e: Event :: Inv(s) && Enabled(s, e) && t == Apply(s, e)
  }

  /** The answer that decides what happens next on one connection. */
  function Deciding(ask: bool, trace: seq<Sent>): Reply
    requires trace != []
  {
    if ask && trace[0].reply.Value? && |trace| > 1 then trace[1].reply else trace[0].reply
  }

  /** seen lists every state so far; resets counts the calls of Reset. */
  class Session {
    var s: State
    ghost var seen: seq<State>
    ghost var resets: nat

    constructor (size: nat)
      requires size >= 1
      ensures s == New(size) && Inv(s) && seen == [s] && Trail(seen) && resets == 0
    {
      s := New(size);
      seen := [New(size)];
      resets := 0;
      new;
      NewInv(size);
    }

    ghost predicate Recorded()
      reads this
    {
      Inv(s) && seen != [] && seen[|seen| - 1] == s && Trail(seen)
    }

    ghost predicate Valid()
      reads this
    {
      Recorded() && s.spinning && s.started && !s.crashed
    }

    /** One step of the cluster client. */
    method Move(e: Event)
      requires Recorded() && Enabled(s, e)
      modifies this`s, this`seen
      ensures Recorded() && s == Apply(old(s), e) && seen == old(seen) + [s]
    {
      hide Inv, Enabled, Apply;
      StepInv(s, e);
      ghost var before := seen;
      s := Apply(s, e);
      seen := seen + [s];
      assert Leads(before[|before| - 1], s);
      forall i | 0 <= i < |seen| - 1 ensures Leads(seen[i], seen[i + 1]) {
        if i < |before| - 1 { assert seen[i] == before[i] && seen[i + 1] == before[i + 1]; }
      }
    }

    /** Any number of steps of everybody else. Steps that stop spin or crash the process are left out: a caller
        waiting then never returns. */
    method Others(tid: nat)
      requires Valid()
      modifies this`s, this`seen
      ensures Valid() && old(seen) <= seen && old(s.handed) <= s.handed
      ensures Undisturbed(old(s.store), s.store, tid) && Extends(old(s.store), s.store)
    {
      hide Inv, Enabled, Apply, By, Undisturbed, Extends, Trail;
      SameStore(s.store);
      var n: nat :| n >= 0;
      for i := 0 to n
        invariant Valid() && old(seen) <= seen && old(s.handed) <= s.handed
        invariant Undisturbed(old(s.store), s.store, tid) && Extends(old(s.store), s.store)
      {
        var e: Event := *;
        if Enabled(s, e) && !By(e, tid) {
          var t := Apply(s, e);
          if t.spinning && t.started && !t.crashed {
            StepInv(s, e);
            HandedGrows(s, e);
            ExtendsChain(old(s.store), s.store, t.store);
            UndisturbedChain(old(s.store), s.store, t.store, tid);
            Move(e);
          }
        }
      }
    }

    /** client.Cmd: a read or write error marks the connection and closes it. */
    method Send(tid: nat, c: nat, substitute: bool, asking: bool) returns (e: Sent)
      requires Valid() && c < |s.store.conns| && s.store.conns[c].owner == Caller(tid)
      modifies this`s, this`seen
      ensures Valid() && old(seen) <= seen && c < |s.store.conns| && s.store.conns[c].owner == Caller(tid)
      ensures e == Sent(c, old(s.store.conns[c].addr), substitute, asking, e.reply)
      ensures s.store.conns[c].addr == old(s.store.conns[c].addr)
      ensures e.reply.IoError? ==> s.store.conns[c].critical && !s.store.conns[c].open
      ensures HeldIn(s.store, tid) == HeldIn(old(s.store), tid) && Extends(old(s.store), s.store)
    {
      hide Inv, Undisturbed, Extends, Trail, HeldIn;
      ghost var s0 := s.store;
      Others(tid);
      KeepsConn(s0, s.store, tid, c);
      var reply: Reply := *;
      e := Sent(c, s.store.conns[c].addr, substitute, asking, reply);
      if reply.IoError? {
        ghost var b := s.store;
        BreakInv(s, c);
        Move(Breaking(tid, c));
        BreakHeld(b, c, tid);
        ExtendsChain(s0, b, s.store);
      }
    }

    /** Cluster.Put: look the pool up, then put into it, with anything happening in between. The connection ends idle in
        a live pool or closed, and is no longer this caller's. */
    method Put(tid: nat, c: nat)
      requires Valid() && c < |s.store.conns| && s.store.conns[c].owner == Caller(tid)
      modifies this`s, this`seen
      ensures Valid() && old(seen) <= seen && Extends(old(s.store), s.store)
      ensures HeldIn(s.store, tid) == HeldIn(old(s.store), tid) - {c}
      ensures c < |s.store.conns| && Returned(s.store, c)
    {
      hide Inv, Undisturbed, Extends, PutLookup, PutDone, Trail, HeldIn, HeldBy;
      ghost var s0 := s.store;
      Others(tid);
      CallerHeld(s0, tid, c);
      KeepsConn(s0, s.store, tid, c);
      ghost var s1 := s.store;
      PutLookupInv(s, tid, c);
      PutLookupRest(s, tid, c);
      Move(PutLooking(tid, c));
      ExtendsChain(s0, s1, s.store);
      HeldAfter(s1, s.store, tid, c);
      if s.store.conns[c].owner.Putting? {
        ghost var s2 := s.store;
        Others(tid);
        KeepsConn(s2, s.store, tid, c);
        ghost var s3 := s.store;
        ExtendsChain(s0, s2, s3);
        PutDoneInv(s, c);
        Move(PutEnding(tid, c));
        ExtendsChain(s0, s3, s.store);
        HeldAfter(s3, s.store, tid, c);
        PutTwice(HeldIn(s1, tid), c, Putting(tid, s2.conns[c].owner.pool));
        NotHeld(s.store, tid, c);
        if s.store.conns[c].owner.IdleIn? { GoodStore(s); Home(s.store, c); }
      }
    }

    /** getConn's closure; at is the state it ran in. */
    method LookFor(tid: nat, key: Bytes, addr: Address) returns (p: Option<nat>, substitute: bool, ghost at: nat)
      requires Valid()
      modifies this`s, this`seen
      ensures old(seen) <= seen && |old(seen)| - 1 <= at < |seen| && |seen[at].mapping| == Routing.NUM_SLOTS
      ensures p.Some? ==> Valid() && Extends(old(s.store), s.store) && p.value in s.handed
      ensures p.Some? ==> HeldIn(s.store, tid) == HeldIn(old(s.store), tid)
      ensures p.None? ==> seen[at].table == map[]
      ensures p.Some? && !substitute ==>
                && p.value < |s.store.pools|
                && s.store.pools[p.value].addr == if key != [] then seen[at].mapping[Routing.Slot(key)] else addr
      ensures substitute ==> (if key != [] then seen[at].mapping[Routing.Slot(key)] else addr) !in seen[at].table
    {
      hide Undisturbed, Extends, Lookup, Good, TableFits, HeldIn, Routing.Slot, Trail;
      ghost var s0 := s.store;
      Others(tid);
      ghost var s1 := s.store;
      KeepsHeld(s0, s1, tid, 0);
      var wanted := if key != [] then s.mapping[Routing.Slot(key)] else addr;
      var dialed: bool := *;
      var any: Address := [];
      if s.table != map[] { any :| any in s.table; }
      substitute := wanted !in s.table && !dialed;
      LookupInv(s, wanted, dialed, any);
      at := |seen| - 1;
      p := Lookup(s, wanted, dialed, any).1;
      Move(Looking(wanted, dialed, any));
      if p.Some? {
        KeepsHeld(s1, s.store, tid, 0);
        ExtendsChain(s0, s1, s.store);
      }
    }

    /** Get on the pool the closure handed over. */
    method TakeFrom(tid: nat, p: nat) returns (g: Got)
      requires Valid() && p in s.handed && p < |s.store.pools|
      modifies this`s, this`seen
      ensures Valid() && old(seen) <= seen && Extends(old(s.store), s.store)
      ensures g.Refused? ==> HeldIn(s.store, tid) == HeldIn(old(s.store), tid)
      ensures g.Got? ==> HeldIn(s.store, tid) == HeldIn(old(s.store), tid)[g.conn := Caller(tid)]
                         && g.conn !in HeldIn(old(s.store), tid)
                         && g.conn < |s.store.conns|
                         && s.store.conns[g.conn] == Conn(old(s.store.pools[p].addr), true, false, Caller(tid))
    {
      hide Undisturbed, Extends, Take, Good, TableFits, HeldIn, Trail;
      ghost var s0 := s.store;
      Others(tid);
      ghost var s1 := s.store;
      KeepsHeld(s0, s1, tid, 0);
      SameAddr(s0, s1, p);
      var dialed: bool := *;
      TakeInv(s, tid, p, dialed);
      g := Take(s, tid, p, dialed).1;
      Move(Taking(tid, p, dialed));
      ExtendsChain(s0, s1, s.store);
      if g.Got? { HeldOneMore(s1, s.store, tid, g.conn); }
    }

    /** getConn: the closure picks a pool, then Get is called on it with anything happening in between. at is the state
        the closure ran in: a key goes to the node its slot is mapped to there, unless that node is unknown and cannot
        be dialed. */
    method GetConn(tid: nat, key: Bytes, addr: Address) returns (g: Got, substitute: bool, panic: bool, ghost at: nat)
      requires Valid()
      modifies this`s, this`seen
      ensures old(seen) <= seen && |old(seen)| - 1 <= at < |seen| && |seen[at].mapping| == Routing.NUM_SLOTS
      ensures !panic ==> Valid() && Extends(old(s.store), s.store)
      ensures panic ==> seen[at].table == map[]
      ensures !panic && g.Refused? ==> HeldIn(s.store, tid) == HeldIn(old(s.store), tid)
      ensures !panic && g.Got? ==> HeldIn(s.store, tid) == HeldIn(old(s.store), tid)[g.conn := Caller(tid)]
                                   && g.conn !in HeldIn(old(s.store), tid)
                                   && g.conn < |s.store.conns| && s.store.conns[g.conn].owner == Caller(tid)
      ensures !panic && g.Got? && !substitute ==>
                s.store.conns[g.conn].addr == if key != [] then seen[at].mapping[Routing.Slot(key)] else addr
      ensures substitute ==> (if key != [] then seen[at].mapping[Routing.Slot(key)] else addr) !in seen[at].table
    {
      hide Inv, Extends, HeldIn, Routing.Slot, Trail;
      ghost var s0 := s.store;
      var p;
      p, substitute, at := LookFor(tid, key, addr);
      panic, g := p.None?, Refused;
      if !panic {
        ghost var s1 := s.store;
        HandedExists(s, p.value);
        g := TakeFrom(tid, p.value);
        ExtendsChain(s0, s1, s.store);
      }
    }

    /** Reset: nothing once closed or when throttled; an error when no node is known; otherwise a reset through some
        known node, whose outcome is returned. at is the state it was decided in. */
    method Reset(tid: nat) returns (ok: bool, panic: bool, throttled: bool, ghost at: nat)
      requires Valid()
      modifies this
      ensures resets == old(resets) + 1 && old(seen) <= seen && |old(seen)| - 1 <= at < |seen|
      ensures !panic ==> Valid() && HeldIn(s.store, tid) == HeldIn(old(s.store), tid) && Extends(old(s.store), s.store)
      ensures seen[at].closed || throttled ==> ok && !panic && at == |seen| - 1
      ensures !seen[at].closed && !throttled && seen[at].table == map[] ==> !ok && !panic && at == |seen| - 1
      ensures !seen[at].closed && !throttled && seen[at].table != map[] ==>
                at == |seen| - 2 && DidReset(seen[at], s, ok) && panic == s.crashed
    {
      hide Inv, Undisturbed, Extends, ResetUsing, HeldIn, Trail;
      resets := resets + 1;
      ghost var s0 := s.store;
      Others(tid);
      ghost var s1 := s.store;
      KeepsHeld(s0, s1, tid, 0);
      ok, panic, at := true, false, |seen| - 1;
      throttled := *;
      if !s.closed && !throttled {
        if s.table == map[] {
          ok := false;
        } else {
          var via :| via in s.table;
          var dialed: bool := *;
          var answer: Answer := *;
          var down: set<Address> := *;
          ResetInv(s, via, dialed, answer, down);
          ResetSpins(s, via, dialed, answer, down);
          ok := ResetUsing(s, via, dialed, answer, down).1;
          DidIt(s, via, dialed, answer, down);
          Move(Resetting(via, dialed, answer, down));
          panic := s.crashed;
          KeepsHeld(s1, s.store, tid, 0);
          ExtendsChain(s0, s1, s.store);
        }
      }
    }

    /** clientCmd. Every return puts the connection back after any nested call is done, so when it returns this caller
        is answerable for nothing it obtained. A redirection is followed only after a reset. */
    method ClientCmd(tid: nat, c: nat, substitute: bool, ask: bool, haveReset: bool)
        returns (r: Outcome, trace: seq<Sent>)
      requires Valid() && c < |s.store.conns| && s.store.conns[c].owner == Caller(tid)
      modifies this
      ensures old(seen) <= seen
      ensures Protocol(c, ask, haveReset, trace, r) && trace[0].addr == old(s.store.conns[c].addr)
          && trace[0].substitute == substitute
      ensures resets == old(resets) + if !haveReset && Deciding(ask, trace).Redirect? then 1 else 0
      ensures !r.Panic? ==> Valid() && HeldIn(s.store, tid) == HeldIn(old(s.store), tid) - {c}
                            && c < |s.store.conns| && Returned(s.store, c)
      decreases if haveReset then 0 else 2
    {
      hide Inv, Extends, Returned, HeldIn, Trail;
      ghost var held := HeldIn(s.store, tid);
      CallerHolds(s.store, tid, c);
      var e := Send(tid, c, substitute, ask);
      trace := [e];
      if ask && e.reply.Value? {
        e := Send(tid, c, substitute, false);
        trace := [trace[0], e];
      }
      ghost var level := trace;
      var rest: seq<Sent> := [];
      if !e.reply.Redirect? {
        r := Answered(e.reply);
      } else if haveReset {
        r := NoSense(e.reply.addr);
      } else {
        r, rest := Follow(tid, e.reply.ask, e.reply.addr);
        trace := trace + rest;
      }
      LevelThenRest(c, ask, haveReset, level, rest, r);
      if !r.Panic? {
        StillCaller(s.store, tid, c);
        Put(tid, c);
      }
    }

    /** The redirection: reset, then another connection. */
    method Follow(tid: nat, ask: bool, addr: Address) returns (r: Outcome, trace: seq<Sent>)
      requires Valid()
      modifies this
      ensures old(seen) <= seen && resets == old(resets) + 1
      ensures Decided(false, Redirect(ask, addr), trace, r)
      ensures !r.Panic? ==> Valid() && HeldIn(s.store, tid) == HeldIn(old(s.store), tid)
      decreases 1
    {
      hide Inv, Extends, Returned, HeldIn, Trail, Protocol;
      ghost var held := HeldIn(s.store, tid);
      trace := [];
      var ok, dead, throttled, at := Reset(tid);
      if dead { return Panic, []; }
      if !ok { return ResetFailed, []; }
      var got, other, crash, looked := GetConn(tid, [], addr);
      if crash { return Panic, []; }
      if got.Refused? { return NoConn, []; }
      r, trace := ClientCmd(tid, got.conn, other, ask, true);
      ProtocolStarts(got.conn, ask, true, trace, r);
      PutTwice(held, got.conn, Caller(tid));
    }

    /** Cmd for a command whose first argument is key: its first try goes to the node the key's slot was mapped to when
        the closure looked, or to a substitute if that node is unknown and cannot be dialed. */
    method Cmd(tid: nat, key: Bytes) returns (r: Outcome, trace: seq<Sent>, ghost at: nat)
      requires Valid() && HeldIn(s.store, tid) == map[]
      modifies this
      ensures !r.Panic? ==> Valid() && HeldIn(s.store, tid) == map[]
      ensures trace != [] ==> Protocol(trace[0].conn, false, false, trace, r) && 1 <= Commands(trace) <= 2
      ensures trace == [] ==> r.Unavailable? || r.NoConn? || r.Panic?
      ensures old(seen) <= seen && |old(seen)| - 1 <= at < |seen| && |seen[at].mapping| == Routing.NUM_SLOTS
      ensures trace != [] && key != [] && !trace[0].substitute ==> trace[0].addr == seen[at].mapping[Routing.Slot(key)]
      ensures trace != [] && key != [] && trace[0].substitute ==> seen[at].mapping[Routing.Slot(key)] !in seen[at].table
    {
      hide Extends, Returned, Protocol, Routing.Slot, Trail, Good, TableFits;
      trace := [];
      at := |seen| - 1;
      var faulty: bool := *;
      if faulty {
        r := Unavailable;
      } else {
        var got, substitute, crash, looked := GetConn(tid, key, []);
        at := looked;
        if crash {
          r := Panic;
        } else if got.Refused? {
          r := NoConn;
        } else {
          r, trace := ClientCmd(tid, got.conn, substitute, false, false);
          PutTwice(map[], got.conn, Caller(tid));
          ProtocolStarts(got.conn, false, false, trace, r);
          AtMostTwoTries(got.conn, trace, r);
        }
      }
    }
  }

  /** A reset through some known node led from s to t, with this outcome. */
  ghost predicate DidReset(s: State, t: State, ok: bool) {
    exists via, dialed, answer, down ::
      Inv(s) && via in s.table && ResetUsing(s, via, dialed, answer, down) == (t, ok)
  }

  lemma DidIt(s: State, via: Address, dialed: bool, answer: Answer, down: set<Address>)
    requires Inv(s) && via in s.table
    ensures DidReset(s, ResetUsing(s, via, dialed, answer, down).0, ResetUsing(s, via, dialed, answer, down).1)
  {
    hide Inv, ResetUsing;
  }

  lemma HandedExists(s: State, p: nat)
    requires Inv(s) && p in s.handed
    ensures p < |s.store.pools|
  {
  }

  lemma HandedGrows(s: State, e: Event)
    requires Inv(s) && Enabled(s, e)
    ensures s.handed <= Apply(s, e).handed
  {
    hide Good, TableFits, Get, Put, Visits;
    if e.TakingEvery? { GetEveryMeaning(s, e.tid, e.order, e.dials); }
  }

  lemma CallerHeld(s: Store, tid: nat, c: nat)
    requires c < |s.conns| && s.conns[c].owner == Caller(tid)
    ensures HeldBy(s.conns[c], tid)
  {
  }

  lemma NotHeld(s: Store, tid: nat, c: nat)
    requires c < |s.conns| && (s.conns[c].owner.IdleIn? || s.conns[c].owner.Nobody?)
    ensures !HeldBy(s.conns[c], tid)
  {
  }

  lemma ProtocolStarts(conn: nat, ask: bool, haveReset: bool, trace: seq<Sent>, r: Outcome)
    requires Protocol(conn, ask, haveReset, trace, r)
    ensures trace != [] && trace[0].conn == conn
  {
  }

  /** What one level sent, followed by what the nested call sent. */
  lemma LevelThenRest(c: nat, ask: bool, haveReset: bool, level: seq<Sent>, rest: seq<Sent>, r: Outcome)
    requires level != [] && level[0].conn == c && level[0].asking == ask
    requires if ask && level[0].reply.Value?
             then |level| == 2 && level[1].conn == c && !level[1].asking
             else |level| == 1
    requires Decided(haveReset, level[|level| - 1].reply, rest, r)
    ensures Protocol(c, ask, haveReset, level + rest, r)
  {
    hide Decided;
    var trace := level + rest;
    assert trace[|level|..] == rest;
    assert trace[0] == level[0];
  }

  lemma KeepsConn(a: Store, b: Store, tid: nat, c: nat)
    requires Undisturbed(a, b, tid) && c < |a.conns| && HeldBy(a.conns[c], tid)
    ensures c < |b.conns| && b.conns[c] == a.conns[c] && HeldIn(b, tid) == HeldIn(a, tid)
  {
    assert c in HeldIn(a, tid);
  }

  lemma PutLookupRest(s: State, tid: nat, c: nat)
    requires c < |s.store.conns|
    ensures var t := PutLookup(s, tid, c);
            && t == s.(store := t.store)
            && (t.store.conns[c].owner.Putting? ==> t.store.conns[c].owner.tid == tid)
  {
  }

  lemma HeldAfter(s: Store, t: Store, tid: nat, c: nat)
    requires |s.conns| == |t.conns| && c < |s.conns| && HeldBy(s.conns[c], tid)
    requires forall d | 0 <= d < |s.conns| && d != c :: t.conns[d] == s.conns[d]
    ensures HeldIn(t, tid)
            == if HeldBy(t.conns[c], tid) then HeldIn(s, tid)[c := t.conns[c].owner] else HeldIn(s, tid) - {c}
  {
  }

  lemma HeldOneMore(s: Store, t: Store, tid: nat, c: nat)
    requires c <= |s.conns| && c < |t.conns| && |s.conns| <= |t.conns| <= (if c < |s.conns| then |s.conns| else c + 1)
    requires c < |s.conns| ==> !HeldBy(s.conns[c], tid)
    requires forall d | 0 <= d < |s.conns| && d != c :: t.conns[d] == s.conns[d]
    requires HeldBy(t.conns[c], tid)
    ensures HeldIn(t, tid) == HeldIn(s, tid)[c := t.conns[c].owner] && c !in HeldIn(s, tid)
  {
  }

  lemma PutTwice(m: map<nat, Owner>, c: nat, o: Owner)
    ensures m[c := o] - {c} == m - {c} && (c !in m ==> m[c := o] - {c} == m)
  {
  }

  lemma GoodStore(s: State)
    requires Inv(s)
    ensures Good(s.store)
  {
  }

  lemma SameAddr(s: Store, t: Store, p: nat)
    requires Extends(s, t) && p < |s.pools|
    ensures p < |t.pools| && t.pools[p].addr == s.pools[p].addr
  {
  }

  lemma ResetSpins(s: State, via: Address, dialed: bool, answer: Answer, down: set<Address>)
    requires Inv(s) && via in s.table
    ensures ResetUsing(s, via, dialed, answer, down).0.spinning == s.spinning
  {
    hide Good, TableFits, Put, Visits, Get;
  }

  lemma CallerHolds(s: Store, tid: nat, c: nat)
    requires c < |s.conns| && s.conns[c].owner == Caller(tid)
    ensures c in HeldIn(s, tid) && HeldIn(s, tid)[c] == Caller(tid)
  {
  }

  lemma StillCaller(s: Store, tid: nat, c: nat)
    requires c in HeldIn(s, tid) && HeldIn(s, tid)[c] == Caller(tid)
    ensures c < |s.conns| && s.conns[c].owner == Caller(tid)
  {
  }

  /** The connections caller tid is answerable for, and how. */
  ghost function HeldIn(s: Store, tid: nat): map<nat, Owner> {
    map c: nat | 0 <= c < |s.conns| && HeldBy(s.conns[c], tid) :: s.conns[c].owner
  }

  lemma UndisturbedChain(a: Store, b: Store, c: Store, tid: nat)
    requires Undisturbed(a, b, tid) && Undisturbed(b, c, tid)
    ensures Undisturbed(a, c, tid)
  {
  }

  lemma KeepsHeld(a: Store, b: Store, tid: nat, c: nat)
    requires Undisturbed(a, b, tid)
    ensures HeldIn(b, tid) == HeldIn(a, tid)
    ensures c in HeldIn(a, tid) ==> b.conns[c] == a.conns[c]
  {
  }

  lemma BreakHeld(s: Store, c: nat, tid: nat)
    requires c < |s.conns|
    ensures HeldIn(Break(s, c), tid) == HeldIn(s, tid)
    ensures Break(s, c).conns[c].owner == s.conns[c].owner && |Break(s, c).conns| == |s.conns|
  {
  }
}
