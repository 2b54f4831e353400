/** One connection of the cluster relayer: a handler thread and a worker thread sharing a counter and a channel,
    interleaved one atomic step at a time. */
module ClusterHandler {
  import opened Words

  /** A command that has a first word other than SELECT; sender reaches the backend only if the message is an array. */
  datatype Req = Req(id: nat, isArray: bool)
  datatype Msg = Msg(req: Req, mustAnswer: bool)

  /** Where the handler is inside process: about to add to pending, about to send on the channel, about to call the
      backend directly, about to write that answer. */
  datatype Handler = Ready | Adding(m: Msg) | Pushing(m: Msg) | Calling(req: Req) | Replying(req: Req)

  /** Where the worker is inside sender: about to call the backend, about to answer, about to subtract from pending. */
  datatype Worker = Idle | Working(m: Msg) | Answering(m: Msg) | Subtracting

  datatype State = State(
    nextId: nat,
    closed: bool,
    initialized: bool,
    arrived: seq<Req>,
    handler: Handler,
    worker: Worker,
    queue: seq<Msg>,
    pending: int,
    backend: seq<nat>,
    replies: multiset<nat>,
    leaked: nat)

  const START := State(0, false, false, [], Ready, Idle, [], 0, [], multiset{}, 0)

  const CAPACITY := 1024

  datatype Event =
    | Refused | Background(isArray: bool) | Answered(isArray: bool) | Hangup
    | HandlerStep | WorkerStep

  predicate Arrives(e: Event) {
    e.Refused? || e.Background? || e.Answered?
  }

  /** A send waits for room in the channel, and for ever if the channel was never made; a worker exists once it was. */
  predicate HandlerCan(s: State) {
    s.handler != Ready && (s.handler.Pushing? ==> s.initialized && |s.queue| < CAPACITY)
  }

  predicate WorkerCan(s: State) {
    s.initialized && (s.worker != Idle || s.queue != [])
  }

  predicate Enabled(s: State, e: Event) {
    match e
    case HandlerStep => HandlerCan(s)
    case WorkerStep => WorkerCan(s)
    case _ => s.handler == Ready && !s.closed
  }

  function Reply(s: State, id: nat): State {
    s.(replies := Plus(s.replies, id))
  }

  function Plus(replies: multiset<nat>, id: nat): multiset<nat> {
    replies + multiset{id}
  }

  /** process: a bad or SELECT command is refused; a background command is answered at once; any other looks at
      pending. */
  function Arrive(s: State, e: Event): State
    requires Arrives(e)
  {
    var id := s.nextId;
    var s := s.(nextId := id + 1);
    match e
    case Refused => Reply(s, id)
    case Background(isArray) =>
      var r := Req(id, isArray);
      Reply(s, id).(arrived := s.arrived + [r], initialized := true, handler := Adding(Msg(r, false)))
    case Answered(isArray) =>
      var r := Req(id, isArray);
      s.(arrived := s.arrived + [r], handler := if s.pending != 0 then Adding(Msg(r, true)) else Calling(r))
  }

  function HandlerNext(s: State): State
    requires HandlerCan(s)
  {
    match s.handler
    case Adding(m) => s.(pending := Int32(s.pending + 1), handler := Pushing(m))
    case Pushing(m) => s.(queue := s.queue + [m], handler := Ready)
    case Calling(r) => s.(backend := if r.isArray then s.backend + [r.id] else s.backend, handler := Replying(r))
    case Replying(r) => Reply(s, r.id).(handler := Ready)
  }

  /** sendWorker and sender: a message that is not an array is answered and dropped without touching pending. */
  function WorkerNext(s: State): State
    requires WorkerCan(s)
  {
    match s.worker
    case Idle => s.(worker := Working(s.queue[0]), queue := s.queue[1..])
    case Working(m) =>
      if m.req.isArray then s.(backend := s.backend + [m.req.id], worker := Answering(m))
      else (if m.mustAnswer then Reply(s, m.req.id) else s).(worker := Idle, leaked := s.leaked + 1)
    case Answering(m) => (if m.mustAnswer then Reply(s, m.req.id) else s).(worker := Subtracting)
    case Subtracting => s.(pending := Int32(s.pending - 1), worker := Idle)
  }

  function Apply(s: State, e: Event): State
    requires Enabled(s, e)
  {
    match e
    case HandlerStep => HandlerNext(s)
    case WorkerStep => WorkerNext(s)
    case Hangup => s.(closed := true)
    case _ => Arrive(s, e)
  }

  predicate Runs(s: State, es: seq<Event>)
    decreases |es|
  {
    es == [] || (Enabled(s, es[0]) && Runs(Apply(s, es[0]), es[1..]))
  }

  function Final(s: State, es: seq<Event>): State
    requires Runs(s, es)
    decreases |es|
  {
    if es == [] then s else Final(Apply(s, es[0]), es[1..])
  }

  //---- the counter -------------------------------------------------------------------------------------------------

  /** Commands queued, in the worker's hands, or counted and about to be queued. */
  function InFlight(s: State): nat {
    |s.queue| + (if s.worker == Idle then 0 else 1) + (if s.handler.Pushing? then 1 else 0)
  }

  /** The counter is the number of commands in flight plus those leaked, in 32 bits; the channel bounds the former. */
  ghost predicate Counted(s: State) {
    s.pending == Int32(InFlight(s) + s.leaked) && |s.queue| <= CAPACITY
  }

  /** Neither a direct call nor its answer overlaps anything in flight. */
  predicate Alone(s: State) {
    s.handler.Calling? || s.handler.Replying? ==> InFlight(s) == 0
  }

  /** Fewer dropped messages than would bring the 32-bit counter back to zero with commands in flight. */
  predicate FewDropped(s: State) {
    s.leaked + CAPACITY + 2 < TWO32
  }

  //---- order -------------------------------------------------------------------------------------------------------

  /** The ids of the commands that reach the backend. */
  function Calls(rs: seq<Req>): seq<nat> {
    if rs == [] then [] else (if rs[0].isArray then [rs[0].id] else []) + Calls(rs[1..])
  }

  function CallsOf(ms: seq<Msg>): seq<nat> {
    if ms == [] then [] else Call(ms[0].req) + CallsOf(ms[1..])
  }

  function Call(r: Req): seq<nat> {
    if r.isArray then [r.id] else []
  }

  function WorkerCall(w: Worker): seq<nat> {
    if w.Working? then Call(w.m.req) else []
  }

  function HandlerCall(h: Handler): seq<nat> {
    match h
    case Adding(m) => Call(m.req)
    case Pushing(m) => Call(m.req)
    case Calling(r) => Call(r)
    case _ => []
  }

  /** Executed, then in the worker's hands, then queued, then in the handler's hands: together, the arrivals in
      order. */
  ghost predicate Ordered(s: State) {
    s.backend + WorkerCall(s.worker) + CallsOf(s.queue) + HandlerCall(s.handler) == Calls(s.arrived)
  }

  lemma {:induction false} CallsConcat(a: seq<Req>, b: seq<Req>)
    ensures Calls(a + b) == Calls(a) + Calls(b)
  {
    if a == [] { assert a + b == b; }
    else { assert (a + b)[1..] == a[1..] + b; CallsConcat(a[1..], b); }
  }

  lemma {:induction false} CallsOfPush(q: seq<Msg>, m: Msg)
    ensures CallsOf(q + [m]) == CallsOf(q) + Call(m.req)
  {
    if q == [] { assert CallsOf([m]) == Call(m.req) + []; }
    else { assert (q + [m])[1..] == q[1..] + [m]; CallsOfPush(q[1..], m); }
  }

  //---- replies -----------------------------------------------------------------------------------------------------

  function Owed(m: Msg, id: nat): nat {
    if m.mustAnswer && m.req.id == id then 1 else 0
  }

  function OwedInQueue(ms: seq<Msg>, id: nat): nat {
    if ms == [] then 0 else Owed(ms[0], id) + OwedInQueue(ms[1..], id)
  }

  function OwedByWorker(w: Worker, id: nat): nat {
    if w.Working? || w.Answering? then Owed(w.m, id) else 0
  }

  function OwedByHandler(h: Handler, id: nat): nat {
    match h
    case Adding(m) => Owed(m, id)
    case Pushing(m) => Owed(m, id)
    case Calling(r) => if r.id == id then 1 else 0
    case Replying(r) => if r.id == id then 1 else 0
    case Ready => 0
  }

  /** Replies written to command id plus replies still owed to it. */
  function Ledger(s: State, id: nat): nat {
    s.replies[id] + OwedByWorker(s.worker, id) + OwedInQueue(s.queue, id) + OwedByHandler(s.handler, id)
  }

  lemma {:induction false} PushOwed(q: seq<Msg>, m: Msg, id: nat)
    ensures OwedInQueue(q + [m], id) == OwedInQueue(q, id) + Owed(m, id)
  {
    if q != [] {
      assert (q + [m])[1..] == q[1..] + [m];
      PushOwed(q[1..], m, id);
    }
  }

  //---- every step --------------------------------------------------------------------------------------------------

  lemma SmallInt32(c: nat)
    ensures c < TWO32 ==> (Int32(c) == 0 <==> c == 0)
    ensures Int32(c) == c <==> c < TWO31
  {
  }

  lemma NextInt32(c: int)
    ensures Int32(Int32(c) + 1) == Int32(c + 1) && Int32(Int32(c) - 1) == Int32(c - 1)
  {
    var q, w := c / TWO32, c % TWO32;
    assert c == q * TWO32 + w;
    SameInt32(w, q);
    SameInt32(w + 1, q);
    SameInt32(w - 1, q);
    SameInt32(w + 1, -1);
    SameInt32(w - 1, -1);
  }

  lemma SameInt32(w: int, q: int)
    ensures Int32(w + q * TWO32) == Int32(w)
  {
  }

  lemma HandlerCounted(s: State)
    requires HandlerCan(s) && Counted(s)
    ensures Counted(HandlerNext(s))
  {
    hide Int32;
    NextInt32(InFlight(s) + s.leaked);
  }

  lemma WorkerCounted(s: State)
    requires WorkerCan(s) && Counted(s)
    ensures Counted(WorkerNext(s))
  {
    hide Int32;
    NextInt32(InFlight(s) + s.leaked);
  }

  lemma StepCounted(s: State, e: Event)
    requires Enabled(s, e) && Counted(s)
    ensures Counted(Apply(s, e))
  {
    hide WorkerNext, HandlerNext, Int32;
    match e
    case WorkerStep => WorkerCounted(s);
    case HandlerStep => HandlerCounted(s);
    case _ =>
  }

  /** A direct call starts only when the counter is zero, and then nothing is in flight. */
  lemma StepAlone(s: State, e: Event)
    requires Enabled(s, e) && Counted(s) && FewDropped(s) && Alone(s)
    ensures Alone(Apply(s, e))
  {
    hide Int32;
    SmallInt32(InFlight(s) + s.leaked);
  }

  lemma Regroup(a: seq<nat>, b: seq<nat>, c: seq<nat>, d: seq<nat>)
    ensures a + b + c + d == a + (b + c) + d == a + b + (c + d)
  {
  }

  lemma OnlyMiddle(a: seq<nat>, b: seq<nat>)
    ensures a + [] + [] + b == a + b + [] + [] + []
  {
  }

  lemma WorkerOrdered(s: State)
    requires WorkerCan(s) && Ordered(s)
    ensures Ordered(WorkerNext(s))
  {
    hide Calls;
    if s.worker == Idle {
      var first, rest := Call(s.queue[0].req), CallsOf(s.queue[1..]);
      assert CallsOf(s.queue) == first + rest;
      Regroup(s.backend, first, rest, HandlerCall(s.handler));
      assert s.backend + [] == s.backend;
    } else if s.worker.Working? {
      var s' := WorkerNext(s);
      assert s'.backend == s.backend + WorkerCall(s.worker);
      assert s'.backend + [] == s'.backend;
    }
  }

  lemma PushOrdered(s: State)
    requires HandlerCan(s) && s.handler.Pushing? && Ordered(s)
    ensures Ordered(HandlerNext(s))
  {
    hide Calls, CallsOf;
    var front, m := s.backend + WorkerCall(s.worker), s.handler.m;
    CallsOfPush(s.queue, m);
    assert front + (CallsOf(s.queue) + Call(m.req)) + [] == front + CallsOf(s.queue) + Call(m.req);
  }

  lemma CallOrdered(s: State)
    requires HandlerCan(s) && s.handler.Calling? && Alone(s) && Ordered(s)
    ensures Ordered(HandlerNext(s))
  {
    hide Calls, Int32;
    assert s.queue == [] && s.worker == Idle;
    var s', r := HandlerNext(s), s.handler.req;
    assert s'.backend == s.backend + Call(r);
    OnlyMiddle(s.backend, Call(r));
  }

  lemma HandlerOrdered(s: State)
    requires HandlerCan(s) && Alone(s) && Ordered(s)
    ensures Ordered(HandlerNext(s))
  {
    hide Calls, CallsOf, Int32, Plus;
    if s.handler.Pushing? { PushOrdered(s); }
    else if s.handler.Calling? { CallOrdered(s); }
  }

  lemma ArriveOrdered(s: State, e: Event)
    requires Enabled(s, e) && Arrives(e) && Ordered(s)
    ensures Ordered(Arrive(s, e))
  {
    if !e.Refused? {
      var r := Req(s.nextId, e.isArray);
      CallsConcat(s.arrived, [r]);
      assert Calls([r]) == Call(r) + [];
      assert Calls(s.arrived) + [] == Calls(s.arrived);
    }
  }

  lemma SameOrder(s: State)
    requires Ordered(s)
    ensures Ordered(s.(closed := true))
  {
  }

  lemma StepOrdered(s: State, e: Event)
    requires Enabled(s, e) && Alone(s) && Ordered(s)
    ensures Ordered(Apply(s, e))
  {
    hide Ordered, WorkerNext, HandlerNext, Arrive;
    match e
    case WorkerStep => WorkerOrdered(s);
    case HandlerStep => HandlerOrdered(s);
    case Hangup => assert Ordered(s.(closed := true)) by { SameOrder(s); }
    case _ => ArriveOrdered(s, e);
  }

  lemma WorkerLedger(s: State, id: nat)
    requires WorkerCan(s)
    ensures Ledger(WorkerNext(s), id) == Ledger(s, id)
  {
    hide Int32;
  }

  lemma HandlerLedger(s: State, id: nat)
    requires HandlerCan(s)
    ensures Ledger(HandlerNext(s), id) == Ledger(s, id)
  {
    hide Int32, OwedInQueue;
    if s.handler.Pushing? { PushOwed(s.queue, s.handler.m, id); }
  }

  lemma ArriveLedger(s: State, e: Event, id: nat)
    requires Enabled(s, e) && Arrives(e)
    ensures Ledger(Arrive(s, e), id) == Ledger(s, id) + (if id == s.nextId then 1 else 0)
  {
    hide OwedInQueue, OwedByWorker;
  }

  ghost predicate Owing(s: State) {
    forall id: nat :: Ledger(s, id) == if id < s.nextId then 1 else 0
  }

  lemma StepOwing(s: State, e: Event)
    requires Enabled(s, e) && Owing(s)
    ensures Owing(Apply(s, e))
  {
    hide Ledger, Int32;
    var s' := Apply(s, e);
    forall id: nat ensures Ledger(s', id) == if id < s'.nextId then 1 else 0 {
      match e
      case WorkerStep => WorkerLedger(s, id);
      case HandlerStep => HandlerLedger(s, id);
      case Hangup => assert Ledger(s', id) == Ledger(s, id) by { Hung(s, id); }
      case _ => ArriveLedger(s, e, id);
    }
  }

  lemma Hung(s: State, id: nat)
    ensures Ledger(s.(closed := true), id) == Ledger(s, id)
  {
  }

  /** Whatever uses the channel or counts on the worker happens after both were made. */
  predicate Started(s: State) {
    s.initialized || (s.queue == [] && s.worker == Idle && s.pending == 0 && !s.handler.Adding? && !s.handler.Pushing?)
  }

  lemma StepStarted(s: State, e: Event)
    requires Enabled(s, e) && Started(s)
    ensures Started(Apply(s, e))
  {
    hide Int32;
  }

  /** What every step keeps, however many messages were dropped. */
  ghost predicate Base(s: State) {
    Counted(s) && Started(s) && Owing(s)
  }

  /** What every step keeps while few messages were dropped. */
  ghost predicate Inv(s: State) {
    Base(s) && Alone(s) && Ordered(s)
  }

  lemma StepBase(s: State, e: Event)
    requires Enabled(s, e) && Base(s)
    ensures Base(Apply(s, e))
  {
    hide Counted, Started, Owing, Apply;
    StepCounted(s, e);
    StepStarted(s, e);
    StepOwing(s, e);
  }

  lemma StepInv(s: State, e: Event)
    requires Enabled(s, e) && Inv(s) && FewDropped(s)
    ensures Inv(Apply(s, e))
  {
    hide Base, Alone, Ordered, Apply;
    StepBase(s, e);
    assert Counted(s) by { BaseCounted(s); }
    StepAlone(s, e);
    StepOrdered(s, e);
  }

  lemma BaseCounted(s: State)
    requires Base(s)
    ensures Counted(s)
  {
  }

  lemma {:induction false} RunBase(s: State, es: seq<Event>)
    requires Runs(s, es) && Base(s)
    ensures Base(Final(s, es))
    decreases |es|
  {
    hide Apply, Base;
    if es != [] {
      StepBase(s, es[0]);
      RunBase(Apply(s, es[0]), es[1..]);
    }
  }

  lemma {:induction false} DroppedGrows(s: State, es: seq<Event>)
    requires Runs(s, es)
    ensures s.leaked <= Final(s, es).leaked
    decreases |es|
  {
    hide Int32;
    if es != [] { DroppedGrows(Apply(s, es[0]), es[1..]); }
  }

  lemma {:induction false} RunInv(s: State, es: seq<Event>)
    requires Runs(s, es) && Inv(s) && FewDropped(Final(s, es))
    ensures Inv(Final(s, es))
    decreases |es|
  {
    hide Apply, Inv;
    if es != [] {
      DroppedGrows(s, es);
      StepInv(s, es[0]);
      RunInv(Apply(s, es[0]), es[1..]);
    }
  }

  lemma StartInv()
    ensures Inv(START)
  {
  }

  lemma ReachedBase(es: seq<Event>)
    requires Runs(START, es)
    ensures Base(Final(START, es))
  {
    hide Base;
    StartBase();
    RunBase(START, es);
  }

  lemma StartBase()
    ensures Base(START)
  {
  }

  lemma Reached(es: seq<Event>)
    requires Runs(START, es) && FewDropped(Final(START, es))
    ensures Inv(Final(START, es))
  {
    hide Inv;
    StartInv();
    RunInv(START, es);
  }

  lemma PrefixOf(s: State)
    requires Ordered(s)
    ensures s.backend <= Calls(s.arrived)
    ensures Drained(s) ==> s.backend == Calls(s.arrived)
  {
    hide Calls;
    var rest := WorkerCall(s.worker) + CallsOf(s.queue) + HandlerCall(s.handler);
    assert s.backend + rest == Calls(s.arrived);
  }

  //---- what every interleaving keeps -------------------------------------------------------------------------------

  /** In every interleaving pending is, in 32 bits, the number of commands queued and in progress plus the number of
      messages dropped; it is that number itself exactly when that is below 2^31. */
  lemma PendingCoversInFlight(es: seq<Event>)
    requires Runs(START, es)
    ensures var s := Final(START, es);
            && s.pending == Int32(InFlight(s) + s.leaked)
            && (s.pending == InFlight(s) + s.leaked <==> InFlight(s) + s.leaked < TWO31)
            && |s.queue| <= 1024
  {
    hide Runs, Final, Started, Owing, InFlight;
    ReachedBase(es);
    var s := Final(START, es);
    SmallInt32(InFlight(s) + s.leaked);
  }

  /** While fewer than 2^32 - 1026 messages were dropped, commands reach the backend in arrival order: what it has
      executed is always the first part of what arrived. So when a command runs, everything that arrived before it has
      run, background writes included. */
  lemma ArrivalOrder(es: seq<Event>)
    requires Runs(START, es) && FewDropped(Final(START, es))
    ensures var s := Final(START, es);
            s.backend <= Calls(s.arrived) &&
            (Drained(s) ==> s.backend == Calls(s.arrived))
  {
    hide Runs, Final, Base, Ordered, Calls;
    Reached(es);
    PrefixOf(Final(START, es));
  }

  predicate Drained(s: State) {
    s.handler == Ready && s.worker == Idle && s.queue == []
  }

  /** Each command gets at most one reply, and exactly one once both threads are idle and the channel is empty. */
  lemma ExactlyOneReply(es: seq<Event>, id: nat)
    requires Runs(START, es)
    ensures var s := Final(START, es);
            s.replies[id] <= 1 && (id < s.nextId && Drained(s) ==> s.replies[id] == 1)
  {
    hide Runs, Final, Counted, Started;
    ReachedBase(es);
    assert Ledger(Final(START, es), id) <= 1;
  }

  //---- messages that are not arrays --------------------------------------------------------------------------------

  /** This step reads a message that is not an array and that the channel will carry. */
  predicate Stray(s: State, e: Event) {
    (e.Background? && !e.isArray) || (e.Answered? && !e.isArray && s.pending != 0)
  }

  function Strays(s: State, es: seq<Event>): nat
    requires Runs(s, es)
    decreases |es|
  {
    if es == [] then 0 else (if Stray(s, es[0]) then 1 else 0) + Strays(Apply(s, es[0]), es[1..])
  }

  function Odd(r: Req): nat {
    if r.isArray then 0 else 1
  }

  function OddInQueue(ms: seq<Msg>): nat {
    if ms == [] then 0 else Odd(ms[0].req) + OddInQueue(ms[1..])
  }

  /** Dropped, or on their way to be. */
  function OddOnes(s: State): nat {
    s.leaked + OddInQueue(s.queue)
    + (if s.worker.Working? then Odd(s.worker.m.req) else 0)
    + (if s.handler.Adding? || s.handler.Pushing? then Odd(s.handler.m.req) else 0)
  }

  lemma {:induction false} PushOdd(q: seq<Msg>, m: Msg)
    ensures OddInQueue(q + [m]) == OddInQueue(q) + Odd(m.req)
  {
    if q != [] {
      assert (q + [m])[1..] == q[1..] + [m];
      PushOdd(q[1..], m);
    }
  }

  lemma StepOdd(s: State, e: Event)
    requires Enabled(s, e)
    ensures OddOnes(Apply(s, e)) == OddOnes(s) + if Stray(s, e) then 1 else 0
  {
    hide Int32, Plus, HandlerNext, WorkerNext, OddInQueue, OddOnes, Arrive;
    match e
    case HandlerStep => HandlerOdd(s);
    case WorkerStep => WorkerOdd(s);
    case Hangup => assert OddOnes(s.(closed := true)) == OddOnes(s) by { HungOdd(s); }
    case _ => ArriveOdd(s, e);
  }

  lemma HungOdd(s: State)
    ensures OddOnes(s.(closed := true)) == OddOnes(s)
  {
  }

  lemma ArriveOdd(s: State, e: Event)
    requires Enabled(s, e) && Arrives(e)
    ensures OddOnes(Arrive(s, e)) == OddOnes(s) + if Stray(s, e) then 1 else 0
  {
    hide Plus, OddInQueue;
  }

  lemma HandlerOdd(s: State)
    requires HandlerCan(s)
    ensures OddOnes(HandlerNext(s)) == OddOnes(s)
  {
    hide Int32, Plus, OddInQueue;
    if s.handler.Pushing? { PushOdd(s.queue, s.handler.m); }
  }

  lemma WorkerOdd(s: State)
    requires WorkerCan(s)
    ensures OddOnes(WorkerNext(s)) == OddOnes(s)
  {
    hide Int32, Plus;
  }

  lemma {:induction false} RunOdd(s: State, es: seq<Event>)
    requires Runs(s, es)
    ensures OddOnes(Final(s, es)) == OddOnes(s) + Strays(s, es)
    decreases |es|
  {
    hide Apply, Stray, OddOnes;
    if es != [] {
      StepOdd(s, es[0]);
      RunOdd(Apply(s, es[0]), es[1..]);
    }
  }

  /** At rest pending is, in 32 bits, the number of stray messages of the whole run, so with fewer than 2^32 of them
      it is back at zero exactly when there was none. */
  lemma PendingAtRestExactly(es: seq<Event>)
    requires Runs(START, es)
    ensures var s := Final(START, es);
            && s.leaked <= Strays(START, es)
            && (Drained(s) ==> s.leaked == Strays(START, es) && s.pending == Int32(Strays(START, es)))
            && (Drained(s) && Strays(START, es) < TWO32 ==> (s.pending == 0 <==> Strays(START, es) == 0))
  {
    hide Runs, Final, Started, Owing, Strays, Int32;
    ReachedBase(es);
    RunOdd(START, es);
    SmallInt32(Strays(START, es));
  }

  /** Once a message was dropped, and while few were, pending is never zero again: no later command is sent directly. */
  lemma NeverDirectAgain(es: seq<Event>)
    requires Runs(START, es) && FewDropped(Final(START, es)) && Final(START, es).leaked > 0
    ensures Final(START, es).pending != 0
  {
    hide Runs, Final, Started, Owing, Int32;
    ReachedBase(es);
    SmallInt32(InFlight(Final(START, es)) + Final(START, es).leaked);
  }

  /** A client that sends only arrays sends no strays. */
  lemma {:induction false} ArraysNeverStray(s: State, es: seq<Event>)
    requires Runs(s, es) && (forall i :: 0 <= i < |es| ==> ArrayEvent(es[i]))
    ensures Strays(s, es) == 0
    decreases |es|
  {
    hide Apply;
    if es != [] {
      assert ArrayEvent(es[0]);
      ArraysNeverStray(Apply(s, es[0]), es[1..]);
    }
  }

  /** So none of its messages is ever dropped, and nothing above is conditional for it. */
  lemma ArraysNeverDropped(es: seq<Event>)
    requires Runs(START, es) && (forall i :: 0 <= i < |es| ==> ArrayEvent(es[i]))
    ensures Final(START, es).leaked == 0
  {
    hide Runs, Final, Strays;
    ArraysNeverStray(START, es);
    PendingAtRestExactly(es);
  }

  predicate ArrayEvent(e: Event) {
    e.Background? || e.Answered? ==> e.isArray
  }

  /** A background command that is a simple string, and everything at rest again: pending stays at one. */
  lemma StrayIsNeverGivenBack()
    ensures exists es: seq<Event> :: Runs(START, es) && Drained(Final(START, es)) && Final(START, es).pending == 1
  {
    var s1 := Apply(START, Background(false));
    var s2 := Apply(s1, HandlerStep);
    var s3 := Apply(s2, HandlerStep);
    var s4 := Apply(s3, WorkerStep);
    var s5 := Apply(s4, WorkerStep);
    assert Drained(s5) && s5.pending == 1;
    FirstRun(s4, WorkerStep, []);
    FirstRun(s3, WorkerStep, [WorkerStep] + []);
    FirstRun(s2, HandlerStep, [WorkerStep] + ([WorkerStep] + []));
    FirstRun(s1, HandlerStep, [HandlerStep] + ([WorkerStep] + ([WorkerStep] + [])));
    FirstRun(START, Background(false), [HandlerStep] + ([HandlerStep] + ([WorkerStep] + ([WorkerStep] + []))));
  }

  lemma FirstRun(s: State, e: Event, es: seq<Event>)
    requires Enabled(s, e) && Runs(Apply(s, e), es)
    ensures Runs(s, [e] + es) && Final(s, [e] + es) == Final(Apply(s, e), es)
  {
    hide Apply;
    assert ([e] + es)[1..] == es;
  }

  //---- draining ----------------------------------------------------------------------------------------------------

  /** Thread steps left before everything already read is finished. */
  function Left(s: State): nat {
    4 * |s.queue|
    + (match s.worker case Idle => 0 case Working(_) => 3 case Answering(_) => 2 case Subtracting => 1)
    + (match s.handler
       case Ready => 0 case Adding(_) => 6 case Pushing(_) => 5 case Calling(_) => 2 case Replying(_) => 1)
  }

  lemma StepFinishes(s: State, e: Event)
    requires Enabled(s, e) && (e.HandlerStep? || e.WorkerStep?)
    ensures Left(Apply(s, e)) < Left(s)
  {
    hide Int32;
  }

  lemma SomeThreadCanMove(s: State)
    requires Started(s) && !Drained(s)
    ensures HandlerCan(s) || WorkerCan(s)
  {
  }

  /** Nothing waits for ever: however the two threads are scheduled, they stop after at most Left steps, and they
      stop only when everything is drained, even if the client hung up or the channel was full. */
  lemma {:induction false} AlwaysDrains(es: seq<Event>, more: seq<Event>)
    requires Runs(START, es)
    requires Runs(Final(START, es), more)
        && (forall i :: 0 <= i < |more| ==> more[i].HandlerStep? || more[i].WorkerStep?)
    ensures |more| <= Left(Final(START, es))
    ensures var s := Final(Final(START, es), more); HandlerCan(s) || WorkerCan(s) || Drained(s)
  {
    hide Final, Runs, Left, HandlerCan, WorkerCan, Drained, Counted, Owing;
    ReachedBase(es);
    RunBase(Final(START, es), more);
    AtMostLeft(Final(START, es), more);
    var s := Final(Final(START, es), more);
    if !Drained(s) { SomeThreadCanMove(s); }
  }

  lemma {:induction false} AtMostLeft(s: State, more: seq<Event>)
    requires Runs(s, more) && (forall i :: 0 <= i < |more| ==> more[i].HandlerStep? || more[i].WorkerStep?)
    ensures |more| <= Left(s)
    decreases |more|
  {
    hide Apply, Left;
    if more != [] {
      assert more[0].HandlerStep? || more[0].WorkerStep?;
      StepFinishes(s, more[0]);
      AtMostLeft(Apply(s, more[0]), more[1..]);
    }
  }

  //---- the handler itself ------------------------------------------------------------------------------------------

  /** The connection's fields, changed one atomic step at a time by its two threads. */
  class ConnHandler {
    var nextId: nat
    var closed: bool
    var initialized: bool
    var arrived: seq<Req>
    var handler: Handler
    var worker: Worker
    var reqCh: seq<Msg>
    var pending: int
    var backend: seq<nat>
    var replies: multiset<nat>
    var leaked: nat

    ghost function View(): State
      reads this
    {
      State(nextId, closed, initialized, arrived, handler, worker, reqCh, pending, backend, replies, leaked)
    }

    /** What the theorems about runs need: all of it kept by every method. */
    ghost predicate Valid()
      reads this
    {
      Base(View()) && (FewDropped(View()) ==> Inv(View()))
    }

    /** The method took this step. */
    ghost predicate Took(s: State, e: Event)
      requires Enabled(s, e)
      reads this
    {
      Valid() && View() == Apply(s, e)
    }

    constructor ()
      ensures View() == START && Valid()
    {
      StartInv();
      nextId, closed, initialized, arrived := 0, false, false, [];
      handler, worker, reqCh, pending := Ready, Idle, [], 0;
      backend, replies, leaked := [], multiset{}, 0;
    }

    /** process, up to the point where it touches pending or the backend. */
    method Process(e: Event)
      requires Valid() && Arrives(e) && Enabled(View(), e)
      modifies this
      ensures Took(old(View()), e)
    {
      hide Base, Inv, FewDropped;
      StepKeeps(View(), e);
      Receive(e);
    }

    method Receive(e: Event)
      requires Arrives(e) && Enabled(View(), e)
      modifies this
      ensures View() == Apply(old(View()), e)
    {
      hide Plus, Int32;
      var id := nextId;
      nextId := nextId + 1;
      if e.Refused? {
        replies := Plus(replies, id);
        return;
      }
      var req := Req(id, e.isArray);
      arrived := arrived + [req];
      if e.Background? {
        replies := Plus(replies, id);
        initialized := true;
        handler := Adding(Msg(req, false));
      } else if pending != 0 {
        handler := Adding(Msg(req, true));
      } else {
        handler := Calling(req);
      }
    }

    method Hang()
      requires Valid() && Enabled(View(), Hangup)
      modifies this`closed
      ensures Took(old(View()), Hangup)
    {
      hide Base, Inv, FewDropped;
      StepKeeps(View(), Hangup);
      closed := true;
    }

    method HandlerMoves()
      requires Valid() && HandlerCan(View())
      modifies this
      ensures Took(old(View()), HandlerStep)
    {
      hide Base, Inv, FewDropped;
      StepKeeps(View(), HandlerStep);
      HandlerTurn();
    }

    method HandlerTurn()
      requires HandlerCan(View())
      modifies this
      ensures View() == Apply(old(View()), HandlerStep)
    {
      hide Plus, Int32;
      match handler
      case Adding(m) => pending := Int32(pending + 1); handler := Pushing(m);
      case Pushing(m) => reqCh := reqCh + [m]; handler := Ready;
      case Calling(r) =>
        if r.isArray { backend := backend + [r.id]; }
        handler := Replying(r);
      case Replying(r) => replies := Plus(replies, r.id); handler := Ready;
    }

    method WorkerMoves()
      requires Valid() && WorkerCan(View())
      modifies this
      ensures Took(old(View()), WorkerStep)
    {
      hide Base, Inv, FewDropped;
      StepKeeps(View(), WorkerStep);
      WorkerTurn();
    }

    method WorkerTurn()
      requires WorkerCan(View())
      modifies this
      ensures View() == Apply(old(View()), WorkerStep)
    {
      hide Plus, Int32;
      match worker
      case Idle => worker := Working(reqCh[0]); reqCh := reqCh[1..];
      case Working(m) =>
        if m.req.isArray {
          backend := backend + [m.req.id];
          worker := Answering(m);
        } else {
          if m.mustAnswer { replies := Plus(replies, m.req.id); }
          leaked := leaked + 1;
          worker := Idle;
        }
      case Answering(m) =>
        if m.mustAnswer { replies := Plus(replies, m.req.id); }
        worker := Subtracting;
      case Subtracting => pending := Int32(pending - 1); worker := Idle;
    }
  }

  lemma StepKeeps(s: State, e: Event)
    requires Enabled(s, e) && Base(s) && (FewDropped(s) ==> Inv(s))
    ensures Base(Apply(s, e)) && (FewDropped(Apply(s, e)) ==> Inv(Apply(s, e)))
  {
    hide Base, Inv, Enabled, Apply;
    StepBase(s, e);
    StepDrops(s, e);
    if FewDropped(s) { StepInv(s, e); }
  }

  lemma StepDrops(s: State, e: Event)
    requires Enabled(s, e)
    ensures s.leaked <= Apply(s, e).leaked
  {
    hide Int32;
  }
}
