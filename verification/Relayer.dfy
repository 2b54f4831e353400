/** The smart relayer: local connections tag requests with a database, one client pipelines them to the server. */
module Relayer {
  import opened Words

  //---- commands, requests, the wire --------------------------------------------------------------------------------

  /** A parsed command. For a SELECT, arg is the number NewRequest finds, accepted the database the server switches
      to. */
  datatype Command = Command(name: string, arg: Option<int>, accepted: Option<nat>, op: nat)

  const SELECT := "SELECT"
  const UNKNOWN_DB := -1

  datatype Request = Request(id: nat, cmd: Command, database: int, sync: bool)

  predicate IsSelect(c: Command) {
    c.name == SELECT
  }

  /** What the server sees: a SELECT it obeys or rejects, or an operation in its current database. */
  datatype Wire = WSelect(db: Option<nat>) | WOp(op: nat)

  function WireOf(c: Command): Wire {
    if IsSelect(c) then WSelect(c.accepted) else WOp(c.op)
  }

  /** Every SELECT n with n >= 0 is accepted. */
  function InternalSelect(db: int): Wire {
    WSelect(if db >= 0 then Some(db) else None)
  }

  /** The server on one connection, which starts in database 0. */
  function ServerDb(ws: seq<Wire>): int {
    if ws == [] then 0
    else
      var w := ws[|ws| - 1];
      if w.WSelect? && w.db.Some? then w.db.value else ServerDb(ws[..|ws| - 1])
  }

  function Effects(ws: seq<Wire>): seq<(int, nat)> {
    if ws == [] then []
    else
      var init, w := ws[..|ws| - 1], ws[|ws| - 1];
      Effects(init) + if w.WOp? then [(ServerDb(init), w.op)] else []
  }

  /** Each request run directly in the database it is tagged with. */
  function Direct(rs: seq<Request>): seq<(int, nat)> {
    if rs == [] then []
    else
      var r := rs[|rs| - 1];
      Direct(rs[..|rs| - 1]) + if IsSelect(r.cmd) then [] else [(r.database, r.cmd.op)]
  }

  //---- state -------------------------------------------------------------------------------------------------------

  datatype Entry = Placeholder | Waiting(r: Request)
  datatype Cause = Internal | Of(id: nat)
  datatype Kind = Fast | BadCommand | SendError | KO | FromServer(cause: Cause)
  datatype Reply = Reply(id: nat, kind: Kind)

  /** One server connection: every command written to it and every request those carried. */
  datatype Conn = Conn(wire: seq<Wire>, written: seq<Request>)

  datatype Config = Config(smart: bool, async: set<string>)

  /** A listener whose connection was dropped while it was reading: the request in its hand, and what that server had
      still to answer. */
  datatype Listener = Listener(r: Request, unanswered: seq<Cause>)

  /** hand is the entry the current listener took off the queue and is reading the reply of. */
  datatype State = State(
    nextId: nat,
    currentDB: map<nat, int>,
    requestChan: seq<Request>,
    connected: bool,
    database: int,
    queue: seq<Entry>,
    hand: Option<Entry>,
    unanswered: seq<Cause>,
    conn: Conn,
    past: seq<Conn>,
    left: seq<Listener>,
    log: seq<Reply>,
    crashed: bool)

  const NO_CONN := Conn([], [])
  const START := State(0, map[], [], false, 0, [], None, [], NO_CONN, [], [], [], false)

  //---- the steps ---------------------------------------------------------------------------------------------------

  /** The database a SELECT names, or UNKNOWN_DB. */
  function Named(c: Command): int {
    if IsSelect(c) && c.arg.Some? then c.arg.value else UNKNOWN_DB
  }

  function CurrentDB(s: State, local: nat): int {
    if local in s.currentDB then s.currentDB[local] else 0
  }

  function Tag(s: State, local: nat, c: Command): int {
    if Named(c) != UNKNOWN_DB then Named(c) else CurrentDB(s, local)
  }

  function Answer(s: State, id: nat, kind: Kind): State {
    s.(log := s.log + [Reply(id, kind)])
  }

  /** The handler loop of one local connection: malformed requests are refused, others tagged; asynchronous ones
      are answered at once. `sent` is whether client.send takes the request. */
  function Arrive(cfg: Config, s: State, local: nat, input: Option<Command>, sent: bool): State {
    var id := s.nextId;
    var s := s.(nextId := id + 1);
    match input
    case None => Answer(s, id, BadCommand)
    case Some(c) =>
      var db := Tag(s, local, c);
      var s := s.(currentDB := s.currentDB[local := db]);
      if cfg.smart && c.name in cfg.async then
        var s := Answer(s, id, Fast);
        if sent then s.(requestChan := s.requestChan + [Request(id, c, db, false)]) else s
      else if sent then s.(requestChan := s.requestChan + [Request(id, c, db, true)])
      else Answer(s, id, SendError)
  }

  function Purged(q: seq<Entry>): seq<Reply> {
    if q == [] then []
    else
      var e := q[|q| - 1];
      Purged(q[..|q| - 1]) + if e.Waiting? && e.r.sync then [Reply(e.r.id, KO)] else []
  }

  /** The listener goes on reading for the request in its hand; a placeholder in its hand needs no answer. */
  function LeftBehind(hand: Option<Entry>, unanswered: seq<Cause>): seq<Listener> {
    if hand.Some? && hand.value.Waiting? then [Listener(hand.value.r, unanswered)] else []
  }

  /** disconnect: refuse what is queued, forget the connection and the database. Purging dereferences each entry, so a
      placeholder still in the queue, behind the one in the listener's hand, is a nil dereference. */
  function Disconnect(s: State): State {
    if Placeholder in s.queue then s.(crashed := true)
    else s.(connected := false, database := 0, queue := [], hand := None, unanswered := [], conn := NO_CONN,
            past := s.past + [s.conn], left := s.left + LeftBehind(s.hand, s.unanswered),
            log := s.log + Purged(s.queue))
  }

  function Connect(s: State): State {
    s.(connected := true, queue := [], hand := None, unanswered := [], conn := NO_CONN)
  }

  function Put(s: State, w: Wire, cause: Cause): State {
    s.(conn := s.conn.(wire := s.conn.wire + [w]), unanswered := s.unanswered + [cause])
  }

  /** The last two lines of write: the request is on the wire and queued for its reply. */
  function Written(s: State, r: Request): State {
    var s := Put(s, WireOf(r.cmd), Of(r.id));
    s.(conn := s.conn.(written := s.conn.written + [r]), queue := s.queue + [Waiting(r)])
  }

  /** The listener's reaction to an error from write. */
  function Refuse(s: State, r: Request): State {
    var d := Disconnect(s);
    if !d.crashed && r.sync then Answer(d, r.id, KO) else d
  }

  datatype Outcome = Done | ClosedByPeer | Broken

  /** What happens during one write: dial, the internal SELECT, the listener taking its placeholder before the
      request is sent, the request, a second dial and write, the flush. */
  datatype Net = Net(dial: bool, change: bool, taken: bool, write: Outcome, redial: bool, rewrite: bool, flush: bool)

  function Send(s: State, r: Request, net: Net): State {
    match net.write
    case Broken => Refuse(s, r)
    case Done => if net.flush then Written(s, r) else Refuse(s, r)
    case ClosedByPeer =>
      var d := Disconnect(s);
      if d.crashed then d
      else if net.redial && net.rewrite && net.flush then Written(Connect(d), r)
      else Refuse(d, r)
  }

  predicate Elided(cfg: Config, s: State, r: Request) {
    cfg.smart && IsSelect(r.cmd) && s.database == r.database
  }

  /** requestListener takes one request and writes it. */
  function WriteStep(cfg: Config, s: State, net: Net): State
    requires s.requestChan != []
  {
    var r := s.requestChan[0];
    var s := s.(requestChan := s.requestChan[1..]);
    if !s.connected && !net.dial then Refuse(s, r)
    else
      var s := if s.connected then s else Connect(s);
      if IsSelect(r.cmd) then
        if Elided(cfg, s, r) then s else Send(s.(database := r.database), r, net)
      else if s.database != r.database then
        if !net.change then Refuse(s, r)
        else
          var s := Changed(s, r.database);
          Send(if net.taken && s.hand.None? && s.queue == [Placeholder] then Take(s) else s, r, net)
      else Send(s, r, net)
  }

  /** changeDB and the nil sent to the queue after it. */
  function Changed(s: State, db: int): State {
    Put(s, InternalSelect(db), Internal).(database := db, queue := s.queue + [Placeholder])
  }

  /** redisListener receives the next queue entry. */
  function Take(s: State): State
    requires s.queue != []
  {
    s.(hand := Some(s.queue[0]), queue := s.queue[1..])
  }

  /** redisListener's read for the entry in its hand; a failed read for a placeholder is ignored. */
  function ReplyStep(s: State, ok: bool): State
    requires s.hand.Some? && (ok ==> s.unanswered != [])
  {
    var e := s.hand.value;
    var done := s.(hand := None);
    if ok then
      var read := done.(unanswered := s.unanswered[1..]);
      if e.Waiting? && e.r.sync then Answer(read, e.r.id, FromServer(s.unanswered[0])) else read
    else if e.Placeholder? then done
    else Disconnect(if e.r.sync then Answer(done, e.r.id, KO) else done)
  }

  /** The last read of a listener left behind; when it fails, the listener disconnects whatever connection there is. */
  function LateStep(s: State, i: nat, ok: bool): State
    requires i < |s.left| && (ok ==> s.left[i].unanswered != [])
  {
    var l := s.left[i];
    var done := s.(left := s.left[..i] + s.left[i + 1..]);
    var kind := if ok then FromServer(l.unanswered[0]) else KO;
    var answered := if l.r.sync then Answer(done, l.r.id, kind) else done;
    if ok then answered else Disconnect(answered)
  }

  /** Dropping is the idle timer, or a listener that ends. */
  datatype Event =
    | Arrival(local: nat, input: Option<Command>, sent: bool)
    | Writing(net: Net)
    | Taking
    | Replying(ok: bool)
    | Late(i: nat, ok: bool)
    | Dropping

  predicate Enabled(s: State, e: Event) {
    !s.crashed &&
    match e
    case Arrival(_, _, _) => true
    case Writing(_) => s.requestChan != []
    case Taking => s.connected && s.hand.None? && s.queue != []
    case Replying(ok) => s.connected && s.hand.Some? && (ok ==> s.unanswered != [])
    case Late(i, ok) => i < |s.left| && (ok ==> s.left[i].unanswered != [])
    case Dropping => true
  }

  function Apply(cfg: Config, s: State, e: Event): State
    requires Enabled(s, e)
  {
    match e
    case Arrival(local, input, sent) => Arrive(cfg, s, local, input, sent)
    case Writing(net) => WriteStep(cfg, s, net)
    case Taking => Take(s)
    case Replying(ok) => ReplyStep(s, ok)
    case Late(i, ok) => LateStep(s, i, ok)
    case Dropping => Disconnect(s)
  }

  predicate Runs(cfg: Config, s: State, es: seq<Event>)
    decreases |es|
  {
    es == [] || (Enabled(s, es[0]) && Runs(cfg, Apply(cfg, s, es[0]), es[1..]))
  }

  function Final(cfg: Config, s: State, es: seq<Event>): State
    requires Runs(cfg, s, es)
    decreases |es|
  {
    if es == [] then s else Final(cfg, Apply(cfg, s, es[0]), es[1..])
  }

  //---- the database is always the one tagged -----------------------------------------------------------------------

  /** A SELECT the server obeys as NewRequest reads it. */
  predicate Honest(c: Command) {
    IsSelect(c) ==> c.arg.Some? && c.arg.value >= 0 && c.accepted == Some(c.arg.value)
  }

  /** Every SELECT that arrives is honest, and a resend on a fresh connection happens only in database 0. */
  predicate KeepsDatabase(s: State, e: Event) {
    match e
    case Arrival(_, input, _) => input.Some? ==> Honest(input.value)
    case Writing(net) => s.requestChan != [] && net.write == ClosedByPeer ==> s.requestChan[0].database == 0
    case _ => true
  }

  predicate AllKeepDatabase(cfg: Config, s: State, es: seq<Event>)
    requires Runs(cfg, s, es)
    decreases |es|
  {
    es == [] || (KeepsDatabase(s, es[0]) && AllKeepDatabase(cfg, Apply(cfg, s, es[0]), es[1..]))
  }

  ghost predicate Tagged(r: Request) {
    r.database >= 0 && (IsSelect(r.cmd) ==> r.cmd.accepted == Some(r.database))
  }

  ghost predicate WireInSync(s: State) {
    && s.database >= 0
    && (!s.connected ==> s.database == 0 && s.conn == NO_CONN)
    && ServerDb(s.conn.wire) == s.database
    && Effects(s.conn.wire) == Direct(s.conn.written)
    && (forall c | c in s.past :: Effects(c.wire) == Direct(c.written))
  }

  ghost predicate InSync(s: State) {
    && (forall r | r in s.requestChan :: Tagged(r))
    && (forall c | c in s.currentDB :: s.currentDB[c] >= 0)
    && WireInSync(s)
  }

  lemma ServerStep(ws: seq<Wire>, w: Wire)
    ensures ServerDb(ws + [w]) == if w.WSelect? && w.db.Some? then w.db.value else ServerDb(ws)
    ensures Effects(ws + [w]) == Effects(ws) + if w.WOp? then [(ServerDb(ws), w.op)] else []
  {
    assert (ws + [w])[..|ws|] == ws;
  }

  lemma DirectStep(rs: seq<Request>, r: Request)
    ensures Direct(rs + [r]) == Direct(rs) + if IsSelect(r.cmd) then [] else [(r.database, r.cmd.op)]
  {
    assert (rs + [r])[..|rs|] == rs;
  }

  lemma WrittenInSync(s: State, r: Request)
    requires s.connected && Tagged(r) && s.database == r.database && Effects(s.conn.wire) == Direct(s.conn.written)
    requires forall c | c in s.past :: Effects(c.wire) == Direct(c.written)
    requires !IsSelect(r.cmd) ==> ServerDb(s.conn.wire) == r.database
    ensures WireInSync(Written(s, r))
  {
    ServerStep(s.conn.wire, WireOf(r.cmd));
    DirectStep(s.conn.written, r);
  }

  lemma DisconnectInSync(s: State)
    requires Effects(s.conn.wire) == Direct(s.conn.written)
    requires forall c | c in s.past :: Effects(c.wire) == Direct(c.written)
    ensures Disconnect(s).crashed || WireInSync(Disconnect(s))
  {
  }

  lemma SendInSync(s: State, r: Request, net: Net)
    requires s.connected && Tagged(r) && s.database == r.database && Effects(s.conn.wire) == Direct(s.conn.written)
    requires forall c | c in s.past :: Effects(c.wire) == Direct(c.written)
    requires !IsSelect(r.cmd) ==> ServerDb(s.conn.wire) == r.database
    requires net.write == ClosedByPeer ==> r.database == 0
    ensures Send(s, r, net).crashed || WireInSync(Send(s, r, net))
  {
    hide Effects, Direct, ServerDb;
    RefuseInSync(s, r);
    WrittenInSync(s, r);
    DisconnectInSync(s);
    var d := Disconnect(s);
    if !d.crashed {
      RefuseInSync(d, r);
      if net.write == ClosedByPeer { WrittenInSync(Connect(d), r); }
    }
  }

  lemma RefuseInSync(s: State, r: Request)
    requires Effects(s.conn.wire) == Direct(s.conn.written)
    requires forall c | c in s.past :: Effects(c.wire) == Direct(c.written)
    ensures Refuse(s, r).crashed || WireInSync(Refuse(s, r))
  {
    DisconnectInSync(s);
  }

  lemma WriteStepInSync(cfg: Config, s: State, net: Net)
    requires InSync(s) && s.requestChan != []
    requires net.write == ClosedByPeer ==> s.requestChan[0].database == 0
    ensures var s' := WriteStep(cfg, s, net);
            (s'.crashed || WireInSync(s')) && s'.requestChan == s.requestChan[1..] && s'.currentDB == s.currentDB
  {
    hide Effects, Direct, ServerDb, Send, Refuse;
    var r := s.requestChan[0];
    assert Tagged(r);
    var s0 := s.(requestChan := s.requestChan[1..]);
    FreshConn();
    RefuseInSync(s0, r);
    SendKeeps(s0, r, net);
    if s.connected || net.dial {
      var s1 := if s.connected then s0 else Connect(s0);
      SendKeeps(s1, r, net);
      RefuseInSync(s1, r);
      if IsSelect(r.cmd) {
        if !Elided(cfg, s1, r) {
          SendInSync(s1.(database := r.database), r, net);
          SendKeeps(s1.(database := r.database), r, net);
        }
      } else if s1.database != r.database {
        ServerStep(s1.conn.wire, InternalSelect(r.database));
        var s2 := Changed(s1, r.database);
        var s3 := if net.taken && s2.hand.None? && s2.queue == [Placeholder] then Take(s2) else s2;
        if net.change { SendInSync(s3, r, net); }
        SendKeeps(s3, r, net);
        assert Effects(s1.conn.wire) + [] == Effects(s1.conn.wire);
      } else {
        SendInSync(s1, r, net);
      }
    }
  }

  lemma FreshConn()
    ensures ServerDb([]) == 0 && Effects([]) == [] && Direct([]) == []
  {
  }

  lemma SendKeeps(s: State, r: Request, net: Net)
    ensures Send(s, r, net).requestChan == s.requestChan && Send(s, r, net).currentDB == s.currentDB
    ensures Refuse(s, r).requestChan == s.requestChan && Refuse(s, r).currentDB == s.currentDB
  {
    hide Disconnect;
    DisconnectKeeps(s);
    DisconnectKeeps(Disconnect(s));
  }

  lemma DisconnectKeeps(s: State)
    ensures Disconnect(s).requestChan == s.requestChan && Disconnect(s).currentDB == s.currentDB
  {
  }

  lemma ArriveInSync(cfg: Config, s: State, e: Event)
    requires Enabled(s, e) && e.Arrival? && InSync(s) && KeepsDatabase(s, e)
    ensures InSync(Apply(cfg, s, e))
  {
    hide Effects, Direct, ServerDb;
  }

  lemma ReplyInSync(s: State, ok: bool)
    requires s.hand.Some? && (ok ==> s.unanswered != []) && InSync(s)
    ensures ReplyStep(s, ok).crashed || InSync(ReplyStep(s, ok))
  {
    hide Effects, Direct, ServerDb;
    var e, done := s.hand.value, s.(hand := None);
    if !ok && e.Waiting? {
      DisconnectInSync(if e.r.sync then Answer(done, e.r.id, KO) else done);
    }
  }

  lemma LateInSync(s: State, i: nat, ok: bool)
    requires i < |s.left| && (ok ==> s.left[i].unanswered != []) && InSync(s)
    ensures LateStep(s, i, ok).crashed || InSync(LateStep(s, i, ok))
  {
    hide Effects, Direct, ServerDb;
    var l, done := s.left[i], s.(left := s.left[..i] + s.left[i + 1..]);
    DisconnectInSync(if l.r.sync then Answer(done, l.r.id, KO) else done);
  }

  lemma StepInSync(cfg: Config, s: State, e: Event)
    requires Enabled(s, e) && InSync(s) && KeepsDatabase(s, e)
    ensures Apply(cfg, s, e).crashed || InSync(Apply(cfg, s, e))
  {
    hide Effects, Direct, ServerDb, WriteStep, ReplyStep, Arrive, LateStep;
    match e
    case Arrival(local, input, sent) => ArriveInSync(cfg, s, e);
    case Writing(net) => WriteStepInSync(cfg, s, net);
    case Taking =>
    case Replying(ok) => ReplyInSync(s, ok);
    case Late(i, ok) => LateInSync(s, i, ok);
    case Dropping => DisconnectInSync(s);
  }

  lemma {:induction false} RunInSync(cfg: Config, s: State, es: seq<Event>)
    requires Runs(cfg, s, es) && InSync(s) && AllKeepDatabase(cfg, s, es)
    ensures Final(cfg, s, es).crashed || InSync(Final(cfg, s, es))
    decreases |es|
  {
    hide InSync, Apply, KeepsDatabase;
    if es != [] {
      StepInSync(cfg, s, es[0]);
      if !Apply(cfg, s, es[0]).crashed { RunInSync(cfg, Apply(cfg, s, es[0]), es[1..]); }
    }
  }

  /** In every run, on every connection, what the server does is what the written requests do in their tagged databases,
      and the client's idea of the selected database is the server's. */
  lemma SameEffect(cfg: Config, es: seq<Event>)
    requires Runs(cfg, START, es) && AllKeepDatabase(cfg, START, es) && !Final(cfg, START, es).crashed
    ensures var s := Final(cfg, START, es);
            && Effects(s.conn.wire) == Direct(s.conn.written)
            && ServerDb(s.conn.wire) == s.database
            && forall c | c in s.past :: Effects(c.wire) == Direct(c.written)
  {
    FreshConn();
    RunInSync(cfg, START, es);
  }

  /** The server may have executed only part of what was written: then it did the first part of the direct effects. */
  lemma {:induction false} PartialEffects(ws: seq<Wire>, k: nat)
    requires k <= |ws|
    ensures Effects(ws[..k]) <= Effects(ws)
    decreases |ws|
  {
    if k < |ws| {
      var init := ws[..|ws| - 1];
      assert init[..k] == ws[..k];
      PartialEffects(init, k);
    } else {
      assert ws[..k] == ws;
    }
  }

  /** Every elided SELECT is redundant: sending it would change neither the server's database nor any effect. */
  lemma ElisionIsRedundant(cfg: Config, s: State, r: Request)
    requires WireInSync(s) && Tagged(r) && Elided(cfg, s, r)
    ensures ServerDb(s.conn.wire + [WireOf(r.cmd)]) == ServerDb(s.conn.wire)
    ensures Effects(s.conn.wire + [WireOf(r.cmd)]) == Effects(s.conn.wire)
  {
    ServerStep(s.conn.wire, WireOf(r.cmd));
  }

  /** The resend after the peer closed goes out on a fresh connection without a new SELECT: it keeps the relayer in
      step with the server exactly when the request is tagged with database 0. */
  lemma ResendExactly(s: State, r: Request, net: Net)
    requires WireInSync(s) && s.connected && !s.crashed && Tagged(r) && s.database == r.database
        && Placeholder !in s.queue
    requires net.write == ClosedByPeer && net.redial && net.rewrite && net.flush
    ensures WireInSync(Send(s, r, net)) <==> r.database == 0
  {
    var d := Connect(Disconnect(s));
    var s' := Written(d, r);
    assert Send(s, r, net) == s';
    assert d.conn.wire + [WireOf(r.cmd)] == [WireOf(r.cmd)] && d.conn.written + [r] == [r];
    FreshConn();
    ServerStep([], WireOf(r.cmd));
    DirectStep([], r);
    assert s'.conn.wire == [] + [WireOf(r.cmd)] && s'.conn.written == [] + [r];
    if r.database == 0 {
      assert forall c | c in s'.past :: c == s.conn || c in s.past;
      assert ServerDb(s'.conn.wire) == 0 == s'.database;
      assert Effects(s'.conn.wire) == Direct(s'.conn.written);
    } else if !IsSelect(r.cmd) {
      assert Effects(s'.conn.wire) == [(0, r.cmd.op)] && Direct(s'.conn.written) == [(r.database, r.cmd.op)];
    } else {
      assert ServerDb(s'.conn.wire) == r.database && s'.database == 0;
    }
  }

  /** The listener about to write a SELECT: it ends in step with the server exactly when nothing reaches the server
      (the SELECT is elided, or the write fails), or the server accepts the database the client assumes afterwards, or
      rejects the command while already there. After a resend the client assumes database 0. */
  lemma SelectExactly(cfg: Config, s: State, net: Net)
    requires WireInSync(s) && s.requestChan != [] && IsSelect(s.requestChan[0].cmd) && !WriteStep(cfg, s, net).crashed
    ensures WireInSync(WriteStep(cfg, s, net)) <==>
            var r := s.requestChan[0];
            || Elided(cfg, s, r)
            || !Reaches(s, net)
            || (net.write.Done? && r.cmd.accepted == Some(r.database))
            || (net.write.Done? && r.cmd.accepted.None? && s.database == r.database)
            || (net.write.ClosedByPeer? && (r.cmd.accepted.None? || r.cmd.accepted == Some(0)))
  {
    hide Effects, Direct, ServerDb, Purged;
    var r := s.requestChan[0];
    var s0 := s.(requestChan := s.requestChan[1..]);
    FreshConn();
    RefuseInSync(s0, r);
    if s.connected || net.dial {
      var s1 := if s.connected then s0 else Connect(s0);
      if !Elided(cfg, s1, r) {
        var s2 := s1.(database := r.database);
        RefuseInSync(s2, r);
        var d := Disconnect(s2);
        if net.write.Done? {
          SelectWritten(s2, r);
        } else if !d.crashed {
          RefuseInSync(d, r);
          DisconnectInSync(s2);
          SelectWritten(Connect(d), r);
        }
      }
    }
  }

  /** The request ends up on some connection. */
  predicate Reaches(s: State, net: Net) {
    (s.connected || net.dial) && net.flush && !net.write.Broken?
        && (net.write.ClosedByPeer? ==> net.redial && net.rewrite)
  }

  lemma SelectWritten(s: State, r: Request)
    requires s.connected && IsSelect(r.cmd) && Effects(s.conn.wire) == Direct(s.conn.written)
    requires forall c | c in s.past :: Effects(c.wire) == Direct(c.written)
    ensures WireInSync(Written(s, r)) <==>
            s.database >= 0 &&
            s.database == if r.cmd.accepted.Some? then r.cmd.accepted.value else ServerDb(s.conn.wire)
  {
    hide Effects, Direct, ServerDb;
    ServerStep(s.conn.wire, WireOf(r.cmd));
    DirectStep(s.conn.written, r);
  }

  //---- each reply reaches the request that caused it ---------------------------------------------------------------

  ghost predicate Matches(q: seq<Entry>, u: seq<Cause>) {
    |q| == |u| && forall i | 0 <= i < |q| :: u[i] == if q[i].Placeholder? then Internal else Of(q[i].r.id)
  }

  predicate Idle(s: State) {
    s.queue == [] && s.hand.None?
  }

  /** What the current listener is reading for or has still to take. */
  function Listened(s: State): seq<Entry> {
    (if s.hand.Some? then [s.hand.value] else []) + s.queue
  }

  /** The next reply of every listener left behind is for the request in its hand. */
  ghost predicate LeftMatch(ls: seq<Listener>) {
    forall i | 0 <= i < |ls| :: ls[i].unanswered != [] && ls[i].unanswered[0] == Of(ls[i].r.id)
  }

  ghost predicate LogMatches(log: seq<Reply>) {
    forall r | r in log :: r.kind.FromServer? ==> r.kind.cause == Of(r.id)
  }

  ghost predicate Aligned(s: State) {
    && Matches(Listened(s), s.unanswered)
    && (s.connected || Idle(s))
    && LeftMatch(s.left)
    && LogMatches(s.log)
  }

  /** A read does not fail on behalf of a placeholder. */
  predicate KeepsAlignment(s: State, e: Event) {
    e.Replying? && !e.ok && s.hand.Some? ==> s.hand.value.Waiting?
  }

  predicate AllKeepAlignment(cfg: Config, s: State, es: seq<Event>)
    requires Runs(cfg, s, es)
    decreases |es|
  {
    es == [] || (KeepsAlignment(s, es[0]) && AllKeepAlignment(cfg, Apply(cfg, s, es[0]), es[1..]))
  }

  lemma {:induction false} PurgedAreKO(q: seq<Entry>)
    ensures forall r | r in Purged(q) :: r.kind == KO
    decreases |q|
  {
    if q != [] { PurgedAreKO(q[..|q| - 1]); }
  }

  lemma LeftAligned(s: State)
    requires Matches(Listened(s), s.unanswered) && LeftMatch(s.left)
    ensures LeftMatch(s.left + LeftBehind(s.hand, s.unanswered))
  {
    if s.hand.Some? && s.hand.value.Waiting? { assert Listened(s)[0] == s.hand.value; }
  }

  lemma DisconnectAligned(s: State)
    requires LogMatches(s.log) && LeftMatch(s.left + LeftBehind(s.hand, s.unanswered))
    ensures Disconnect(s).crashed || (Aligned(Disconnect(s)) && !Disconnect(s).connected)
  {
    PurgedAreKO(s.queue);
  }

  lemma RefuseAligned(s: State, r: Request)
    requires LogMatches(s.log) && LeftMatch(s.left + LeftBehind(s.hand, s.unanswered))
    ensures Refuse(s, r).crashed || Aligned(Refuse(s, r))
  {
    DisconnectAligned(s);
  }

  lemma WrittenAligned(s: State, r: Request)
    requires Aligned(s) && s.connected
    ensures Aligned(Written(s, r))
  {
    assert Listened(Written(s, r)) == Listened(s) + [Waiting(r)];
  }

  lemma SendAligned(s: State, r: Request, net: Net)
    requires Aligned(s) && s.connected
    ensures Send(s, r, net).crashed || Aligned(Send(s, r, net))
  {
    hide Aligned, Written, LeftBehind;
    AlignedParts(s);
    RefuseAligned(s, r);
    DisconnectAligned(s);
    WrittenAligned(s, r);
    var d := Disconnect(s);
    if !d.crashed {
      AlignedParts(d);
      RefuseAligned(d, r);
      ConnectAligned(d);
      WrittenAligned(Connect(d), r);
    }
  }

  lemma AlignedParts(s: State)
    requires Aligned(s)
    ensures LogMatches(s.log) && LeftMatch(s.left) && LeftMatch(s.left + LeftBehind(s.hand, s.unanswered))
  {
    LeftAligned(s);
  }

  lemma ConnectAligned(s: State)
    requires LogMatches(s.log) && LeftMatch(s.left)
    ensures Aligned(Connect(s))
  {
  }

  lemma ChangedAligned(s: State, db: int)
    requires Aligned(s) && s.connected
    ensures Aligned(Changed(s, db))
  {
    assert Listened(Changed(s, db)) == Listened(s) + [Placeholder];
  }

  lemma TakeAligned(s: State)
    requires Aligned(s) && s.connected && s.hand.None? && s.queue != []
    ensures Aligned(Take(s))
  {
    assert Listened(Take(s)) == Listened(s);
  }

  lemma WriteStepAligned(cfg: Config, s: State, net: Net)
    requires Aligned(s) && s.requestChan != []
    ensures WriteStep(cfg, s, net).crashed || Aligned(WriteStep(cfg, s, net))
  {
    hide Send, Refuse, Changed, Take, LogMatches, LeftMatch, LeftBehind, Matches;
    var r := s.requestChan[0];
    var s0 := s.(requestChan := s.requestChan[1..]);
    var s1 := if s.connected then s0 else Connect(s0);
    AlignedParts(s);
    AlignedParts(s0);
    ConnectAligned(s0);
    AlignedParts(s1);
    RefuseAligned(s0, r);
    RefuseAligned(s1, r);
    SendAligned(s1, r, net);
    SendAligned(s1.(database := r.database), r, net);
    ChangedAligned(s1, r.database);
    ChangedShape(s1, r.database);
    var s2 := Changed(s1, r.database);
    SendAligned(s2, r, net);
    if s2.hand.None? && s2.queue == [Placeholder] {
      TakeAligned(s2);
      TakeShape(s2);
      SendAligned(Take(s2), r, net);
    }
  }

  lemma ChangedShape(s: State, db: int)
    ensures Changed(s, db).connected == s.connected && Changed(s, db).nextId == s.nextId
    ensures Changed(s, db).requestChan == s.requestChan
  {
  }

  lemma TakeShape(s: State)
    requires s.queue != []
    ensures Take(s).connected == s.connected && Take(s).nextId == s.nextId && Take(s).requestChan == s.requestChan
  {
  }

  lemma ReplyAligned(s: State, ok: bool)
    requires s.connected && s.hand.Some? && (ok ==> s.unanswered != []) && Aligned(s)
    ensures ReplyStep(s, ok).crashed || (Aligned(ReplyStep(s, ok)) <==> (ok || s.hand.value.Waiting?))
  {
    var e, done := s.hand.value, s.(hand := None);
    assert Listened(s)[0] == e && Listened(s)[1..] == Listened(done);
    if !ok && e.Waiting? {
      DisconnectAligned(if e.r.sync then Answer(done, e.r.id, KO) else done);
    }
  }

  lemma LateAligned(s: State, i: nat, ok: bool)
    requires i < |s.left| && (ok ==> s.left[i].unanswered != []) && Aligned(s)
    ensures LateStep(s, i, ok).crashed || Aligned(LateStep(s, i, ok))
  {
    hide Matches;
    var l, done := s.left[i], s.(left := s.left[..i] + s.left[i + 1..]);
    assert Listened(done) == Listened(s);
    AlignedParts(done);
    if !ok {
      DisconnectAligned(if l.r.sync then Answer(done, l.r.id, KO) else done);
    }
  }

  /** A step keeps the outstanding queue matched with the unanswered commands exactly when it is not a read that fails
      for a placeholder. */
  lemma StepAligned(cfg: Config, s: State, e: Event)
    requires Enabled(s, e) && Aligned(s)
    ensures Apply(cfg, s, e).crashed || (Aligned(Apply(cfg, s, e)) <==> KeepsAlignment(s, e))
  {
    hide WriteStep, ReplyStep, LateStep, Take, Purged;
    match e
    case Arrival(local, input, sent) => assert Listened(Apply(cfg, s, e)) == Listened(s);
    case Writing(net) => WriteStepAligned(cfg, s, net);
    case Taking => TakeAligned(s);
    case Replying(ok) => ReplyAligned(s, ok);
    case Late(i, ok) => LateAligned(s, i, ok);
    case Dropping => AlignedParts(s); DisconnectAligned(s);
  }

  lemma {:induction false} RunAligned(cfg: Config, s: State, es: seq<Event>)
    requires Runs(cfg, s, es) && Aligned(s) && AllKeepAlignment(cfg, s, es)
    ensures Final(cfg, s, es).crashed || Aligned(Final(cfg, s, es))
    decreases |es|
  {
    hide Aligned, Apply, KeepsAlignment;
    if es != [] {
      StepAligned(cfg, s, es[0]);
      if !Apply(cfg, s, es[0]).crashed { RunAligned(cfg, Apply(cfg, s, es[0]), es[1..]); }
    }
  }

  /** In every run without a crash in which no read fails for a placeholder: what the listener is reading for and has
      queued matches, entry for entry, the commands written and not yet answered, and every server reply handed out went
      to the request that caused it. */
  lemma RepliesReachTheirCause(cfg: Config, es: seq<Event>)
    requires Runs(cfg, START, es) && AllKeepAlignment(cfg, START, es) && !Final(cfg, START, es).crashed
    ensures var s := Final(cfg, START, es);
            Matches(Listened(s), s.unanswered) &&
            forall r | r in s.log && r.kind.FromServer? :: r.kind.cause == Of(r.id)
  {
    RunAligned(cfg, START, es);
  }

  /** While replies match, disconnecting crashes exactly when an internal SELECT behind the command being read for
      is still unanswered. */
  lemma PurgeCrashesExactly(s: State)
    requires Aligned(s) && !s.crashed
    ensures Disconnect(s).crashed <==>
            exists i | (if s.hand.Some? then 1 else 0) <= i < |s.unanswered| :: s.unanswered[i] == Internal
  {
    hide LeftMatch, LogMatches, LeftBehind, Purged, Matches;
    InternalBehind(if s.hand.Some? then [s.hand.value] else [], s.queue, s.unanswered);
  }

  lemma InternalBehind(h: seq<Entry>, q: seq<Entry>, u: seq<Cause>)
    requires Matches(h + q, u)
    ensures Placeholder in q <==> exists i | |h| <= i < |u| :: u[i] == Internal
  {
    if Placeholder in q {
      var j :| 0 <= j < |q| && q[j] == Placeholder;
      assert (h + q)[|h| + j] == Placeholder && u[|h| + j] == Internal;
    }
    if i :| |h| <= i < |u| && u[i] == Internal { assert (h + q)[i] == q[i - |h|]; }
  }

  //---- each request is answered exactly once -----------------------------------------------------------------------

  function Given(log: seq<Reply>, id: nat): nat {
    if log == [] then 0 else (if log[0].id == id then 1 else 0) + Given(log[1..], id)
  }

  function Owed(r: Request, id: nat): nat {
    if r.sync && r.id == id then 1 else 0
  }

  function OwedInChan(rs: seq<Request>, id: nat): nat {
    if rs == [] then 0 else Owed(rs[0], id) + OwedInChan(rs[1..], id)
  }

  function OwedByEntry(e: Entry, id: nat): nat {
    if e.Waiting? then Owed(e.r, id) else 0
  }

  function OwedInQueue(q: seq<Entry>, id: nat): nat {
    if q == [] then 0 else OwedByEntry(q[0], id) + OwedInQueue(q[1..], id)
  }

  function OwedByListeners(ls: seq<Listener>, id: nat): nat {
    if ls == [] then 0 else Owed(ls[0].r, id) + OwedByListeners(ls[1..], id)
  }

  lemma {:induction false} GivenConcat(a: seq<Reply>, b: seq<Reply>, id: nat)
    ensures Given(a + b, id) == Given(a, id) + Given(b, id)
  {
    if a == [] { assert a + b == b; }
    else { assert (a + b)[1..] == a[1..] + b; GivenConcat(a[1..], b, id); }
  }

  lemma {:induction false} OwedInChanConcat(a: seq<Request>, b: seq<Request>, id: nat)
    ensures OwedInChan(a + b, id) == OwedInChan(a, id) + OwedInChan(b, id)
  {
    if a == [] { assert a + b == b; }
    else { assert (a + b)[1..] == a[1..] + b; OwedInChanConcat(a[1..], b, id); }
  }

  lemma {:induction false} OwedInQueueConcat(a: seq<Entry>, b: seq<Entry>, id: nat)
    ensures OwedInQueue(a + b, id) == OwedInQueue(a, id) + OwedInQueue(b, id)
  {
    if a == [] { assert a + b == b; }
    else { assert (a + b)[1..] == a[1..] + b; OwedInQueueConcat(a[1..], b, id); }
  }

  lemma {:induction false} OwedByListenersConcat(a: seq<Listener>, b: seq<Listener>, id: nat)
    ensures OwedByListeners(a + b, id) == OwedByListeners(a, id) + OwedByListeners(b, id)
  {
    if a == [] { assert a + b == b; }
    else { assert (a + b)[1..] == a[1..] + b; OwedByListenersConcat(a[1..], b, id); }
  }

  lemma {:induction false} PurgedGiven(q: seq<Entry>, id: nat)
    ensures Given(Purged(q), id) == OwedInQueue(q, id)
    decreases |q|
  {
    if q != [] {
      var init, e := q[..|q| - 1], q[|q| - 1];
      PurgedGiven(init, id);
      assert q == init + [e];
      OwedInQueueConcat(init, [e], id);
      GivenConcat(Purged(init), if e.Waiting? && e.r.sync then [Reply(e.r.id, KO)] else [], id);
    }
  }

  /** Replies request id still waits for: in the request channel, in the listener's queue or hand, or from a listener
      left behind. */
  function StillOwed(s: State, id: nat): nat {
    OwedInChan(s.requestChan, id) + OwedInQueue(s.queue, id)
    + (if s.hand.Some? then OwedByEntry(s.hand.value, id) else 0) + OwedByListeners(s.left, id)
  }

  function Ledger(s: State, id: nat): nat {
    Given(s.log, id) + StillOwed(s, id)
  }

  ghost predicate Conserved(cfg: Config, s: State) {
    && (forall id: nat :: Ledger(s, id) == if id < s.nextId then 1 else 0)
    && Kept(cfg, s)
  }

  ghost predicate Kept(cfg: Config, s: State) {
    && (s.connected || Idle(s))
    && (cfg.smart ==> forall r | r in s.requestChan :: IsSelect(r.cmd) ==> !r.sync)
  }

  lemma AnswerLedger(s: State, r: nat, kind: Kind, id: nat)
    ensures Ledger(Answer(s, r, kind), id) == Ledger(s, id) + if r == id then 1 else 0
  {
    GivenConcat(s.log, [Reply(r, kind)], id);
  }

  lemma DisconnectLedger(s: State, id: nat)
    ensures Ledger(Disconnect(s), id) == Ledger(s, id)
  {
    hide Purged, Given, OwedInQueue, OwedByListeners, OwedInChan, LeftBehind, OwedByEntry;
    PurgedGiven(s.queue, id);
    GivenConcat(s.log, Purged(s.queue), id);
    OwedByListenersConcat(s.left, LeftBehind(s.hand, s.unanswered), id);
    LeftOwed(s.hand, s.unanswered, id);
  }

  lemma LeftOwed(hand: Option<Entry>, unanswered: seq<Cause>, id: nat)
    ensures OwedByListeners(LeftBehind(hand, unanswered), id) == if hand.Some? then OwedByEntry(hand.value, id) else 0
    ensures OwedInQueue([], id) == 0
  {
  }

  lemma RefuseLedger(s: State, r: Request, id: nat)
    ensures Refuse(s, r).crashed || Ledger(Refuse(s, r), id) == Ledger(s, id) + Owed(r, id)
  {
    hide Ledger;
    DisconnectLedger(s, id);
    AnswerLedger(Disconnect(s), r.id, KO, id);
  }

  lemma WrittenLedger(s: State, r: Request, id: nat)
    ensures Ledger(Written(s, r), id) == Ledger(s, id) + Owed(r, id)
  {
    OwedInQueueConcat(s.queue, [Waiting(r)], id);
  }

  lemma SameLedger(s: State, s': State, id: nat)
    requires s'.log == s.log && s'.requestChan == s.requestChan && s'.queue == s.queue && s'.hand == s.hand
        && s'.left == s.left
    ensures Ledger(s', id) == Ledger(s, id)
  {
  }

  lemma SendLedger(s: State, r: Request, net: Net, id: nat)
    requires s.connected
    ensures Send(s, r, net).crashed || Ledger(Send(s, r, net), id) == Ledger(s, id) + Owed(r, id)
  {
    hide Purged, Ledger;
    var d := Disconnect(s);
    RefuseLedger(s, r, id);
    WrittenLedger(s, r, id);
    DisconnectLedger(s, id);
    if !d.crashed {
      RefuseLedger(d, r, id);
      WrittenLedger(Connect(d), r, id);
      SameLedger(d, Connect(d), id);
    }
  }

  lemma PopChanLedger(s: State, id: nat)
    requires s.requestChan != []
    ensures Ledger(s, id) == Ledger(s.(requestChan := s.requestChan[1..]), id) + Owed(s.requestChan[0], id)
  {
  }

  lemma PushChanLedger(s: State, r: Request, id: nat)
    ensures Ledger(s.(requestChan := s.requestChan + [r]), id) == Ledger(s, id) + Owed(r, id)
  {
    OwedInChanConcat(s.requestChan, [r], id);
  }

  lemma TakeLedger(s: State, id: nat)
    requires s.hand.None? && s.queue != []
    ensures Ledger(Take(s), id) == Ledger(s, id)
  {
  }

  lemma ChangedLedger(s: State, db: int, id: nat)
    ensures Ledger(Changed(s, db), id) == Ledger(s, id)
  {
    OwedInQueueConcat(s.queue, [Placeholder], id);
  }

  lemma WriteStepLedger(cfg: Config, s: State, net: Net, id: nat)
    requires Kept(cfg, s) && s.requestChan != []
    ensures WriteStep(cfg, s, net).crashed || Ledger(WriteStep(cfg, s, net), id) == Ledger(s, id)
  {
    hide Ledger, Send, Refuse, Changed, Take;
    var r := s.requestChan[0];
    assert r in s.requestChan;
    var s0 := s.(requestChan := s.requestChan[1..]);
    PopChanLedger(s, id);
    RefuseLedger(s0, r, id);
    if s.connected || net.dial {
      var s1 := if s.connected then s0 else Connect(s0);
      SameLedger(s0, s1, id);
      if IsSelect(r.cmd) {
        var s2 := s1.(database := r.database);
        SameLedger(s1, s2, id);
        SendLedger(s2, r, net, id);
      } else if s1.database != r.database {
        ChangedLedger(s1, r.database, id);
        ChangedShape(s1, r.database);
        var s2 := Changed(s1, r.database);
        SendLedger(s2, r, net, id);
        if s2.hand.None? && s2.queue == [Placeholder] {
          TakeLedger(s2, id);
          TakeShape(s2);
          SendLedger(Take(s2), r, net, id);
        }
        RefuseLedger(s1, r, id);
      } else {
        SendLedger(s1, r, net, id);
      }
    }
  }

  lemma SendShape(s: State, r: Request, net: Net)
    requires s.connected
    ensures Send(s, r, net).nextId == s.nextId && Refuse(s, r).nextId == s.nextId
    ensures Send(s, r, net).requestChan == s.requestChan && Refuse(s, r).requestChan == s.requestChan
    ensures var t := Send(s, r, net); t.crashed || t.connected || Idle(t)
  {
    RefuseShape(s, r);
    RefuseShape(Disconnect(s), r);
  }

  lemma RefuseShape(s: State, r: Request)
    ensures Refuse(s, r).nextId == s.nextId && Refuse(s, r).requestChan == s.requestChan
    ensures Refuse(s, r).crashed || Idle(Refuse(s, r))
  {
  }

  lemma WriteStepShape(cfg: Config, s: State, net: Net)
    requires s.requestChan != [] && (s.connected || Idle(s))
    ensures var t := WriteStep(cfg, s, net);
            t.nextId == s.nextId && t.requestChan == s.requestChan[1..] && (t.crashed || t.connected || Idle(t))
  {
    hide Send, Refuse, Changed, Take;
    var r := s.requestChan[0];
    var s0 := s.(requestChan := s.requestChan[1..]);
    RefuseShape(s0, r);
    var s1 := if s.connected then s0 else Connect(s0);
    RefuseShape(s1, r);
    SendShape(s1, r, net);
    SendShape(s1.(database := r.database), r, net);
    ChangedShape(s1, r.database);
    var s2 := Changed(s1, r.database);
    SendShape(s2, r, net);
    if s2.queue == [Placeholder] {
      TakeShape(s2);
      SendShape(Take(s2), r, net);
    }
  }

  lemma WriteStepKept(cfg: Config, s: State, net: Net)
    requires Kept(cfg, s) && s.requestChan != []
    ensures WriteStep(cfg, s, net).nextId == s.nextId
    ensures WriteStep(cfg, s, net).crashed || Kept(cfg, WriteStep(cfg, s, net))
  {
    hide WriteStep;
    WriteStepShape(cfg, s, net);
  }

  lemma ArriveLedger(cfg: Config, s: State, local: nat, input: Option<Command>, sent: bool, id: nat)
    ensures Ledger(Arrive(cfg, s, local, input, sent), id) == Ledger(s, id) + if id == s.nextId then 1 else 0
  {
    hide Ledger;
    var n := s.nextId;
    var s1 := s.(nextId := n + 1);
    SameLedger(s, s1, id);
    if input.None? {
      AnswerLedger(s1, n, BadCommand, id);
    } else {
      var c, db := input.value, Tag(s1, local, input.value);
      var s2 := s1.(currentDB := s1.currentDB[local := db]);
      SameLedger(s1, s2, id);
      AnswerLedger(s2, n, Fast, id);
      AnswerLedger(s2, n, SendError, id);
      PushChanLedger(Answer(s2, n, Fast), Request(n, c, db, false), id);
      PushChanLedger(s2, Request(n, c, db, true), id);
    }
  }

  lemma HandLedger(s: State, id: nat)
    requires s.hand.Some?
    ensures Ledger(s, id) == Ledger(s.(hand := None), id) + OwedByEntry(s.hand.value, id)
  {
  }

  lemma ReplyLedger(s: State, ok: bool, id: nat)
    requires s.hand.Some? && (ok ==> s.unanswered != [])
    ensures ReplyStep(s, ok).crashed || Ledger(ReplyStep(s, ok), id) == Ledger(s, id)
  {
    hide Ledger, Purged;
    var e, done := s.hand.value, s.(hand := None);
    HandLedger(s, id);
    if ok {
      var read := done.(unanswered := s.unanswered[1..]);
      SameLedger(done, read, id);
      if e.Waiting? { AnswerLedger(read, e.r.id, FromServer(s.unanswered[0]), id); }
    } else if e.Waiting? {
      AnswerLedger(done, e.r.id, KO, id);
      DisconnectLedger(if e.r.sync then Answer(done, e.r.id, KO) else done, id);
    }
  }

  lemma LeftLedger(s: State, i: nat, id: nat)
    requires i < |s.left|
    ensures Ledger(s, id) == Ledger(s.(left := s.left[..i] + s.left[i + 1..]), id) + Owed(s.left[i].r, id)
  {
    assert s.left == s.left[..i] + ([s.left[i]] + s.left[i + 1..]);
    OwedByListenersConcat(s.left[..i], [s.left[i]] + s.left[i + 1..], id);
    OwedByListenersConcat(s.left[..i], s.left[i + 1..], id);
  }

  lemma LateLedger(s: State, i: nat, ok: bool, id: nat)
    requires i < |s.left| && (ok ==> s.left[i].unanswered != [])
    ensures LateStep(s, i, ok).crashed || Ledger(LateStep(s, i, ok), id) == Ledger(s, id)
  {
    hide Ledger, Purged;
    var l, done := s.left[i], s.(left := s.left[..i] + s.left[i + 1..]);
    LeftLedger(s, i, id);
    var kind := if ok then FromServer(l.unanswered[0]) else KO;
    AnswerLedger(done, l.r.id, kind, id);
    if !ok { DisconnectLedger(if l.r.sync then Answer(done, l.r.id, KO) else done, id); }
  }

  lemma StepLedger(cfg: Config, s: State, e: Event, id: nat)
    requires Enabled(s, e) && Kept(cfg, s)
    ensures Apply(cfg, s, e).crashed ||
            Ledger(Apply(cfg, s, e), id) == Ledger(s, id) + if e.Arrival? && id == s.nextId then 1 else 0
  {
    hide Ledger, WriteStep, ReplyStep, LateStep, Take, Arrive, Kept;
    match e
    case Arrival(local, input, sent) => ArriveLedger(cfg, s, local, input, sent, id);
    case Writing(net) => WriteStepLedger(cfg, s, net, id);
    case Taking => TakeLedger(s, id);
    case Replying(ok) => ReplyLedger(s, ok, id);
    case Late(i, ok) => LateLedger(s, i, ok, id);
    case Dropping => DisconnectLedger(s, id);
  }

  lemma StepKept(cfg: Config, s: State, e: Event)
    requires Enabled(s, e) && Kept(cfg, s) && SELECT in cfg.async
    ensures Apply(cfg, s, e).nextId == s.nextId + if e.Arrival? then 1 else 0
    ensures Apply(cfg, s, e).crashed || Kept(cfg, Apply(cfg, s, e))
  {
    hide WriteStep, Purged;
    if e.Writing? { WriteStepKept(cfg, s, e.net); }
  }

  /** Every step conserves the ledger; an elided SELECT owes nothing because SELECT is always asynchronous. */
  lemma StepConserves(cfg: Config, s: State, e: Event)
    requires Enabled(s, e) && Conserved(cfg, s) && SELECT in cfg.async
    ensures Apply(cfg, s, e).crashed || Conserved(cfg, Apply(cfg, s, e))
  {
    hide Ledger, Kept, Apply;
    StepKept(cfg, s, e);
    var t := Apply(cfg, s, e);
    forall id: nat ensures t.crashed || Ledger(t, id) == if id < t.nextId then 1 else 0 {
      StepLedger(cfg, s, e, id);
    }
  }

  lemma {:induction false} RunConserves(cfg: Config, s: State, es: seq<Event>)
    requires Runs(cfg, s, es) && Conserved(cfg, s) && SELECT in cfg.async
    ensures Final(cfg, s, es).crashed || Conserved(cfg, Final(cfg, s, es))
    decreases |es|
  {
    hide Conserved, Apply;
    if es != [] {
      StepConserves(cfg, s, es[0]);
      if !Apply(cfg, s, es[0]).crashed { RunConserves(cfg, Apply(cfg, s, es[0]), es[1..]); }
    }
  }

  /** In every run that has not crashed each request has at most one reply, and exactly one once nothing owes it one. */
  lemma ExactlyOneReply(cfg: Config, es: seq<Event>, id: nat)
    requires Runs(cfg, START, es) && SELECT in cfg.async && !Final(cfg, START, es).crashed
    ensures var s := Final(cfg, START, es);
            Given(s.log, id) <= 1 && (id < s.nextId && StillOwed(s, id) == 0 ==> Given(s.log, id) == 1)
  {
    hide Runs, Final, StillOwed, Kept;
    StartConserved(cfg);
    RunConserves(cfg, START, es);
    assert Ledger(Final(cfg, START, es), id) <= 1;
  }

  lemma StartConserved(cfg: Config)
    ensures Conserved(cfg, START)
  {
  }

  //---- runs that go wrong ------------------------------------------------------------------------------------------

  const SMART := Config(true, {SELECT})

  const CALM := Net(true, true, false, Done, true, true, true)

  function Sel(db: nat, accepted: Option<nat>): Command {
    Command(SELECT, Some(db), accepted, 0)
  }

  const GET := Command("GET", None, None, 1)

  lemma LastRun(cfg: Config, s: State, e: Event)
    requires Enabled(s, e)
    ensures Runs(cfg, s, [e]) && Final(cfg, s, [e]) == Apply(cfg, s, e)
  {
    hide Apply;
    assert [e][1..] == [];
    assert Runs(cfg, Apply(cfg, s, e), []);
  }

  lemma FirstRun(cfg: Config, s: State, e: Event, es: seq<Event>)
    requires Enabled(s, e) && Runs(cfg, Apply(cfg, s, e), es)
    ensures Runs(cfg, s, [e] + es) && Final(cfg, s, [e] + es) == Final(cfg, Apply(cfg, s, e), es)
  {
    hide Apply;
    assert ([e] + es)[1..] == es;
  }

  ghost predicate WrongDatabase(s: State) {
    !s.crashed && Effects(s.conn.wire) != Direct(s.conn.written)
  }

  /** One write on a calm network: a request, after an internal SELECT where one is needed. */
  function Ready(s: State): State
    requires s.requestChan != []
  {
    var s0 := s.(requestChan := s.requestChan[1..]);
    if s.connected then s0 else Connect(s0)
  }

  lemma CalmWrite(s: State)
    requires s.requestChan != [] && !Elided(SMART, s, s.requestChan[0])
    ensures var r, t := s.requestChan[0], Ready(s);
            WriteStep(SMART, s, CALM) ==
              Written(if IsSelect(r.cmd) then t.(database := r.database)
                      else if t.database != r.database then Changed(t, r.database) else t, r)
  {
    hide Disconnect, Written, Changed, Put, Refuse;
  }

  lemma WireOfTwo(db: Option<nat>, op: nat)
    ensures Effects([WSelect(db), WOp(op)]) == [(if db.Some? then db.value else 0, op)]
    ensures Effects([WOp(op)]) == [(0, op)]
  {
    ServerStep([], WSelect(db));
    ServerStep([WSelect(db)], WOp(op));
    ServerStep([], WOp(op));
    FreshConn();
    assert [] + [WSelect(db)] == [WSelect(db)] && [WSelect(db)] + [WOp(op)] == [WSelect(db), WOp(op)];
    assert [] + [WOp(op)] == [WOp(op)];
  }

  lemma DirectOfTwo(a: Request, b: Request)
    requires IsSelect(a.cmd) && !IsSelect(b.cmd)
    ensures Direct([a, b]) == [(b.database, b.cmd.op)] && Direct([b]) == [(b.database, b.cmd.op)]
  {
    DirectStep([], a);
    DirectStep([a], b);
    DirectStep([], b);
    assert [] + [a] == [a] && [a] + [b] == [a, b] && [] + [b] == [b];
  }

  /** The first local connection selects a database (the command itself may be lost on the way) and then asks for a
      key. */
  function Asked(db: nat, accepted: Option<nat>, sent: bool): State {
    Arrive(SMART, Arrive(SMART, START, 0, Some(Sel(db, accepted)), sent), 0, Some(GET), true)
  }

  lemma AskedIs(db: nat, accepted: Option<nat>, sent: bool)
    ensures var a, b := Request(0, Sel(db, accepted), db, false), Request(1, GET, db, true);
            Asked(db, accepted, sent) ==
            START.(nextId := 2, currentDB := map[0 := db], requestChan := if sent then [a, b] else [b],
                log := [Reply(0, Fast)])
  {
    var s1 := Arrive(SMART, START, 0, Some(Sel(db, accepted)), sent);
    assert s1.currentDB == map[0 := db] && s1.log == [Reply(0, Fast)];
    assert s1.currentDB[0 := db] == map[0 := db];
  }

  lemma AskedRuns(db: nat, accepted: Option<nat>, sent: bool, es: seq<Event>)
    requires Runs(SMART, Asked(db, accepted, sent), es)
    ensures var two := [Arrival(0, Some(Sel(db, accepted)), sent)] + ([Arrival(0, Some(GET), true)] + es);
            Runs(SMART, START, two) && Final(SMART, START, two) == Final(SMART, Asked(db, accepted, sent), es)
  {
    hide Runs, Final;
    var e1, e2 := Arrival(0, Some(Sel(db, accepted)), sent), Arrival(0, Some(GET), true);
    var s1 := Apply(SMART, START, e1);
    FirstRun(SMART, s1, e2, es);
    FirstRun(SMART, START, e1, [e2] + es);
  }

  /** SELECT 16, which the server rejects, then an operation: the client believes database 16 is selected, so the
      operation runs in database 0 instead. */
  lemma RejectedSelectMisleads()
    ensures exists cfg: Config, es: seq<Event> :: Runs(cfg, START, es) && WrongDatabase(Final(cfg, START, es))
  {
    hide Effects, Direct, ServerDb, WriteStep, Arrive, Runs, Final;
    var s2, e := Asked(16, None, true), Writing(CALM);
    AskedIs(16, None, true);
    var a, b := Request(0, Sel(16, None), 16, false), Request(1, GET, 16, true);
    CalmWrite(s2);
    var s3 := Apply(SMART, s2, e);
    CalmWrite(s3);
    var s4 := Apply(SMART, s3, e);
    assert s4.conn == Conn([WSelect(None), WOp(1)], [a, b]);
    WireOfTwo(None, 1);
    DirectOfTwo(a, b);
    assert Effects(s4.conn.wire)[0] == (0, 1) && Direct(s4.conn.written)[0] == (16, 1);
    LastRun(SMART, s3, e);
    FirstRun(SMART, s2, e, [e]);
    AskedRuns(16, None, true, [e] + [e]);
    assert WrongDatabase(s4);
  }

  /** SELECT 5, which the server accepts, then an operation whose first write finds the connection closed: the
      operation is sent again on a fresh connection, in database 0. */
  lemma ResendMisleads()
    ensures exists cfg: Config, es: seq<Event> ::
              && Runs(cfg, START, es) && WrongDatabase(Final(cfg, START, es))
              && forall e | e in es :: e.Arrival? && e.input.Some? ==> Honest(e.input.value)
  {
    hide Effects, Direct, ServerDb, WriteStep, Arrive, Runs, Final;
    var s2, e, f := Asked(5, Some(5), true), Writing(CALM), Writing(CALM.(write := ClosedByPeer));
    AskedIs(5, Some(5), true);
    var a, b := Request(0, Sel(5, Some(5)), 5, false), Request(1, GET, 5, true);
    CalmWrite(s2);
    var s3 := Apply(SMART, s2, e);
    assert s3.queue == [Waiting(a)] && s3.requestChan == [b];
    var s4 := Apply(SMART, s3, f);
    Resent(s3, b);
    WireOfTwo(None, 1);
    DirectOfTwo(a, b);
    assert Effects(s4.conn.wire)[0] == (0, 1) && Direct(s4.conn.written)[0] == (5, 1);
    LastRun(SMART, s3, f);
    FirstRun(SMART, s2, e, [f]);
    AskedRuns(5, Some(5), true, [e] + [f]);
    assert WrongDatabase(s4);
  }

  lemma Resent(s: State, r: Request)
    requires s.connected && !s.crashed && s.requestChan == [r] && !IsSelect(r.cmd) && s.database == r.database
    requires Placeholder !in s.queue
    ensures var t := WriteStep(SMART, s, CALM.(write := ClosedByPeer));
            !t.crashed && t.conn == Conn([WOp(r.cmd.op)], [r])
  {
    hide Effects, Direct, ServerDb, Purged;
  }

  /** An operation in database 5; the read of the reply to the internal SELECT times out and is ignored; the
      SELECT's reply, read next, is handed to the operation's caller. */
  lemma ReplyGoesAstray()
    ensures exists cfg: Config, es: seq<Event> ::
              && Runs(cfg, START, es) && !Final(cfg, START, es).crashed
              && exists r | r in Final(cfg, START, es).log :: r.kind.FromServer? && r.kind.cause != Of(r.id)
  {
    hide WriteStep, Arrive, Runs, Final;
    var s2, e := Asked(5, Some(5), false), Writing(CALM);
    AskedIs(5, Some(5), false);
    var b := Request(1, GET, 5, true);
    CalmWrite(s2);
    var s3 := Apply(SMART, s2, e);
    assert s3.queue == [Placeholder, Waiting(b)] && s3.unanswered == [Internal, Of(1)];
    var s4 := Apply(SMART, s3, Taking);
    var s5 := Apply(SMART, s4, Replying(false));
    var s6 := Apply(SMART, s5, Taking);
    var s7 := Apply(SMART, s6, Replying(true));
    assert s7.log[|s7.log| - 1] == Reply(1, FromServer(Internal));
    LastRun(SMART, s6, Replying(true));
    FirstRun(SMART, s5, Taking, [Replying(true)]);
    FirstRun(SMART, s4, Replying(false), [Taking] + [Replying(true)]);
    var tail := [Replying(false)] + ([Taking] + [Replying(true)]);
    FirstRun(SMART, s3, Taking, tail);
    FirstRun(SMART, s2, e, [Taking] + tail);
    AskedRuns(5, Some(5), false, [e] + ([Taking] + tail));
  }

  lemma ThirdArrives(s: State)
    requires s == Asked(5, Some(5), false)
    ensures var t := Arrive(SMART, s, 1, Some(GET), true);
            && !t.crashed && !t.connected && t.database == 0
            && t.requestChan == [Request(1, GET, 5, true), Request(2, GET, 0, true)]
  {
    AskedIs(5, Some(5), false);
  }

  lemma BothWritten(s: State, a: Request, b: Request)
    requires !s.crashed && !s.connected && s.database == 0 && s.requestChan == [a, b]
    requires !IsSelect(a.cmd) && !IsSelect(b.cmd) && a.database != 0 && b.database != a.database
    ensures var t := WriteStep(SMART, s, CALM);
            t.requestChan == [b] && !t.crashed && var u := WriteStep(SMART, t, CALM);
            !u.crashed && u.connected && u.hand.None? && u.queue == [Placeholder, Waiting(a), Placeholder, Waiting(b)]
  {
    hide WriteStep;
    CalmWrite(s);
    CalmWrite(WriteStep(SMART, s, CALM));
  }

  /** Operations of two local connections in different databases: the listener holds the first placeholder and waits
      for the server; a disconnect now meets the second one, still in the queue, and dereferences nil. */
  lemma PurgeCanCrash()
    ensures exists cfg: Config, es: seq<Event> ::
              && Runs(cfg, START, es) && !Final(cfg, START, es).crashed
              && Final(cfg, START, es).hand.Some? && Disconnect(Final(cfg, START, es)).crashed
  {
    hide WriteStep, Runs, Final, Arrive, Asked;
    var s2, e3, e := Asked(5, Some(5), false), Arrival(1, Some(GET), true), Writing(CALM);
    ThirdArrives(s2);
    assert !s2.crashed by { AskedIs(5, Some(5), false); }
    var s3 := Apply(SMART, s2, e3);
    BothWritten(s3, Request(1, GET, 5, true), Request(2, GET, 0, true));
    var s4 := Apply(SMART, s3, e);
    var s5 := Apply(SMART, s4, e);
    var s6 := Apply(SMART, s5, Taking);
    assert s6.queue[1] == Placeholder;
    LastRun(SMART, s5, Taking);
    FirstRun(SMART, s4, e, [Taking]);
    FirstRun(SMART, s3, e, [e] + [Taking]);
    FirstRun(SMART, s2, e3, [e] + ([e] + [Taking]));
    AskedRuns(5, Some(5), false, [e3] + ([e] + ([e] + [Taking])));
  }
}
