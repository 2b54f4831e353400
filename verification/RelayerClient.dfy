/** The smart relayer's objects: the client whose fields the listeners update, and the tables and parsing around it. */
module RelayerClient {
  import opened Words
  import opened Decimal
  import R = Resp
  import opened Relayer

  //---- lib/req.go and the asynchronous command table ---------------------------------------------------------------

  function Upper(c: byte): byte {
    if 97 <= c <= 122 then c - 32 else c
  }

  function UpperText(s: Bytes): (t: string)
    ensures |t| == |s|
  {
    seq(|s|, i requires 0 <= i < |s| => Upper(s[i]) as char)
  }

  function Text(r: R.Resp): Option<Bytes> {
    match r
    case Simple(b) => Some(b)
    case Bulk(b) => Some(b)
    case _ => None
  }

  /** (*Resp).Int. */
  function IntOf(r: R.Resp): Option<int> {
    if r.Int? then Some(r.i) else if Text(r).Some? then ParseInt(Text(r).value) else None
  }

  /** NewRequest on a parsed message. The server obeys a SELECT with exactly one argument, a number that is not
      negative. */
  function NewRequest(r: R.Resp, op: nat): Option<Command> {
    if !r.Array? || r.items == [] || Text(r.items[0]).None? then None
    else
      var name := UpperText(Text(r.items[0]).value);
      var arg := if name == SELECT && |r.items| > 1 then IntOf(r.items[1]) else None;
      var accepted := if |r.items| == 2 && arg.Some? && arg.value >= 0 then Some(arg.value as nat) else None;
      Some(Command(name, arg, accepted, op))
  }

  /** SELECT n, in any case of letters, for any database number, is one the relayer and the server read alike. */
  lemma PlainSelectIsHonest(verb: Bytes, n: nat, op: nat)
    requires IsInt64(n) && UpperText(verb) == SELECT
    ensures var c := NewRequest(R.Array([R.Bulk(verb), R.Bulk(Print(n))]), op);
            c.Some? && Honest(c.value) && Named(c.value) == n
  {
    ParsePrint(n);
  }

  datatype Quick = QuickOK | QuickTrue

  const ANSWERED_OK := ["SET", "SETEX", "PSETEX", "MSET", "HMSET", "SELECT"]
  const ANSWERED_TRUE := ["HSET", "SADD", "ZADD", "EXPIRE", "EXPIREAT", "PEXPIRE", "PEXPIREAT"]

  /** The commands answered at once without configuration. */
  lemma BuiltIn(c: string)
    ensures c in ANSWERED_OK <==> c in {"SET", "SETEX", "PSETEX", "MSET", "HMSET", "SELECT"}
    ensures c in ANSWERED_TRUE <==> c in {"HSET", "SADD", "ZADD", "EXPIRE", "EXPIREAT", "PEXPIRE", "PEXPIREAT"}
  {
  }

  predicate Configured(names: seq<Bytes>, c: string) {
    exists i | 0 <= i < |names| :: UpperText(names[i]) == c
  }

  lemma ConfiguredMore(names: seq<Bytes>, i: nat, c: string)
    requires i < |names|
    ensures Configured(names[..i + 1], c) <==> Configured(names[..i], c) || UpperText(names[i]) == c
  {
    hide UpperText;
    if Configured(names[..i], c) {
      var k :| 0 <= k < i && UpperText(names[..i][k]) == c;
      assert names[..i + 1][k] == names[..i][k];
    }
    if UpperText(names[i]) == c { assert names[..i + 1][i] == names[i]; }
  }

  /** Reload: the built-in table, then the configured names in upper case, which are answered OK even if built in. */
  method BuildAsync(configured: seq<Bytes>) returns (async: map<string, Quick>)
    ensures forall c :: c in async <==> c in ANSWERED_OK || c in ANSWERED_TRUE || Configured(configured, c)
    ensures forall c | c in async ::
              async[c] == if Configured(configured, c) || c in ANSWERED_OK then QuickOK else QuickTrue
    ensures SELECT in async && async[SELECT] == QuickOK
  {
    hide UpperText, Configured;
    async := map c | c in ANSWERED_TRUE :: QuickTrue;
    async := async + map c | c in ANSWERED_OK :: QuickOK;
    assert ANSWERED_OK[5] == SELECT;
    forall c ensures !Configured(configured[..0], c) { NoneConfigured(configured, c); }
    for i := 0 to |configured|
      invariant forall c :: c in async <==> c in ANSWERED_OK || c in ANSWERED_TRUE || Configured(configured[..i], c)
      invariant forall c | c in async ::
                  async[c] == if Configured(configured[..i], c) || c in ANSWERED_OK then QuickOK else QuickTrue
    {
      forall c
        ensures Configured(configured[..i + 1], c) <==> Configured(configured[..i], c) || UpperText(configured[i]) == c
      {
        ConfiguredMore(configured, i, c);
      }
      async := async[UpperText(configured[i]) := QuickOK];
    }
    assert configured[..|configured|] == configured;
  }

  lemma NoneConfigured(names: seq<Bytes>, c: string)
    ensures !Configured(names[..0], c)
  {
  }

  //---- the client --------------------------------------------------------------------------------------------------

  class Client {
    const config: Config
    var requestChan: seq<Request>
    var connected: bool
    var database: int
    var queueChan: seq<Entry>
    // What the current listener is reading for, and the listeners of dropped connections.
    var hand: Option<Entry>
    var left: seq<Listener>
    var crashed: bool
    // The network side and the local side, as far as they can be observed.
    var unanswered: seq<Cause>
    var conn: Conn
    var past: seq<Conn>
    var log: seq<Reply>
    // The handlers' side.
    var nextId: nat
    var currentDB: map<nat, int>

    function View(): State
      reads this
    {
      State(nextId, currentDB, requestChan, connected, database, queueChan, hand, unanswered, conn, past, left, log,
          crashed)
    }

    /** The method either crashed where the step does, or did the step. */
    ghost predicate Did(s: State)
      reads this
    {
      crashed == s.crashed && (!crashed ==> View() == s)
    }

    /** Unless the process died: every request has the replies it is given and owed, and no asynchronous one is owed
        any. */
    ghost predicate Valid()
      reads this
    {
      SELECT in config.async && (crashed || Conserved(config, View()))
    }

    constructor (config: Config)
      requires SELECT in config.async
      ensures Valid() && this.config == config && View() == START && InSync(View()) && Aligned(View())
    {
      this.config := config;
      requestChan, connected, database, queueChan, hand, left, crashed := [], false, 0, [], None, [], false;
      unanswered, conn, past, log, nextId, currentDB := [], NO_CONN, [], [], 0, map[];
      new;
      StartConserved(config);
      FreshConn();
    }

    /** The method took this step of the run; so it kept the databases equal if the step does, and kept the queue
        matched exactly if the step does. */
    ghost predicate Took(s: State, e: Event)
      requires Enabled(s, e)
      reads this
    {
      && Did(Apply(config, s, e))
      && (!crashed && InSync(s) && KeepsDatabase(s, e) ==> InSync(View()))
      && (!crashed && Aligned(s) ==> (Aligned(View()) <==> KeepsAlignment(s, e)))
    }

    method AnswerTo(id: nat, kind: Kind)
      modifies this`log
      ensures View() == Answer(old(View()), id, kind)
    {
      log := log + [Reply(id, kind)];
    }

    /** purgeRequests: drain the queue, refusing each waiting request; a placeholder has no Conn to look at. */
    method PurgeRequests()
      requires !crashed
      modifies this`log, this`queueChan, this`crashed
      ensures crashed <==> Placeholder in old(queueChan)
      ensures !crashed ==> queueChan == [] && log == old(log) + Purged(old(queueChan))
    {
      var n := 0;
      ghost var q := queueChan;
      assert Purged(q[..0]) == [];
      while queueChan != []
        invariant 0 <= n <= |q| && queueChan == q[n..] && !crashed
        invariant Placeholder !in q[..n]
        invariant log == old(log) + Purged(q[..n])
        decreases |queueChan|
      {
        var e := queueChan[0];
        if e.Placeholder? {
          assert q[n] == Placeholder;
          crashed := true;
          return;
        }
        assert q[..n + 1][..n] == q[..n];
        if e.r.sync { log := log + [Reply(e.r.id, KO)]; }
        queueChan := queueChan[1..];
        n := n + 1;
      }
      assert q[..n] == q;
    }

    /** The listener is not told of a disconnect: it goes on reading for the request in its hand. */
    method LeaveListener()
      modifies this`left, this`hand
      ensures left == old(left) + LeftBehind(old(hand), unanswered) && hand.None?
    {
      if hand.Some? && hand.value.Waiting? { left := left + [Listener(hand.value.r, unanswered)]; }
      hand := None;
    }

    method Forget()
      modifies this`unanswered, this`past, this`conn, this`database
      ensures unanswered == [] && past == old(past) + [old(conn)] && conn == NO_CONN && database == 0
    {
      unanswered, past, conn := [], past + [conn], NO_CONN;
      database := 0;
    }

    method DisconnectNow()
      requires !crashed
      modifies this
      ensures Did(Disconnect(old(View())))
    {
      hide Purged, LeftBehind;
      connected := false;
      PurgeRequests();
      if crashed { return; }
      LeaveListener();
      Forget();
    }

    method ConnectNow()
      modifies this
      ensures View() == Connect(old(View()))
    {
      queueChan, hand, unanswered, conn := [], None, [], NO_CONN;
      connected := true;
    }

    method PutOnWire(w: Wire, cause: Cause)
      modifies this`conn, this`unanswered
      ensures View() == Put(old(View()), w, cause)
    {
      conn := conn.(wire := conn.wire + [w]);
      unanswered := unanswered + [cause];
    }

    /** An error from write: the connection is dropped, then the request refused. */
    method Fail(r: Request)
      requires !crashed
      modifies this
      ensures Did(Refuse(old(View()), r))
    {
      DisconnectNow();
      if !crashed && r.sync { AnswerTo(r.id, KO); }
    }

    /** The second half of write: send, retry once if the peer had closed, flush, queue. */
    method SendRequest(r: Request, net: Net)
      requires !crashed
      modifies this
      ensures Did(Send(old(View()), r, net))
    {
      var err := net.write;
      if err == ClosedByPeer {
        DisconnectNow();
        if crashed { return; }
        if net.redial && net.rewrite && net.flush { ConnectNow(); err := Done; } else { err := Broken; }
      }
      if err == Broken || !net.flush {
        Fail(r);
        return;
      }
      PutOnWire(WireOf(r.cmd), Of(r.id));
      conn := conn.(written := conn.written + [r]);
      queueChan := queueChan + [Waiting(r)];
    }

    /** One turn of requestListener: write. */
    method Write(net: Net)
      requires Valid() && !crashed && requestChan != []
      modifies this
      ensures Valid() && Took(old(View()), Writing(net))
    {
      hide Conserved, InSync, Aligned;
      StepKeeps(config, View(), Writing(net));
      WriteTurn(net);
    }

    method WriteTurn(net: Net)
      requires !crashed && requestChan != []
      modifies this
      ensures Did(WriteStep(config, old(View()), net))
    {
      hide Send, Refuse, Disconnect, Purged, Take, Changed;
      var r := requestChan[0];
      requestChan := requestChan[1..];
      if !connected {
        if !net.dial {
          Fail(r);
          return;
        }
        ConnectNow();
      }
      if IsSelect(r.cmd) {
        if config.smart && database == r.database { return; }
        database := r.database;
      } else if database != r.database {
        if !net.change {
          Fail(r);
          return;
        }
        ChangeDB(r.database, net.taken);
      }
      SendRequest(r, net);
    }

    /** changeDB, the nil sent to the queue, and the listener if it is quick. */
    method ChangeDB(db: int, taken: bool)
      modifies this
      ensures crashed == old(crashed)
      ensures View() == var t := Changed(old(View()), db);
                        if taken && t.hand.None? && t.queue == [Placeholder] then Take(t) else t
    {
      PutOnWire(InternalSelect(db), Internal);
      database := db;
      queueChan := queueChan + [Placeholder];
      if taken && hand.None? && queueChan == [Placeholder] {
        hand := Some(queueChan[0]);
        queueChan := queueChan[1..];
      }
    }

    /** redisListener receives from its queue. */
    method Receive()
      requires Valid() && Enabled(View(), Taking)
      modifies this
      ensures Valid() && Took(old(View()), Taking)
    {
      hide Conserved, InSync, Aligned;
      StepKeeps(config, View(), Taking);
      hand := Some(queueChan[0]);
      queueChan := queueChan[1..];
    }

    /** redisListener reads for the entry it received. */
    method Listen(ok: bool)
      requires Valid() && Enabled(View(), Replying(ok))
      modifies this
      ensures Valid() && Took(old(View()), Replying(ok))
    {
      hide Conserved, InSync, Aligned;
      StepKeeps(config, View(), Replying(ok));
      var req := hand.value;
      hand := None;
      if !ok {
        if req.Placeholder? { return; }
        if req.r.sync { AnswerTo(req.r.id, KO); }
        DisconnectNow();
        return;
      }
      var cause := unanswered[0];
      unanswered := unanswered[1..];
      if req.Waiting? && req.r.sync { AnswerTo(req.r.id, FromServer(cause)); }
    }

    /** A listener left behind reads for the last time. */
    method ListenLate(i: nat, ok: bool)
      requires Valid() && Enabled(View(), Late(i, ok))
      modifies this
      ensures Valid() && Took(old(View()), Late(i, ok))
    {
      hide Conserved, InSync, Aligned;
      StepKeeps(config, View(), Late(i, ok));
      var l := left[i];
      left := left[..i] + left[i + 1..];
      if ok {
        if l.r.sync { AnswerTo(l.r.id, FromServer(l.unanswered[0])); }
        return;
      }
      if l.r.sync { AnswerTo(l.r.id, KO); }
      DisconnectNow();
    }

    /** The idle timer, or the close at the end of a listener. */
    method Drop()
      requires Valid() && !crashed
      modifies this
      ensures Valid() && Took(old(View()), Dropping)
    {
      hide Conserved, InSync, Aligned;
      StepKeeps(config, View(), Dropping);
      DisconnectNow();
    }

    /** One turn of a handler's loop. */
    method Handle(local: nat, input: Option<Command>, sent: bool)
      requires Valid() && !crashed
      modifies this
      ensures Valid() && Took(old(View()), Arrival(local, input, sent))
    {
      hide Conserved, InSync, Aligned;
      StepKeeps(config, View(), Arrival(local, input, sent));
      HandleTurn(local, input, sent);
    }

    method HandleTurn(local: nat, input: Option<Command>, sent: bool)
      modifies this
      ensures View() == Arrive(config, old(View()), local, input, sent)
    {
      var id := nextId;
      nextId := nextId + 1;
      if input.None? {
        AnswerTo(id, BadCommand);
        return;
      }
      var c := input.value;
      var current := CurrentDB(View(), local);
      var named := Named(c);
      if named != UNKNOWN_DB && named != current { current := named; }
      currentDB := currentDB[local := current];
      if config.smart && c.name in config.async {
        AnswerTo(id, Fast);
        if sent { requestChan := requestChan + [Request(id, c, current, false)]; }
        return;
      }
      if sent { requestChan := requestChan + [Request(id, c, current, true)]; } else { AnswerTo(id, SendError); }
    }
  }

  /** Everything a step keeps. */
  lemma StepKeeps(cfg: Config, s: State, e: Event)
    requires Enabled(s, e) && Conserved(cfg, s) && SELECT in cfg.async
    ensures var t := Apply(cfg, s, e);
            t.crashed || (&& Conserved(cfg, t)
                          && (InSync(s) && KeepsDatabase(s, e) ==> InSync(t))
                          && (Aligned(s) ==> (Aligned(t) <==> KeepsAlignment(s, e))))
  {
    hide Conserved, InSync, Aligned, Apply;
    StepConserves(cfg, s, e);
    if InSync(s) && KeepsDatabase(s, e) { StepInSync(cfg, s, e); }
    if Aligned(s) { StepAligned(cfg, s, e); }
  }

  /** A message is a command when it is a list whose first element is a string, which names the command in any case. */
  lemma NewRequestExactly(r: R.Resp, op: nat)
    ensures NewRequest(r, op).Some? <==>
              r.Array? && |r.items| > 0 && (r.items[0].Simple? || r.items[0].Bulk?)
    ensures NewRequest(r, op).Some? ==>
              && NewRequest(r, op).value.op == op && Text(r.items[0]).Some?
              && NewRequest(r, op).value.name == UpperText(Text(r.items[0]).value)
  {
  }

  /** "select", "Select" and "SELECT". */
  lemma AnyCase()
    ensures UpperText([115, 101, 108, 101, 99, 116]) == "SELECT"
    ensures UpperText([83, 101, 108, 101, 99, 116]) == "SELECT"
    ensures UpperText([83, 69, 76, 69, 67, 84]) == "SELECT"
  {
  }
}
