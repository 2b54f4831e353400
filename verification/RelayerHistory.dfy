/** What becomes of every request, read off the events of a run: who sent it, in which database, and how it ended. */
module RelayerHistory {
  import opened Words
  import opened Relayer

  //---- the events alone --------------------------------------------------------------------------------------------

  function Arrivals(es: seq<Event>): (arr: seq<Event>)
    ensures forall i | 0 <= i < |arr| :: arr[i].Arrival?
  {
    if es == [] then []
    else Arrivals(es[..|es| - 1]) + if es[|es| - 1].Arrival? then [es[|es| - 1]] else []
  }

  /** How many times the client's listener took a request. */
  function Takes(es: seq<Event>): nat {
    if es == [] then 0 else Takes(es[..|es| - 1]) + if es[|es| - 1].Writing? then 1 else 0
  }

  /** The number in the last SELECT that a local connection sent, or 0; -1 stands for no number. */
  function LastSelect(arr: seq<Event>, local: nat): int
    requires forall i | 0 <= i < |arr| :: arr[i].Arrival?
  {
    if arr == [] then 0
    else
      var a := arr[|arr| - 1];
      if a.local == local && a.input.Some? && a.input.value.name == "SELECT"
         && a.input.value.arg.Some? && a.input.value.arg.value != -1
      then a.input.value.arg.value
      else LastSelect(arr[..|arr| - 1], local)
  }

  predicate Async(cfg: Config, c: Command) {
    cfg.smart && c.name in cfg.async
  }

  /** The request of the last arrival: its number, its command, its connection's database, whether somebody waits. */
  function LastRequest(cfg: Config, arr: seq<Event>): Request
    requires arr != [] && (forall i | 0 <= i < |arr| :: arr[i].Arrival?) && arr[|arr| - 1].input.Some?
  {
    var a := arr[|arr| - 1];
    Request(|arr| - 1, a.input.value, LastSelect(arr, a.local), !Async(cfg, a.input.value))
  }

  /** Every request that was sent to the client, in order of arrival. */
  function SentOf(cfg: Config, arr: seq<Event>): seq<Request>
    requires forall i | 0 <= i < |arr| :: arr[i].Arrival?
  {
    if arr == [] then []
    else
      var a := arr[|arr| - 1];
      SentOf(cfg, arr[..|arr| - 1]) + if a.sent && a.input.Some? then [LastRequest(cfg, arr)] else []
  }

  //---- runs, one event at a time from the end ----------------------------------------------------------------------

  lemma {:induction false} RunsSnoc(cfg: Config, s: State, es: seq<Event>)
    requires es != [] && Runs(cfg, s, es)
    ensures Runs(cfg, s, es[..|es| - 1]) && Enabled(Final(cfg, s, es[..|es| - 1]), es[|es| - 1])
    ensures Final(cfg, s, es) == Apply(cfg, Final(cfg, s, es[..|es| - 1]), es[|es| - 1])
    decreases |es|
  {
    hide Apply, Enabled;
    var init := es[..|es| - 1];
    if |es| == 1 {
      assert es[1..] == [] && init == [];
    } else {
      assert es[1..][..|es| - 2] == init[1..];
      RunsSnoc(cfg, Apply(cfg, s, es[0]), es[1..]);
    }
  }

  //---- arrivals are taken in order, each in its connection's database ----------------------------------------------

  ghost predicate Tracks(cfg: Config, es: seq<Event>, s: State) {
    && s.nextId == |Arrivals(es)|
    && (forall local: nat :: CurrentDB(s, local) == LastSelect(Arrivals(es), local))
    && Takes(es) <= |SentOf(cfg, Arrivals(es))|
    && s.requestChan == SentOf(cfg, Arrivals(es))[Takes(es)..]
  }

  lemma ArriveDatabases(cfg: Config, s: State, e: Event, local: nat)
    requires e.Arrival?
    ensures CurrentDB(Arrive(cfg, s, e.local, e.input, e.sent), local) ==
              if local == e.local && e.input.Some? && Named(e.input.value) != UNKNOWN_DB then Named(e.input.value)
              else CurrentDB(s, local)
    ensures Arrive(cfg, s, e.local, e.input, e.sent).nextId == s.nextId + 1
  {
    hide Named;
  }

  lemma ArriveSelects(cfg: Config, arr: seq<Event>, s: State, e: Event)
    requires (forall i | 0 <= i < |arr| :: arr[i].Arrival?) && e.Arrival?
    requires forall local: nat :: CurrentDB(s, local) == LastSelect(arr, local)
    ensures var t := Arrive(cfg, s, e.local, e.input, e.sent);
            t.nextId == s.nextId + 1 && forall local: nat :: CurrentDB(t, local) == LastSelect(arr + [e], local)
  {
    hide LastSelect, Arrive, Named, CurrentDB;
    LastSelectSnoc(arr, e);
    ArriveDatabases(cfg, s, e, 0);
    forall local: nat
      ensures CurrentDB(Arrive(cfg, s, e.local, e.input, e.sent), local) == LastSelect(arr + [e], local)
    {
      ArriveDatabases(cfg, s, e, local);
    }
  }

  /** A command that is sent joins the request channel behind the others, asynchronous or not. */
  lemma ArriveSends(cfg: Config, arr: seq<Event>, s: State, e: Event)
    requires (forall i | 0 <= i < |arr| :: arr[i].Arrival?) && e.Arrival? && s.nextId == |arr|
    requires forall local: nat :: CurrentDB(s, local) == LastSelect(arr, local)
    ensures Arrive(cfg, s, e.local, e.input, e.sent).requestChan ==
              if e.sent && e.input.Some? then s.requestChan + [LastRequest(cfg, arr + [e])] else s.requestChan
  {
    hide LastSelect, Arrive, Named, CurrentDB, Tag;
    LastSelectSnoc(arr, e);
    ArriveChan(cfg, s, e);
    if e.input.Some? { TagIs(s, e.local, e.input.value); }
    assert (arr + [e])[|arr|] == e;
  }

  lemma ArriveChan(cfg: Config, s: State, e: Event)
    requires e.Arrival?
    ensures Arrive(cfg, s, e.local, e.input, e.sent).requestChan ==
              if e.sent && e.input.Some?
              then s.requestChan
                   + [Request(s.nextId, e.input.value, Tag(s, e.local, e.input.value), !Async(cfg, e.input.value))]
              else s.requestChan
  {
    hide Named;
  }

  lemma TagIs(s: State, local: nat, c: Command)
    ensures Tag(s, local, c) == if Named(c) != UNKNOWN_DB then Named(c) else CurrentDB(s, local)
  {
  }

  lemma ArriveTracks(cfg: Config, es: seq<Event>, s: State, e: Event)
    requires Tracks(cfg, es, s) && e.Arrival?
    ensures Tracks(cfg, es + [e], Arrive(cfg, s, e.local, e.input, e.sent))
  {
    hide Takes, SentOf, LastSelect, Arrive, Arrivals, LastRequest;
    TakesSnoc(es, e);
    ArriveSelects(cfg, Arrivals(es), s, e);
    ArriveSends(cfg, Arrivals(es), s, e);
    SentSnoc(cfg, Arrivals(es), e);
    if e.input.Some? && e.sent {
      var sent, r := SentOf(cfg, Arrivals(es)), LastRequest(cfg, Arrivals(es) + [e]);
      assert (sent + [r])[Takes(es)..] == sent[Takes(es)..] + [r];
    }
  }

  lemma TakesSnoc(es: seq<Event>, e: Event)
    ensures Takes(es + [e]) == Takes(es) + if e.Writing? then 1 else 0
    ensures Arrivals(es + [e]) == if e.Arrival? then Arrivals(es) + [e] else Arrivals(es)
  {
    assert (es + [e])[..|es|] == es;
  }

  lemma LastSelectSnoc(arr: seq<Event>, e: Event)
    requires (forall i | 0 <= i < |arr| :: arr[i].Arrival?) && e.Arrival?
    ensures forall local: nat :: LastSelect(arr + [e], local) ==
              if local == e.local && e.input.Some? && Named(e.input.value) != UNKNOWN_DB then Named(e.input.value)
              else LastSelect(arr, local)
  {
    assert (arr + [e])[..|arr|] == arr;
  }

  lemma SentSnoc(cfg: Config, arr: seq<Event>, e: Event)
    requires (forall i | 0 <= i < |arr| :: arr[i].Arrival?) && e.Arrival?
    ensures SentOf(cfg, arr + [e])
            == if e.sent && e.input.Some? then SentOf(cfg, arr) + [LastRequest(cfg, arr + [e])] else SentOf(cfg, arr)
  {
    assert (arr + [e])[..|arr|] == arr;
  }

  /** Only arrivals and takings touch the handlers' side. */
  predicate SameSide(s: State, t: State) {
    t.nextId == s.nextId && t.currentDB == s.currentDB && t.requestChan == s.requestChan
  }

  lemma RefuseSide(s: State, r: Request)
    ensures SameSide(s, Refuse(s, r)) && SameSide(s, Disconnect(s))
  {
    hide Purged;
  }

  lemma SendSide(s: State, r: Request, net: Net)
    ensures SameSide(s, Send(s, r, net))
  {
    hide Disconnect, Refuse;
    RefuseSide(s, r);
    RefuseSide(Disconnect(s), r);
  }

  lemma WriteSide(cfg: Config, s: State, net: Net)
    requires s.requestChan != []
    ensures SameSide(s.(requestChan := s.requestChan[1..]), WriteStep(cfg, s, net))
  {
    hide Send, Refuse;
    var r := s.requestChan[0];
    var s0 := s.(requestChan := s.requestChan[1..]);
    var s1 := if s.connected then s0 else Connect(s0);
    RefuseSide(s0, r);
    RefuseSide(s1, r);
    SendSide(s1, r, net);
    SendSide(s1.(database := r.database), r, net);
    var s2 := Changed(s1, r.database);
    SendSide(s2, r, net);
    if s2.queue != [] { SendSide(Take(s2), r, net); }
  }

  lemma WriteTracks(cfg: Config, es: seq<Event>, s: State, e: Event)
    requires Tracks(cfg, es, s) && e.Writing? && s.requestChan != []
    ensures Tracks(cfg, es + [e], WriteStep(cfg, s, e.net))
  {
    hide Takes, Arrivals, SentOf, LastSelect, WriteStep;
    TakesSnoc(es, e);
    WriteSide(cfg, s, e.net);
    var sent, k := SentOf(cfg, Arrivals(es)), Takes(es);
    assert s.requestChan == sent[k..];
    assert sent[k..][1..] == sent[k + 1..];
    forall local: nat ensures CurrentDB(WriteStep(cfg, s, e.net), local) == CurrentDB(s, local) {}
  }

  lemma StepTracks(cfg: Config, es: seq<Event>, s: State, e: Event)
    requires Tracks(cfg, es, s) && Enabled(s, e)
    ensures Tracks(cfg, es + [e], Apply(cfg, s, e))
  {
    hide Takes, Arrivals, SentOf, LastSelect, WriteStep, Arrive, Disconnect;
    TakesSnoc(es, e);
    match e
    case Arrival(local, input, sent) => ArriveTracks(cfg, es, s, e);
    case Writing(net) => WriteTracks(cfg, es, s, e);
    case Taking =>
    case Replying(ok) =>
      var done := s.(hand := None);
      var h := s.hand.value;
      if !ok && h.Waiting? { RefuseSide(if h.r.sync then Answer(done, h.r.id, KO) else done, h.r); }
    case Late(i, ok) =>
      var l, done := s.left[i], s.(left := s.left[..i] + s.left[i + 1..]);
      RefuseSide(if l.r.sync then Answer(done, l.r.id, KO) else done, l.r);
    case Dropping => RefuseSide(s, Request(0, Command("", None, None, 0), 0, false));
  }

  lemma {:induction false} RunTracks(cfg: Config, es: seq<Event>)
    requires Runs(cfg, START, es)
    ensures Tracks(cfg, es, Final(cfg, START, es))
    decreases |es|
  {
    hide Runs, Final, Apply, Enabled, Tracks;
    if es == [] {
      StartTracks(cfg);
    } else {
      var init := es[..|es| - 1];
      RunsSnoc(cfg, START, es);
      RunTracks(cfg, init);
      StepTracks(cfg, init, Final(cfg, START, init), es[|es| - 1]);
      assert init + [es[|es| - 1]] == es;
    }
  }

  lemma StartTracks(cfg: Config)
    ensures Runs(cfg, START, []) && Tracks(cfg, [], Final(cfg, START, []))
  {
  }

  //---- how each taken request ends ---------------------------------------------------------------------------------

  datatype Fate = Wrote | Elision | Failed

  /** What the network and the client's own database decide for the request about to be taken. */
  function FateOf(cfg: Config, s: State, net: Net): Fate
    requires s.requestChan != []
  {
    var r := s.requestChan[0];
    if !s.connected && !net.dial then Failed
    else if cfg.smart && r.cmd.name == "SELECT" && s.database == r.database then Elision
    else if r.cmd.name != "SELECT" && s.database != r.database && !net.change then Failed
    else if net.flush && (net.write.Done? || (net.write.ClosedByPeer? && net.redial && net.rewrite)) then Wrote
    else Failed
  }

  function Fates(cfg: Config, es: seq<Event>): (fs: seq<Fate>)
    requires Runs(cfg, START, es)
    ensures |fs| == Takes(es)
  {
    if es == [] then []
    else
      RunsSnoc(cfg, START, es);
      var init, e := es[..|es| - 1], es[|es| - 1];
      Fates(cfg, init) + if e.Writing? then [FateOf(cfg, Final(cfg, START, init), e.net)] else []
  }

  /** The requests with a given fate, in order. */
  function Chosen(rs: seq<Request>, fs: seq<Fate>, f: Fate): seq<Request>
    requires |rs| == |fs|
  {
    if rs == [] then []
    else
      var n := |rs| - 1;
      Chosen(rs[..n], fs[..n], f) + if fs[n] == f then [rs[n]] else []
  }

  function WrittenOn(cs: seq<Conn>): seq<Request> {
    if cs == [] then [] else WrittenOn(cs[..|cs| - 1]) + cs[|cs| - 1].written
  }

  /** Every request that was written, on every connection there was, in order. */
  function AllWritten(s: State): seq<Request> {
    WrittenOn(s.past) + s.conn.written
  }

  predicate Flown(s: State) {
    s.connected || s.conn == NO_CONN
  }

  lemma WrittenOnSnoc(cs: seq<Conn>, c: Conn)
    ensures WrittenOn(cs + [c]) == WrittenOn(cs) + c.written
  {
    assert (cs + [c])[..|cs|] == cs;
  }

  lemma DisconnectFlies(s: State)
    requires Flown(s) && !Disconnect(s).crashed
    ensures Flown(Disconnect(s)) && AllWritten(Disconnect(s)) == AllWritten(s) && s.log <= Disconnect(s).log
  {
    hide Purged, WrittenOn;
    WrittenOnSnoc(s.past, s.conn);
    assert WrittenOn(s.past + [s.conn]) + [] == WrittenOn(s.past + [s.conn]);
  }

  lemma RefuseFlies(s: State, r: Request)
    requires Flown(s) && !Refuse(s, r).crashed
    ensures var t := Refuse(s, r);
            Flown(t) && AllWritten(t) == AllWritten(s) && s.log <= t.log && (r.sync ==> Reply(r.id, KO) in t.log)
  {
    hide Disconnect, WrittenOn;
    DisconnectFlies(s);
    var d := Disconnect(s);
    assert (d.log + [Reply(r.id, KO)])[|d.log|] == Reply(r.id, KO);
  }

  lemma WrittenFlies(s: State, r: Request)
    requires s.connected
    ensures var t := Written(s, r); Flown(t) && AllWritten(t) == AllWritten(s) + [r] && t.log == s.log
  {
    hide WrittenOn;
    assert WrittenOn(s.past) + (s.conn.written + [r]) == WrittenOn(s.past) + s.conn.written + [r];
  }

  lemma ConnectFlies(s: State)
    requires !s.connected && Flown(s)
    ensures Flown(Connect(s)) && AllWritten(Connect(s)) == AllWritten(s) && Connect(s).log == s.log
  {
  }

  lemma SendFlies(s: State, r: Request, net: Net)
    requires s.connected && !Send(s, r, net).crashed
    ensures var t := Send(s, r, net);
            && Flown(t) && s.log <= t.log
            && (if net.flush && (net.write.Done? || (net.write.ClosedByPeer? && net.redial && net.rewrite))
                then AllWritten(t) == AllWritten(s) + [r]
                else AllWritten(t) == AllWritten(s) && (r.sync ==> Reply(r.id, KO) in t.log))
  {
    hide WrittenOn, AllWritten, Refuse, Written, Flown;
    assert Flown(s) by { ConnectedFlies(s); }
    WrittenFlies(s, r);
    if net.write.ClosedByPeer? {
      DisconnectFlies(s);
      var d := Disconnect(s);
      if net.redial && net.rewrite && net.flush {
        ConnectFlies(d);
        WrittenFlies(Connect(d), r);
      } else {
        RefuseFlies(d, r);
      }
    } else if net.write.Broken? || !net.flush {
      RefuseFlies(s, r);
    }
  }

  lemma ConnectedFlies(s: State)
    requires s.connected
    ensures Flown(s)
  {
  }

  lemma SameFlight(s: State, t: State)
    requires t.past == s.past && t.conn.written == s.conn.written
    ensures AllWritten(t) == AllWritten(s)
  {
  }

  lemma WriteFlies(cfg: Config, s: State, net: Net)
    requires s.requestChan != [] && Flown(s) && !WriteStep(cfg, s, net).crashed && !s.crashed
    ensures var t, r, f := WriteStep(cfg, s, net), s.requestChan[0], FateOf(cfg, s, net);
            && Flown(t) && s.log <= t.log
            && AllWritten(t) == AllWritten(s) + (if f == Wrote then [r] else [])
            && (f == Failed && r.sync ==> Reply(r.id, KO) in t.log)
  {
    hide AllWritten, Refuse, Send;
    var r := s.requestChan[0];
    var s0 := s.(requestChan := s.requestChan[1..]);
    SameFlight(s, s0);
    assert AllWritten(s) + [] == AllWritten(s);
    if !s.connected && !net.dial {
      RefuseFlies(s0, r);
    } else {
      if !s.connected { ConnectFlies(s0); }
      var s1 := if s.connected then s0 else Connect(s0);
      if IsSelect(r.cmd) {
        if !Elided(cfg, s1, r) {
          SameFlight(s1, s1.(database := r.database));
          SendFlies(s1.(database := r.database), r, net);
        }
      } else if s1.database != r.database {
        if !net.change { RefuseFlies(s1, r); }
        else {
          var s2 := Changed(s1, r.database);
          SameFlight(s1, s2);
          var s3 := if net.taken && s2.hand.None? && s2.queue == [Placeholder] then Take(s2) else s2;
          SameFlight(s2, s3);
          SendFlies(s3, r, net);
        }
      } else {
        SendFlies(s1, r, net);
      }
    }
  }

  lemma OtherFlies(cfg: Config, s: State, e: Event)
    requires Enabled(s, e) && !e.Writing? && Flown(s) && !Apply(cfg, s, e).crashed
    ensures var t := Apply(cfg, s, e); Flown(t) && s.log <= t.log && AllWritten(t) == AllWritten(s)
  {
    hide AllWritten, Disconnect;
    match e
    case Replying(ok) =>
      var done, h := s.(hand := None), s.hand.value;
      SameFlight(s, done);
      if !ok && h.Waiting? {
        var told := if h.r.sync then Answer(done, h.r.id, KO) else done;
        SameFlight(done, told);
        DisconnectFlies(told);
      } else {
        SameFlight(s, Apply(cfg, s, e));
      }
    case Late(i, ok) =>
      var l, done := s.left[i], s.(left := s.left[..i] + s.left[i + 1..]);
      var told := if l.r.sync then Answer(done, l.r.id, KO) else done;
      SameFlight(s, told);
      if !ok { DisconnectFlies(told); } else { SameFlight(s, Apply(cfg, s, e)); }
    case Dropping => DisconnectFlies(s);
    case Arrival(local, input, sent) => SameFlight(s, Apply(cfg, s, e));
    case Taking => SameFlight(s, Apply(cfg, s, e));
  }

  ghost predicate Ended(rs: seq<Request>, fs: seq<Fate>, s: State)
    requires |rs| == |fs|
  {
    && Flown(s)
    && AllWritten(s) == Chosen(rs, fs, Wrote)
    && (forall k | 0 <= k < |rs| && fs[k] == Failed && rs[k].sync :: Reply(rs[k].id, KO) in s.log)
  }

  lemma EndedMore(rs: seq<Request>, fs: seq<Fate>, s: State, t: State, r: Request, f: Fate)
    requires |rs| == |fs| && Ended(rs, fs, s) && Flown(t) && s.log <= t.log
    requires AllWritten(t) == AllWritten(s) + (if f == Wrote then [r] else [])
    requires f == Failed && r.sync ==> Reply(r.id, KO) in t.log
    ensures Ended(rs + [r], fs + [f], t)
  {
    hide AllWritten, Flown;
    assert (rs + [r])[..|rs|] == rs && (fs + [f])[..|fs|] == fs;
    forall k | 0 <= k < |rs| && fs[k] == Failed && rs[k].sync ensures Reply(rs[k].id, KO) in t.log {
      var i :| 0 <= i < |s.log| && s.log[i] == Reply(rs[k].id, KO);
      assert t.log[i] == s.log[i];
    }
  }

  lemma EndedStill(rs: seq<Request>, fs: seq<Fate>, s: State, t: State)
    requires |rs| == |fs| && Ended(rs, fs, s) && Flown(t) && s.log <= t.log && AllWritten(t) == AllWritten(s)
    ensures Ended(rs, fs, t)
  {
    hide AllWritten, Flown;
    forall k | 0 <= k < |rs| && fs[k] == Failed && rs[k].sync ensures Reply(rs[k].id, KO) in t.log {
      var i :| 0 <= i < |s.log| && s.log[i] == Reply(rs[k].id, KO);
      assert t.log[i] == s.log[i];
    }
  }

  /** In every run that has not crashed, for the requests sent to the client, in order of arrival: the ones not
      taken yet wait in the channel; of the ones taken, exactly those that were neither elided nor refused are on the
      connections there were, in that order; a refused one that somebody waits for was answered KO. A request is
      numbered by its arrival and tagged with the last database its local connection selected. */
  lemma {:induction false} EveryRequestHasOneFate(cfg: Config, es: seq<Event>)
    requires Runs(cfg, START, es) && !Final(cfg, START, es).crashed
    ensures var s, sent, taken := Final(cfg, START, es), SentOf(cfg, Arrivals(es)), Takes(es);
            && taken <= |sent| && s.requestChan == sent[taken..]
            && Ended(sent[..taken], Fates(cfg, es), s)
    decreases |es|
  {
    hide Runs, Final, Apply, Enabled, Tracks, Ended, FateOf, SentOf, Arrivals, Fates, Takes;
    RunTracks(cfg, es);
    TracksParts(cfg, es, Final(cfg, START, es));
    if es == [] {
      StartEnded(cfg);
      assert SentOf(cfg, Arrivals(es))[..0] == [];
    } else {
      var init, e := es[..|es| - 1], es[|es| - 1];
      assert init + [e] == es;
      RunsSnoc(cfg, START, es);
      var s, t := Final(cfg, START, init), Final(cfg, START, es);
      NotCrashedYet(cfg, s, e);
      EveryRequestHasOneFate(cfg, init);
      TakesSnoc(init, e);
      FatesSnoc(cfg, init, e);
      var before, after, k := SentOf(cfg, Arrivals(init)), SentOf(cfg, Arrivals(es)), Takes(init);
      SentGrows(cfg, init, e);
      assert Flown(s) by { EndedFlown(before[..k], Fates(cfg, init), s); }
      if e.Writing? {
        WritesOne(cfg, s, e);
        assert s.requestChan[0] == before[k];
        assert after[..k + 1] == before[..k] + [before[k]];
        EndedMore(before[..k], Fates(cfg, init), s, t, before[k], FateOf(cfg, s, e.net));
      } else {
        OtherFlies(cfg, s, e);
        assert after[..k] == before[..k];
        EndedStill(before[..k], Fates(cfg, init), s, t);
      }
    }
  }

  lemma TracksParts(cfg: Config, es: seq<Event>, s: State)
    requires Tracks(cfg, es, s)
    ensures Takes(es) <= |SentOf(cfg, Arrivals(es))| && s.requestChan == SentOf(cfg, Arrivals(es))[Takes(es)..]
  {
  }

  lemma StartEnded(cfg: Config)
    ensures Runs(cfg, START, []) && Takes([]) == 0 && Ended([], Fates(cfg, []), Final(cfg, START, []))
  {
  }

  lemma NotCrashedYet(cfg: Config, s: State, e: Event)
    requires Enabled(s, e)
    ensures !s.crashed
  {
  }

  lemma FatesSnoc(cfg: Config, es: seq<Event>, e: Event)
    requires Runs(cfg, START, es) && Runs(cfg, START, es + [e])
    requires Enabled(Final(cfg, START, es), e)
    ensures Fates(cfg, es + [e])
            == if e.Writing? then Fates(cfg, es) + [FateOf(cfg, Final(cfg, START, es), e.net)] else Fates(cfg, es)
  {
    hide Runs, Final, FateOf, Enabled;
    assert (es + [e])[..|es|] == es;
    RunsSnoc(cfg, START, es + [e]);
  }

  lemma SentGrows(cfg: Config, es: seq<Event>, e: Event)
    ensures SentOf(cfg, Arrivals(es)) <= SentOf(cfg, Arrivals(es + [e]))
    ensures !e.Arrival? ==> SentOf(cfg, Arrivals(es)) == SentOf(cfg, Arrivals(es + [e]))
  {
    hide SentOf;
    TakesSnoc(es, e);
    if e.Arrival? { SentSnoc(cfg, Arrivals(es), e); }
  }

  lemma EndedFlown(rs: seq<Request>, fs: seq<Fate>, s: State)
    requires |rs| == |fs| && Ended(rs, fs, s)
    ensures Flown(s)
  {
  }

  lemma WritesOne(cfg: Config, s: State, e: Event)
    requires e.Writing? && Enabled(s, e) && Flown(s) && !Apply(cfg, s, e).crashed
    ensures s.requestChan != []
    ensures var t, r, f := Apply(cfg, s, e), s.requestChan[0], FateOf(cfg, s, e.net);
            && Flown(t) && s.log <= t.log
            && AllWritten(t) == AllWritten(s) + (if f == Wrote then [r] else [])
            && (f == Failed && r.sync ==> Reply(r.id, KO) in t.log)
  {
    hide AllWritten, FateOf, WriteStep;
    WriteFlies(cfg, s, e.net);
  }

  //---- what each kind of reply means -------------------------------------------------------------------------------

  /** An immediate OK goes to an asynchronous command only, a refusal to a malformed one, a send error to one that was
      not sent; KO and the server's own replies go to commands that were sent and that somebody waits for. */
  predicate KindFits(cfg: Config, arr: seq<Event>, r: Reply)
    requires forall i | 0 <= i < |arr| :: arr[i].Arrival?
  {
    r.id < |arr| &&
    var a := arr[r.id];
    match r.kind
    case BadCommand => a.input.None?
    case Fast => a.input.Some? && Async(cfg, a.input.value)
    case SendError => a.input.Some? && !Async(cfg, a.input.value) && !a.sent
    case KO => a.input.Some? && !Async(cfg, a.input.value) && a.sent
    case FromServer(_) => a.input.Some? && !Async(cfg, a.input.value) && a.sent
  }

  predicate Known(cfg: Config, arr: seq<Event>, r: Request)
    requires forall i | 0 <= i < |arr| :: arr[i].Arrival?
  {
    && r.id < |arr| && arr[r.id].input == Some(r.cmd) && arr[r.id].sent
    && (r.sync <==> !Async(cfg, r.cmd))
  }

  ghost predicate Told(cfg: Config, arr: seq<Event>, log: seq<Reply>)
    requires forall i | 0 <= i < |arr| :: arr[i].Arrival?
  {
    forall r | r in log :: KindFits(cfg, arr, r)
  }

  ghost predicate Holds(cfg: Config, arr: seq<Event>, s: State)
    requires forall i | 0 <= i < |arr| :: arr[i].Arrival?
  {
    && (forall r | r in s.requestChan :: Known(cfg, arr, r))
    && (forall e | e in s.queue && e.Waiting? :: Known(cfg, arr, e.r))
    && (s.hand.Some? && s.hand.value.Waiting? ==> Known(cfg, arr, s.hand.value.r))
    && (forall l | l in s.left :: Known(cfg, arr, l.r))
    && Told(cfg, arr, s.log)
  }

  lemma {:induction false} PurgedTold(cfg: Config, arr: seq<Event>, q: seq<Entry>)
    requires forall i | 0 <= i < |arr| :: arr[i].Arrival?
    requires forall e | e in q && e.Waiting? :: Known(cfg, arr, e.r)
    ensures Told(cfg, arr, Purged(q))
    decreases |q|
  {
    if q != [] {
      assert q[|q| - 1] in q;
      PurgedTold(cfg, arr, q[..|q| - 1]);
    }
  }

  lemma DisconnectHolds(cfg: Config, arr: seq<Event>, s: State)
    requires (forall i | 0 <= i < |arr| :: arr[i].Arrival?) && Holds(cfg, arr, s) && !Disconnect(s).crashed
    ensures Holds(cfg, arr, Disconnect(s))
  {
    hide Purged, KindFits, Known;
    PurgedTold(cfg, arr, s.queue);
  }

  lemma AnswerHolds(cfg: Config, arr: seq<Event>, s: State, id: nat, kind: Kind)
    requires (forall i | 0 <= i < |arr| :: arr[i].Arrival?) && Holds(cfg, arr, s) && KindFits(cfg, arr, Reply(id, kind))
    ensures Holds(cfg, arr, Answer(s, id, kind))
  {
    hide KindFits, Known;
  }

  lemma RefuseHolds(cfg: Config, arr: seq<Event>, s: State, r: Request)
    requires (forall i | 0 <= i < |arr| :: arr[i].Arrival?) && Holds(cfg, arr, s) && Known(cfg, arr, r)
    requires !Refuse(s, r).crashed
    ensures Holds(cfg, arr, Refuse(s, r))
  {
    hide Holds, Disconnect;
    DisconnectHolds(cfg, arr, s);
    if r.sync { AnswerHolds(cfg, arr, Disconnect(s), r.id, KO); }
  }

  lemma WrittenHolds(cfg: Config, arr: seq<Event>, s: State, r: Request)
    requires (forall i | 0 <= i < |arr| :: arr[i].Arrival?) && Holds(cfg, arr, s) && Known(cfg, arr, r)
    ensures Holds(cfg, arr, Written(s, r))
  {
    hide KindFits, Known, Told;
  }

  lemma PartsHold(cfg: Config, arr: seq<Event>, s: State, t: State)
    requires (forall i | 0 <= i < |arr| :: arr[i].Arrival?) && Holds(cfg, arr, s)
    requires forall r | r in t.requestChan :: r in s.requestChan
    requires forall e | e in t.queue :: e in s.queue || e.Placeholder?
    requires t.hand.Some? ==> t.hand == s.hand || t.hand.value in s.queue || t.hand.value.Placeholder?
    requires (forall l | l in t.left :: l in s.left) && t.log == s.log
    ensures Holds(cfg, arr, t)
  {
    hide Known, Told;
  }

  lemma SendHolds(cfg: Config, arr: seq<Event>, s: State, r: Request, net: Net)
    requires (forall i | 0 <= i < |arr| :: arr[i].Arrival?) && Holds(cfg, arr, s) && Known(cfg, arr, r)
    requires !Send(s, r, net).crashed
    ensures Holds(cfg, arr, Send(s, r, net))
  {
    hide Holds, Known, Refuse, Written, Disconnect;
    WrittenHolds(cfg, arr, s, r);
    if net.write.ClosedByPeer? {
      DisconnectHolds(cfg, arr, s);
      var d := Disconnect(s);
      if net.redial && net.rewrite && net.flush {
        PartsHold(cfg, arr, d, Connect(d));
        WrittenHolds(cfg, arr, Connect(d), r);
      } else {
        RefuseHolds(cfg, arr, d, r);
      }
    } else if net.write.Broken? || !net.flush {
      RefuseHolds(cfg, arr, s, r);
    }
  }

  lemma WriteHolds(cfg: Config, arr: seq<Event>, s: State, net: Net)
    requires (forall i | 0 <= i < |arr| :: arr[i].Arrival?) && Holds(cfg, arr, s) && s.requestChan != []
    requires !WriteStep(cfg, s, net).crashed
    ensures Holds(cfg, arr, WriteStep(cfg, s, net))
  {
    assert Known(cfg, arr, s.requestChan[0]);
    hide Holds, Known, Refuse, Send;
    var r := s.requestChan[0];
    var s0 := s.(requestChan := s.requestChan[1..]);
    PartsHold(cfg, arr, s, s0);
    if !s.connected && !net.dial {
      RefuseHolds(cfg, arr, s0, r);
    } else {
      var s1 := if s.connected then s0 else Connect(s0);
      PartsHold(cfg, arr, s0, s1);
      if IsSelect(r.cmd) {
        var s2 := s1.(database := r.database);
        PartsHold(cfg, arr, s1, s2);
        if !Elided(cfg, s1, r) { SendHolds(cfg, arr, s2, r, net); }
      } else if s1.database != r.database {
        if !net.change { RefuseHolds(cfg, arr, s1, r); }
        else {
          var s2 := Changed(s1, r.database);
          var s3 := if net.taken && s2.hand.None? && s2.queue == [Placeholder] then Take(s2) else s2;
          PartsHold(cfg, arr, s1, s2);
          PartsHold(cfg, arr, s2, s3);
          SendHolds(cfg, arr, s3, r, net);
        }
      } else {
        SendHolds(cfg, arr, s1, r, net);
      }
    }
  }

  lemma MoreArrivals(cfg: Config, arr: seq<Event>, s: State, a: Event)
    requires (forall i | 0 <= i < |arr| :: arr[i].Arrival?) && Holds(cfg, arr, s) && a.Arrival?
    ensures Holds(cfg, arr + [a], s)
  {
  }

  lemma ArriveHolds(cfg: Config, arr: seq<Event>, s: State, a: Event)
    requires (forall i | 0 <= i < |arr| :: arr[i].Arrival?) && Holds(cfg, arr, s) && a.Arrival? && s.nextId == |arr|
    ensures Holds(cfg, arr + [a], Arrive(cfg, s, a.local, a.input, a.sent))
  {
    hide Holds;
    MoreArrivals(cfg, arr, s, a);
    var more, id, s1 := arr + [a], s.nextId, s.(nextId := s.nextId + 1);
    assert more[id] == a;
    PartsHold(cfg, more, s, s1);
    if a.input.None? {
      AnswerHolds(cfg, more, s1, id, BadCommand);
    } else {
      var c, db := a.input.value, Tag(s1, a.local, a.input.value);
      var s2 := s1.(currentDB := s1.currentDB[a.local := db]);
      PartsHold(cfg, more, s1, s2);
      if Async(cfg, c) {
        AnswerHolds(cfg, more, s2, id, Fast);
        if a.sent { PushHolds(cfg, more, Answer(s2, id, Fast), Request(id, c, db, false)); }
      } else if a.sent {
        PushHolds(cfg, more, s2, Request(id, c, db, true));
      } else {
        AnswerHolds(cfg, more, s2, id, SendError);
      }
    }
  }

  lemma PushHolds(cfg: Config, arr: seq<Event>, s: State, r: Request)
    requires (forall i | 0 <= i < |arr| :: arr[i].Arrival?) && Holds(cfg, arr, s) && Known(cfg, arr, r)
    ensures Holds(cfg, arr, s.(requestChan := s.requestChan + [r]))
  {
    hide Known, Told;
  }

  lemma StepHolds(cfg: Config, arr: seq<Event>, s: State, e: Event)
    requires (forall i | 0 <= i < |arr| :: arr[i].Arrival?) && Holds(cfg, arr, s) && s.nextId == |arr|
    requires Enabled(s, e) && !Apply(cfg, s, e).crashed
    ensures Holds(cfg, if e.Arrival? then arr + [e] else arr, Apply(cfg, s, e))
  {
    hide Holds, WriteStep, ReplyStep, LateStep, Arrive, Disconnect;
    match e
    case Arrival(_, _, _) => ArriveHolds(cfg, arr, s, e);
    case Writing(net) => WriteHolds(cfg, arr, s, net);
    case Taking => PartsHold(cfg, arr, s, Take(s));
    case Replying(ok) => ReplyHolds(cfg, arr, s, ok);
    case Late(i, ok) => LateHolds(cfg, arr, s, i, ok);
    case Dropping => DisconnectHolds(cfg, arr, s);
  }

  lemma ReplyHolds(cfg: Config, arr: seq<Event>, s: State, ok: bool)
    requires (forall i | 0 <= i < |arr| :: arr[i].Arrival?) && Holds(cfg, arr, s)
    requires s.hand.Some? && (ok ==> s.unanswered != []) && !ReplyStep(s, ok).crashed
    ensures Holds(cfg, arr, ReplyStep(s, ok))
  {
    assert s.hand.value.Waiting? ==> Known(cfg, arr, s.hand.value.r);
    hide Holds, Disconnect;
    var h, done := s.hand.value, s.(hand := None);
    PartsHold(cfg, arr, s, done);
    if ok {
      var read := done.(unanswered := s.unanswered[1..]);
      PartsHold(cfg, arr, done, read);
      if h.Waiting? && h.r.sync { AnswerHolds(cfg, arr, read, h.r.id, FromServer(s.unanswered[0])); }
    } else if h.Waiting? {
      if h.r.sync { AnswerHolds(cfg, arr, done, h.r.id, KO); }
      DisconnectHolds(cfg, arr, if h.r.sync then Answer(done, h.r.id, KO) else done);
    }
  }

  lemma LateHolds(cfg: Config, arr: seq<Event>, s: State, i: nat, ok: bool)
    requires (forall i | 0 <= i < |arr| :: arr[i].Arrival?) && Holds(cfg, arr, s)
    requires i < |s.left| && (ok ==> s.left[i].unanswered != []) && !LateStep(s, i, ok).crashed
    ensures Holds(cfg, arr, LateStep(s, i, ok))
  {
    assert s.left[i] in s.left && Known(cfg, arr, s.left[i].r);
    hide Holds, Disconnect;
    var l, done := s.left[i], s.(left := s.left[..i] + s.left[i + 1..]);
    var kind := if ok then FromServer(l.unanswered[0]) else KO;
    PartsHold(cfg, arr, s, done);
    if l.r.sync { AnswerHolds(cfg, arr, done, l.r.id, kind); }
    if !ok { DisconnectHolds(cfg, arr, if l.r.sync then Answer(done, l.r.id, KO) else done); }
  }

  /** In every run that has not crashed, every reply is of the kind its request calls for. */
  lemma {:induction false} RepliesMeanWhatTheySay(cfg: Config, es: seq<Event>)
    requires Runs(cfg, START, es) && !Final(cfg, START, es).crashed
    ensures Holds(cfg, Arrivals(es), Final(cfg, START, es))
    ensures forall r | r in Final(cfg, START, es).log :: KindFits(cfg, Arrivals(es), r)
    decreases |es|
  {
    HoldsInRun(cfg, es);
    HoldsTold(cfg, Arrivals(es), Final(cfg, START, es));
  }

  lemma HoldsTold(cfg: Config, arr: seq<Event>, s: State)
    requires (forall i | 0 <= i < |arr| :: arr[i].Arrival?) && Holds(cfg, arr, s)
    ensures forall r | r in s.log :: KindFits(cfg, arr, r)
  {
  }

  lemma {:induction false} HoldsInRun(cfg: Config, es: seq<Event>)
    requires Runs(cfg, START, es) && !Final(cfg, START, es).crashed
    ensures Holds(cfg, Arrivals(es), Final(cfg, START, es))
    decreases |es|
  {
    hide Runs, Final, Apply, Enabled, Holds, Tracks, Arrivals;
    if es == [] {
      StartHolds(cfg);
    } else {
      var init, e := es[..|es| - 1], es[|es| - 1];
      assert init + [e] == es;
      RunsSnoc(cfg, START, es);
      var s := Final(cfg, START, init);
      NotCrashedYet(cfg, s, e);
      HoldsInRun(cfg, init);
      RunTracks(cfg, init);
      TracksIds(cfg, init, s);
      TakesSnoc(init, e);
      StepHolds(cfg, Arrivals(init), s, e);
    }
  }

  lemma TracksIds(cfg: Config, es: seq<Event>, s: State)
    requires Tracks(cfg, es, s)
    ensures s.nextId == |Arrivals(es)|
  {
  }

  lemma StartHolds(cfg: Config)
    ensures Runs(cfg, START, []) && Holds(cfg, Arrivals([]), Final(cfg, START, []))
  {
  }

  /** A read that fails for a request, also one of a listener left behind, drops whatever connection there is. */
  lemma FailedReadDrops(cfg: Config, s: State, e: Event)
    requires Enabled(s, e) && !Apply(cfg, s, e).crashed
    requires (e.Replying? && !e.ok && s.hand.value.Waiting?) || (e.Late? && !e.ok) || e.Dropping?
    ensures var t := Apply(cfg, s, e);
            && !t.connected && t.database == 0 && t.queue == [] && t.hand.None? && t.conn == NO_CONN
            && |t.past| == |s.past| + 1 && t.past[|s.past|] == s.conn
  {
    hide Purged;
  }
}
