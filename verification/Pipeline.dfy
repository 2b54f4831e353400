/** Pipelining on one healthy connection: requests appended, flushed together, answered one at a time, with plain
    commands in between. */
module Pipeline {
  import opened Words

  type Req = Bytes
  type Reply = Bytes

  /** What the client keeps, each completed response named by the position of its request among all requests written. */
  datatype Pipe = Pipe(pending: seq<Req>, completed: seq<nat>, written: seq<Req>)

  const EMPTY := Pipe([], [], [])

  function Append(p: Pipe, r: Req): Pipe {
    p.(pending := p.pending + [r])
  }

  function Slots(from: nat, n: nat): seq<nat> {
    seq(n, i requires 0 <= i < n => from + i)
  }

  /** PipeResp's flush: everything pending is written and all its responses are read. */
  function Flush(p: Pipe): Pipe {
    Pipe([], Slots(|p.written|, |p.pending|), p.written + p.pending)
  }

  function Resp(p: Pipe): (Pipe, Option<nat>) {
    if p.completed != [] then (p.(completed := p.completed[1..]), Some(p.completed[0]))
    else if p.pending == [] then (p, None)
    else var q := Flush(p); (q.(completed := q.completed[1..]), Some(q.completed[0]))
  }

  function Cmd(p: Pipe, r: Req): Pipe {
    p.(written := p.written + [r])
  }

  function Clear(p: Pipe): Pipe {
    p.(pending := [], completed := [])
  }

  //---- histories ---------------------------------------------------------------------------------------------------

  datatype Op = Appending(r: Req) | Responding | Commanding(r: Req) | Clearing

  /** Since the last clear: the requests appended and the positions answered so far. */
  datatype History = History(pipe: Pipe, appended: seq<Req>, answered: seq<nat>)

  function Apply(h: History, op: Op): History {
    match op
    case Appending(r) => h.(pipe := Append(h.pipe, r), appended := h.appended + [r])
    case Responding =>
      var (p, slot) := Resp(h.pipe);
      h.(pipe := p, answered := if slot.Some? then h.answered + [slot.value] else h.answered)
    case Commanding(r) => h.(pipe := Cmd(h.pipe, r))
    case Clearing => History(Clear(h.pipe), [], [])
  }

  function Run(h: History, ops: seq<Op>): History
    decreases |ops|
  {
    if ops == [] then h else Run(Apply(h, ops[0]), ops[1..])
  }

  /** All positions handed out or waiting to be, in order. */
  function Positions(h: History): seq<nat> {
    h.answered + h.pipe.completed
  }

  /** The k-th position is that of the k-th request appended; positions increase; the rest is still pending. */
  ghost predicate InOrder(h: History) {
    var at := Positions(h);
    && |at| + |h.pipe.pending| == |h.appended| && h.pipe.pending == h.appended[|at|..]
    && (forall k | 0 <= k < |at| :: at[k] < |h.pipe.written| && h.pipe.written[at[k]] == h.appended[k])
    && (forall j, k | 0 <= j < k < |at| :: at[j] < at[k])
  }

  lemma FlushInOrder(h: History)
    requires InOrder(h) && h.pipe.completed == []
    ensures InOrder(h.(pipe := Flush(h.pipe)))
  {
    var t := h.(pipe := Flush(h.pipe));
    var at, before := Positions(t), Positions(h);
    assert before == h.answered;
    forall k | 0 <= k < |at| ensures at[k] < |t.pipe.written| && t.pipe.written[at[k]] == t.appended[k] {
      if k < |before| { assert at[k] == before[k]; }
      else { assert at[k] == |h.pipe.written| + (k - |before|); }
    }
  }

  lemma PopInOrder(h: History)
    requires InOrder(h) && h.pipe.completed != []
    ensures InOrder(h.(pipe := h.pipe.(completed := h.pipe.completed[1..]),
        answered := h.answered + [h.pipe.completed[0]]))
  {
    var t := h.(pipe := h.pipe.(completed := h.pipe.completed[1..]), answered := h.answered + [h.pipe.completed[0]]);
    assert Positions(t) == Positions(h);
  }

  lemma StepInOrder(h: History, op: Op)
    requires InOrder(h)
    ensures InOrder(Apply(h, op))
  {
    match op
    case Responding =>
      if h.pipe.completed != [] {
        PopInOrder(h);
      } else if h.pipe.pending != [] {
        FlushInOrder(h);
        PopInOrder(h.(pipe := Flush(h.pipe)));
      }
    case Appending(r) => assert Positions(Apply(h, op)) == Positions(h);
    case Commanding(r) => assert Positions(Apply(h, op)) == Positions(h);
    case Clearing =>
  }

  lemma {:induction false} RunInOrder(h: History, ops: seq<Op>)
    requires InOrder(h)
    ensures InOrder(Run(h, ops))
    decreases |ops|
  {
    hide InOrder, Apply;
    if ops != [] {
      StepInOrder(h, ops[0]);
      RunInOrder(Apply(h, ops[0]), ops[1..]);
    }
  }

  /** For every interleaving of appends, responses, commands and clears, the k-th response since the last clear answers
      the k-th request appended since then, and no request is answered twice. */
  lemma KthResponseAnswersKthRequest(ops: seq<Op>, k: nat)
    ensures var h := Run(History(EMPTY, [], []), ops);
            && |h.answered| <= |h.appended|
            && (k < |h.answered| ==> h.answered[k] < |h.pipe.written| && h.pipe.written[h.answered[k]] == h.appended[k])
            && (forall j | 0 <= j < k < |h.answered| :: h.answered[j] < h.answered[k])
  {
    hide Run;
    RunInOrder(History(EMPTY, [], []), ops);
    var h := Run(History(EMPTY, [], []), ops);
    forall j | 0 <= j < |h.answered| ensures Positions(h)[j] == h.answered[j] {}
  }

  /** A response fails only when nothing appended is left unanswered. */
  lemma EmptyExactly(h: History)
    requires InOrder(h)
    ensures Resp(h.pipe).1.None? <==> |h.answered| == |h.appended|
  {
  }

  //---- the client --------------------------------------------------------------------------------------------------

  /** The requests up to and including the one at a position. */
  function Upto(written: seq<Req>, i: nat): seq<Req>
    requires i < |written|
  {
    written[..i + 1]
  }

  /** serve gives the server's reply to the last of the requests it has executed; written is the server's side of the
      connection, every request it has received; unread holds the replies on the wire. */
  class Client {
    const serve: seq<Req> -> Reply
    var pending: seq<Req>
    var completed: seq<Reply>
    var unread: seq<Reply>
    var written: seq<Req>
    ghost var slots: seq<nat>

    constructor (serve: seq<Req> -> Reply)
      ensures Valid() && View() == EMPTY && this.serve == serve
    {
      this.serve := serve;
      pending, completed, unread, written, slots := [], [], [], [], [];
    }

    ghost function View(): Pipe
      reads this
    {
      Pipe(pending, slots, written)
    }

    /** The server's reply to the request at a position. */
    ghost function Answer(i: nat): Reply
      reads this
      requires i < |written|
    {
      serve(Upto(written, i))
    }

    /** Between calls no reply is left on the wire, and each completed response is the reply at its position. */
    ghost predicate Valid()
      reads this
    {
      unread == [] && Answers(completed, slots)
    }

    ghost predicate Answers(replies: seq<Reply>, at: seq<nat>)
      reads this
    {
      |replies| == |at| && forall i | 0 <= i < |at| :: at[i] < |written| && replies[i] == Answer(at[i])
    }

    /** writeRequest: each request is written and flushed, and the server answers it. */
    method WriteRequest(reqs: seq<Req>)
      requires unread == [] && Answers(completed, slots)
      modifies this`unread, this`written
      ensures written == old(written) + reqs && Answers(unread, Slots(|old(written)|, |reqs|))
      ensures Answers(completed, slots)
    {
      var i := 0;
      while i < |reqs|
        invariant 0 <= i <= |reqs| && written == old(written) + reqs[..i]
        invariant Answers(unread, Slots(|old(written)|, i)) && Answers(completed, slots)
      {
        ghost var before := written;
        written := written + [reqs[i]];
        forall k | 0 <= k < |before| ensures Upto(written, k) == Upto(before, k) {
          assert written[..k + 1] == before[..k + 1];
        }
        unread := unread + [serve(written)];
        i := i + 1;
        assert written[..|written|] == written;
      }
      assert reqs[..i] == reqs;
    }

    /** readResp: the oldest reply on the wire. */
    method ReadResp() returns (r: Reply)
      requires unread != []
      modifies this`unread
      ensures r == old(unread)[0] && unread == old(unread)[1..]
    {
      r := unread[0];
      unread := unread[1..];
    }

    method PipeAppend(req: Req)
      requires Valid()
      modifies this`pending
      ensures Valid() && View() == Append(old(View()), req)
    {
      pending := pending + [req];
    }

    /** The next response, if any was asked for: the server's reply to the request at the position the specification
        names. */
    method PipeResp() returns (r: Option<Reply>)
      requires Valid()
      modifies this
      ensures Valid() && View() == Resp(old(View())).0
      ensures r.Some? <==> Resp(old(View())).1.Some?
      ensures r.Some? ==> var i := Resp(old(View())).1.value; i < |written| && r.value == Answer(i)
      decreases |pending|
    {
      if |completed| > 0 {
        r := Some(completed[0]);
        completed := completed[1..];
        slots := slots[1..];
        return;
      }
      if |pending| == 0 { return None; }
      var n := |pending|;
      WriteRequest(pending);
      pending := [];
      completed := [];
      ghost var at, replies := Slots(|old(written)|, n), unread;
      slots := at;
      var i := 0;
      while i < n
        invariant 0 <= i <= n && completed == replies[..i] && unread == replies[i..]
        invariant pending == [] && written == old(written + pending) && slots == at && Answers(replies, at)
      {
        var reply := ReadResp();
        completed := completed + [reply];
        i := i + 1;
      }
      assert replies[..n] == replies;
      r := PipeResp();
    }

    /** A plain command gets the reply to itself, whatever is pending or waiting in the pipeline. */
    method Command(req: Req) returns (r: Reply)
      requires Valid()
      modifies this
      ensures Valid() && View() == Cmd(old(View()), req)
      ensures r == serve(old(written) + [req])
    {
      WriteRequest([req]);
      assert Slots(|old(written)|, 1)[0] == |old(written)| && written[..|written|] == written;
      r := ReadResp();
    }

    method PipeClear() returns (calls: nat, replies: nat)
      requires Valid()
      modifies this
      ensures Valid() && View() == Clear(old(View()))
      ensures calls == |old(pending)| && replies == |old(completed)|
    {
      calls, replies := |pending|, |completed|;
      if calls > 0 { pending := []; }
      if replies > 0 { completed, slots := [], []; }
    }
  }
}
