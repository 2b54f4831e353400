/** Iterating over SCAN replies: all at once, key by key, and over every node of a cluster. */
module Scan {
  import opened Words

  /** What one call of doScanPart yields: the next cursor and some keys, or an error. */
  datatype Part = Keys(cursor: Bytes, keys: seq<Bytes>) | Fault(err: nat)

  const CONNECTION_LOST: nat := 0

  const ZERO: Bytes := [48]

  /** A node that still has these replies to give; when they run out the connection is lost. */
  function NextPart(feed: seq<Part>): Part {
    if feed == [] then Fault(CONNECTION_LOST) else feed[0]
  }

  function Rest(feed: seq<Part>): seq<Part> {
    if feed == [] then [] else feed[1..]
  }

  function NonEmpty(keys: seq<Bytes>): seq<Bytes> {
    if keys == [] then [] else (if keys[0] == [] then [] else [keys[0]]) + NonEmpty(keys[1..])
  }

  /** A scan's keys, its error, and the cursors it sent. */
  datatype Outcome = Outcome(keys: seq<Bytes>, err: Option<nat>, asked: seq<Bytes>)

  /** A scan from a cursor, to the reply whose cursor is "0" or the first error. */
  function Whole(feed: seq<Part>, cursor: Bytes): Outcome
    decreases |feed|
  {
    match NextPart(feed)
    case Fault(e) => Outcome([], Some(e), [cursor])
    case Keys(next, keys) =>
      if next == ZERO then Outcome(NonEmpty(keys), None, [cursor])
      else
        var more := Whole(feed[1..], next);
        Outcome(NonEmpty(keys) + more.keys, more.err, [cursor] + more.asked)
  }

  /** A reply whose cursor is the single digit 0 is the last. */
  predicate GoesOn(p: Part) {
    p.Keys? && p.cursor != [48]
  }

  function AllKeys(parts: seq<Part>): seq<Bytes> {
    if parts == [] then []
    else (if parts[0].Keys? then NonEmpty(parts[0].keys) else []) + AllKeys(parts[1..])
  }

  /** The scan is the non-empty keys of all replies up to the one that ends it, in order; each request carries the
      cursor of the reply before it. */
  lemma {:induction false} WholeIsEverythingListed(feed: seq<Part>, cursor: Bytes, n: nat)
    requires n < |feed| && (forall i | 0 <= i < n :: GoesOn(feed[i])) && !GoesOn(feed[n])
    ensures Whole(feed, cursor).keys == AllKeys(feed[..n + 1])
    ensures Whole(feed, cursor).err == if feed[n].Fault? then Some(feed[n].err) else None
    ensures |Whole(feed, cursor).asked| == n + 1 && Whole(feed, cursor).asked[0] == cursor
    ensures forall i | 0 <= i < n :: GoesOn(feed[i]) && Whole(feed, cursor).asked[i + 1] == feed[i].cursor
  {
    hide NonEmpty;
    assert feed[..n + 1][1..] == feed[1..][..n];
    if n > 0 {
      assert GoesOn(feed[0]);
      WholeIsEverythingListed(feed[1..], feed[0].cursor, n - 1);
    } else {
      assert feed[1..][..0] == [];
    }
  }

  lemma {:induction false} NonEmptyPush(a: seq<Bytes>, k: Bytes)
    ensures NonEmpty(a + [k]) == NonEmpty(a) + if k == [] then [] else [k]
  {
    if a != [] {
      assert (a + [k])[1..] == a[1..] + [k];
      NonEmptyPush(a[1..], k);
    }
  }

  /** The loop that puts the keys of one reply on the channel. */
  method PutOn(sent: seq<Bytes>, keys: seq<Bytes>) returns (ch: seq<Bytes>)
    ensures ch == sent + NonEmpty(keys)
  {
    hide NonEmpty;
    NothingKept();
    ch := sent;
    var i := 0;
    assert keys[..0] == [];
    while i < |keys|
      invariant 0 <= i <= |keys| && ch == sent + NonEmpty(keys[..i])
    {
      NonEmptyPush(keys[..i], keys[i]);
      assert keys[..i + 1] == keys[..i] + [keys[i]];
      if keys[i] != [] { ch := ch + [keys[i]]; }
      i := i + 1;
    }
    assert keys[..i] == keys;
  }

  /** scanSingle: the keys put on the channel, and the error returned. */
  method ScanSingle(feed: seq<Part>) returns (ch: seq<Bytes>, err: Option<nat>, asked: seq<Bytes>)
    ensures Outcome(ch, err, asked) == Whole(feed, [])
  {
    hide NonEmpty, Whole;
    var cursor: Bytes := [];
    var left := feed;
    ch, asked := [], [];
    while true
      invariant Extended(ch, asked, Whole(left, cursor)) == Whole(feed, [])
      decreases |left|
    {
      WholeStep(left, cursor);
      asked := asked + [cursor];
      match NextPart(left)
      case Fault(e) => return ch, Some(e), asked;
      case Keys(next, keys) =>
        ch := PutOn(ch, keys);
        if next == ZERO { return ch, None, asked; }
        cursor := next;
        left := left[1..];
    }
  }

  function Extended(keys: seq<Bytes>, asked: seq<Bytes>, o: Outcome): Outcome {
    Outcome(keys + o.keys, o.err, asked + o.asked)
  }

  lemma NothingKept()
    ensures NonEmpty([]) == []
  {
  }

  lemma WholeStep(feed: seq<Part>, cursor: Bytes)
    ensures match NextPart(feed)
            case Fault(e) => Whole(feed, cursor) == Outcome([], Some(e), [cursor])
            case Keys(next, keys) =>
              Whole(feed, cursor) == if next == ZERO then Outcome(NonEmpty(keys), None, [cursor])
                                     else Extended(NonEmpty(keys), [cursor], Whole(feed[1..], next))
  {
  }

  //---- one key at a time -------------------------------------------------------------------------------------------

  class SingleScanner {
    var feed: seq<Part>
    var asked: seq<Bytes>
    var err: Option<nat>
    var cursor: Bytes
    var buf: seq<Bytes>

    constructor (replies: seq<Part>)
      ensures Remaining() == Whole(replies, []) && asked == [] && err.None?
    {
      feed, asked, err, cursor, buf := replies, [], None, [], [];
      new;
      assert NonEmpty([]) == [];
      assert Extended([], [], Whole(replies, [])) == Whole(replies, []);
    }

    /** What is still to come: the keys waiting, then the rest of the scan. */
    ghost function Remaining(): Outcome
      reads this
    {
      if err.Some? then Outcome([], err, [])
      else if cursor == ZERO then Outcome(NonEmpty(buf), None, [])
      else Extended(NonEmpty(buf), [], Whole(feed, cursor))
    }

    /** True exactly when a key remains, which then waits at the head of the buffer; fetches as many replies as that
        takes and skips empty keys. Nothing that was to come is lost or asked for twice. */
    method HasNext() returns (has: bool)
      modifies this
      ensures Remaining().keys == old(Remaining().keys) && Remaining().err == old(Remaining().err)
      ensures asked + Remaining().asked == old(asked + Remaining().asked)
      ensures has <==> Remaining().keys != []
      ensures has ==> Waiting()
      ensures !has ==> err == Remaining().err && Remaining().asked == []
    {
      hide Whole;
      while true
        invariant Remaining().keys == old(Remaining().keys) && Remaining().err == old(Remaining().err)
        invariant asked + Remaining().asked == old(asked + Remaining().asked)
        decreases if err.None? then 1 else 0, |feed|, |buf|
      {
        if err.Some? { return false; }
        if |buf| > 0 {
          if buf[0] == [] {
            buf := buf[1..];
            continue;
          }
          return true;
        }
        if cursor == ZERO { return false; }
        Fetch();
      }
    }

    ghost predicate Waiting()
      reads this
    {
      err.None? && buf != [] && buf[0] != []
    }

    /** One more doScanPart. */
    method Fetch()
      requires err.None? && buf == [] && cursor != ZERO
      modifies this
      ensures Remaining().keys == old(Remaining().keys) && Remaining().err == old(Remaining().err)
      ensures asked + Remaining().asked == old(asked + Remaining().asked)
      ensures err.Some? || |feed| < |old(feed)|
    {
      hide Whole;
      WholeStep(feed, cursor);
      NothingKept();
      asked := asked + [cursor];
      match NextPart(feed)
      case Fault(e) => cursor, buf, err := [], [], Some(e);
      case Keys(next, keys) => cursor, buf := next, keys;
      feed := Rest(feed);
    }

    method Next() returns (key: Bytes)
      requires Waiting()
      modifies this
      ensures old(Remaining().keys) == [key] + Remaining().keys
      ensures Remaining().err == old(Remaining().err) && asked + Remaining().asked == old(asked + Remaining().asked)
    {
      hide Whole;
      key := buf[0];
      buf := buf[1..];
    }
  }

  /** Driving HasNext and Next gives the keys, the error and the requests of scanSingle, for every trace of replies. */
  method Drive(feed: seq<Part>) returns (keys: seq<Bytes>, err: Option<nat>, asked: seq<Bytes>)
    ensures Outcome(keys, err, asked) == Whole(feed, [])
  {
    hide Whole, SingleScanner.Remaining;
    var s := new SingleScanner(feed);
    keys := [];
    var has := s.HasNext();
    while has
      invariant keys + s.Remaining().keys == Whole(feed, []).keys && s.Remaining().err == Whole(feed, []).err
      invariant s.asked + s.Remaining().asked == Whole(feed, []).asked
      invariant has <==> s.Remaining().keys != []
      invariant has ==> s.Waiting()
      invariant !has ==> s.err == s.Remaining().err && s.Remaining().asked == []
      decreases |s.Remaining().keys|
    {
      var key := s.Next();
      keys := keys + [key];
      has := s.HasNext();
    }
    err, asked := s.err, s.asked;
  }

  //---- every node of a cluster -------------------------------------------------------------------------------------

  /** The scans of some nodes one after the other, up to the first that fails. */
  function InTurn(clients: seq<nat>, feeds: map<nat, seq<Part>>): (o: Outcome)
    requires forall i | 0 <= i < |clients| :: clients[i] in feeds
  {
    if clients == [] then Outcome([], None, [])
    else After(Whole(feeds[clients[0]], []), InTurn(clients[1..], feeds))
  }

  function After(o: Outcome, rest: Outcome): Outcome {
    if o.err.Some? then Outcome(o.keys, o.err, []) else Outcome(o.keys + rest.keys, rest.err, [])
  }

  /** The same keys and error. */
  predicate Agree(a: Outcome, b: Outcome) {
    a.keys == b.keys && a.err == b.err
  }

  /** clients is None before the first HasNext and after Err. borrowed and returned list the connections GetEvery gave
      and those put back, in order. */
  class ClusterScanner {
    const feeds: map<nat, seq<Part>>
    var err: Option<nat>
    var clients: Option<seq<nat>>
    var curr: SingleScanner?
    var borrowed: seq<nat>
    var returned: seq<nat>

    constructor (feeds: map<nat, seq<Part>>)
      ensures Valid() && clients.None? && err.None? && this.feeds == feeds && borrowed == [] && returned == []
    {
      this.feeds := feeds;
      err, clients, curr, borrowed, returned := None, None, null, [], [];
    }

    function Out(): seq<nat>
      reads this
    {
      if clients.None? then [] else clients.value
    }

    /** Every connection borrowed was put back or is still to be, none in both places. */
    ghost predicate Valid()
      reads this
    {
      && returned + Out() == borrowed
      && (curr != null ==> Out() != [] && err.None?)
      && (forall i | 0 <= i < |Out()| :: Out()[i] in feeds)
    }

    ghost function Remaining(): Outcome
      reads this, curr
      requires Valid()
    {
      if err.Some? then Outcome([], err, [])
      else if curr == null then InTurn(Out(), feeds)
      else After(curr.Remaining(), InTurn(Out()[1..], feeds))
    }

    /** GetEvery, the first time. */
    method Borrow(every: Option<seq<nat>>) returns (ok: bool)
      requires Valid() && clients.None?
          && (every.Some? ==> forall i | 0 <= i < |every.value| :: every.value[i] in feeds)
      modifies this
      ensures Valid() && curr == null && ok == every.Some? && returned == old(returned)
      ensures if ok then clients == every && err == old(err) && borrowed == old(borrowed) + every.value
              else clients.None? && err == Some(CONNECTION_LOST) && borrowed == old(borrowed)
      ensures ok && err.None? ==> Remaining() == InTurn(every.value, feeds)
    {
      if every.None? {
        err := Some(CONNECTION_LOST);
        return false;
      }
      clients := every;
      borrowed := borrowed + every.value;
      return true;
    }

    /** HasNext once connections are held: true exactly when some node has a key left. A node that is done, or failed,
        has its connection put back at once. */
    method Advance() returns (has: bool)
      requires Valid() && clients.Some?
      modifies this, curr
      ensures Valid() && clients.Some? && (curr != old(curr) && curr != null ==> fresh(curr))
          && borrowed == old(borrowed)
      ensures Remaining().keys == old(Remaining().keys) && Remaining().err == old(Remaining().err)
      ensures has <==> Remaining().keys != []
      ensures has ==> curr != null && curr.Waiting()
      ensures !has ==> err == Remaining().err
    {
      hide Whole, SingleScanner.Remaining;
      while true
        invariant Valid() && clients.Some? && (curr != old(curr) && curr != null ==> fresh(curr))
            && borrowed == old(borrowed)
        invariant Remaining().keys == old(Remaining().keys) && Remaining().err == old(Remaining().err)
        decreases |Out()|
      {
        if |clients.value| == 0 || err.Some? { return false; }
        if curr == null { curr := new SingleScanner(feeds[clients.value[0]]); }
        var more := curr.HasNext();
        if more { return true; }
        Retire();
      }
    }

    /** The node at the head has nothing left: its error, if any, ends the iteration, and its connection goes back. */
    method Retire()
      requires Valid() && clients.Some? && curr != null && curr.Remaining().keys == []
          && curr.err == curr.Remaining().err
      modifies this
      ensures Valid() && clients.Some? && curr == null && borrowed == old(borrowed) && |Out()| < |old(Out())|
      ensures Remaining().keys == old(Remaining().keys) && Remaining().err == old(Remaining().err)
    {
      hide Whole, SingleScanner.Remaining, InTurn;
      err := curr.err;
      curr := null;
      returned := returned + [clients.value[0]];
      clients := Some(clients.value[1..]);
    }

    /** What is to come if GetEvery gives these connections when it is called. */
    ghost function Ahead(every: seq<nat>): Outcome
      reads this, curr
      requires Valid() && forall i | 0 <= i < |every| :: every[i] in feeds
    {
      if clients.None? && err.None? then InTurn(every, feeds) else Remaining()
    }

    /** HasNext; every is what GetEvery answers if it is called now. */
    method HasNext(every: Option<seq<nat>>) returns (has: bool)
      requires Valid() && (every.Some? ==> forall i | 0 <= i < |every.value| :: every.value[i] in feeds)
      modifies this, curr
      ensures Valid() && (curr != old(curr) && curr != null ==> fresh(curr))
      ensures old(clients).None? && every.None? ==>
                !has && clients.None? && err == Some(CONNECTION_LOST) && borrowed == old(borrowed)
      ensures old(clients).Some? || every.Some? ==>
                && clients.Some? && (has <==> Remaining().keys != []) && (!has ==> err == Remaining().err)
                && borrowed == old(borrowed) + (if old(clients).Some? then [] else every.value)
                && (every.Some? ==> Agree(Remaining(), old(Ahead(every.value))))
                && (old(clients).Some? ==> Agree(Remaining(), old(Remaining())))
      ensures has ==> curr != null && curr.Waiting()
    {
      hide Whole, SingleScanner.Remaining, InTurn;
      if clients.None? {
        var ok := Borrow(every);
        if !ok { return false; }
      }
      has := Advance();
    }

    method Next() returns (key: Bytes)
      requires Valid() && clients.Some? && curr != null && curr.Waiting()
      modifies this, curr
      ensures Valid() && clients == old(clients) && curr == old(curr) && borrowed == old(borrowed)
      ensures old(Remaining().keys) == [key] + Remaining().keys && Remaining().err == old(Remaining().err)
    {
      hide Whole, SingleScanner.Remaining, InTurn;
      key := curr.Next();
    }

    /** Err puts back whatever is still out, also when the iteration was abandoned half way. */
    method Err() returns (e: Option<nat>)
      requires Valid()
      modifies this
      ensures Valid() && clients.None? && e == err == old(err) && borrowed == old(borrowed)
      ensures returned == borrowed
    {
      var out := Out();
      var i := 0;
      ghost var before := returned;
      while i < |out|
        invariant 0 <= i <= |out| && returned == before + out[..i]
        invariant out == old(Out()) && borrowed == old(borrowed) && err == old(err) && before == old(returned)
      {
        returned := returned + [out[i]];
        i := i + 1;
      }
      clients, curr := None, null;
      return err;
    }
  }

  /** A whole iteration over a cluster gives the nodes' scans one after the other up to the first failure, and puts back
      every connection that was borrowed, each exactly once and in the order borrowed. */
  method DriveCluster(feeds: map<nat, seq<Part>>, every: Option<seq<nat>>)
    returns (keys: seq<Bytes>, err: Option<nat>, borrowed: seq<nat>, returned: seq<nat>)
    requires every.Some? ==> forall i | 0 <= i < |every.value| :: every.value[i] in feeds
    ensures returned == borrowed == if every.Some? then every.value else []
    ensures every.None? ==> keys == [] && err == Some(CONNECTION_LOST)
    ensures every.Some? ==> keys == InTurn(every.value, feeds).keys && err == InTurn(every.value, feeds).err
  {
    hide Whole, SingleScanner.Remaining, InTurn, ClusterScanner.Remaining, ClusterScanner.Valid;
    var s := new ClusterScanner(feeds);
    keys := [];
    var has := s.HasNext(every);
    while has
      invariant s.Valid() && fresh(s) && (s.curr != null ==> fresh(s.curr)) && (every.Some? <==> s.clients.Some?)
      invariant every.None? ==> keys == [] && !has && s.err == Some(CONNECTION_LOST) && s.borrowed == []
      invariant every.Some? ==> keys + s.Remaining().keys == InTurn(every.value, feeds).keys
      invariant every.Some? ==> s.borrowed == every.value
      invariant every.Some? ==> s.Remaining().err == InTurn(every.value, feeds).err
      invariant every.Some? ==> (has <==> s.Remaining().keys != [])
      invariant has ==> s.curr != null && s.curr.Waiting()
      invariant every.Some? && !has ==> s.err == s.Remaining().err
      decreases |s.Remaining().keys|
    {
      var key := s.Next();
      keys := keys + [key];
      has := s.HasNext(None);
    }
    err := s.Err();
    borrowed, returned := s.borrowed, s.returned;
  }

  /** The cluster's keys are those of each node in turn, when no node fails. */
  lemma {:induction false} InTurnConcatenates(clients: seq<nat>, feeds: map<nat, seq<Part>>)
    requires forall i | 0 <= i < |clients| :: clients[i] in feeds
    requires forall i | 0 <= i < |clients| :: Whole(feeds[clients[i]], []).err.None?
    ensures InTurn(clients, feeds).err.None?
    ensures InTurn(clients, feeds).keys == Joined(clients, feeds)
  {
    hide Whole;
    if clients != [] { InTurnConcatenates(clients[1..], feeds); }
  }

  function Joined(clients: seq<nat>, feeds: map<nat, seq<Part>>): seq<Bytes>
    requires forall i | 0 <= i < |clients| :: clients[i] in feeds
  {
    if clients == [] then [] else Whole(feeds[clients[0]], []).keys + Joined(clients[1..], feeds)
  }

  /** When node i is the first to fail, the keys are those of the nodes up to it, its own up to the failure
      included, and the error is its own. */
  lemma {:induction false} InTurnStops(clients: seq<nat>, feeds: map<nat, seq<Part>>, i: nat)
    requires (forall j | 0 <= j < |clients| :: clients[j] in feeds) && i < |clients|
    requires forall j | 0 <= j < i :: Whole(feeds[clients[j]], []).err.None?
    requires Whole(feeds[clients[i]], []).err.Some?
    ensures InTurn(clients, feeds).err == Whole(feeds[clients[i]], []).err
    ensures InTurn(clients, feeds).keys == Joined(clients[..i + 1], feeds)
    decreases i
  {
    hide Whole;
    assert clients[..i + 1][0] == clients[0] && clients[..i + 1][1..] == clients[1..][..i];
    if i > 0 {
      InTurnStops(clients[1..], feeds, i - 1);
    } else {
      assert clients[1..][..0] == [];
    }
  }

  /** Every key but the empty one is kept, as often as it came. */
  lemma {:induction false} NonEmptyKeeps(keys: seq<Bytes>, k: Bytes)
    ensures multiset(NonEmpty(keys))[k] == if k == [] then 0 else multiset(keys)[k]
  {
    if keys != [] {
      NonEmptyKeeps(keys[1..], k);
      assert keys == [keys[0]] + keys[1..];
    }
  }
}
