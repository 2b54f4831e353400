/** Reading from and writing to streams: a reader that consumes its input, a writer that appends to a sink. */
module RespIO {
  import opened Words
  import opened Decimal
  import opened Resp
  import opened Request

  //---- the byte count writeTo returns ------------------------------------------------------------------------------

  function Count(v: Val, force: bool, inline: bool): nat
    decreases v
  {
    match v
    case List(elems) => (if inline then 0 else |ArrayHeader(|elems|)|) + CountAll(elems, force, inline)
    case Map(entries) => (if inline then 0 else |ArrayHeader(|entries|)|) + CountEntries(entries, force, inline, true)
    case _ => |EncVal(v, force, inline)|
  }

  function CountAll(vs: seq<Val>, force: bool, inline: bool): nat
    decreases vs
  {
    if vs == [] then 0 else Count(vs[0], force, inline) + CountAll(vs[1..], force, inline)
  }

  /** Keys are added to the total, values are not. */
  function CountEntries(vs: seq<Val>, force: bool, inline: bool, key: bool): nat
    decreases vs
  {
    if vs == [] then 0
    else (if key then Count(vs[0], force, inline) else 0) + CountEntries(vs[1..], force, inline, !key)
  }

  /** Nothing at all is printed: only empty lists, inline. */
  predicate SilentResp(r: Resp) {
    r.Array? && forall i | 0 <= i < |r.items| :: SilentResp(r.items[i])
  }

  predicate Silent(v: Val, inline: bool)
    decreases v
  {
    inline &&
    match v
    case List(elems) => forall i | 0 <= i < |elems| :: Silent(elems[i], inline)
    case Map(entries) => forall i | 0 <= i < |entries| :: Silent(entries[i], inline)
    case Reply(r) => SilentResp(r)
    case _ => false
  }

  /** Every map in the value holds only values that print nothing. */
  predicate Exact(v: Val, inline: bool)
    decreases v
  {
    match v
    case List(elems) => forall i | 0 <= i < |elems| :: Exact(elems[i], inline)
    case Map(entries) =>
      forall i | 0 <= i < |entries| :: if i % 2 == 0 then Exact(entries[i], inline) else Silent(entries[i], inline)
    case _ => true
  }

  lemma {:induction false} SilentRespIff(r: Resp, force: bool)
    ensures SilentResp(r) <==> Enc(r, force, true) == []
    decreases r
  {
    if r.Array? { SilentRespsIff(r.items, force); }
  }

  lemma {:induction false} SilentRespsIff(rs: seq<Resp>, force: bool)
    ensures (forall i | 0 <= i < |rs| :: SilentResp(rs[i])) <==> EncAll(rs, force, true) == []
    decreases rs
  {
    if rs != [] {
      SilentRespIff(rs[0], force);
      SilentRespsIff(rs[1..], force);
      assert forall i | 1 <= i < |rs| :: rs[i] == rs[1..][i - 1];
    }
  }

  lemma {:induction false} SilentIff(v: Val, force: bool, inline: bool)
    ensures Silent(v, inline) <==> EncVal(v, force, inline) == []
    decreases v
  {
    match v
    case List(elems) => SilentAllIff(elems, force, inline);
    case Map(entries) => SilentAllIff(entries, force, inline);
    case Reply(r) => SilentRespIff(r, force);
    case _ =>
  }

  lemma {:induction false} SilentAllIff(vs: seq<Val>, force: bool, inline: bool)
    ensures inline ==> ((forall i | 0 <= i < |vs| :: Silent(vs[i], inline)) <==> EncVals(vs, force, inline) == [])
    decreases vs
  {
    if vs != [] {
      SilentIff(vs[0], force, inline);
      SilentAllIff(vs[1..], force, inline);
      assert forall i | 1 <= i < |vs| :: vs[i] == vs[1..][i - 1];
    }
  }

  /** The count returned never exceeds the bytes written, and equals them exactly when no map value writes anything:
      for map-free values always, for a map with an ordinary value never. */
  lemma {:induction false} CountExactly(v: Val, force: bool, inline: bool)
    ensures Count(v, force, inline) <= |EncVal(v, force, inline)|
    ensures Count(v, force, inline) == |EncVal(v, force, inline)| <==> Exact(v, inline)
    decreases v
  {
    match v
    case List(elems) => CountAllExactly(elems, force, inline);
    case Map(entries) => CountEntriesExactly(entries, force, inline, true);
    case _ =>
  }

  lemma {:induction false} MapFreeIsExact(v: Val, inline: bool)
    requires MapFree(v)
    ensures Exact(v, inline)
    decreases v
  {
    if v.List? {
      forall i | 0 <= i < |v.elems| ensures Exact(v.elems[i], inline) { MapFreeIsExact(v.elems[i], inline); }
    }
  }

  /** Without maps the count is always right. */
  lemma MapFreeCount(v: Val, force: bool, inline: bool)
    requires MapFree(v)
    ensures Count(v, force, inline) == |EncVal(v, force, inline)|
  {
    hide Count, EncVal, Exact, MapFree;
    MapFreeIsExact(v, inline);
    CountExactly(v, force, inline);
  }

  lemma {:induction false} CountAllExactly(vs: seq<Val>, force: bool, inline: bool)
    ensures CountAll(vs, force, inline) <= |EncVals(vs, force, inline)|
    ensures CountAll(vs, force, inline) == |EncVals(vs, force, inline)|
            <==> forall i | 0 <= i < |vs| :: Exact(vs[i], inline)
    decreases vs
  {
    if vs != [] {
      CountExactly(vs[0], force, inline);
      CountAllExactly(vs[1..], force, inline);
      assert forall i | 1 <= i < |vs| :: vs[i] == vs[1..][i - 1];
    }
  }

  lemma {:induction false} CountEntriesExactly(vs: seq<Val>, force: bool, inline: bool, key: bool)
    ensures CountEntries(vs, force, inline, key) <= |EncVals(vs, force, inline)|
    ensures CountEntries(vs, force, inline, key) == |EncVals(vs, force, inline)|
            <==> forall i | 0 <= i < |vs| :: if (i % 2 == 0) == key then Exact(vs[i], inline) else Silent(vs[i], inline)
    decreases vs
  {
    hide Count, EncVal, Exact, Silent;
    if vs != [] {
      CountExactly(vs[0], force, inline);
      SilentIff(vs[0], force, inline);
      CountEntriesExactly(vs[1..], force, inline, !key);
      assert forall i | 1 <= i < |vs| ::
          vs[i] == vs[1..][i - 1] && ((i % 2 == 0) == key) == (((i - 1) % 2 == 0) == !key);
      assert forall i | 0 <= i < |vs[1..]| :: vs[1..][i] == vs[i + 1];
    }
  }

  //---- writing -----------------------------------------------------------------------------------------------------

  class Sink {
    var out: Bytes

    constructor ()
      ensures out == []
    {
      out := [];
    }

    method Put(b: Bytes) returns (n: nat)
      modifies this
      ensures out == old(out) + b && n == |b|
    {
      out := out + b;
      n := |b|;
    }
  }

  method WriteLine(w: Sink, prefix: byte, body: Bytes) returns (written: nat)
    modifies w
    ensures w.out == old(w.out) + Line(prefix, body) && written == |Line(prefix, body)|
  {
    written := w.Put([prefix]);
    var n := w.Put(body);
    written := written + n;
    n := w.Put(CRLF);
    written := written + n;
    assert w.out == old(w.out) + Line(prefix, body);
  }

  method WriteStr(w: Sink, b: Bytes) returns (written: nat)
    modifies w
    ensures w.out == old(w.out) + BulkBytes(b) && written == |BulkBytes(b)|
  {
    written := WriteLine(w, 36, Print(|b|));
    var n := w.Put(b);
    written := written + n;
    n := w.Put(CRLF);
    written := written + n;
    assert w.out == old(w.out) + BulkBytes(b);
  }

  method WriteHeader(w: Sink, inline: bool, l: nat) returns (written: nat)
    modifies w
    ensures w.out == old(w.out) + (if inline then [] else ArrayHeader(l))
    ensures written == if inline then 0 else |ArrayHeader(l)|
  {
    written := 0;
    if !inline { written := WriteLine(w, 42, Print(l)); }
  }

  method WriteResp(w: Sink, r: Resp, force: bool, inline: bool) returns (written: nat)
    modifies w
    ensures w.out == old(w.out) + Enc(r, force, inline) && written == |Enc(r, force, inline)|
    decreases r
  {
    hide Line, BulkBytes, ArrayHeader;
    match r
    case Simple(b) => written := WriteStr(w, b);
    case Bulk(b) => written := WriteStr(w, b);
    case Int(i) => if force { written := WriteStr(w, Print(i)); } else { written := WriteLine(w, 58, Print(i)); }
    case AppErr(msg) => if force { written := WriteStr(w, msg); } else { written := WriteLine(w, 45, msg); }
    case Nil => if force { written := WriteStr(w, []); } else { written := w.Put(NIL_BYTES); }
    case Array(items) =>
      written := WriteHeader(w, inline, |items|);
      ghost var all := old(w.out) + Enc(r, force, inline);
      assert w.out + EncAll(items, force, inline) == all;
      var i := 0;
      while i < |items|
        invariant 0 <= i <= |items|
        invariant w.out + EncAll(items[i..], force, inline) == all
        invariant written + |EncAll(items[i..], force, inline)| == |Enc(r, force, inline)|
      {
        ghost var rest := EncAll(items[i + 1..], force, inline);
        assert items[i..][1..] == items[i + 1..];
        assert w.out + (Enc(items[i], force, inline) + rest) == w.out + Enc(items[i], force, inline) + rest;
        var n := WriteResp(w, items[i], force, inline);
        written := written + n;
        i := i + 1;
      }
      assert items[i..] == [];
  }

  /** writeTo. */
  method WriteTo(w: Sink, v: Val, force: bool, inline: bool) returns (written: nat)
    modifies w
    ensures w.out == old(w.out) + EncVal(v, force, inline)
    ensures written == Count(v, force, inline)
    decreases v
  {
    hide Enc, BulkBytes, ArrayHeader, EncVals, CountAll, CountEntries, BoolBytes;
    match v
    case Str(s) => written := WriteStr(w, s);
    case Bool(b) => written := WriteStr(w, BoolBytes(b));
    case NilVal => written := WriteResp(w, Nil, force, inline);
    case Num(i) => written := WriteResp(w, Int(i), force, inline);
    case ErrVal(msg) => written := WriteResp(w, AppErr(msg), force, inline);
    case Reply(r) => written := WriteResp(w, r, force, inline);
    case List(elems) =>
      written := WriteHeader(w, inline, |elems|);
      var n := WriteElems(w, elems, force, inline);
      written := written + n;
    case Map(entries) =>
      written := WriteHeader(w, inline, |entries|);
      var n := WriteEntries(w, entries, force, inline);
      written := written + n;
  }

  /** The loop over a slice. */
  method WriteElems(w: Sink, elems: seq<Val>, force: bool, inline: bool) returns (written: nat)
    modifies w
    ensures w.out == old(w.out) + EncVals(elems, force, inline)
    ensures written == CountAll(elems, force, inline)
    decreases elems
  {
    hide EncVal;
    written := 0;
    var i := 0;
    while i < |elems|
      invariant 0 <= i <= |elems|
      invariant w.out + EncVals(elems[i..], force, inline) == old(w.out) + EncVals(elems, force, inline)
      invariant written + CountAll(elems[i..], force, inline) == CountAll(elems, force, inline)
    {
      NextElem(w.out, elems[i..], force, inline);
      assert elems[i..][1..] == elems[i + 1..];
      var n := WriteTo(w, elems[i], force, inline);
      written := written + n;
      i := i + 1;
    }
    assert elems[i..] == [];
  }

  /** The loop over a map: the count of each value is dropped. */
  method WriteEntries(w: Sink, entries: seq<Val>, force: bool, inline: bool) returns (written: nat)
    modifies w
    ensures w.out == old(w.out) + EncVals(entries, force, inline)
    ensures written == CountEntries(entries, force, inline, true)
    decreases entries
  {
    hide EncVal;
    written := 0;
    var i, key := 0, true;
    while i < |entries|
      invariant 0 <= i <= |entries|
      invariant w.out + EncVals(entries[i..], force, inline) == old(w.out) + EncVals(entries, force, inline)
      invariant written + CountEntries(entries[i..], force, inline, key) == CountEntries(entries, force, inline, true)
    {
      NextElem(w.out, entries[i..], force, inline);
      assert entries[i..][1..] == entries[i + 1..];
      var n := WriteTo(w, entries[i], force, inline);
      if key { written := written + n; }
      i, key := i + 1, !key;
    }
    assert entries[i..] == [];
  }

  lemma NextElem(out: Bytes, vs: seq<Val>, force: bool, inline: bool)
    requires vs != []
    ensures out + EncVals(vs, force, inline) == out + EncVal(vs[0], force, inline) + EncVals(vs[1..], force, inline)
  {
  }

  /** writeRequest, on a connection that takes every write. */
  method WriteRequests(w: Sink, requests: seq<Request>)
    modifies w
    ensures w.out == old(w.out) + RequestsBytes(requests)
  {
    hide RequestBytes;
    var i := 0;
    while i < |requests|
      invariant 0 <= i <= |requests|
      invariant w.out + RequestsBytes(requests[i..]) == old(w.out) + RequestsBytes(requests)
    {
      NextRequest(w.out, requests[i..]);
      assert requests[i..][1..] == requests[i + 1..];
      WriteOne(w, requests[i]);
      i := i + 1;
    }
    assert requests[i..] == [];
  }

  lemma NextRequest(out: Bytes, qs: seq<Request>)
    requires qs != []
    ensures out + RequestsBytes(qs) == out + RequestBytes(qs[0]) + RequestsBytes(qs[1..])
  {
  }

  method WriteOne(w: Sink, q: Request)
    modifies w
    ensures w.out == old(w.out) + RequestBytes(q)
  {
    hide ArrayHeader, EncVal;
    var n := WriteHeader(w, false, FlattenedLength(q.args) + 1);
    n := WriteTo(w, Str(q.cmd), true, true);
    n := WriteElems(w, q.args, true, true);
  }

  //---- reading -----------------------------------------------------------------------------------------------------

  class RespReader {
    /** The bytes of the stream not consumed yet; the stream ends after them. */
    var input: Bytes

    constructor (s: Bytes)
      ensures input == s
    {
      input := s;
    }

    /** A header line through ReadBytes, without its first and last two bytes. */
    method ReadHeadLine() returns (h: Head)
      requires input != []
      modifies this
      ensures h == ReadHead(old(input))
      ensures h.Head? ==> input == old(input)[h.n..]
    {
      var i := 0;
      while i < |input| && input[i] != 10
        invariant 0 <= i <= |input|
        invariant LineLength(input) == PlusLength(i, LineLength(input[i..]))
      {
        assert input[i..][1..] == input[i + 1..];
        i := i + 1;
      }
      if i == |input| { return BadHead(Fail(Eof)); }
      var b := input[..i + 1];
      input := input[i + 1..];
      if |b| < 3 { return BadHead(Panic); }
      assert b[1..|b| - 2] == old(input)[1..|b| - 2];
      return Head(b[1..|b| - 2], |b|);
    }

    /** Fill a buffer of the given size; every Read may deliver any positive part of what is asked for. */
    method ReadFull(size: nat) returns (r: Option<Bytes>)
      modifies this
      ensures r == if size <= |old(input)| then Some(old(input)[..size]) else None
      ensures r.Some? ==> input == old(input)[size..]
    {
      var total: Bytes := [];
      while |total| < size
        invariant |total| <= size && |total| <= |old(input)|
        invariant total == old(input)[..|total|] && input == old(input)[|total|..]
        decreases size - |total|
      {
        if input == [] { return None; }
        var n: nat :| 1 <= n <= size - |total| && n <= |input|;
        total, input := total + input[..n], input[n..];
      }
      r := Some(total);
    }

    /** bufioReadResp and the readers it dispatches to. */
    method Read() returns (p: Parsed)
      modifies this
      ensures p == ReadResp(old(input))
      ensures p.Got? ==> input == old(input)[p.n..]
      decreases |input|, 0
    {
      hide ReadHead, ParseInt;
      if input == [] { return Fail(Eof); }
      var prefix := input[0];
      if prefix !in {43, 45, 58, 36, 42} { return Fail(BadType); }
      var h := ReadHeadLine();
      if h.BadHead? { return h.p; }
      if prefix == 43 { return Got(Simple(h.body), h.n); }
      if prefix == 45 { return Got(AppErr(h.body), h.n); }
      var x := ParseInt(h.body);
      if x.None? { return Fail(BadParse); }
      if prefix == 58 { return Got(Int(x.value), h.n); }
      if x.value < 0 { return Got(Nil, h.n); }
      if x.value > (if prefix == 36 then MAX_LEN else MAX_ITEMS) { return Panic; }
      if prefix == 36 { p := ReadPayload(h.n, x.value); } else { p := ReadElements(h.n, x.value); }
      if p.Got? { assert old(input)[h.n..][p.n - h.n..] == old(input)[p.n..]; }
      if prefix == 36 && p.Got? { assert old(input)[h.n..][..x.value] == old(input)[h.n..h.n + x.value]; }
    }

    method ReadPayload(k: nat, size: nat) returns (p: Parsed)
      modifies this
      ensures p == if size + 2 > |old(input)| then Fail(Eof) else Got(Bulk(old(input)[..size]), k + size + 2)
      ensures p.Got? ==> input == old(input)[size + 2..]
    {
      var total := ReadFull(size);
      if total.None? { return Fail(Eof); }
      var crlf := ReadFull(2);
      if crlf.None? { return Fail(Eof); }
      p := Got(Bulk(total.value), k + size + 2);
    }

    method ReadElements(k: nat, size: nat) returns (p: Parsed)
      modifies this
      ensures p == match ReadItems(old(input), size)
                   case GotAll(rs, n) => Got(Array(rs), k + n)
                   case FailAll(e) => Fail(e)
                   case PanicAll => Panic
      ensures p.Got? ==> k <= p.n && p.n - k <= |old(input)| && input == old(input)[p.n - k..]
      decreases |input|, 1
    {
      hide ReadResp, ReadItems, Then;
      var arr: seq<Resp> := [];
      var n := 0;
      assert old(input)[0..] == old(input);
      ThenNothing(ReadItems(input, size));
      while |arr| < size
        invariant |arr| <= size && 0 <= n <= |old(input)| && input == old(input)[n..]
        invariant ReadItems(old(input), size) == Then(arr, n, ReadItems(input, size - |arr|))
      {
        ThenOne(arr, n, input, size - |arr|);
        var m := Read();
        match m
        case Fail(e) => return Fail(e);
        case Panic => return Panic;
        case Got(r, used) =>
          assert old(input)[n..][used..] == old(input)[n + used..];
          arr, n := arr + [r], n + used;
      }
      ThenNoMore(arr, n, input);
      p := Got(Array(arr), k + n);
    }
  }

  lemma ThenNothing(p: ParsedAll)
    ensures Then([], 0, p) == p
  {
  }

  lemma ThenNoMore(rs: seq<Resp>, n: nat, s: Bytes)
    ensures Then(rs, n, ReadItems(s, 0)) == GotAll(rs, n)
  {
    assert rs + [] == rs;
  }

  lemma ThenOne(rs: seq<Resp>, n: nat, s: Bytes, count: nat)
    requires count > 0
    ensures Then(rs, n, ReadItems(s, count)) == match ReadResp(s)
                                                case Fail(e) => FailAll(e)
                                                case Panic => PanicAll
                                                case Got(r, used) =>
                                                  Then(rs + [r], n + used, ReadItems(s[used..], count - 1))
  {
    hide ReadResp;
    if ReadResp(s).Got? {
      var r, used := ReadResp(s).r, ReadResp(s).n;
      var more := ReadItems(s[used..], count - 1);
      if more.GotAll? { assert rs + ([r] + more.rs) == rs + [r] + more.rs; }
    }
  }

  ghost function PlusLength(i: nat, r: Option<nat>): Option<nat> {
    if r.Some? then Some(i + r.value) else None
  }

  ghost function Then(rs: seq<Resp>, n: nat, p: ParsedAll): ParsedAll {
    match p
    case GotAll(more, m) => GotAll(rs + more, n + m)
    case bad => bad
  }

  /** Any list of well-formed trees written to a sink is read back, in order, from exactly the bytes written. */
  method Exchange(rs: seq<Resp>) returns (got: seq<Resp>)
    requires forall i | 0 <= i < |rs| :: WellFormed(rs[i])
    ensures got == NormTops(rs)
  {
    hide ReadResp, Write, WellFormed, NormTop, WriteAll, NormTops;
    var reader := new RespReader(WriteAll(rs));
    got := [];
    assert rs[0..] == rs;
    while |got| < |rs|
      invariant |got| <= |rs| && forall i | 0 <= i < |got| :: got[i] == NormTop(rs[i])
      invariant reader.input == WriteAll(rs[|got|..])
    {
      var k := |got|;
      ReadWrite(rs[k], WriteAll(rs[k + 1..]));
      WriteFirst(rs, k);
      var p := reader.Read();
      got := got + [p.r];
    }
  }

  lemma WriteFirst(rs: seq<Resp>, k: nat)
    requires k < |rs|
    ensures WriteAll(rs[k..]) == Write(rs[k]) + WriteAll(rs[k + 1..])
  {
    hide Write;
    assert rs[k..][1..] == rs[k + 1..];
  }
}
