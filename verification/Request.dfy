/** Requests: argument trees, the counting pass, the printing pass that inlines them, and the flattening constructor. */
module Request {
  import opened Words
  import opened Decimal
  import opened Resp

  /** A Go argument: a string or byte slice, a bool, nil, an integer, an error, a slice, a Resp, or a map, given as
      key, value, key, value, ... in the order its keys are visited. */
  datatype Val =
    | Str(s: Bytes) | Bool(v: bool) | NilVal | Num(i: int) | ErrVal(msg: Bytes)
    | List(elems: seq<Val>) | Map(entries: seq<Val>) | Reply(r: Resp)

  function BoolBytes(v: bool): Bytes {
    if v then [49] else [48]
  }

  //---- the printing pass -------------------------------------------------------------------------------------------

  /** writeTo. */
  function EncVal(v: Val, force: bool, inline: bool): (s: Bytes)
    decreases v
  {
    match v
    case Str(s) => BulkBytes(s)
    case Bool(b) => BulkBytes(BoolBytes(b))
    case NilVal => Enc(Nil, force, inline)
    case Num(i) => Enc(Int(i), force, inline)
    case ErrVal(msg) => Enc(AppErr(msg), force, inline)
    case List(elems) => (if inline then [] else ArrayHeader(|elems|)) + EncVals(elems, force, inline)
    case Map(entries) => (if inline then [] else ArrayHeader(|entries|)) + EncVals(entries, force, inline)
    case Reply(r) => Enc(r, force, inline)
  }

  function EncVals(vs: seq<Val>, force: bool, inline: bool): Bytes
    decreases vs
  {
    if vs == [] then [] else EncVal(vs[0], force, inline) + EncVals(vs[1..], force, inline)
  }

  //---- the counting pass -------------------------------------------------------------------------------------------

  function LengthResp(r: Resp): nat
    decreases r
  {
    if r.Array? then LengthResps(r.items) else 1
  }

  function LengthResps(rs: seq<Resp>): nat
    decreases rs
  {
    if rs == [] then 0 else LengthResp(rs[0]) + LengthResps(rs[1..])
  }

  function FlattenedLength(vs: seq<Val>): nat
    decreases vs
  {
    if vs == [] then 0 else LengthVal(vs[0]) + FlattenedLength(vs[1..])
  }

  function LengthVal(v: Val): nat
    decreases v
  {
    match v
    case List(elems) => FlattenedLength(elems)
    case Map(entries) => FlattenedLength(entries)
    case Reply(r) => LengthResp(r)
    case _ => 1
  }

  //---- what a request means: the list of its leaves, as strings ----------------------------------------------------

  function RespStrings(r: Resp): seq<Bytes>
    decreases r
  {
    match r
    case Simple(b) => [b]
    case Bulk(b) => [b]
    case Int(i) => [Print(i)]
    case AppErr(msg) => [msg]
    case Nil => [[]]
    case Array(items) => RespsStrings(items)
  }

  function RespsStrings(rs: seq<Resp>): seq<Bytes>
    decreases rs
  {
    if rs == [] then [] else RespStrings(rs[0]) + RespsStrings(rs[1..])
  }

  function Strings(v: Val): seq<Bytes>
    decreases v
  {
    match v
    case Str(s) => [s]
    case Bool(b) => [BoolBytes(b)]
    case NilVal => [[]]
    case Num(i) => [Print(i)]
    case ErrVal(msg) => [msg]
    case List(elems) => AllStrings(elems)
    case Map(entries) => AllStrings(entries)
    case Reply(r) => RespStrings(r)
  }

  function AllStrings(vs: seq<Val>): seq<Bytes>
    decreases vs
  {
    if vs == [] then [] else Strings(vs[0]) + AllStrings(vs[1..])
  }

  function Bulks(ss: seq<Bytes>): (rs: seq<Resp>)
    ensures |rs| == |ss| && forall i | 0 <= i < |ss| :: rs[i] == Bulk(ss[i])
  {
    seq(|ss|, i requires 0 <= i < |ss| => Bulk(ss[i]))
  }

  /** The bytes of a list of strings, each a bulk string. */
  function BulksBytes(ss: seq<Bytes>): Bytes {
    if ss == [] then [] else BulkBytes(ss[0]) + BulksBytes(ss[1..])
  }

  lemma {:induction false} BulksBytesConcat(a: seq<Bytes>, b: seq<Bytes>)
    ensures BulksBytes(a + b) == BulksBytes(a) + BulksBytes(b)
  {
    if a == [] {
      assert a + b == b;
    } else {
      assert (a + b)[1..] == a[1..] + b;
      BulksBytesConcat(a[1..], b);
    }
  }

  lemma {:induction false} EncAllBulks(ss: seq<Bytes>)
    ensures EncAll(Bulks(ss), false, false) == BulksBytes(ss)
  {
    if ss != [] {
      assert Bulks(ss)[1..] == Bulks(ss[1..]);
      EncAllBulks(ss[1..]);
    }
  }

  /** Printing inline with every leaf forced to a string prints exactly the leaves, and the counting pass counts
      them. */
  lemma {:induction false} InlineResp(r: Resp)
    ensures Enc(r, true, true) == BulksBytes(RespStrings(r)) && |RespStrings(r)| == LengthResp(r)
    decreases r
  {
    if r.Array? { InlineResps(r.items); }
    else { assert RespStrings(r)[1..] == []; }
  }

  lemma {:induction false} InlineResps(rs: seq<Resp>)
    ensures EncAll(rs, true, true) == BulksBytes(RespsStrings(rs)) && |RespsStrings(rs)| == LengthResps(rs)
    decreases rs
  {
    if rs != [] {
      InlineResp(rs[0]);
      InlineResps(rs[1..]);
      BulksBytesConcat(RespStrings(rs[0]), RespsStrings(rs[1..]));
    }
  }

  lemma {:induction false} InlineVal(v: Val)
    ensures EncVal(v, true, true) == BulksBytes(Strings(v)) && |Strings(v)| == LengthVal(v)
    decreases v
  {
    match v
    case List(elems) => InlineVals(elems);
    case Map(entries) => InlineVals(entries);
    case Reply(r) => InlineResp(r);
    case _ => assert Strings(v)[1..] == [];
  }

  lemma {:induction false} InlineVals(vs: seq<Val>)
    ensures EncVals(vs, true, true) == BulksBytes(AllStrings(vs)) && |AllStrings(vs)| == FlattenedLength(vs)
    decreases vs
  {
    if vs != [] {
      InlineVal(vs[0]);
      InlineVals(vs[1..]);
      BulksBytesConcat(Strings(vs[0]), AllStrings(vs[1..]));
    }
  }

  //---- writeRequest ------------------------------------------------------------------------------------------------

  datatype Request = Request(cmd: Bytes, args: seq<Val>)

  function RequestBytes(q: Request): Bytes {
    ArrayHeader(FlattenedLength(q.args) + 1) + EncVal(Str(q.cmd), true, true) + EncVals(q.args, true, true)
  }

  /** The command followed by its flattened arguments. */
  function RequestStrings(q: Request): seq<Bytes> {
    [q.cmd] + AllStrings(q.args)
  }

  function RequestsBytes(qs: seq<Request>): Bytes {
    if qs == [] then [] else RequestBytes(qs[0]) + RequestsBytes(qs[1..])
  }

  ghost predicate Sendable(q: Request) {
    |RequestStrings(q)| <= MAX_ITEMS && forall i | 0 <= i < |RequestStrings(q)| :: |RequestStrings(q)[i]| <= MAX_LEN
  }

  /** The header counts exactly the bulk strings that follow: the output is the array of those strings. */
  lemma RequestIsArray(q: Request)
    ensures RequestBytes(q) == Write(Array(Bulks(RequestStrings(q))))
    ensures FlattenedLength(q.args) + 1 == |RequestStrings(q)|
  {
    hide ArrayHeader, BulkBytes;
    InlineVals(q.args);
    var ss := RequestStrings(q);
    EncAllBulks(ss);
    assert ss[1..] == AllStrings(q.args);
  }

  /** Parsing what writeRequest sends, whatever follows it, yields the command and its flattened arguments. */
  lemma RequestParses(q: Request, t: Bytes)
    requires Sendable(q)
    ensures ReadResp(RequestBytes(q) + t) == Got(Array(Bulks(RequestStrings(q))), |RequestBytes(q)|)
  {
    var r := Array(Bulks(RequestStrings(q)));
    RequestIsArray(q);
    ReadWrite(r, t);
    assert NormAll(r.items) == r.items;
  }

  //---- NewRespFlattenedStrings -------------------------------------------------------------------------------------

  predicate NilFree(v: Val) {
    match v
    case NilVal => false
    case List(elems) => forall i | 0 <= i < |elems| :: NilFree(elems[i])
    case Map(entries) => forall i | 0 <= i < |entries| :: NilFree(entries[i])
    case _ => true
  }

  predicate MapFree(v: Val) {
    match v
    case Map(_) => false
    case List(elems) => forall i | 0 <= i < |elems| :: MapFree(elems[i])
    case _ => true
  }

  /** flatten: slices and maps are spliced, everything else is kept. A nil has no reflect.Type and panics. */
  function Flatten(v: Val): (vs: seq<Val>)
    requires NilFree(v)
    decreases v
  {
    match v
    case List(elems) => FlattenAll(elems)
    case Map(entries) => FlattenAll(entries)
    case _ => [v]
  }

  function FlattenAll(vs: seq<Val>): seq<Val>
    requires forall i | 0 <= i < |vs| :: NilFree(vs[i])
    decreases vs
  {
    if vs == [] then [] else Flatten(vs[0]) + FlattenAll(vs[1..])
  }

  function Format(v: Val, force: bool): (r: Resp)
    decreases v
  {
    match v
    case Str(s) => Bulk(s)
    case Bool(b) => Bulk(BoolBytes(b))
    case NilVal => if force then Bulk([48]) else Nil
    case Num(i) => if force then Bulk(Print(i)) else Int(i)
    case ErrVal(msg) => if force then Bulk(msg) else AppErr(msg)
    case List(elems) => Array(FormatAll(elems, force))
    case Map(entries) => Array(FormatAll(entries, force))
    case Reply(r) => r
  }

  function FormatAll(vs: seq<Val>, force: bool): (rs: seq<Resp>)
    ensures |rs| == |vs| && forall i | 0 <= i < |vs| :: rs[i] == Format(vs[i], force)
    decreases vs
  {
    if vs == [] then [] else [Format(vs[0], force)] + FormatAll(vs[1..], force)
  }

  function FlattenedStrings(v: Val): Resp
    requires NilFree(v)
  {
    Format(List(Flatten(v)), true)
  }

  /** Every embedded Resp is a string. */
  predicate StringReplies(v: Val) {
    match v
    case Reply(r) => r.Simple? || r.Bulk?
    case List(elems) => forall i | 0 <= i < |elems| :: StringReplies(elems[i])
    case Map(entries) => forall i | 0 <= i < |entries| :: StringReplies(entries[i])
    case _ => true
  }

  lemma {:induction false} NormAllConcat(a: seq<Resp>, b: seq<Resp>)
    ensures NormAll(a + b) == NormAll(a) + NormAll(b)
  {
  }

  lemma {:induction false} FormatAllConcat(a: seq<Val>, b: seq<Val>)
    ensures FormatAll(a + b, true) == FormatAll(a, true) + FormatAll(b, true)
  {
  }

  lemma BulksConcat(a: seq<Bytes>, b: seq<Bytes>)
    ensures Bulks(a + b) == Bulks(a) + Bulks(b)
  {
  }

  lemma {:induction false} FlattenStringReplies(v: Val)
    requires NilFree(v) && MapFree(v) && StringReplies(v)
    ensures NormAll(FormatAll(Flatten(v), true)) == Bulks(Strings(v))
    decreases v
  {
    if v.List? { FlattenAllStringReplies(v.elems); }
    else { assert FormatAll([v], true) == [Format(v, true)]; }
  }

  lemma {:induction false} FlattenAllStringReplies(vs: seq<Val>)
    requires forall i | 0 <= i < |vs| :: NilFree(vs[i]) && MapFree(vs[i]) && StringReplies(vs[i])
    ensures NormAll(FormatAll(FlattenAll(vs), true)) == Bulks(AllStrings(vs))
    decreases vs
  {
    hide Bulks, NormAll, FormatAll, Flatten, Strings;
    assert NormAll(FormatAll([], true)) == Bulks([]);
    if vs != [] {
      FlattenStringReplies(vs[0]);
      FlattenAllStringReplies(vs[1..]);
      FormatAllConcat(Flatten(vs[0]), FlattenAll(vs[1..]));
      NormAllConcat(FormatAll(Flatten(vs[0]), true), FormatAll(FlattenAll(vs[1..]), true));
      BulksConcat(Strings(vs[0]), AllStrings(vs[1..]));
    }
  }

  /** A Resp that is not a string stays in the flattened list as it is, so some entry is not a bulk string. */
  lemma {:induction false} FlattenKeepsReply(v: Val)
    requires NilFree(v) && MapFree(v) && !StringReplies(v)
    ensures exists i | 0 <= i < |Flatten(v)| :: !Norm(Format(Flatten(v)[i], true)).Bulk?
    decreases v
  {
    if v.List? {
      var k :| 0 <= k < |v.elems| && !StringReplies(v.elems[k]);
      FlattenAllKeepsReply(v.elems, k);
      assert Flatten(v) == FlattenAll(v.elems);
    } else {
      assert v.Reply? && !Norm(Format(Flatten(v)[0], true)).Bulk?;
    }
  }

  lemma {:induction false} FlattenAllKeepsReply(vs: seq<Val>, k: nat)
    requires forall i | 0 <= i < |vs| :: NilFree(vs[i]) && MapFree(vs[i])
    requires k < |vs| && !StringReplies(vs[k])
    ensures exists i | 0 <= i < |FlattenAll(vs)| :: !Norm(Format(FlattenAll(vs)[i], true)).Bulk?
    decreases vs
  {
    var a, b := Flatten(vs[0]), FlattenAll(vs[1..]);
    if k == 0 {
      FlattenKeepsReply(vs[0]);
      var i :| 0 <= i < |a| && !Norm(Format(a[i], true)).Bulk?;
      assert FlattenAll(vs)[i] == a[i];
    } else {
      FlattenAllKeepsReply(vs[1..], k - 1);
      var i :| 0 <= i < |b| && !Norm(Format(b[i], true)).Bulk?;
      assert FlattenAll(vs)[|a| + i] == b[i];
    }
  }

  /** The inline encoding, with its counted header, and the flattening constructor agree byte for byte exactly when
      every embedded Resp is a string (for values without nil, which flatten panics on, and without maps, whose order
      varies). */
  lemma InlineAgreesWithFlattened(v: Val)
    requires NilFree(v) && MapFree(v)
    requires WellFormed(FlattenedStrings(v)) && |Strings(v)| <= MAX_ITEMS
    requires forall i | 0 <= i < |Strings(v)| :: |Strings(v)[i]| <= MAX_LEN
    ensures Write(FlattenedStrings(v)) == ArrayHeader(LengthVal(v)) + EncVal(v, true, true) <==> StringReplies(v)
  {
    hide Write, EncVal, ArrayHeader, FlattenedStrings, WellFormed, Strings;
    InlineIsBulks(v);
    if StringReplies(v) { AgreesForStrings(v); } else { DiffersOtherwise(v); }
  }

  lemma AgreesForStrings(v: Val)
    requires NilFree(v) && MapFree(v) && StringReplies(v)
    ensures Write(FlattenedStrings(v)) == Write(Array(Bulks(Strings(v))))
  {
    FlattenStringReplies(v);
    EncNorm(FlattenedStrings(v));
    EncNorm(Array(Bulks(Strings(v))));
    assert NormAll(Bulks(Strings(v))) == Bulks(Strings(v));
  }

  lemma DiffersOtherwise(v: Val)
    requires NilFree(v) && MapFree(v) && !StringReplies(v)
    requires WellFormed(FlattenedStrings(v)) && |Strings(v)| <= MAX_ITEMS
    requires forall i | 0 <= i < |Strings(v)| :: |Strings(v)[i]| <= MAX_LEN
    ensures Write(FlattenedStrings(v)) != Write(Array(Bulks(Strings(v))))
  {
    hide Write, Strings, Flatten, StringReplies, NilFree, MapFree;
    var r, q := FlattenedStrings(v), Array(Bulks(Strings(v)));
    FlattenKeepsReply(v);
    var i :| 0 <= i < |Flatten(v)| && !Norm(Format(Flatten(v)[i], true)).Bulk?;
    assert NormTop(r).items[i] == Norm(Format(Flatten(v)[i], true));
    BulksWellFormed(Strings(v));
    assert i < |q.items| ==> NormTop(q).items[i] == Norm(q.items[i]);
    WriteInjective(r, q);
  }

  lemma BulksWellFormed(ss: seq<Bytes>)
    requires |ss| <= MAX_ITEMS && forall i | 0 <= i < |ss| :: |ss[i]| <= MAX_LEN
    ensures WellFormed(Array(Bulks(ss)))
  {
  }

  lemma InlineIsBulks(v: Val)
    ensures Write(Array(Bulks(Strings(v)))) == ArrayHeader(LengthVal(v)) + EncVal(v, true, true)
  {
    hide ArrayHeader, BulkBytes;
    InlineVal(v);
    EncAllBulks(Strings(v));
  }

  /** Trees that print alike are equal up to nested simple strings. */
  lemma WriteInjective(r: Resp, q: Resp)
    requires WellFormed(r) && WellFormed(q)
    ensures Write(r) == Write(q) ==> NormTop(r) == NormTop(q)
  {
    hide ReadResp, Write;
    ReadWrite(r, []);
    ReadWrite(q, []);
  }

  /** Printing does not tell a tree from its normal form. */
  lemma {:induction false} EncNorm(r: Resp)
    ensures Enc(Norm(r), false, false) == Enc(r, false, false)
    decreases r
  {
    if r.Array? { EncAllNorm(r.items); }
  }

  lemma {:induction false} EncAllNorm(rs: seq<Resp>)
    ensures EncAll(NormAll(rs), false, false) == EncAll(rs, false, false)
    decreases rs
  {
    if rs != [] {
      EncNorm(rs[0]);
      EncAllNorm(rs[1..]);
    }
  }

  //---- bytes -------------------------------------------------------------------------------------------------------

  /** A bool is the string 1 or 0; a forced integer is its digits as a string, a forced nil the empty string. */
  lemma LeavesOnTheWire(force: bool, inline: bool)
    ensures EncVal(Bool(true), force, inline) == [36, 49, 13, 10, 49, 13, 10]
    ensures EncVal(Bool(false), force, inline) == [36, 49, 13, 10, 48, 13, 10]
    ensures EncVal(Num(7), force, inline)
            == if force then [36, 49, 13, 10, 55, 13, 10] else [58, 55, 13, 10]
    ensures EncVal(NilVal, force, inline) == if force then [36, 48, 13, 10, 13, 10] else [36, 45, 49, 13, 10]
  {
    hide Digits;
    SmallDigits();
  }

  /** GET k: *2 $3 GET $1 k. */
  lemma GetOnTheWire()
    ensures RequestBytes(Request([71, 69, 84], [Str([107])]))
            == [42, 50, 13, 10, 36, 51, 13, 10, 71, 69, 84, 13, 10, 36, 49, 13, 10, 107, 13, 10]
  {
    hide Digits;
    SmallDigits();
    var args := [Str([107])];
    assert args[1..] == [] && FlattenedLength(args) == 1;
    assert EncVals(args, true, true) == BulkBytes([107]) + [];
  }
}
