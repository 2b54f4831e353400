/** The Redis serialization protocol as functions on byte strings: a printer, a parser, and the trips between them. */
module Resp {
  import opened Words
  import opened Decimal

  datatype Resp =
    | Simple(b: Bytes) | Bulk(b: Bytes) | Int(i: int) | AppErr(msg: Bytes) | Nil | Array(items: seq<Resp>)

  const CRLF: Bytes := [13, 10]
  const NIL_BYTES: Bytes := [36, 45, 49, 13, 10]

  //---- printing ----------------------------------------------------------------------------------------------------

  function Line(prefix: byte, body: Bytes): Bytes {
    [prefix] + body + CRLF
  }

  function BulkBytes(b: Bytes): Bytes {
    Line(36, Print(|b|)) + b + CRLF
  }

  function ArrayHeader(n: nat): Bytes {
    Line(42, Print(n))
  }

  /** writeTo on a Resp's value: force turns every leaf into a bulk string, inline leaves array headers out. */
  function Enc(r: Resp, force: bool, inline: bool): (s: Bytes)
    decreases r
  {
    match r
    case Simple(b) => BulkBytes(b)
    case Bulk(b) => BulkBytes(b)
    case Int(i) => if force then BulkBytes(Print(i)) else Line(58, Print(i))
    case AppErr(msg) => if force then BulkBytes(msg) else Line(45, msg)
    case Nil => if force then BulkBytes([]) else NIL_BYTES
    case Array(items) => (if inline then [] else ArrayHeader(|items|)) + EncAll(items, force, inline)
  }

  function EncAll(items: seq<Resp>, force: bool, inline: bool): Bytes
    decreases items
  {
    if items == [] then [] else Enc(items[0], force, inline) + EncAll(items[1..], force, inline)
  }

  /** (*Resp).WriteTo: only a simple string at the top keeps its kind. */
  function Write(r: Resp): Bytes {
    if r.Simple? then Line(43, r.b) else Enc(r, false, false)
  }

  function WriteAll(rs: seq<Resp>): Bytes {
    if rs == [] then [] else Write(rs[0]) + WriteAll(rs[1..])
  }

  //---- parsing -----------------------------------------------------------------------------------------------------

  datatype ReadError = Eof | BadType | BadParse

  /** An array holds Resp structs of 48 bytes. */
  const MAX_ITEMS: nat := 5_864_062_014_805

  /** Panic is the slice b[1:len(b)-2] of a line shorter than three bytes, or make with a declared size beyond Go's
      limit. */
  datatype Parsed = Got(r: Resp, n: nat) | Fail(e: ReadError) | Panic
  datatype ParsedAll = GotAll(rs: seq<Resp>, n: nat) | FailAll(e: ReadError) | PanicAll

  /** The number of bytes up to and including the first newline, or None. */
  function LineLength(s: Bytes): (r: Option<nat>)
    ensures r.Some? ==> 1 <= r.value <= |s|
  {
    if s == [] then None
    else if s[0] == 10 then Some(1)
    else
      var rest := LineLength(s[1..]);
      if rest.Some? then Some(1 + rest.value) else None
  }

  /** A header line: its body, with the prefix and the last two bytes cut off, and its length. */
  datatype Head = Head(body: Bytes, n: nat) | BadHead(p: Parsed)

  function ReadHead(s: Bytes): (h: Head)
    requires s != []
    ensures h.Head? ==> 3 <= h.n <= |s|
    ensures h.BadHead? ==> !h.p.Got?
  {
    var k := LineLength(s);
    if k.None? then BadHead(Fail(Eof))
    else if k.value < 3 then BadHead(Panic)
    else Head(s[1..k.value - 2], k.value)
  }

  function ReadResp(s: Bytes): (p: Parsed)
    ensures p.Got? ==> 1 <= p.n <= |s|
    decreases |s|, 0
  {
    if s == [] then Fail(Eof)
    else if s[0] !in {43, 45, 58, 36, 42} then Fail(BadType)
    else
      var h := ReadHead(s);
      if h.BadHead? then h.p
      else if s[0] == 43 then Got(Simple(h.body), h.n)
      else if s[0] == 45 then Got(AppErr(h.body), h.n)
      else
        var x := ParseInt(h.body);
        if x.None? then Fail(BadParse)
        else if s[0] == 58 then Got(Int(x.value), h.n)
        else if x.value < 0 then Got(Nil, h.n)
        else if s[0] == 36 then
          if x.value > MAX_LEN then Panic
          else if h.n + x.value + 2 > |s| then Fail(Eof)
          else Got(Bulk(s[h.n..h.n + x.value]), h.n + x.value + 2)
        else if x.value > MAX_ITEMS then Panic
        else
          match ReadItems(s[h.n..], x.value)
          case GotAll(rs, n) => Got(Array(rs), h.n + n)
          case FailAll(e) => Fail(e)
          case PanicAll => Panic
  }

  function ReadItems(s: Bytes, count: nat): (p: ParsedAll)
    ensures p.GotAll? ==> p.n <= |s| && |p.rs| == count
    decreases |s|, 1
  {
    if count == 0 then GotAll([], 0)
    else
      match ReadResp(s)
      case Fail(e) => FailAll(e)
      case Panic => PanicAll
      case Got(r, n) =>
        match ReadItems(s[n..], count - 1)
        case GotAll(rs, m) => GotAll([r] + rs, n + m)
        case bad => bad
  }

  /** Read until nothing is left. */
  function ReadStream(s: Bytes): (p: ParsedAll)
    decreases |s|
  {
    if s == [] then GotAll([], 0)
    else
      match ReadResp(s)
      case Fail(e) => FailAll(e)
      case Panic => PanicAll
      case Got(r, n) =>
        match ReadStream(s[n..])
        case GotAll(rs, m) => GotAll([r] + rs, n + m)
        case bad => bad
  }

  //---- the trip there and back -------------------------------------------------------------------------------------

  predicate OneLine(b: Bytes) {
    10 !in b
  }

  /** A tree the printer can carry: error and simple-string texts are single lines, integers fit, lengths fit. */
  predicate WellFormed(r: Resp) {
    match r
    case Simple(b) => OneLine(b) && |b| <= MAX_LEN
    case Bulk(b) => |b| <= MAX_LEN
    case Int(i) => IsInt64(i)
    case AppErr(msg) => OneLine(msg)
    case Nil => true
    case Array(items) => |items| <= MAX_ITEMS && forall i | 0 <= i < |items| :: WellFormed(items[i])
  }

  /** A simple string below the top is printed as a bulk string. */
  function Norm(r: Resp): (n: Resp) {
    match r
    case Simple(b) => Bulk(b)
    case Array(items) => Array(NormAll(items))
    case _ => r
  }

  function NormAll(items: seq<Resp>): (ns: seq<Resp>)
    ensures |ns| == |items| && forall i | 0 <= i < |items| :: ns[i] == Norm(items[i])
  {
    if items == [] then [] else [Norm(items[0])] + NormAll(items[1..])
  }

  function NormTop(r: Resp): Resp {
    if r.Simple? then r else Norm(r)
  }

  lemma {:induction false} LineLengthOf(b: Bytes, t: Bytes)
    requires OneLine(b)
    ensures LineLength(b + CRLF + t) == Some(|b| + 2)
  {
    var s := b + CRLF + t;
    if b == [] {
      assert s[0] == 13 && s[1..][0] == 10;
    } else {
      assert s[0] == b[0] && b[0] in b;
      assert s[1..] == b[1..] + CRLF + t;
      LineLengthOf(b[1..], t);
    }
  }

  lemma ReadHeadOf(prefix: byte, body: Bytes, t: Bytes)
    requires prefix != 10 && OneLine(body)
    ensures ReadHead(Line(prefix, body) + t) == Head(body, |body| + 3)
  {
    var s := Line(prefix, body) + t;
    LineLengthOf([prefix] + body, t);
    assert s == [prefix] + body + CRLF + t;
    assert s[1..|body| + 1] == body;
  }

  lemma PrintOneLine(i: int)
    requires IsInt64(i)
    ensures ParseInt(Print(i)) == Some(i) && OneLine(Print(i))
  {
    ParsePrint(i);
  }

  lemma ReadBulk(b: Bytes, t: Bytes)
    requires |b| <= MAX_LEN
    ensures ReadResp(BulkBytes(b) + t) == Got(Bulk(b), |BulkBytes(b)|)
  {
    hide ParseInt, Print, ReadHead;
    var h, s := Line(36, Print(|b|)), BulkBytes(b) + t;
    PrintOneLine(|b|);
    ReadHeadOf(36, Print(|b|), b + CRLF + t);
    assert s == h + (b + CRLF + t);
    assert s[|h|..|h| + |b|] == b;
  }

  lemma ReadLine(prefix: byte, body: Bytes, t: Bytes)
    requires OneLine(body) && prefix in {43, 45}
    ensures ReadResp(Line(prefix, body) + t)
            == Got(if prefix == 43 then Simple(body) else AppErr(body), |Line(prefix, body)|)
  {
    ReadHeadOf(prefix, body, t);
  }

  lemma ReadInt(i: int, t: Bytes)
    requires IsInt64(i)
    ensures ReadResp(Line(58, Print(i)) + t) == Got(Int(i), |Line(58, Print(i))|)
  {
    PrintOneLine(i);
    ReadHeadOf(58, Print(i), t);
  }

  lemma ReadNil(t: Bytes)
    ensures ReadResp(NIL_BYTES + t) == Got(Nil, |NIL_BYTES|)
  {
    assert Print(-1) == [45, 49] by { assert Digits(1) == [49]; }
    PrintOneLine(-1);
    ReadHeadOf(36, Print(-1), t);
    assert NIL_BYTES + t == Line(36, Print(-1)) + t;
  }

  /** Parsing undoes printing, whatever follows. */
  lemma {:induction false} ReadEnc(r: Resp, t: Bytes)
    requires WellFormed(r)
    ensures ReadResp(Enc(r, false, false) + t) == Got(Norm(r), |Enc(r, false, false)|)
    decreases r
  {
    hide ReadResp, BulkBytes, Line;
    match r
    case Simple(b) => ReadBulk(b, t);
    case Bulk(b) => ReadBulk(b, t);
    case Int(i) => ReadInt(i, t);
    case AppErr(msg) => ReadLine(45, msg, t);
    case Nil => ReadNil(t);
    case Array(items) =>
      var body := EncAll(items, false, false);
      ReadEncAll(items, t);
      ReadArray(|items|, body + t, NormAll(items), |body|);
      assert Enc(r, false, false) + t == ArrayHeader(|items|) + (body + t);
  }

  lemma ReadArray(count: nat, rest: Bytes, rs: seq<Resp>, n: nat)
    requires count <= MAX_ITEMS && ReadItems(rest, count) == GotAll(rs, n)
    ensures ReadResp(ArrayHeader(count) + rest) == Got(Array(rs), |ArrayHeader(count)| + n)
  {
    hide ParseInt, Print, ReadHead, ReadItems;
    var h := ArrayHeader(count);
    PrintOneLine(count);
    ReadHeadOf(42, Print(count), rest);
    assert (h + rest)[|h|..] == rest;
  }

  lemma {:induction false} ReadEncAll(items: seq<Resp>, t: Bytes)
    requires forall i | 0 <= i < |items| :: WellFormed(items[i])
    ensures ReadItems(EncAll(items, false, false) + t, |items|) == GotAll(NormAll(items), |EncAll(items, false, false)|)
    decreases items
  {
    hide ReadResp, Enc;
    if items != [] {
      var a, b := Enc(items[0], false, false), EncAll(items[1..], false, false);
      ReadEnc(items[0], b + t);
      ReadEncAll(items[1..], t);
      assert EncAll(items, false, false) + t == a + (b + t);
      assert (a + (b + t))[|a|..] == b + t;
    }
  }

  lemma ReadWrite(r: Resp, t: Bytes)
    requires WellFormed(r)
    ensures ReadResp(Write(r) + t) == Got(NormTop(r), |Write(r)|)
  {
    if r.Simple? { ReadLine(43, r.b, t); } else { ReadEnc(r, t); }
  }

  function NormTops(rs: seq<Resp>): (ns: seq<Resp>)
    ensures |ns| == |rs| && forall i | 0 <= i < |rs| :: ns[i] == NormTop(rs[i])
  {
    if rs == [] then [] else [NormTop(rs[0])] + NormTops(rs[1..])
  }

  /** Any list of well-formed trees, printed one after another, is read back in order with no bytes left over. */
  lemma {:induction false} ReadStreamOfWrites(rs: seq<Resp>)
    requires forall i | 0 <= i < |rs| :: WellFormed(rs[i])
    ensures ReadStream(WriteAll(rs)) == GotAll(NormTops(rs), |WriteAll(rs)|)
    decreases |rs|
  {
    hide ReadResp, Write;
    if rs != [] {
      var a, b := Write(rs[0]), WriteAll(rs[1..]);
      ReadWrite(rs[0], b);
      ReadStreamOfWrites(rs[1..]);
      assert (a + b)[|a|..] == b;
    }
  }

  //---- what the parser accepts -------------------------------------------------------------------------------------

  lemma {:induction false} LineHasNoNewline(s: Bytes)
    requires LineLength(s).Some?
    ensures OneLine(s[..LineLength(s).value - 1])
  {
    if s[0] != 10 {
      LineHasNoNewline(s[1..]);
      var k := LineLength(s).value;
      assert s[..k - 1] == [s[0]] + s[1..][..k - 2];
    }
  }

  /** Whatever the parser accepts the printer can carry, so relaying a parsed message loses nothing but the kind
      of nested simple strings. */
  lemma {:induction false} AcceptedIsWellFormed(s: Bytes)
    requires |s| <= MAX_LEN && ReadResp(s).Got?
    ensures WellFormed(ReadResp(s).r)
    decreases |s|, 0
  {
    hide ParseInt, ReadItems;
    var h := ReadHead(s);
    LineHasNoNewline(s);
    assert OneLine(h.body) by {
      var line := s[..h.n - 1];
      assert forall i | 0 <= i < |h.body| :: h.body[i] == line[i + 1] && line[i + 1] in line;
    }
    ParseRange(h.body);
    if s[0] == 42 && ParseInt(h.body).value >= 0 {
      AcceptedItems(s[h.n..], ParseInt(h.body).value);
    }
  }

  lemma {:induction false} AcceptedItems(s: Bytes, count: nat)
    requires |s| <= MAX_LEN && ReadItems(s, count).GotAll?
    ensures count <= |s| && forall i | 0 <= i < count :: WellFormed(ReadItems(s, count).rs[i])
    decreases |s|, 1
  {
    hide ReadResp;
    if count > 0 {
      var n := ReadResp(s).n;
      AcceptedIsWellFormed(s);
      AcceptedItems(s[n..], count - 1);
    }
  }

  lemma RelayedMessage(s: Bytes, t: Bytes)
    requires |s| <= MAX_LEN && ReadResp(s).Got?
    ensures var r := ReadResp(s).r; ReadResp(Write(r) + t) == Got(NormTop(r), |Write(r)|)
  {
    AcceptedIsWellFormed(s);
    ReadWrite(ReadResp(s).r, t);
  }

  //---- bytes -------------------------------------------------------------------------------------------------------

  /** A negative length, of a bulk string or of an array, is read as nil. */
  lemma NegativeLengthIsNil(prefix: byte, n: int, t: Bytes)
    requires (prefix == 36 || prefix == 42) && IsInt64(n) && n < 0
    ensures ReadResp(Line(prefix, Print(n)) + t) == Got(Nil, |Line(prefix, Print(n))|)
  {
    hide ParseInt, Print, ReadHead;
    PrintOneLine(n);
    ReadHeadOf(prefix, Print(n), t);
  }

  /** A declared bulk string panics exactly beyond 2^48 bytes, a declared array beyond 2^48 bytes of 48 an element. */
  lemma DeclaredTooLarge(n: int, t: Bytes)
    requires IsInt64(n)
    ensures ReadResp(Line(36, Print(n)) + t) == Panic <==> n > 0x1_0000_0000_0000
    ensures 48 * n > 0x1_0000_0000_0000 ==> ReadResp(Line(42, Print(n)) + t) == Panic
  {
    hide ParseInt, Print, ReadHead, ReadItems;
    PrintOneLine(n);
    ReadHeadOf(36, Print(n), t);
    ReadHeadOf(42, Print(n), t);
  }

  /** +OK, -E, :12, $1 a, $-1 and *1 :1, each line ended by CR LF. */
  lemma OnTheWire()
    ensures Write(Simple([79, 75])) == [43, 79, 75, 13, 10]
    ensures Write(AppErr([69])) == [45, 69, 13, 10]
    ensures Write(Int(12)) == [58, 49, 50, 13, 10]
    ensures Write(Bulk([97])) == [36, 49, 13, 10, 97, 13, 10]
    ensures Write(Nil) == [36, 45, 49, 13, 10]
    ensures Write(Array([Int(1)])) == [42, 49, 13, 10, 58, 49, 13, 10]
  {
    hide Digits;
    SmallDigits();
    assert EncAll([Int(1)], false, false) == [58, 49, 13, 10];
  }

  lemma SmallDigits()
    ensures Digits(1) == [49] && Digits(12) == [49, 50] && Digits(2) == [50] && Digits(3) == [51] && Digits(0) == [48]
    ensures Digits(7) == [55]
  {
  }

  /** How the reader refuses: another first byte, a length that is no number, too few bytes, a line too short to cut. */
  lemma Refusals()
    ensures ReadResp([63, 13, 10]) == Fail(BadType)
    ensures ReadResp([58, 97, 13, 10]) == Fail(BadParse)
    ensures ReadResp([]) == Fail(Eof) && ReadResp([43, 97]) == Fail(Eof)
    ensures ReadResp([36, 53, 13, 10, 97, 98]) == Fail(Eof)
    ensures ReadResp([42, 10]) == Panic
  {
    hide ReadHead, ReadItems, ParseInt;
    RefusedHeads();
    SmallFive();
  }

  lemma RefusedHeads()
    ensures ReadHead([58, 97, 13, 10]) == Head([97], 4) && ParseInt([97]) == None
    ensures ReadHead([43, 97]) == BadHead(Fail(Eof)) && ReadHead([42, 10]) == BadHead(Panic)
    ensures ReadHead([36, 53, 13, 10, 97, 98]) == Head([53], 4)
  {
    hide ReadHead;
    ReadHeadOf(58, [97], []);
    HeadAlone(58, [97]);
    ReadHeadOf(36, [53], [97, 98]);
    assert Line(36, [53]) + [97, 98] == [36, 53, 13, 10, 97, 98];
    ShortLines();
  }

  lemma ShortLines()
    ensures ReadHead([43, 97]) == BadHead(Fail(Eof)) && ReadHead([42, 10]) == BadHead(Panic)
  {
    assert [43, 97][1..] == [97] && [97][1..] == [] && LineLength([]) == None;
    assert [42, 10][1..] == [10];
  }

  lemma HeadAlone(prefix: byte, body: Bytes)
    ensures Line(prefix, body) + [] == Line(prefix, body)
    ensures |body| == 1 ==> Line(prefix, body) == [prefix, body[0], 13, 10]
  {
  }

  lemma SmallFive()
    ensures ParseInt([53]) == Some(5)
  {
    assert [53][..0] == [];
  }
}
