/** Where a command goes: its key, the key's slot, the address the slot maps to. */
module Routing {
  import opened Words
  import opened Resp
  import opened Request
  import Crc16

  const NUM_SLOTS := 16384

  /** strings.Index for one character: the first position, or None. */
  function IndexOf(s: Bytes, c: byte): (r: Option<nat>)
    ensures r.Some? ==> r.value < |s| && s[r.value] == c && c !in s[..r.value]
    ensures r.None? ==> c !in s
  {
    if s == [] then None
    else if s[0] == c then Some(0)
    else
      var rest := IndexOf(s[1..], c);
      if rest.None? then None
      else
        assert s[..rest.value + 1] == [s[0]] + s[1..][..rest.value];
        Some(rest.value + 1)
  }

  /** The part of the key that is hashed: what lies between the first brace and the next closing one, if not empty. */
  function Hashed(key: Bytes): Bytes {
    var start := IndexOf(key, 123);
    if start.None? then key
    else
      var rest := key[start.value + 1..];
      var end := IndexOf(rest, 125);
      if end.None? || end.value == 0 then key else rest[..end.value]
  }

  function ToBits(s: Bytes): seq<bv8> {
    seq(|s|, i requires 0 <= i < |s| => s[i] as bv8)
  }

  function Slot(key: Bytes): (slot: nat)
    ensures slot < NUM_SLOTS
  {
    (Crc16.Crc(ToBits(Hashed(key))) % 16384) as nat
  }

  lemma {:induction false} IndexOfFirst(a: Bytes, c: byte, b: Bytes)
    requires c !in a
    ensures IndexOf(a + [c] + b, c) == Some(|a|)
  {
    var s := a + [c] + b;
    if a != [] {
      assert a[0] in a && s[1..] == a[1..] + [c] + b;
      IndexOfFirst(a[1..], c, b);
    }
  }

  /** A key prefix{tag}suffix hashes its tag alone, whatever surrounds it. */
  lemma TaggedKeyHashesTag(prefix: Bytes, tag: Bytes, suffix: Bytes)
    requires 123 !in prefix && 125 !in tag && tag != []
    ensures Hashed(prefix + [123] + (tag + [125] + suffix)) == tag
  {
    var rest := tag + [125] + suffix;
    var key := prefix + [123] + rest;
    IndexOfFirst(prefix, 123, rest);
    assert key[|prefix| + 1..] == rest;
    IndexOfFirst(tag, 125, suffix);
  }

  /** A key without an opening brace, without a closing one after it, or with nothing between the two, is hashed
      whole. */
  lemma UntaggedKeyHashesWhole(prefix: Bytes, rest: Bytes)
    ensures 123 !in prefix ==> Hashed(prefix) == prefix
    ensures 123 !in prefix && 125 !in rest ==> Hashed(prefix + [123] + rest) == prefix + [123] + rest
    ensures 123 !in prefix ==> Hashed(prefix + [123] + ([125] + rest)) == prefix + [123] + ([125] + rest)
  {
    if 123 !in prefix {
      NotFound(prefix, 123);
      IndexOfFirst(prefix, 123, rest);
      IndexOfFirst(prefix, 123, [125] + rest);
      assert (prefix + [123] + rest)[|prefix| + 1..] == rest;
      assert (prefix + [123] + ([125] + rest))[|prefix| + 1..] == [125] + rest;
      NotFound(rest, 125);
    }
  }

  lemma NotFound(s: Bytes, c: byte)
    ensures c !in s ==> IndexOf(s, c).None?
  {
  }

  /** The slot is the CRC of the hashed part, that is the remainder of polynomial division, modulo 16384. */
  lemma SlotExactly(key: Bytes, crc: bv16)
    requires Crc16.Bits16(crc).Sequence() == Crc16.Remainder(Crc16.MessageBits(ToBits(Hashed(key))))
    ensures Slot(key) == (crc % 16384) as nat
  {
    hide Crc16.Remainder, Crc16.MessageBits, Crc16.Crc, Crc16.Bits16, Hashed, ToBits;
    Crc16.CrcExactly(ToBits(Hashed(key)), crc);
  }

  /** "foo". */
  lemma FooSlot()
    ensures Slot([102, 111, 111]) == 12182
  {
    hide Crc16.Crc;
    var key := [102, 111, 111];
    NotFound(key, 123);
    assert ToBits(key) == [0x66, 0x6f, 0x6f];
    Crc16.FooCrc();
  }

  /** Keys that share a non-empty hash tag share a slot. */
  lemma SameTagSameSlot(p1: Bytes, s1: Bytes, p2: Bytes, s2: Bytes, tag: Bytes)
    requires 123 !in p1 && 123 !in p2 && 125 !in tag && tag != []
    ensures Slot(p1 + [123] + (tag + [125] + s1)) == Slot(p2 + [123] + (tag + [125] + s2))
  {
    TaggedKeyHashesTag(p1, tag, s1);
    TaggedKeyHashesTag(p2, tag, s2);
  }

  //---- the key of a request ----------------------------------------------------------------------------------------

  /** Printed is fmt.Sprint of a value that is neither string nor slice nor map; NoType is reflect on nil. */
  datatype KeyResult = Key(key: Bytes) | NoKey | Printed(v: Val) | NoType

  function KeyFromArgs(args: seq<Val>): KeyResult
    decreases args
  {
    if args == [] then NoKey else KeyOf(args[0])
  }

  function KeyOf(v: Val): KeyResult
    decreases v
  {
    match v
    case Str(s) => Key(s)
    case List(elems) => if elems == [] then NoKey else KeyOf(elems[0])
    case Map(_) => NoKey
    case NilVal => NoType
    case _ => Printed(v)
  }

  type Address = Bytes

  /** The address getConn looks up: the slot's for a non-empty key, otherwise the one given. */
  function Target(mapping: seq<Address>, key: Bytes, addr: Address): Address
    requires |mapping| == NUM_SLOTS
  {
    if key != [] then mapping[Slot(key)] else addr
  }

  function Strs(args: seq<Bytes>): (vs: seq<Val>)
    ensures |vs| == |args| && forall i | 0 <= i < |args| :: vs[i] == Str(args[i])
  {
    seq(|args|, i requires 0 <= i < |args| => Str(args[i]))
  }

  lemma {:induction false} StrsStrings(args: seq<Bytes>)
    ensures AllStrings(Strs(args)) == args
  {
    if args != [] {
      assert Strs(args)[1..] == Strs(args[1..]);
      StrsStrings(args[1..]);
    }
  }

  /** What the cluster relayer hands to Cmd for a command and its byte-string arguments: one slice argument. */
  function Relayed(cmd: Bytes, args: seq<Bytes>): Request {
    Request(cmd, [List(Strs(args))])
  }

  /** A relayed command appears on the wire as itself and its arguments; its routing key is the first argument there,
      and it goes to that argument's slot address exactly when the argument is not empty (or slot 0 has no address):
      an empty key makes getConn ignore the mapping. */
  lemma RelayedRouting(cmd: Bytes, args: seq<Bytes>, mapping: seq<Address>, t: Bytes)
    requires |mapping| == NUM_SLOTS && Sendable(Relayed(cmd, args))
    ensures ReadResp(RequestBytes(Relayed(cmd, args)) + t)
            == Got(Array(Bulks([cmd] + args)), |RequestBytes(Relayed(cmd, args))|)
    ensures KeyFromArgs([List(Relayed(cmd, args).args)]) == if args == [] then NoKey else Key(args[0])
    ensures args != [] ==>
              (Target(mapping, args[0], []) == mapping[Slot(args[0])] <==> args[0] != [] || mapping[Slot([])] == [])
  {
    hide ReadResp, RequestBytes, Slot, KeyFromArgs;
    var q := Relayed(cmd, args);
    assert RequestStrings(q) == [cmd] + args by {
      StrsStrings(args);
      assert q.args[1..] == [];
      assert AllStrings(q.args) == args + [];
    }
    RequestParses(q, t);
    RelayedKey(args);
  }

  lemma RelayedKey(args: seq<Bytes>)
    ensures KeyFromArgs([List([List(Strs(args))])]) == if args == [] then NoKey else Key(args[0])
  {
    var inner := List(Strs(args));
    assert KeyOf(inner) == if args == [] then NoKey else Key(args[0]) by {
      if args != [] { assert KeyOf(Strs(args)[0]) == Key(args[0]); }
    }
    assert KeyOf(List([inner])) == KeyOf(inner);
  }
}
