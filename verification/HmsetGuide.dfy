/** The wire records of the Protocol Buffers encoding guide, and how far skipping goes over each of them. */
module HmsetGuide {
  import opened Words
  import opened Varint
  import opened HmsetWire

  //---- wire records ------------------------------------------------------------------------------------------------

  /** The guide's record types: wire types 0, 1, 2, 3 with 4, and 5. */
  datatype Rec =
    | VarintRec(num: nat, v: nat)
    | Fixed64Rec(num: nat, b: Bytes)
    | BytesRec(num: nat, data: Bytes)
    | GroupRec(num: nat, members: seq<Rec>)
    | Fixed32Rec(num: nat, b: Bytes)

  function Tag(num: nat, wireType: nat): Bytes {
    Encode(8 * num + wireType)
  }

  function RecBytes(r: Rec): Bytes {
    match r
    case VarintRec(num, v) => Tag(num, 0) + Encode(v)
    case Fixed64Rec(num, b) => Tag(num, 1) + b
    case BytesRec(num, data) => Tag(num, 2) + (Encode(|data|) + data)
    case GroupRec(num, members) => Tag(num, 3) + (RecsBytes(members) + Tag(num, 4))
    case Fixed32Rec(num, b) => Tag(num, 5) + b
  }

  function RecsBytes(rs: seq<Rec>): Bytes {
    if rs == [] then [] else RecBytes(rs[0]) + RecsBytes(rs[1..])
  }

  /** Field numbers have 29 bits, values 64, and the fixed types their sizes. */
  predicate Encodable(r: Rec) {
    1 <= r.num < 0x2000_0000 &&
    match r
    case VarintRec(_, v) => v < TWO64
    case Fixed64Rec(_, b) => |b| == 8
    case BytesRec(_, data) => |data| <= MAX_LEN
    case GroupRec(_, members) => forall i | 0 <= i < |members| :: Encodable(members[i])
    case Fixed32Rec(_, b) => |b| == 4
  }

  function WireType(r: Rec): nat {
    match r
    case VarintRec(_, _) => 0
    case Fixed64Rec(_, _) => 1
    case BytesRec(_, _) => 2
    case GroupRec(_, _) => 3
    case Fixed32Rec(_, _) => 5
  }

  lemma ReadTag(num: nat, wireType: nat, t: Bytes)
    requires num < 0x2000_0000 && wireType < 8
    ensures Read(Tag(num, wireType) + t) == Value(8 * num + wireType, |Tag(num, wireType)|)
    ensures 1 <= |Tag(num, wireType)| <= 10 && (8 * num + wireType) % 8 == wireType
    ensures (8 * num + wireType) / 8 == num
  {
    ReadAny(8 * num + wireType, t);
  }

  lemma ReadAny(v: nat, t: Bytes)
    requires v < TWO64
    ensures Read(Encode(v) + t) == Value(v, |Encode(v)|) && 1 <= |Encode(v)| <= 10
  {
    ReadEncode(v, t);
    ReadLocal(Encode(v) + t, Encode(v) + t);
  }

  lemma RecHead(r: Rec) returns (body: Bytes)
    ensures RecBytes(r) == Tag(r.num, WireType(r)) + body
    ensures r.VarintRec? ==> body == Encode(r.v)
    ensures r.Fixed64Rec? || r.Fixed32Rec? ==> body == r.b
    ensures r.BytesRec? ==> body == Encode(|r.data|) + r.data
    ensures r.GroupRec? ==> body == RecsBytes(r.members) + Tag(r.num, 4)
  {
    body := RecBytes(r)[|Tag(r.num, WireType(r))|..];
  }

  /** How skipHmset goes on after a tag. */
  lemma SkipAfterTag(s: Bytes, n: nat, num: nat, wireType: nat)
    requires 0 < |s| <= MAX_LEN && n <= |s| && Read(s) == Value(8 * num + wireType, n) && 1 <= n <= 10 && wireType < 6
    ensures wireType == 1 ==> Skip(s) == Skipped(n + 8)
    ensures wireType == 5 ==> Skip(s) == Skipped(n + 4)
    ensures wireType == 0 && Read(s[n..]).Value? ==> Skip(s) == Skipped(n + Read(s[n..]).n)
    ensures wireType == 3 && SkipGroup(n, s[n..]).Skipped? ==> Skip(s) == Skipped(n + SkipGroup(n, s[n..]).n)
    ensures wireType == 2 && Read(s[n..]).Value? && Read(s[n..]).v <= MAX_LEN && Read(s[n..]).n <= 10 ==>
              Skip(s) == Skipped(n + Read(s[n..]).n + Read(s[n..]).v)
  {
    hide Read, SkipGroup;
    assert (8 * num + wireType) % 8 == wireType;
  }

  /** Skipping a record, nested groups included, goes exactly to its end. */
  lemma {:induction false} SkipsRecord(r: Rec, t: Bytes)
    requires Encodable(r) && |RecBytes(r)| + |t| <= MAX_LEN
    ensures |RecBytes(r)| >= 1 && Skip(RecBytes(r) + t) == Skipped(|RecBytes(r)|)
    decreases r, 0
  {
    hide Read, Encode, Tag, RecBytes, RecsBytes, SkipGroup, Skip;
    var body := RecHead(r);
    var tag, s := Tag(r.num, WireType(r)), RecBytes(r) + t;
    ReadTag(r.num, WireType(r), body + t);
    assert s == tag + (body + t) && s[|tag|..] == body + t;
    SkipAfterTag(s, |tag|, r.num, WireType(r));
    match r
    case VarintRec(_, v) => ReadAny(v, t);
    case BytesRec(_, data) =>
      ReadAny(|data|, data + t);
      assert body + t == Encode(|data|) + (data + t);
    case GroupRec(num, members) =>
      SkipsMembers(|tag|, members, num, t);
      assert body + t == RecsBytes(members) + (Tag(num, 4) + t);
    case _ =>
  }

  /** How the loop over a group's members goes on. */
  lemma GroupGoesOn(off: nat, s: Bytes, k: nat)
    requires off + |s| <= MAX_LEN && 0 < k < |s| && Read(s).Value? && Skip(s) == Skipped(k)
    ensures Read(s).v % 8 != 4 && SkipGroup(off + k, s[k..]).Skipped? ==>
              SkipGroup(off, s) == Skipped(k + SkipGroup(off + k, s[k..]).n)
  {
    hide Read, Skip;
    ReadLocal(s, s);
  }

  lemma GroupEnds(off: nat, s: Bytes)
    requires off + |s| <= MAX_LEN && Read(s).Value? && Read(s).v % 8 == 4
    ensures SkipGroup(off, s) == Skipped(Read(s).n)
  {
    hide Read, Skip;
  }

  lemma {:induction false} SkipsMembers(off: nat, members: seq<Rec>, num: nat, t: Bytes)
    requires num < 0x2000_0000 && forall i | 0 <= i < |members| :: Encodable(members[i])
    requires off + |RecsBytes(members)| + |Tag(num, 4)| + |t| <= MAX_LEN
    ensures SkipGroup(off, RecsBytes(members) + (Tag(num, 4) + t))
            == Skipped(|RecsBytes(members)| + |Tag(num, 4)|)
    decreases members, 2
  {
    hide Read, Encode, Tag, RecBytes, RecsBytes, Skip, SkipGroup, Encodable, WireType;
    var end := Tag(num, 4);
    ReadTag(num, 4, t);
    if members == [] {
      NoRecs(end + t);
      GroupEnds(off, end + t);
    } else {
      MembersSplit(members, end + t);
      MemberSkipped(off, members[0], RecsBytes(members[1..]) + (end + t));
      SkipsMembers(off + |RecBytes(members[0])|, members[1..], num, t);
    }
  }

  lemma NoRecs(t: Bytes)
    ensures RecsBytes([]) + t == t && RecsBytes([]) == []
  {
  }

  lemma MembersSplit(rs: seq<Rec>, t: Bytes)
    requires rs != []
    ensures RecsBytes(rs) + t == RecBytes(rs[0]) + (RecsBytes(rs[1..]) + t)
    ensures |RecsBytes(rs)| == |RecBytes(rs[0])| + |RecsBytes(rs[1..])|
  {
    hide RecBytes;
  }

  /** One turn of the loop over a group's members. */
  lemma {:induction false} MemberSkipped(off: nat, r: Rec, rest: Bytes)
    requires Encodable(r) && rest != [] && off + |RecBytes(r)| + |rest| <= MAX_LEN
    ensures SkipGroup(off + |RecBytes(r)|, rest).Skipped? ==>
              SkipGroup(off, RecBytes(r) + rest)
              == Skipped(|RecBytes(r)| + SkipGroup(off + |RecBytes(r)|, rest).n)
    decreases r, 1
  {
    hide Read, Encode, Tag, RecBytes, RecsBytes, Skip, SkipGroup;
    var s := RecBytes(r) + rest;
    SkipsRecord(r, rest);
    assert s[|RecBytes(r)|..] == rest;
    var body := RecHead(r);
    ReadTag(r.num, WireType(r), body + rest);
    assert s == Tag(r.num, WireType(r)) + (body + rest);
    GroupGoesOn(off, s, |RecBytes(r)|);
  }
}
