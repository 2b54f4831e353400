/** The messages against the Protocol Buffers encoding guide: any message written as a list of wire records, by the
    guide's rules, decodes to what those records say, and what is marshalled is such a list. */
module HmsetMessages {
  import opened Words
  import opened Varint
  import opened HmsetWire
  import opened HmsetGuide

  //---- messages ----------------------------------------------------------------------------------------------------

  /** What may stand in a Field, and in an Hmset: its declared fields, in any order and any number, and records of other
      fields. */
  datatype FieldPart = NameIs(b: Bytes) | ValueIs(b: Bytes) | FieldExtra(r: Rec)
  datatype Part = KeyIs(b: Bytes) | OneField(ps: seq<FieldPart>) | SentIs(v: nat) | Extra(r: Rec)

  function FieldPartBytes(p: FieldPart): Bytes {
    match p
    case NameIs(b) => RecBytes(BytesRec(1, b))
    case ValueIs(b) => RecBytes(BytesRec(2, b))
    case FieldExtra(r) => RecBytes(r)
  }

  function FieldPartsBytes(ps: seq<FieldPart>): Bytes {
    if ps == [] then [] else FieldPartsBytes(ps[..|ps| - 1]) + FieldPartBytes(ps[|ps| - 1])
  }

  function PartBytes(p: Part): Bytes {
    match p
    case KeyIs(b) => RecBytes(BytesRec(1, b))
    case OneField(ps) => RecBytes(BytesRec(2, FieldPartsBytes(ps)))
    case SentIs(v) => RecBytes(VarintRec(3, v))
    case Extra(r) => RecBytes(r)
  }

  function PartsBytes(ps: seq<Part>): Bytes {
    if ps == [] then [] else PartsBytes(ps[..|ps| - 1]) + PartBytes(ps[|ps| - 1])
  }

  predicate FieldPartFits(p: FieldPart) {
    p.FieldExtra? ==> Encodable(p.r) && p.r.num != 1 && p.r.num != 2
  }

  predicate PartFits(p: Part) {
    match p
    case KeyIs(_) => true
    case OneField(ps) => forall i | 0 <= i < |ps| :: FieldPartFits(ps[i])
    case SentIs(v) => v < TWO64
    case Extra(r) => Encodable(r) && r.num != 1 && r.num != 2 && r.num != 3
  }

  /** The last one wins. */
  function LastName(ps: seq<FieldPart>): Bytes {
    if ps == [] then []
    else if ps[|ps| - 1].NameIs? then ps[|ps| - 1].b
    else LastName(ps[..|ps| - 1])
  }

  function LastValueIn(ps: seq<FieldPart>): Bytes {
    if ps == [] then []
    else if ps[|ps| - 1].ValueIs? then ps[|ps| - 1].b
    else LastValueIn(ps[..|ps| - 1])
  }

  function FieldExtras(ps: seq<FieldPart>): Bytes {
    if ps == [] then []
    else if ps[|ps| - 1].FieldExtra? then FieldExtras(ps[..|ps| - 1]) + RecBytes(ps[|ps| - 1].r)
    else FieldExtras(ps[..|ps| - 1])
  }

  function LastKey(ps: seq<Part>): Bytes {
    if ps == [] then []
    else if ps[|ps| - 1].KeyIs? then ps[|ps| - 1].b
    else LastKey(ps[..|ps| - 1])
  }

  function LastSent(ps: seq<Part>): bool {
    if ps == [] then false
    else if ps[|ps| - 1].SentIs? then ps[|ps| - 1].v != 0
    else LastSent(ps[..|ps| - 1])
  }

  function FieldsIn(ps: seq<Part>): seq<Field> {
    if ps == [] then []
    else
      var p := ps[|ps| - 1];
      if p.OneField?
      then FieldsIn(ps[..|ps| - 1]) + [Field(LastName(p.ps), LastValueIn(p.ps), FieldExtras(p.ps))]
      else FieldsIn(ps[..|ps| - 1])
  }

  function Extras(ps: seq<Part>): Bytes {
    if ps == [] then []
    else if ps[|ps| - 1].Extra? then Extras(ps[..|ps| - 1]) + RecBytes(ps[|ps| - 1].r)
    else Extras(ps[..|ps| - 1])
  }

  lemma RecordIs(num: nat, data: Bytes)
    requires num == 1 || num == 2
    ensures RecBytes(BytesRec(num, data)) == Record(num, data)
  {
    assert Encode(8 * num + 2) == [8 * num + 2];
  }

  lemma NextExtra(k: Kind, off: nat, r: Rec, t: Bytes)
    requires Encodable(r) && r.num != 1 && r.num != 2 && (k == HmsetKind ==> r.num != 3)
    requires off + |RecBytes(r)| + |t| <= MAX_LEN
    ensures |RecBytes(r)| >= 1 && Next(k, off, RecBytes(r) + t) == Step(Unknown(RecBytes(r)), |RecBytes(r)|)
  {
    hide Read, Encode, Tag, RecBytes, Skip, NextKnown;
    SkipsRecord(r, t);
    var body := RecHead(r);
    var s := RecBytes(r) + t;
    ReadTag(r.num, WireType(r), body + t);
    assert s == Tag(r.num, WireType(r)) + (body + t);
    assert Int32(r.num) == r.num;
    assert s[..|RecBytes(r)|] == RecBytes(r);
  }

  lemma NextSent(off: nat, v: nat, t: Bytes)
    requires v < TWO64 && off + |RecBytes(VarintRec(3, v))| + |t| <= MAX_LEN
    ensures var b := RecBytes(VarintRec(3, v)); |b| >= 1 && Next(HmsetKind, off, b + t) == Step(Number(3, v), |b|)
  {
    hide Read, Encode, Tag, Skip;
    var s, tag := RecBytes(VarintRec(3, v)) + t, Tag(3, 0);
    ReadTag(3, 0, Encode(v) + t);
    assert s == tag + (Encode(v) + t) && s[|tag|..] == Encode(v) + t;
    ReadAny(v, t);
  }

  lemma DecodesFieldPart(f: Field, off: nat, p: FieldPart)
    requires FieldPartFits(p) && off + |FieldPartBytes(p)| <= MAX_LEN
    ensures DecodeField(f, off, FieldPartBytes(p)) ==
              (match p
               case NameIs(b) => (f.(name := b), Ok)
               case ValueIs(b) => (f.(value := b), Ok)
               case FieldExtra(r) => (f.(unknown := f.unknown + RecBytes(r)), Ok))
  {
    hide Next, RecBytes, Encode, Encodable;
    var s := FieldPartBytes(p);
    assert s + [] == s && s[|s|..] == [];
    match p
    case NameIs(b) => RecordIs(1, b); NextRecord(FieldKind, off, 1, b, []);
    case ValueIs(b) => RecordIs(2, b); NextRecord(FieldKind, off, 2, b, []);
    case FieldExtra(r) => NextExtra(FieldKind, off, r, []);
  }

  /** A field decodes to its last name, its last value and its other records, in order. */
  lemma {:induction false} DecodesFieldParts(ps: seq<FieldPart>)
    requires (forall i | 0 <= i < |ps| :: FieldPartFits(ps[i])) && |FieldPartsBytes(ps)| <= MAX_LEN
    ensures DecodeField(EMPTY_FIELD, 0, FieldPartsBytes(ps))
            == (Field(LastName(ps), LastValueIn(ps), FieldExtras(ps)), Ok)
    decreases |ps|
  {
    hide DecodeField, FieldPartBytes, RecBytes, FieldPartFits;
    if ps == [] {
      NothingDecodes();
    } else {
      var init, p := ps[..|ps| - 1], ps[|ps| - 1];
      var a, b := FieldPartsBytes(init), FieldPartBytes(p);
      DecodesFieldParts(init);
      var f := DecodeField(EMPTY_FIELD, 0, a).0;
      DecodeFieldConcat(EMPTY_FIELD, 0, a, 0, b);
      DecodesFieldPart(f, |a|, p);
    }
  }

  lemma NothingDecodes()
    ensures DecodeField(EMPTY_FIELD, 0, []) == (EMPTY_FIELD, Ok)
    ensures DecodeHmset(EMPTY_HMSET, 0, []) == (EMPTY_HMSET, Ok)
  {
  }

  lemma DecodesPart(m: Hmset, off: nat, p: Part)
    requires PartFits(p) && off + |PartBytes(p)| <= MAX_LEN
    ensures DecodeHmset(m, off, PartBytes(p)) ==
              (match p
               case KeyIs(b) => (m.(key := b), Ok)
               case OneField(ps) =>
                 (m.(fields := m.fields + [Field(LastName(ps), LastValueIn(ps), FieldExtras(ps))]), Ok)
               case SentIs(v) => (m.(sent := v != 0), Ok)
               case Extra(r) => (m.(unknown := m.unknown + RecBytes(r)), Ok))
  {
    hide Next, RecBytes, Encode, Encodable, DecodeField, FieldPartsBytes, FieldPartFits, LastName, LastValueIn,
        FieldExtras;
    var s := PartBytes(p);
    assert s + [] == s && s[|s|..] == [];
    match p
    case KeyIs(b) => RecordIs(1, b); NextRecord(HmsetKind, off, 1, b, []);
    case OneField(ps) =>
      var data := FieldPartsBytes(ps);
      RecordIs(2, data);
      NextRecord(HmsetKind, off, 2, data, []);
     
      DecodesFieldParts(ps);
    case SentIs(v) => NextSent(off, v, []);
    case Extra(r) => NextExtra(HmsetKind, off, r, []);
  }

  /** Any message written by the encoding guide decodes to its last key, its fields in order, its last Sent value
      and its other records, in order and byte for byte. */
  lemma {:induction false} DecodesParts(ps: seq<Part>)
    requires (forall i | 0 <= i < |ps| :: PartFits(ps[i])) && |PartsBytes(ps)| <= MAX_LEN
    ensures DecodeHmset(EMPTY_HMSET, 0, PartsBytes(ps))
            == (Hmset(LastKey(ps), FieldsIn(ps), LastSent(ps), Extras(ps)), Ok)
    decreases |ps|
  {
    hide DecodeHmset, PartBytes, RecBytes, PartFits, LastName, LastValueIn, FieldExtras;
    if ps == [] {
      NothingDecodes();
    } else {
      var init, p := ps[..|ps| - 1], ps[|ps| - 1];
      var a, b := PartsBytes(init), PartBytes(p);
      DecodesParts(init);
      var m := DecodeHmset(EMPTY_HMSET, 0, a).0;
      DecodeHmsetConcat(EMPTY_HMSET, 0, a, 0, b);
      DecodesPart(m, |a|, p);
    }
  }

  //---- what is marshalled ------------------------------------------------------------------------------------------

  function FieldPartsOf(f: Field): seq<FieldPart> {
    (if f.name == [] then [] else [NameIs(f.name)]) + (if f.value == [] then [] else [ValueIs(f.value)])
  }

  function FieldsAsParts(fs: seq<Field>): seq<Part> {
    if fs == [] then [] else FieldsAsParts(fs[..|fs| - 1]) + [OneField(FieldPartsOf(fs[|fs| - 1]))]
  }

  function PartsOf(m: Hmset): seq<Part> {
    (if m.key == [] then [] else [KeyIs(m.key)]) + FieldsAsParts(m.fields) + (if m.sent then [SentIs(1)] else [])
  }

  lemma FieldPartsSnoc(ps: seq<FieldPart>, p: FieldPart)
    ensures FieldPartsBytes(ps + [p]) == FieldPartsBytes(ps) + FieldPartBytes(p)
  {
    assert (ps + [p])[..|ps|] == ps;
  }

  lemma {:induction false} PartsConcat(a: seq<Part>, b: seq<Part>)
    ensures PartsBytes(a + b) == PartsBytes(a) + PartsBytes(b)
    decreases |b|
  {
    hide PartBytes;
    if b == [] {
      assert a + b == a && PartsBytes(a) + [] == PartsBytes(a);
    } else {
      var n := |b| - 1;
      assert (a + b)[..|a| + n] == a + b[..n];
      PartsConcat(a, b[..n]);
    }
  }

  lemma OnePart(p: Part)
    ensures PartsBytes([p]) == PartBytes(p) && PartsBytes([]) == []
  {
    assert [p][..0] == [];
  }

  lemma NamePart(b: Bytes)
    ensures FieldPartsBytes(if b == [] then [] else [NameIs(b)]) == OptRecord(1, b)
  {
    hide Record, RecBytes;
    RecordIs(1, b);
    FieldPartsSnoc([], NameIs(b));
    assert [] + [NameIs(b)] == [NameIs(b)];
  }

  lemma FieldIsParts(f: Field)
    requires f.unknown == []
    ensures FieldBytes(f) == FieldPartsBytes(FieldPartsOf(f))
  {
    hide Record, RecBytes, FieldPartsBytes;
    NamePart(f.name);
    RecordIs(2, f.value);
    var a := if f.name == [] then [] else [NameIs(f.name)];
    FieldPartsSnoc(a, ValueIs(f.value));
    assert a + [] == a && FieldBytes(f) == OptRecord(1, f.name) + OptRecord(2, f.value);
    assert OptRecord(1, f.name) + [] == OptRecord(1, f.name);
  }

  lemma {:induction false} FieldsAreParts(fs: seq<Field>)
    requires forall i | 0 <= i < |fs| :: fs[i].unknown == []
    ensures FieldsBytes(fs) == PartsBytes(FieldsAsParts(fs))
    decreases |fs|
  {
    hide Record, RecBytes, FieldBytes, FieldPartsOf, FieldPartsBytes;
    if fs != [] {
      var init, f := fs[..|fs| - 1], fs[|fs| - 1];
      FieldsAreParts(init);
      FieldIsParts(f);
      RecordIs(2, FieldBytes(f));
      OnePart(OneField(FieldPartsOf(f)));
      PartsConcat(FieldsAsParts(init), [OneField(FieldPartsOf(f))]);
    }
  }

  /** What Marshal writes for a message without unknown bytes is the guide's encoding of its key, if not empty, its
      fields in order, and Sent, if set. */
  lemma MarshalsParts(m: Hmset)
    requires m.unknown == [] && forall i | 0 <= i < |m.fields| :: m.fields[i].unknown == []
    ensures HmsetBytes(m) == PartsBytes(PartsOf(m))
  {
    hide Record, RecBytes, FieldsAsParts, FieldsBytes, Encode;
    var a := if m.key == [] then [] else [KeyIs(m.key)];
    var c := if m.sent then [SentIs(1)] else [];
    RecordIs(1, m.key);
    OnePart(KeyIs(m.key));
    OnePart(SentIs(1));
    FieldsAreParts(m.fields);
    PartsConcat(a, FieldsAsParts(m.fields));
    PartsConcat(a + FieldsAsParts(m.fields), c);
    SentIsRecord();
    assert HmsetBytes(m) + [] == HmsetBytes(m);
  }

  lemma SentIsRecord()
    ensures RecBytes(VarintRec(3, 1)) == [0x18, 1]
  {
    assert Encode(24) == [24] && Encode(1) == [1];
  }

  //---- bytes -------------------------------------------------------------------------------------------------------

  lemma ShortVarints()
    ensures forall v: nat | v < 128 :: Encode(v) == [v]
  {
  }

  /** A record of an unknown field, whatever its type, is kept byte for byte, and the key after it is read. */
  lemma ExtraThenKey(r: Rec, key: Bytes)
    requires PartFits(Extra(r)) && |RecBytes(r)| + |Record(1, key)| <= MAX_LEN
    ensures DecodeHmset(EMPTY_HMSET, 0, RecBytes(r) + Record(1, key)) == (Hmset(key, [], false, RecBytes(r)), Ok)
  {
    hide DecodeHmset, RecBytes, Record, Encodable;
    RecordIs(1, key);
    DecodesPart(EMPTY_HMSET, 0, Extra(r));
    DecodeHmsetConcat(EMPTY_HMSET, 0, RecBytes(r), 0, Record(1, key));
    var m := EMPTY_HMSET.(unknown := [] + RecBytes(r));
    assert m.unknown == RecBytes(r);
    DecodesPart(m, |RecBytes(r)|, KeyIs(key));
  }

  lemma FixedBytes()
    ensures RecBytes(Fixed64Rec(4, [1, 2, 3, 4, 5, 6, 7, 8])) == [0x21, 1, 2, 3, 4, 5, 6, 7, 8]
    ensures Record(1, [97]) == [0x0a, 1, 97]
  {
    hide Encode;
    ShortVarints();
    assert [0x21] + [1, 2, 3, 4, 5, 6, 7, 8] == [0x21, 1, 2, 3, 4, 5, 6, 7, 8];
    assert [0x0a] + [1] + [97] == [0x0a, 1, 97];
  }

  /** An unknown fixed64 field 4, then the key "a". */
  lemma UnknownThenKey()
    ensures var unknown := [0x21, 1, 2, 3, 4, 5, 6, 7, 8];
            DecodeHmset(EMPTY_HMSET, 0, unknown + [0x0a, 1, 97]) == (Hmset([97], [], false, unknown), Ok)
  {
    hide DecodeHmset, RecBytes, Record;
    FixedBytes();
    ExtraThenKey(Fixed64Rec(4, [1, 2, 3, 4, 5, 6, 7, 8]), [97]);
  }

  /** A varint of 300. */
  lemma ThreeHundred()
    ensures Encode(300) == [0xac, 0x02]
  {
    assert Encode(2) == [2];
  }

  /** Which tags of one byte are refused, and how: an end-group tag, field number 0, a declared field with another wire
      type than its own, an unknown field with a wire type that does not exist. */
  lemma RefusedTags(m: Hmset, b: byte, t: Bytes)
    requires b < 128 && 1 + |t| <= MAX_LEN
    ensures b % 8 == 4 ==> DecodeHmset(m, 0, [b] + t) == (m, Err(EndGroup))
    ensures b % 8 != 4 && b / 8 == 0 ==> DecodeHmset(m, 0, [b] + t) == (m, Err(IllegalTag))
    ensures b % 8 !in {2, 4} && b / 8 in {1, 2} ==> DecodeHmset(m, 0, [b] + t) == (m, Err(WrongWireType))
    ensures b % 8 !in {0, 4} && b / 8 == 3 ==> DecodeHmset(m, 0, [b] + t) == (m, Err(WrongWireType))
    ensures b % 8 > 5 && b / 8 > 3 ==> DecodeHmset(m, 0, [b] + t) == (m, Err(IllegalWireType))
  {
    hide Read, NextKnown, SkipGroup;
    SmallVarint(b, t);
  }

  /** A key that is said to be longer than what is left is refused. */
  lemma ShortPayload(m: Hmset, n: nat, t: Bytes)
    requires |t| < n <= MAX_LEN && 11 + |t| <= MAX_LEN
    ensures |Encode(n)| <= 10 && DecodeHmset(m, 0, [0x0a] + (Encode(n) + t)) == (m, Err(UnexpectedEof))
  {
    hide Skip, Read, Encode, NextUnknown, SetHmset;
    ReadAny(n, t);
    var d := [0x0a] + (Encode(n) + t);
    SmallVarint(0x0a, Encode(n) + t);
    assert d[1..] == Encode(n) + t;
    assert Int64(n) == n && Int32(0x0a / 8) == 1;
  }

  lemma SmallVarint(b: byte, t: Bytes)
    requires b < 128
    ensures Read([b] + t) == Value(b, 1) && (t == [] ==> Read([b]) == Value(b, 1))
  {
    assert Encode(b) == [b];
    ReadAny(b, t);
    assert [b] + [] == [b];
  }

  /** Ten bytes that all go on are too many; fewer that all go on are too few. */
  lemma {:induction false} EndlessVarint(s: Bytes, k: nat, acc: nat)
    requires k <= 10 && forall i | 0 <= i < |s| && i < 10 - k :: s[i] >= 128
    ensures ReadFrom(s, k, acc) == if |s| >= 10 - k then Overflow else Eof
    decreases |s|
  {
    hide Digit;
    if k < 10 && s != [] { EndlessVarint(s[1..], k + 1, acc + Digit(s[0], k)); }
  }

  /** A tag that never ends is refused. */
  lemma EndlessTag(m: Hmset, s: Bytes)
    requires 0 < |s| <= MAX_LEN && forall i | 0 <= i < |s| && i < 10 :: s[i] >= 128
    ensures DecodeHmset(m, 0, s) == (m, Err(if |s| >= 10 then IntOverflow else UnexpectedEof))
  {
    hide Skip, ReadFrom, NextKnown, NextUnknown;
    EndlessVarint(s, 0, 0);
  }

  /** A length beyond 63 bits is refused. */
  lemma NegativeLength(m: Hmset, v: nat, t: Bytes)
    requires TWO63 <= v < TWO64 && 11 + |t| <= MAX_LEN
    ensures |Encode(v)| <= 10 && DecodeHmset(m, 0, [0x0a] + (Encode(v) + t)) == (m, Err(InvalidLength))
  {
    hide Skip, Read, Encode, NextUnknown, SetHmset;
    ReadAny(v, t);
    var d := [0x0a] + (Encode(v) + t);
    SmallVarint(0x0a, Encode(v) + t);
    assert d[1..] == Encode(v) + t;
    assert Int64(v) < 0 && Int32(0x0a / 8) == 1;
  }
}
