/** The wire format of the Hmset and Field messages as functions on byte strings, and the laws of that format. */
module HmsetWire {
  import opened Words
  import opened Varint

  datatype Field = Field(name: Bytes, value: Bytes, unknown: Bytes)
  datatype Hmset = Hmset(key: Bytes, fields: seq<Field>, sent: bool, unknown: Bytes)

  const EMPTY_FIELD := Field([], [], [])
  const EMPTY_HMSET := Hmset([], [], false, [])

  datatype Error =
    | UnexpectedEof | IntOverflow | InvalidLength | EndGroup | IllegalTag | WrongWireType | IllegalWireType

  /** Panic is a slice or index expression out of range. */
  datatype Outcome = Ok | Err(e: Error) | Panic

  //---- encoding ----------------------------------------------------------------------------------------------------

  function Header(num: nat, len: nat): (s: Bytes)
    requires 1 <= num <= 15
  {
    [8 * num + 2] + Encode(len)
  }

  function Record(num: nat, data: Bytes): (s: Bytes)
    requires 1 <= num <= 15
  {
    Header(num, |data|) + data
  }

  function OptRecord(num: nat, data: Bytes): (s: Bytes)
    requires 1 <= num <= 15
  {
    if data == [] then [] else Record(num, data)
  }

  function FieldBytes(f: Field): Bytes {
    OptRecord(1, f.name) + OptRecord(2, f.value) + f.unknown
  }

  function FieldsBytes(fs: seq<Field>): Bytes {
    if fs == [] then [] else FieldsBytes(fs[..|fs| - 1]) + Record(2, FieldBytes(fs[|fs| - 1]))
  }

  function SentBytes(sent: bool): Bytes {
    if sent then [0x18, 1] else []
  }

  function HmsetBytes(m: Hmset): Bytes {
    OptRecord(1, m.key) + FieldsBytes(m.fields) + SentBytes(m.sent) + m.unknown
  }

  //---- skipping an unknown field -----------------------------------------------------------------------------------

  /** The count skipHmset returns is a Go int: it may point past the end, or wrap to a negative number. */
  datatype SkipResult = Skipped(n: int) | SkipErr(e: Error) | SkipPanic

  function VarintError(r: ReadResult): Error
    requires !r.Value?
  {
    if r.Overflow? then IntOverflow else UnexpectedEof
  }

  /** iNdEx += length, in 64 bits. */
  function EndOf(n: nat, length: nat): (e: int)
    requires n <= 20 && length < TWO63
    ensures e == n + length < TWO63 || (n + length >= TWO63 && -TWO63 <= e < -MAX_LEN)
  {
    Int64(n + length)
  }

  function Skip(s: Bytes): (r: SkipResult)
    requires 0 < |s| <= MAX_LEN
    ensures r.Skipped? ==> -TWO63 <= r.n < -MAX_LEN || 1 <= r.n < TWO63
    ensures r.Skipped? && r.n >= 0 ==> Read(s).Value? && Read(s).n <= r.n
    decreases |s|, 0
  {
    var tag := Read(s);
    if !tag.Value? then SkipErr(VarintError(tag))
    else
      ReadLocal(s, s);
      var n := tag.n;
      match tag.v % 8
      case 0 =>
        var x := Read(s[n..]);
        if x.Value? then (ReadLocal(s[n..], s[n..]); Skipped(n + x.n)) else SkipErr(VarintError(x))
      case 1 => Skipped(n + 8)
      case 2 =>
        var x := Read(s[n..]);
        if !x.Value? then SkipErr(VarintError(x))
        else if Int64(x.v) < 0 then SkipErr(InvalidLength)
        else (ReadLocal(s[n..], s[n..]); Skipped(EndOf(n + x.n, Int64(x.v))))
      case 3 =>
        var g := SkipGroup(n, s[n..]);
        if g.Skipped? then Skipped(n + g.n) else g
      case 4 => Skipped(n)
      case 5 => Skipped(n + 4)
      case _ => SkipErr(IllegalWireType)
  }

  /** The loop over the members of a group, entered at index off of its slice with t left to read; the count
      returned is relative to off. A member whose count is negative or overflows makes the next index negative. */
  function SkipGroup(off: nat, t: Bytes): (r: SkipResult)
    requires off + |t| <= MAX_LEN
    ensures r.Skipped? ==> 1 <= r.n <= |t|
    decreases |t|, 1
  {
    var tag := Read(t);
    if !tag.Value? then SkipErr(VarintError(tag))
    else
      ReadLocal(t, t);
      if tag.v % 8 == 4 then Skipped(tag.n)
      else
        var member := Skip(t);
        if !member.Skipped? then member
        else if member.n < 0 || off + member.n >= TWO63 then SkipPanic
        else if member.n >= |t| then SkipErr(UnexpectedEof)
        else
          var rest := SkipGroup(off + member.n, t[member.n..]);
          if rest.Skipped? then Skipped(member.n + rest.n) else rest
  }

  //---- decoding ----------------------------------------------------------------------------------------------------

  datatype Kind = HmsetKind | FieldKind

  /** The wire type the message declares for a field number, or -1 for a number it does not know. */
  function Declared(k: Kind, num: int): int {
    if num == 1 || num == 2 then 2 else if num == 3 && k == HmsetKind then 0 else -1
  }

  datatype Item = Payload(num: int, data: Bytes) | Number(num: int, v: nat) | Unknown(raw: Bytes)
  datatype Step = Step(item: Item, n: nat) | Stop(out: Outcome)

  /** One turn of the Unmarshal loop at index off, with s left to read. */
  function Next(k: Kind, off: nat, s: Bytes): (r: Step)
    requires s != [] && off + |s| <= MAX_LEN
    ensures r.Step? ==> 1 <= r.n <= |s|
    ensures r.Step? && r.item.Payload? ==> |r.item.data| <= |s|
    ensures r.Step? && r.item.Unknown? ==> r.item.raw == s[..r.n]
    ensures r.Stop? ==> r.out != Ok
  {
    var tag := Read(s);
    if !tag.Value? then Stop(Err(VarintError(tag)))
    else
      ReadLocal(s, s);
      var num, wireType := Int32(tag.v / 8), tag.v % 8;
      if wireType == 4 then Stop(Err(EndGroup))
      else if num <= 0 then Stop(Err(IllegalTag))
      else if Declared(k, num) < 0 then NextUnknown(off, s)
      else if Declared(k, num) != wireType then Stop(Err(WrongWireType))
      else NextKnown(num, wireType, off, s, tag.n)
  }

  /** A declared field whose tag took t bytes: a varint, which is the value or the length of the payload. */
  function NextKnown(num: int, wireType: int, off: nat, s: Bytes, t: nat): (r: Step)
    requires 1 <= t <= |s| && off + |s| <= MAX_LEN
    ensures r.Step? ==> 1 <= r.n <= |s| && !r.item.Unknown?
    ensures r.Step? && r.item.Payload? ==> |r.item.data| <= |s|
    ensures r.Stop? ==> r.out != Ok
  {
    var x := Read(s[t..]);
    if !x.Value? then Stop(Err(VarintError(x)))
    else
      ReadLocal(s[t..], s[t..]);
      var n := t + x.n;
      if wireType == 0 then Step(Number(num, x.v), n)
      else if Int64(x.v) < 0 then Stop(Err(InvalidLength))
      else if off + n + Int64(x.v) >= TWO63 then Stop(Panic)
      else if n + Int64(x.v) > |s| then Stop(Err(UnexpectedEof))
      else Step(Payload(num, s[n..n + Int64(x.v)]), n + Int64(x.v))
  }

  function NextUnknown(off: nat, s: Bytes): (r: Step)
    requires s != [] && off + |s| <= MAX_LEN
    ensures r.Step? ==> 1 <= r.n <= |s| && r.item == Unknown(s[..r.n])
    ensures r.Stop? ==> r.out != Ok
  {
    match Skip(s)
    case SkipErr(e) => Stop(Err(e))
    case SkipPanic => Stop(Panic)
    case Skipped(n) =>
      if n < 0 then Stop(Err(InvalidLength))
      else if off + n >= TWO63 then Stop(Panic)
      else if n > |s| then Stop(Err(UnexpectedEof))
      else Step(Unknown(s[..n]), n)
  }

  function SetField(f: Field, item: Item): Field {
    match item
    case Payload(num, data) => if num == 1 then f.(name := data) else f.(value := data)
    case Number(_, _) => f
    case Unknown(raw) => f.(unknown := f.unknown + raw)
  }

  /** (*Field).Unmarshal into f: the message as it stands when the call returns, and how it returns. */
  function DecodeField(f: Field, off: nat, s: Bytes): (r: (Field, Outcome))
    requires off + |s| <= MAX_LEN
    decreases |s|
  {
    if s == [] then (f, Ok)
    else
      match Next(FieldKind, off, s)
      case Stop(out) => (f, out)
      case Step(item, n) => DecodeField(SetField(f, item), off + n, s[n..])
  }

  function SetHmset(m: Hmset, item: Item): (r: (Hmset, Outcome))
    requires item.Payload? ==> |item.data| <= MAX_LEN
  {
    match item
    case Payload(num, data) =>
      if num == 1 then (m.(key := data), Ok)
      else
        var sub := DecodeField(EMPTY_FIELD, 0, data);
        (m.(fields := m.fields + [sub.0]), sub.1)
    case Number(_, v) => (m.(sent := v != 0), Ok)
    case Unknown(raw) => (m.(unknown := m.unknown + raw), Ok)
  }

  /** (*Hmset).Unmarshal into m. */
  function DecodeHmset(m: Hmset, off: nat, s: Bytes): (r: (Hmset, Outcome))
    requires off + |s| <= MAX_LEN
    decreases |s|
  {
    if s == [] then (m, Ok)
    else
      match Next(HmsetKind, off, s)
      case Stop(out) => (m, out)
      case Step(item, n) =>
        var sub := SetHmset(m, item);
        if sub.1 != Ok then sub else DecodeHmset(sub.0, off + n, s[n..])
  }

  //---- decoding depends only on the bytes consumed -----------------------------------------------------------------

  ghost predicate SharePrefix(s: Bytes, s': Bytes, n: nat) {
    n <= |s| && n <= |s'| && s[..n] == s'[..n]
  }

  lemma SharedTail(s: Bytes, s': Bytes, n: nat, k: nat)
    requires SharePrefix(s, s', n) && k <= n
    ensures SharePrefix(s, s', k) && SharePrefix(s[k..], s'[k..], n - k)
  {
    assert s[..k] == s[..n][..k] == s'[..n][..k] == s'[..k];
    assert s[k..][..n - k] == s[..n][k..] == s'[..n][k..] == s'[k..][..n - k];
  }

  lemma SharedRead(s: Bytes, s': Bytes, n: nat)
    requires Read(s).Value? && Read(s).n <= n && SharePrefix(s, s', n)
    ensures Read(s') == Read(s) && 1 <= Read(s).n <= 10
  {
    SharedTail(s, s', n, Read(s).n);
    ReadLocal(s, s');
  }

  /** A successful skip inside the input is decided by the bytes it skips. */
  lemma {:induction false} SkipLocal(s: Bytes, s': Bytes)
    requires 0 < |s| <= MAX_LEN && 0 < |s'| <= MAX_LEN
    requires Skip(s).Skipped? && Skip(s).n >= 0 && SharePrefix(s, s', Skip(s).n)
    ensures Skip(s') == Skip(s)
    decreases |s|, 0
  {
    hide Read, ReadFrom;
    var n, tag := Skip(s).n, Read(s);
    ReadLocal(s, s);
    SharedRead(s, s', n);
    SharedTail(s, s', n, tag.n);
    match tag.v % 8
    case 0 => SharedRead(s[tag.n..], s'[tag.n..], n - tag.n);
    case 2 =>
      ReadLocal(s[tag.n..], s[tag.n..]);
      SharedRead(s[tag.n..], s'[tag.n..], n - tag.n);
    case 3 => SkipGroupLocal(tag.n, s[tag.n..], tag.n, s'[tag.n..]);
    case _ =>
  }

  lemma {:induction false} SkipGroupLocal(off: nat, t: Bytes, off': nat, t': Bytes)
    requires off + |t| <= MAX_LEN && off' + |t'| <= MAX_LEN
    requires SkipGroup(off, t).Skipped? && SharePrefix(t, t', SkipGroup(off, t).n)
    ensures SkipGroup(off', t') == SkipGroup(off, t)
    decreases |t|, 1
  {
    hide Skip, Read, ReadFrom;
    var n, tag := SkipGroup(off, t).n, Read(t);
    ReadLocal(t, t);
    if tag.v % 8 == 4 {
      SharedRead(t, t', n);
    } else {
      var k := Skip(t).n;
      SharedTail(t, t', n, k);
      SkipLocal(t, t');
      SharedRead(t, t', n);
      SkipGroupLocal(off + k, t[k..], off' + k, t'[k..]);
    }
  }

  lemma NextLocal(k: Kind, off: nat, s: Bytes, off': nat, s': Bytes)
    requires s != [] && off + |s| <= MAX_LEN && s' != [] && off' + |s'| <= MAX_LEN
    requires Next(k, off, s).Step? && SharePrefix(s, s', Next(k, off, s).n)
    ensures Next(k, off', s') == Next(k, off, s)
  {
    hide Read, ReadFrom, Skip, Int64, Int32;
    var n, tag := Next(k, off, s).n, Read(s);
    ReadLocal(s, s);
    if Declared(k, Int32(tag.v / 8)) < 0 {
      SharedRead(s, s', n);
      SkipLocal(s, s');
    } else {
      SharedRead(s, s', n);
      SharedTail(s, s', n, tag.n);
      SharedRead(s[tag.n..], s'[tag.n..], n - tag.n);
      var start := tag.n + Read(s[tag.n..]).n;
      if tag.v % 8 == 2 {
        assert s[start..n] == s[..n][start..] == s'[..n][start..] == s'[start..n];
      }
    }
  }

  //---- concatenation is merging ------------------------------------------------------------------------------------

  /** Decoding a + b is decoding a, then decoding b into the result: later values win, repeated and unknown fields
      append. */
  lemma {:induction false} DecodeFieldConcat(f: Field, off: nat, a: Bytes, off': nat, b: Bytes)
    requires off + |a| <= MAX_LEN && off' + |a| + |b| <= MAX_LEN
    requires DecodeField(f, off, a).1 == Ok
    ensures DecodeField(f, off', a + b) == DecodeField(DecodeField(f, off, a).0, off' + |a|, b)
    decreases |a|
  {
    hide Next;
    if a == [] {
      assert a + b == b;
    } else {
      var step := Next(FieldKind, off, a);
      assert (a + b)[..step.n] == a[..step.n];
      NextLocal(FieldKind, off, a, off', a + b);
      assert (a + b)[step.n..] == a[step.n..] + b;
      DecodeFieldConcat(SetField(f, step.item), off + step.n, a[step.n..], off' + step.n, b);
    }
  }

  lemma {:induction false} DecodeHmsetConcat(m: Hmset, off: nat, a: Bytes, off': nat, b: Bytes)
    requires off + |a| <= MAX_LEN && off' + |a| + |b| <= MAX_LEN
    requires DecodeHmset(m, off, a).1 == Ok
    ensures DecodeHmset(m, off', a + b) == DecodeHmset(DecodeHmset(m, off, a).0, off' + |a|, b)
    decreases |a|
  {
    hide Next;
    if a == [] {
      assert a + b == b;
    } else {
      var step := Next(HmsetKind, off, a);
      assert (a + b)[..step.n] == a[..step.n];
      NextLocal(HmsetKind, off, a, off', a + b);
      assert (a + b)[step.n..] == a[step.n..] + b;
      DecodeHmsetConcat(SetHmset(m, step.item).0, off + step.n, a[step.n..], off' + step.n, b);
    }
  }

  //---- unknown fields ----------------------------------------------------------------------------------------------

  /** u is a run of complete records, none of which the message knows. */
  ghost predicate AllUnknown(k: Kind, u: Bytes)
    decreases |u|
  {
    u == [] ||
    (|u| <= MAX_LEN &&
     var r := Next(k, 0, u); r.Step? && r.item.Unknown? && AllUnknown(k, u[r.n..]))
  }

  lemma {:induction false} AllUnknownAppend(k: Kind, u: Bytes, v: Bytes)
    requires AllUnknown(k, u) && AllUnknown(k, v) && |u| + |v| <= MAX_LEN
    ensures AllUnknown(k, u + v)
    decreases |u|
  {
    hide Next;
    if u == [] {
      assert u + v == v;
    } else {
      var n := Next(k, 0, u).n;
      assert (u + v)[..n] == u[..n];
      NextLocal(k, 0, u, 0, u + v);
      assert (u + v)[n..] == u[n..] + v;
      AllUnknownAppend(k, u[n..], v);
    }
  }

  /** The raw bytes kept for one unknown field are again one unknown field. */
  lemma UnknownItemAlone(k: Kind, off: nat, s: Bytes)
    requires s != [] && off + |s| <= MAX_LEN
    requires Next(k, off, s).Step? && Next(k, off, s).item.Unknown?
    ensures AllUnknown(k, Next(k, off, s).item.raw)
  {
    var n := Next(k, off, s).n;
    var raw := s[..n];
    assert raw[..n] == raw == s[..n];
    NextLocal(k, off, s, 0, raw);
    assert raw[n..] == [];
  }

  lemma {:induction false} DecodeFieldUnknown(f: Field, off: nat, u: Bytes)
    requires AllUnknown(FieldKind, u) && off + |u| <= MAX_LEN
    ensures DecodeField(f, off, u) == (f.(unknown := f.unknown + u), Ok)
    decreases |u|
  {
    hide Next;
    if u == [] {
      assert f.unknown + u == f.unknown;
    } else {
      var n := Next(FieldKind, 0, u).n;
      NextLocal(FieldKind, 0, u, off, u);
      var g := f.(unknown := f.unknown + u[..n]);
      DecodeFieldUnknown(g, off + n, u[n..]);
      assert f.unknown + u[..n] + u[n..] == f.unknown + u;
    }
  }

  lemma {:induction false} DecodeHmsetUnknown(m: Hmset, off: nat, u: Bytes)
    requires AllUnknown(HmsetKind, u) && off + |u| <= MAX_LEN
    ensures DecodeHmset(m, off, u) == (m.(unknown := m.unknown + u), Ok)
    decreases |u|
  {
    hide Next;
    if u == [] {
      assert m.unknown + u == m.unknown;
    } else {
      var n := Next(HmsetKind, 0, u).n;
      NextLocal(HmsetKind, 0, u, off, u);
      var g := m.(unknown := m.unknown + u[..n]);
      DecodeHmsetUnknown(g, off + n, u[n..]);
      assert m.unknown + u[..n] + u[n..] == m.unknown + u;
    }
  }

  //---- round trips -------------------------------------------------------------------------------------------------

  lemma NextRecord(k: Kind, off: nat, num: nat, data: Bytes, t: Bytes)
    requires num == 1 || num == 2
    requires off + |Record(num, data) + t| <= MAX_LEN
    ensures Next(k, off, Record(num, data) + t) == Step(Payload(num, data), |Record(num, data)|)
  {
    hide Skip, ReadFrom, Read, NextKnown;
    var s := Record(num, data) + t;
    var tag, body := 8 * num + 2, Encode(|data|) + (data + t);
    assert Encode(tag) == [tag] && Int32(tag / 8) == num;
    ReadEncode(tag, body);
    hide Encode;
    assert s == Encode(tag) + body;
    KnownPayload(num, off, s, data, t);
  }

  lemma KnownPayload(num: int, off: nat, s: Bytes, data: Bytes, t: Bytes)
    requires |s| >= 1 && off + |s| <= MAX_LEN && s[1..] == Encode(|data|) + (data + t)
    ensures NextKnown(num, 2, off, s, 1) == Step(Payload(num, data), 1 + |Encode(|data|)| + |data|)
  {
    hide Encode, ReadFrom, Read;
    ReadEncode(|data|, data + t);
    var n := 1 + |Encode(|data|)|;
    assert Int64(|data|) == |data|;
    assert s[n..n + |data|] == s[1..][n - 1..n - 1 + |data|] == data;
  }

  lemma DecodeFieldOpt(f: Field, off: nat, num: nat, data: Bytes)
    requires num == 1 || num == 2
    requires off + |OptRecord(num, data)| <= MAX_LEN
    requires (if num == 1 then f.name else f.value) == []
    ensures DecodeField(f, off, OptRecord(num, data)) == (SetField(f, Payload(num, data)), Ok)
  {
    if data != [] {
      var s := Record(num, data);
      NextRecord(FieldKind, off, num, data, []);
      assert s + [] == s && s[|s|..] == [];
    }
  }

  /** Every Field whose unknown bytes are whole unknown records survives marshalling and unmarshalling. */
  lemma FieldRoundTrip(f: Field)
    requires AllUnknown(FieldKind, f.unknown) && |FieldBytes(f)| <= MAX_LEN
    ensures DecodeField(EMPTY_FIELD, 0, FieldBytes(f)) == (f, Ok)
  {
    hide DecodeField, OptRecord, AllUnknown;
    var a, b, u := OptRecord(1, f.name), OptRecord(2, f.value), f.unknown;
    var f1, f2 := Field(f.name, [], []), Field(f.name, f.value, []);
    DecodeFieldOpt(EMPTY_FIELD, 0, 1, f.name);
    DecodeFieldOpt(f1, |a|, 2, f.value);
    DecodeFieldConcat(EMPTY_FIELD, 0, a, 0, b);
    DecodeFieldUnknown(f2, |a + b|, u);
    assert [] + u == u;
    DecodeFieldConcat(EMPTY_FIELD, 0, a + b, 0, u);
  }

  ghost predicate WellFormed(m: Hmset) {
    AllUnknown(HmsetKind, m.unknown) &&
    forall i | 0 <= i < |m.fields| :: AllUnknown(FieldKind, m.fields[i].unknown)
  }

  lemma {:induction false} DecodeHmsetFields(m: Hmset, off: nat, fs: seq<Field>)
    requires off + |FieldsBytes(fs)| <= MAX_LEN
    requires forall i | 0 <= i < |fs| :: AllUnknown(FieldKind, fs[i].unknown)
    ensures DecodeHmset(m, off, FieldsBytes(fs)) == (m.(fields := m.fields + fs), Ok)
    decreases |fs|
  {
    hide Next, AllUnknown, Encode, FieldBytes, DecodeField;
    if fs == [] {
      assert m.fields + fs == m.fields;
    } else {
      var init, f := fs[..|fs| - 1], fs[|fs| - 1];
      var a, r := FieldsBytes(init), Record(2, FieldBytes(f));
      var m1 := m.(fields := m.fields + init);
      DecodeHmsetFields(m, off, init);
      FieldRoundTrip(f);
      NextRecord(HmsetKind, off + |a|, 2, FieldBytes(f), []);
      assert r + [] == r && r[|r|..] == [];
      DecodeHmsetConcat(m, off, a, off, r);
      assert m.fields + init + [f] == m.fields + fs by { assert init + [f] == fs; }
    }
  }

  lemma DecodeHmsetKey(key: Bytes)
    requires |OptRecord(1, key)| <= MAX_LEN
    ensures DecodeHmset(EMPTY_HMSET, 0, OptRecord(1, key)) == (Hmset(key, [], false, []), Ok)
  {
    if key != [] {
      var s := Record(1, key);
      NextRecord(HmsetKind, 0, 1, key, []);
      assert s + [] == s && s[|s|..] == [];
    }
  }

  lemma DecodeHmsetSent(m: Hmset, off: nat, sent: bool)
    requires off + |SentBytes(sent)| <= MAX_LEN && !m.sent
    ensures DecodeHmset(m, off, SentBytes(sent)) == (m.(sent := sent), Ok)
  {
    if sent {
      var s: Bytes := [0x18, 1];
      assert s == Encode(0x18) + [1];
      ReadEncode(0x18, [1]);
      assert s[1..] == Encode(1) + [];
      ReadEncode(1, []);
      assert Next(HmsetKind, off, s) == Step(Number(3, 1), 2);
      assert s[2..] == [];
    }
  }

  /** Unmarshalling the marshalled form of a well-formed message into an empty one gives it back. */
  lemma HmsetRoundTrip(m: Hmset)
    requires WellFormed(m) && |HmsetBytes(m)| <= MAX_LEN
    ensures DecodeHmset(EMPTY_HMSET, 0, HmsetBytes(m)) == (m, Ok)
  {
    hide DecodeHmset, OptRecord, FieldsBytes, SentBytes, AllUnknown;
    var a, b, c, u := OptRecord(1, m.key), FieldsBytes(m.fields), SentBytes(m.sent), m.unknown;
    var m1 := Hmset(m.key, [], false, []);
    var m2 := Hmset(m.key, m.fields, false, []);
    var m3 := Hmset(m.key, m.fields, m.sent, []);
    DecodeHmsetKey(m.key);
    DecodeHmsetFields(m1, |a|, m.fields);
    assert [] + m.fields == m.fields;
    DecodeHmsetConcat(EMPTY_HMSET, 0, a, 0, b);
    DecodeHmsetSent(m2, |a + b|, m.sent);
    DecodeHmsetConcat(EMPTY_HMSET, 0, a + b, 0, c);
    DecodeHmsetUnknown(m3, |a + b + c|, u);
    assert [] + u == u;
    DecodeHmsetConcat(EMPTY_HMSET, 0, a + b + c, 0, u);
  }

  //---- what Unmarshal accepts --------------------------------------------------------------------------------------

  lemma {:induction false} EncodeMonotone(v: nat, w: nat)
    requires v <= w
    ensures |Encode(v)| <= |Encode(w)|
  {
    if v >= 128 { EncodeMonotone(v / 128, w / 128); }
  }

  /** The canonical record of an item is never longer than the bytes it was read from. */
  lemma NextSize(k: Kind, off: nat, s: Bytes)
    requires s != [] && off + |s| <= MAX_LEN && Next(k, off, s).Step?
    ensures var r := Next(k, off, s);
            match r.item
            case Payload(num, data) => (num == 1 || num == 2) && |Record(num, data)| <= r.n
            case Number(_, _) => k == HmsetKind && 2 <= r.n
            case Unknown(raw) => |raw| == r.n
  {
    var tag := Read(s);
    ReadLocal(s, s);
    if !Next(k, off, s).item.Unknown? { ReadLocal(s[tag.n..], s[tag.n..]); }
  }

  lemma {:induction false} DecodedField(f: Field, off: nat, s: Bytes)
    requires off + |s| <= MAX_LEN && |FieldBytes(f)| + |s| <= MAX_LEN
    requires AllUnknown(FieldKind, f.unknown)
    ensures var (g, r) := DecodeField(f, off, s);
            r == Ok ==> AllUnknown(FieldKind, g.unknown) && |FieldBytes(g)| <= |FieldBytes(f)| + |s|
    decreases |s|
  {
    hide Next, AllUnknown, Encode;
    if s != [] && DecodeField(f, off, s).1 == Ok {
      var step := Next(FieldKind, off, s);
      NextSize(FieldKind, off, s);
      if step.item.Unknown? {
        UnknownItemAlone(FieldKind, off, s);
        AllUnknownAppend(FieldKind, f.unknown, step.item.raw);
      }
      DecodedField(SetField(f, step.item), off + step.n, s[step.n..]);
    }
  }

  lemma FieldsBytesAppend(fs: seq<Field>, f: Field)
    ensures FieldsBytes(fs + [f]) == FieldsBytes(fs) + Record(2, FieldBytes(f))
  {
    var all := fs + [f];
    assert all[..|all| - 1] == fs;
  }

  lemma DecodedSubmessage(m: Hmset, data: Bytes)
    requires |data| <= MAX_LEN && WellFormed(m)
    ensures var (f, r) := DecodeField(EMPTY_FIELD, 0, data);
            var m' := m.(fields := m.fields + [f]);
            r == Ok ==> WellFormed(m') && |HmsetBytes(m')| <= |HmsetBytes(m)| + |Record(2, data)|
  {
    hide AllUnknown, Encode, DecodeField, FieldsBytes, OptRecord, FieldBytes;
    var f := DecodeField(EMPTY_FIELD, 0, data).0;
    EmptyIsUnknown();
    DecodedField(EMPTY_FIELD, 0, data);
    if DecodeField(EMPTY_FIELD, 0, data).1 == Ok { EncodeMonotone(|FieldBytes(f)|, |data|); }
    FieldsBytesAppend(m.fields, f);
  }

  lemma DecodedItem(m: Hmset, off: nat, s: Bytes)
    requires s != [] && off + |s| <= MAX_LEN && |HmsetBytes(m)| + |s| <= MAX_LEN && WellFormed(m)
    ensures var step := Next(HmsetKind, off, s);
            step.Step? ==>
              var (m', r) := SetHmset(m, step.item);
              r == Ok ==> WellFormed(m') && |HmsetBytes(m')| <= |HmsetBytes(m)| + step.n
  {
    hide Next, AllUnknown, Encode, DecodeField, FieldsBytes, Record;
    var step := Next(HmsetKind, off, s);
    if !step.Step? { return; }
    NextSize(HmsetKind, off, s);
    match step.item
    case Payload(num, data) =>
      if num == 2 { DecodedSubmessage(m, data); }
    case Number(_, _) =>
    case Unknown(raw) =>
      UnknownItemAlone(HmsetKind, off, s);
      AllUnknownAppend(HmsetKind, m.unknown, raw);
  }

  lemma EmptyIsUnknown()
    ensures AllUnknown(FieldKind, []) && AllUnknown(HmsetKind, [])
    ensures FieldBytes(EMPTY_FIELD) == [] && HmsetBytes(EMPTY_HMSET) == []
  {
  }

  lemma {:induction false} DecodedHmset(m: Hmset, off: nat, s: Bytes)
    requires off + |s| <= MAX_LEN && |HmsetBytes(m)| + |s| <= MAX_LEN
    requires WellFormed(m)
    ensures var (g, r) := DecodeHmset(m, off, s); r == Ok ==> WellFormed(g) && |HmsetBytes(g)| <= |HmsetBytes(m)| + |s|
    decreases |s|
  {
    hide Next, WellFormed, HmsetBytes, SetHmset;
    if s != [] && DecodeHmset(m, off, s).1 == Ok {
      var step := Next(HmsetKind, off, s);
      DecodedItem(m, off, s);
      DecodedHmset(SetHmset(m, step.item).0, off + step.n, s[step.n..]);
    }
  }

  /** For every byte string Unmarshal accepts, marshalling the result is no longer than the input and
      unmarshalling it again gives the same message, unknown fields included and in order. */
  lemma AcceptedRoundTrip(d: Bytes)
    requires |d| <= MAX_LEN
    ensures var (m, r) := DecodeHmset(EMPTY_HMSET, 0, d);
            r == Ok ==> |HmsetBytes(m)| <= |d| && DecodeHmset(EMPTY_HMSET, 0, HmsetBytes(m)) == (m, Ok)
  {
    EmptyIsUnknown();
    DecodedHmset(EMPTY_HMSET, 0, d);
    var (m, r) := DecodeHmset(EMPTY_HMSET, 0, d);
    if r == Ok { HmsetRoundTrip(m); }
  }

  /** Exactly the messages whose unknown bytes are whole unknown records survive the round trip. */
  lemma RoundTripExactly(m: Hmset)
    requires |HmsetBytes(m)| <= MAX_LEN
    ensures DecodeHmset(EMPTY_HMSET, 0, HmsetBytes(m)) == (m, Ok) <==> WellFormed(m)
  {
    if WellFormed(m) {
      HmsetRoundTrip(m);
    } else if DecodeHmset(EMPTY_HMSET, 0, HmsetBytes(m)) == (m, Ok) {
      EmptyIsUnknown();
      DecodedHmset(EMPTY_HMSET, 0, HmsetBytes(m));
    }
  }
}
