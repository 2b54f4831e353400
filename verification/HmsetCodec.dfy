/** The generated marshaller and unmarshaller: messages whose fields are assigned, a buffer filled through an index. */
module HmsetCodec {
  import opened Words
  import opened Varint
  import opened HmsetWire

  //---- writing into a buffer ---------------------------------------------------------------------------------------

  ghost function Range(i: nat, j: nat): seq<nat>
    requires i <= j
  {
    seq(j - i, k requires k >= 0 => i + k)
  }

  /** The buffer went from `before` to `after` by storing data at index `at`, each index of that stretch exactly once
      and in order (w lists the indices stored to), and nothing else changed. */
  ghost predicate Wrote(before: Bytes, after: Bytes, at: nat, data: Bytes, w: seq<nat>) {
    && at + |data| <= |before|
    && after == before[..at] + data + before[at + |data|..]
    && w == Range(at, at + |data|)
  }

  lemma WroteThen(a: Bytes, b: Bytes, c: Bytes, at: nat, x: Bytes, y: Bytes, w: seq<nat>, w': seq<nat>)
    requires Wrote(a, b, at, x, w) && Wrote(b, c, at + |x|, y, w')
    ensures Wrote(a, c, at, x + y, w + w')
  {
    assert b[..at + |x|] == a[..at] + x;
    assert b[at + |x| + |y|..] == a[at + |x| + |y|..];
    assert a[..at] + x + y == a[..at] + (x + y);
  }

  lemma WroteNothing(a: Bytes, at: nat)
    requires at <= |a|
    ensures Wrote(a, a, at, [], [])
  {
    assert a == a[..at] + [] + a[at..];
  }

  lemma WroteContent(a: Bytes, b: Bytes, at: nat, data: Bytes, w: seq<nat>)
    requires Wrote(a, b, at, data, w)
    ensures |b| == |a| && at + |data| <= |b| && b[at..at + |data|] == data
  {
  }

  method StoreByte(dAtA: array<byte>, i: nat, b: byte) returns (ghost w: seq<nat>)
    requires i < dAtA.Length
    modifies dAtA
    ensures Wrote(old(dAtA[..]), dAtA[..], i, [b], w)
  {
    dAtA[i] := b;
    w := [i];
    assert dAtA[..] == old(dAtA[..])[..i] + [b] + old(dAtA[..])[i + 1..];
  }

  /** The builtin copy(dAtA[i:], s), with room for all of s. */
  method CopyAt(dAtA: array<byte>, i: nat, s: Bytes) returns (n: nat, ghost w: seq<nat>)
    requires i + |s| <= dAtA.Length
    modifies dAtA
    ensures n == |s|
    ensures Wrote(old(dAtA[..]), dAtA[..], i, s, w)
  {
    n, w := 0, [];
    ghost var start := dAtA[..];
    while n < |s|
      invariant 0 <= n <= |s|
      invariant Wrote(start, dAtA[..], i, s[..n], w)
    {
      ghost var before, soFar, w0 := dAtA[..], s[..n], w;
      ghost var w1 := StoreByte(dAtA, i + n, s[n]);
      WroteThen(start, before, dAtA[..], i, soFar, [s[n]], w0, w1);
      w := w0 + w1;
      n := n + 1;
      assert s[..n] == soFar + [s[n - 1]];
    }
    assert s[..n] == s;
  }

  method EncodeVarint(dAtA: array<byte>, offset: nat, v: nat) returns (end: nat, ghost w: seq<nat>)
    requires offset + |Encode(v)| <= dAtA.Length
    modifies dAtA
    ensures end == offset + |Encode(v)|
    ensures Wrote(old(dAtA[..]), dAtA[..], offset, Encode(v), w)
  {
    hide Wrote;
    end, w := offset, [];
    var x := v;
    ghost var start, done: Bytes := dAtA[..], [];
    WroteNothing(start, offset);
    while x >= 128
      invariant Encode(v) == done + Encode(x)
      invariant end == offset + |done|
      invariant Wrote(start, dAtA[..], offset, done, w)
    {
      ghost var before, b := dAtA[..], x % 128 + 128;
      ghost var w1 := StoreByte(dAtA, end, x % 128 + 128);
      WroteThen(start, before, dAtA[..], offset, done, [b], w, w1);
      assert done + ([b] + Encode(x / 128)) == done + [b] + Encode(x / 128);
      w, done := w + w1, done + [b];
      x, end := x / 128, end + 1;
    }
    ghost var before := dAtA[..];
    ghost var w1 := StoreByte(dAtA, end, x);
    WroteThen(start, before, dAtA[..], offset, done, [x], w, w1);
    w := w + w1;
    end := end + 1;
  }

  method Sov(v: nat) returns (n: nat)
    ensures n == |Encode(v)|
  {
    n := 0;
    var x := v;
    while true
      invariant n + |Encode(x)| == |Encode(v)|
      decreases x
    {
      n := n + 1;
      if x / 128 == 0 { break; }
      x := x / 128;
    }
  }

  /** The tag byte and the length of a length-delimited record. */
  method StoreHeader(dAtA: array<byte>, i: nat, num: nat, len: nat) returns (end: nat, ghost w: seq<nat>)
    requires 1 <= num <= 15 && i + |Header(num, len)| <= dAtA.Length
    modifies dAtA
    ensures end == i + |Header(num, len)|
    ensures Wrote(old(dAtA[..]), dAtA[..], i, Header(num, len), w)
  {
    hide Encode, Wrote;
    ghost var b0, w1, w2 := dAtA[..], [], [];
    w1 := StoreByte(dAtA, i, 8 * num + 2);
    ghost var b1 := dAtA[..];
    end, w2 := EncodeVarint(dAtA, i + 1, len);
    WroteThen(b0, b1, dAtA[..], i, [8 * num + 2], Encode(len), w1, w2);
    w := w1 + w2;
  }

  method StoreRecord(dAtA: array<byte>, i: nat, num: nat, data: Bytes) returns (end: nat, ghost w: seq<nat>)
    requires 1 <= num <= 15 && i + |Record(num, data)| <= dAtA.Length
    modifies dAtA
    ensures end == i + |Record(num, data)|
    ensures Wrote(old(dAtA[..]), dAtA[..], i, Record(num, data), w)
  {
    hide Header, Wrote;
    ghost var b0, w1, w2 := dAtA[..], [], [];
    var n;
    end, w1 := StoreHeader(dAtA, i, num, |data|);
    ghost var b1 := dAtA[..];
    n, w2 := CopyAt(dAtA, end, data);
    WroteThen(b0, b1, dAtA[..], i, Header(num, |data|), data, w1, w2);
    end, w := end + n, w1 + w2;
  }

  method StoreOptRecord(dAtA: array<byte>, i: nat, num: nat, data: Bytes) returns (end: nat, ghost w: seq<nat>)
    requires 1 <= num <= 15 && i + |OptRecord(num, data)| <= dAtA.Length
    modifies dAtA
    ensures end == i + |OptRecord(num, data)|
    ensures Wrote(old(dAtA[..]), dAtA[..], i, OptRecord(num, data), w)
  {
    hide Record, Wrote;
    if |data| > 0 {
      end, w := StoreRecord(dAtA, i, num, data);
    } else {
      end, w := i, [];
      WroteNothing(dAtA[..], i);
    }
  }

  method FieldSize(f: Field) returns (n: nat)
    ensures n == |FieldBytes(f)|
  {
    n := 0;
    if |f.name| > 0 {
      var s := Sov(|f.name|);
      n := n + 1 + |f.name| + s;
    }
    if |f.value| > 0 {
      var s := Sov(|f.value|);
      n := n + 1 + |f.value| + s;
    }
    n := n + |f.unknown|;
  }

  /** (*Field).MarshalTo(dAtA[base:]). */
  method MarshalFieldTo(f: Field, dAtA: array<byte>, base: nat) returns (n: nat, ghost w: seq<nat>)
    requires base + |FieldBytes(f)| <= dAtA.Length
    modifies dAtA
    ensures n == |FieldBytes(f)|
    ensures Wrote(old(dAtA[..]), dAtA[..], base, FieldBytes(f), w)
  {
    hide OptRecord, Wrote;
    ghost var b0, w1, w2, w3 := dAtA[..], [], [], [];
    ghost var x, y := OptRecord(1, f.name), OptRecord(2, f.value);
    var i, m;
    i, w1 := StoreOptRecord(dAtA, base, 1, f.name);
    ghost var b1 := dAtA[..];
    i, w2 := StoreOptRecord(dAtA, i, 2, f.value);
    ghost var b2 := dAtA[..];
    WroteThen(b0, b1, b2, base, x, y, w1, w2);
    m, w3 := CopyAt(dAtA, i, f.unknown);
    WroteThen(b0, b2, dAtA[..], base, x + y, f.unknown, w1 + w2, w3);
    n, w := i + m - base, w1 + w2 + w3;
  }

  /** The tag, the length and the body of one embedded Field. */
  method StoreField(f: Field, dAtA: array<byte>, i: nat) returns (end: nat, ghost w: seq<nat>)
    requires i + |Record(2, FieldBytes(f))| <= dAtA.Length
    modifies dAtA
    ensures end == i + |Record(2, FieldBytes(f))|
    ensures Wrote(old(dAtA[..]), dAtA[..], i, Record(2, FieldBytes(f)), w)
  {
    hide FieldBytes, Header, Wrote;
    ghost var b0, w1, w2 := dAtA[..], [], [];
    var size := FieldSize(f);
    var n;
    end, w1 := StoreHeader(dAtA, i, 2, size);
    ghost var b1 := dAtA[..];
    n, w2 := MarshalFieldTo(f, dAtA, end);
    WroteThen(b0, b1, dAtA[..], i, Header(2, size), FieldBytes(f), w1, w2);
    end, w := end + n, w1 + w2;
  }

  lemma FieldsBytesNone()
    ensures FieldsBytes([]) == []
  {
  }

  lemma FieldsBytesPrefix(fs: seq<Field>, n: nat)
    requires n <= |fs|
    ensures |FieldsBytes(fs[..n])| <= |FieldsBytes(fs)|
    ensures n < |fs| ==> FieldsBytes(fs[..n + 1]) == FieldsBytes(fs[..n]) + Record(2, FieldBytes(fs[n]))
    decreases |fs| - n
  {
    hide FieldsBytes, Record;
    if n < |fs| {
      FieldsBytesAppend(fs[..n], fs[n]);
      assert fs[..n + 1] == fs[..n] + [fs[n]];
      FieldsBytesPrefix(fs, n + 1);
    } else {
      assert fs[..n] == fs;
    }
  }

  /** The loop over the repeated field. */
  method StoreFields(fs: seq<Field>, dAtA: array<byte>, base: nat) returns (i: nat, ghost w: seq<nat>)
    requires base + |FieldsBytes(fs)| <= dAtA.Length
    modifies dAtA
    ensures i == base + |FieldsBytes(fs)|
    ensures Wrote(old(dAtA[..]), dAtA[..], base, FieldsBytes(fs), w)
  {
    hide FieldBytes, FieldsBytes, Wrote, Record;
    ghost var b0 := dAtA[..];
    i, w := base, [];
    FieldsBytesNone();
    WroteNothing(b0, base);
    var j := 0;
    while j < |fs|
      invariant 0 <= j <= |fs|
      invariant i == base + |FieldsBytes(fs[..j])|
      invariant Wrote(b0, dAtA[..], base, FieldsBytes(fs[..j]), w)
    {
      ghost var before, done, w0 := dAtA[..], FieldsBytes(fs[..j]), w;
      FieldsBytesPrefix(fs, j);
      FieldsBytesPrefix(fs, j + 1);
      ghost var w1;
      i, w1 := StoreField(fs[j], dAtA, i);
      WroteThen(b0, before, dAtA[..], base, done, Record(2, FieldBytes(fs[j])), w0, w1);
      w := w0 + w1;
      j := j + 1;
    }
    assert fs[..j] == fs;
  }

  method StoreSent(dAtA: array<byte>, i: nat, sent: bool) returns (end: nat, ghost w: seq<nat>)
    requires i + |SentBytes(sent)| <= dAtA.Length
    modifies dAtA
    ensures end == i + |SentBytes(sent)|
    ensures Wrote(old(dAtA[..]), dAtA[..], i, SentBytes(sent), w)
  {
    hide Wrote;
    end, w := i, [];
    WroteNothing(dAtA[..], i);
    if sent {
      ghost var b0 := dAtA[..];
      ghost var w1 := StoreByte(dAtA, i, 0x18);
      ghost var b1 := dAtA[..];
      ghost var w2 := StoreByte(dAtA, i + 1, 1);
      WroteThen(b0, b1, dAtA[..], i, [0x18], [1], w1, w2);
      assert [0x18] + [1] == SentBytes(true);
      end, w := i + 2, w1 + w2;
    }
  }

  //---- reading from a slice ----------------------------------------------------------------------------------------

  /** The varint loop, inlined at every use in the source: the bits are ORed in at shift 0, 7, 14, ... in 64 bits. */
  method ReadVarint(dAtA: Bytes, start: nat) returns (r: ReadResult)
    requires start <= |dAtA|
    ensures r == Read(dAtA[start..])
    ensures r.Value? ==> start + r.n <= |dAtA|
  {
    var iNdEx, k, power, acc: nat := start, 0, 1, 0;
    while true
      invariant start <= iNdEx <= |dAtA| && iNdEx == start + k && k <= 10
      invariant power == Pow128(k) && acc < power
      invariant Read(dAtA[start..]) == ReadFrom(dAtA[iNdEx..], k, acc)
      decreases |dAtA| - iNdEx
    {
      if 7 * k >= 64 { return Overflow; }
      if iNdEx >= |dAtA| { return Eof; }
      var b := dAtA[iNdEx];
      assert dAtA[iNdEx..][0] == b && dAtA[iNdEx..][1..] == dAtA[iNdEx + 1..];
      Distribute(b % 128, 0, power);
      OrDigit(b, k, acc);
      DigitBound(b, k, acc);
      iNdEx, acc := iNdEx + 1, Or(acc, b % 128 * power % TWO64);
      if b < 128 { return Value(acc, k + 1); }
      k, power := k + 1, 128 * power;
    }
  }

  lemma SliceOfTail(d: Bytes, p: nat, i: nat, j: nat)
    requires p <= i <= j <= |d|
    ensures d[p..][i - p..j - p] == d[i..j]
  {
  }

  /** Go's addition of an index inside a slice and a count: it wraps exactly when the sum leaves 63 bits. */
  lemma IndexSum(i: nat, n: int)
    requires i <= MAX_LEN && (-TWO63 <= n < -MAX_LEN || 0 <= n < TWO63)
    ensures Int64(i + n) < 0 <==> n < 0 || i + n >= TWO63
    ensures Int64(i + n) >= 0 ==> Int64(i + n) == i + n
  {
  }

  lemma Int64Range(v: int)
    ensures -TWO63 <= Int64(v) < TWO63
  {
  }

  ghost function Plus(k: int, r: SkipResult): SkipResult {
    if r.Skipped? then Skipped(k + r.n) else r
  }

  method SkipHmset(dAtA: Bytes) returns (r: SkipResult)
    requires 0 < |dAtA| <= MAX_LEN
    ensures r == Skip(dAtA)
    decreases |dAtA|, 0
  {
    hide ReadFrom, Read;
    var tag := ReadVarint(dAtA, 0);
    assert dAtA[0..] == dAtA;
    if !tag.Value? { return SkipErr(VarintError(tag)); }
    ReadLocal(dAtA, dAtA);
    var iNdEx := tag.n;
    match tag.v % 8
    case 0 =>
      var x := ReadVarint(dAtA, iNdEx);
      return if x.Value? then Skipped(iNdEx + x.n) else SkipErr(VarintError(x));
    case 1 => return Skipped(iNdEx + 8);
    case 2 =>
      var x := ReadVarint(dAtA, iNdEx);
      if !x.Value? { return SkipErr(VarintError(x)); }
      ReadLocal(dAtA[iNdEx..], dAtA[iNdEx..]);
      var length := Int64(x.v);
      if length < 0 { return SkipErr(InvalidLength); }
      return Skipped(EndOf(iNdEx + x.n, length));
    case 3 => r := SkipMembers(dAtA, iNdEx);
    case 4 => return Skipped(iNdEx);
    case 5 => return Skipped(iNdEx + 4);
    case _ => return SkipErr(IllegalWireType);
  }

  /** The loop of the start-group case. */
  method SkipMembers(dAtA: Bytes, first: nat) returns (r: SkipResult)
    requires 0 < first <= |dAtA| <= MAX_LEN
    ensures r == Plus(first, SkipGroup(first, dAtA[first..]))
    decreases |dAtA| - first, 1
  {
    hide ReadFrom, Read, Skip, Int64;
    var iNdEx: int := first;
    while true
      invariant first <= iNdEx <= |dAtA|
      invariant SkipGroup(first, dAtA[first..]) == Plus(iNdEx - first, SkipGroup(iNdEx, dAtA[iNdEx..]))
      decreases |dAtA| - iNdEx
    {
      var start := iNdEx;
      var inner := ReadVarint(dAtA, start);
      if !inner.Value? { return SkipErr(VarintError(inner)); }
      ReadLocal(dAtA[start..], dAtA[start..]);
      if inner.v % 8 == 4 { return Skipped(start + inner.n); }
      var next := SkipHmset(dAtA[start..]);
      if !next.Skipped? { return next; }
      IndexSum(start, next.n);
      iNdEx := Int64(start + next.n);
      if iNdEx < 0 { return SkipPanic; }
      if iNdEx >= |dAtA| { return SkipErr(UnexpectedEof); }
      assert dAtA[start..][next.n..] == dAtA[iNdEx..];
    }
  }

  //---- messages ----------------------------------------------------------------------------------------------------

  class FieldMessage {
    var Name: Bytes
    var Value: Bytes
    var Unrecognized: Bytes

    function View(): Field
      reads this
    {
      Field(Name, Value, Unrecognized)
    }

    constructor ()
      ensures View() == EMPTY_FIELD
    {
      Name, Value, Unrecognized := [], [], [];
    }

    method Unmarshal(dAtA: Bytes) returns (out: Outcome)
      requires |dAtA| <= MAX_LEN
      modifies this
      ensures (View(), out) == DecodeField(old(View()), 0, dAtA)
    {
      hide Int64, Int32, Read;
      var l, iNdEx := |dAtA|, 0;
      assert dAtA[0..] == dAtA;
      while iNdEx < l
        invariant 0 <= iNdEx <= l
        invariant DecodeField(old(View()), 0, dAtA) == DecodeField(View(), iNdEx, dAtA[iNdEx..])
      {
        var r := NextItem(FieldKind, dAtA, iNdEx);
        match r
        case Stop(o) => return o;
        case Step(item, n) =>
          match item {
            case Payload(num, data) =>
              if num == 1 { Name := data; } else { Value := data; }
            case Number(_, _) =>
            case Unknown(raw) => Unrecognized := Unrecognized + raw;
          }
          assert dAtA[iNdEx..][n..] == dAtA[iNdEx + n..];
          iNdEx := iNdEx + n;
      }
      out := Ok;
    }
  }

  /** The default case of the switch: keep the bytes of an unknown field. */
  method SkipItem(dAtA: Bytes, preIndex: nat) returns (r: Step)
    requires preIndex < |dAtA| <= MAX_LEN
    ensures r == NextUnknown(preIndex, dAtA[preIndex..])
  {
    hide Skip, Int64;
    var skippy := SkipHmset(dAtA[preIndex..]);
    match skippy
    case SkipErr(e) => return Stop(Err(e));
    case SkipPanic => return Stop(Panic);
    case Skipped(n) =>
      if n < 0 { return Stop(Err(InvalidLength)); }
      IndexSum(preIndex, n);
      var postIndex := Int64(preIndex + n);
      if postIndex > |dAtA| { return Stop(Err(UnexpectedEof)); }
      if postIndex < 0 { return Stop(Panic); }
      SliceOfTail(dAtA, preIndex, preIndex, postIndex);
      return Step(Unknown(dAtA[preIndex..postIndex]), n);
  }

  /** The part of one loop turn both Unmarshal functions share: tag, checks, length, slice or skip. */
  method NextItem(k: Kind, dAtA: Bytes, preIndex: nat) returns (r: Step)
    requires preIndex < |dAtA| <= MAX_LEN
    ensures r == Next(k, preIndex, dAtA[preIndex..])
  {
    hide ReadFrom, Read, NextUnknown, NextKnown, Int32;
    ghost var rest := dAtA[preIndex..];
    var tag := ReadVarint(dAtA, preIndex);
    if !tag.Value? { return Stop(Err(VarintError(tag))); }
    ReadLocal(rest, rest);
    var num, wireType := Int32(tag.v / 8), tag.v % 8;
    if wireType == 4 { return Stop(Err(EndGroup)); }
    if num <= 0 { return Stop(Err(IllegalTag)); }
    if Declared(k, num) < 0 { r := SkipItem(dAtA, preIndex); return; }
    if Declared(k, num) != wireType { return Stop(Err(WrongWireType)); }
    r := KnownItem(num, wireType, dAtA, preIndex, tag.n);
  }

  method KnownItem(num: int, wireType: int, dAtA: Bytes, preIndex: nat, t: nat) returns (r: Step)
    requires 1 <= t && preIndex + t <= |dAtA| <= MAX_LEN
    ensures r == NextKnown(num, wireType, preIndex, dAtA[preIndex..], t)
  {
    hide ReadFrom, Read, Int64;
    var iNdEx := preIndex + t;
    assert dAtA[preIndex..][t..] == dAtA[iNdEx..];
    var x := ReadVarint(dAtA, iNdEx);
    if !x.Value? { return Stop(Err(VarintError(x))); }
    ReadLocal(dAtA[iNdEx..], dAtA[iNdEx..]);
    iNdEx := iNdEx + x.n;
    if wireType == 0 { return Step(Number(num, x.v), iNdEx - preIndex); }
    var length := Int64(x.v);
    if length < 0 { return Stop(Err(InvalidLength)); }
    Int64Range(x.v);
    IndexSum(iNdEx, length);
    var postIndex := Int64(iNdEx + length);
    if postIndex > |dAtA| { return Stop(Err(UnexpectedEof)); }
    if postIndex < 0 { return Stop(Panic); }
    SliceOfTail(dAtA, preIndex, iNdEx, postIndex);
    return Step(Payload(num, dAtA[iNdEx..postIndex]), postIndex - preIndex);
  }

  class HmsetMessage {
    var Key: Bytes
    var Fields: seq<Field>
    var Sent: bool
    var Unrecognized: Bytes

    function View(): Hmset
      reads this
    {
      Hmset(Key, Fields, Sent, Unrecognized)
    }

    constructor ()
      ensures View() == EMPTY_HMSET
    {
      Key, Fields, Sent, Unrecognized := [], [], false, [];
    }

    method Size() returns (n: nat)
      ensures n == |HmsetBytes(View())|
    {
      hide FieldBytes, FieldsBytes;
      n := 0;
      FieldsBytesNone();
      if |Key| > 0 {
        var s := Sov(|Key|);
        n := n + 1 + |Key| + s;
      }
      var i := 0;
      while i < |Fields|
        invariant 0 <= i <= |Fields|
        invariant n == |OptRecord(1, Key)| + |FieldsBytes(Fields[..i])|
      {
        var l := FieldSize(Fields[i]);
        var s := Sov(l);
        FieldsBytesPrefix(Fields, i);
        n := n + 1 + l + s;
        i := i + 1;
      }
      assert Fields[..i] == Fields;
      if Sent { n := n + 2; }
      n := n + |Unrecognized|;
    }

    method MarshalTo(dAtA: array<byte>) returns (i: nat, ghost w: seq<nat>)
      requires |HmsetBytes(View())| <= dAtA.Length
      modifies dAtA
      ensures i == |HmsetBytes(View())|
      ensures Wrote(old(dAtA[..]), dAtA[..], 0, HmsetBytes(View()), w)
    {
      hide OptRecord, FieldsBytes, SentBytes, Wrote;
      ghost var b0, w1, w2 := dAtA[..], [], [];
      ghost var x, y, z := OptRecord(1, Key), FieldsBytes(Fields), SentBytes(Sent);
      i, w1 := StoreOptRecord(dAtA, 0, 1, Key);
      ghost var b1 := dAtA[..];
      i, w2 := StoreFields(Fields, dAtA, i);
      WroteThen(b0, b1, dAtA[..], 0, x, y, w1, w2);
      ghost var b2, w12 := dAtA[..], w1 + w2;
      i, w := StoreTail(dAtA, i);
      WroteThen(b0, b2, dAtA[..], 0, x + y, z + Unrecognized, w12, w);
      w := w12 + w;
      assert HmsetBytes(View()) == x + y + (z + Unrecognized);
    }

    /** The last two blocks of MarshalTo: the Sent flag and the unrecognized bytes. */
    method StoreTail(dAtA: array<byte>, base: nat) returns (i: nat, ghost w: seq<nat>)
      requires base + |SentBytes(Sent) + Unrecognized| <= dAtA.Length
      modifies dAtA
      ensures i == base + |SentBytes(Sent) + Unrecognized|
      ensures Wrote(old(dAtA[..]), dAtA[..], base, SentBytes(Sent) + Unrecognized, w)
    {
      hide SentBytes, Wrote;
      ghost var b0, w1, w2 := dAtA[..], [], [];
      i, w1 := StoreSent(dAtA, base, Sent);
      ghost var b1 := dAtA[..];
      var n;
      n, w2 := CopyAt(dAtA, i, Unrecognized);
      WroteThen(b0, b1, dAtA[..], base, SentBytes(Sent), Unrecognized, w1, w2);
      i, w := i + n, w1 + w2;
    }

    method Marshal() returns (bytes: Bytes)
      ensures bytes == HmsetBytes(View())
    {
      hide HmsetBytes, Wrote;
      var size := Size();
      var dAtA := new byte[size];
      ghost var before := dAtA[..];
      var n;
      ghost var w;
      n, w := MarshalTo(dAtA);
      WroteContent(before, dAtA[..], 0, HmsetBytes(View()), w);
      bytes := dAtA[..n];
      assert bytes == dAtA[..][0..n];
    }

    method Unmarshal(dAtA: Bytes) returns (out: Outcome)
      requires |dAtA| <= MAX_LEN
      modifies this
      ensures (View(), out) == DecodeHmset(old(View()), 0, dAtA)
    {
      hide Next, DecodeField, SetHmset;
      var l, iNdEx := |dAtA|, 0;
      assert dAtA[0..] == dAtA;
      while iNdEx < l
        invariant 0 <= iNdEx <= l
        invariant DecodeHmset(old(View()), 0, dAtA) == DecodeHmset(View(), iNdEx, dAtA[iNdEx..])
      {
        var r := NextItem(HmsetKind, dAtA, iNdEx);
        match r
        case Stop(o) => return o;
        case Step(item, n) =>
          var sub := Assign(item);
          if sub != Ok { return sub; }
          assert dAtA[iNdEx..][n..] == dAtA[iNdEx + n..];
          iNdEx := iNdEx + n;
      }
      out := Ok;
    }

    /** The switch on the field number: assign Key or Sent, append a Field unmarshalled from its slice, or keep raw
        bytes. */
    method Assign(item: Item) returns (out: Outcome)
      requires item.Payload? ==> |item.data| <= MAX_LEN
      modifies this
      ensures (View(), out) == SetHmset(old(View()), item)
    {
      hide DecodeField;
      out := Ok;
      match item
      case Payload(num, data) =>
        if num == 1 {
          Key := data;
        } else {
          var f := new FieldMessage();
          out := f.Unmarshal(data);
          Fields := Fields + [f.View()];
        }
      case Number(_, v) => Sent := v != 0;
      case Unknown(raw) => Unrecognized := Unrecognized + raw;
    }
  }

  /** The whole trip through memory: what one message marshals, an empty message unmarshals to an equal one. */
  method Transfer(m: HmsetMessage) returns (copy: HmsetMessage, out: Outcome)
    requires WellFormed(m.View()) && |HmsetBytes(m.View())| <= MAX_LEN
    ensures fresh(copy) && out == Ok && copy.View() == m.View()
  {
    hide WellFormed, HmsetBytes, DecodeHmset;
    var bytes := m.Marshal();
    copy := new HmsetMessage();
    HmsetRoundTrip(m.View());
    out := copy.Unmarshal(bytes);
  }
}
