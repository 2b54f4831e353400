/** The base-128 varints of the Protocol Buffers wire format. */
module Varint {
  import opened Words

  function Pow128(k: nat): (r: nat)
    ensures r >= 1
  {
    if k == 0 then 1 else 128 * Pow128(k - 1)
  }

  /** What the decoding loop comes back with: a value and the number of bytes used, or one of its two errors. */
  datatype ReadResult = Value(v: nat, n: nat) | Overflow | Eof

  function Encode(v: nat): (s: Bytes)
    ensures |s| >= 1
  {
    if v < 128 then [v] else [v % 128 + 128] + Encode(v / 128)
  }

  /** What byte b adds at position k: its low seven bits shifted left by 7*k, cut to 64 bits. */
  function Digit(b: byte, k: nat): nat {
    (b % 128) * Pow128(k) % TWO64
  }

  /** The loop `for shift := 0; ; shift += 7` entered with shift == 7*k and accumulator acc.
      The OR of the source is a sum here because the seven new bits lie above the accumulator (ReadOrIsRead). */
  function ReadFrom(s: Bytes, k: nat, acc: nat): (r: ReadResult)
    decreases |s|
  {
    if k >= 10 then Overflow
    else if s == [] then Eof
    else if s[0] < 128 then Value(acc + Digit(s[0], k), k + 1)
    else ReadFrom(s[1..], k + 1, acc + Digit(s[0], k))
  }

  function Read(s: Bytes): ReadResult {
    ReadFrom(s, 0, 0)
  }

  lemma Pow128Facts()
    ensures Pow128(1) == 128 && Pow128(9) == TWO63 && Pow128(10) == 64 * TWO64
  {
    assert Pow128(2) == 128 * 128;
    assert Pow128(4) == 128 * 128 * 128 * 128;
    assert Pow128(6) == 0x400_0000_0000;
    assert Pow128(8) == 0x100_0000_0000_0000;
  }

  lemma Pow128Monotone(i: nat, j: nat)
    requires i <= j
    ensures Pow128(i) <= Pow128(j)
    decreases j
  {
    if i < j { Pow128Monotone(i, j - 1); }
  }

  /** At shift 63 only the lowest of the seven bits survives the 64-bit truncation. */
  lemma ShiftedTopBit(d: nat)
    requires d < 128
    ensures d * TWO63 % TWO64 == d % 2 * TWO63
  {
    assert d * TWO63 == d / 2 * TWO64 + d % 2 * TWO63;
  }

  lemma DigitBound(b: byte, k: nat, acc: nat)
    requires k < 10 && acc < Pow128(k)
    ensures acc + Digit(b, k) < Pow128(k + 1) && acc + Digit(b, k) < TWO64
  {
    Pow128Facts();
    var p, d := Pow128(k), b % 128;
    if k < 9 {
      Pow128Monotone(k, 8);
      assert Pow128(9) == 128 * Pow128(8);
      assert 0 <= d * p <= 127 * p < TWO64;
    } else {
      ShiftedTopBit(d);
    }
  }

  /** Bitwise OR of unsigned numbers. */
  function Or(a: nat, b: nat): nat {
    if a == 0 then b
    else if b == 0 then a
    else (if a % 2 == 1 || b % 2 == 1 then 1 else 0) + 2 * Or(a / 2, b / 2)
  }

  function Pow2(n: nat): (p: nat)
    ensures p >= 1
  {
    if n == 0 then 1 else 2 * Pow2(n - 1)
  }

  /** OR-ing in bits that all lie above a number adds them. */
  lemma {:induction false} OrIsSum(a: nat, n: nat, d: nat)
    requires a < Pow2(n)
    ensures Or(a, d * Pow2(n)) == a + d * Pow2(n)
  {
    if n > 0 && a > 0 && d > 0 {
      var b, half := d * Pow2(n), d * Pow2(n - 1);
      assert b == 2 * half;
      assert half > 0;
      OrIsSum(a / 2, n - 1, d);
    }
  }

  lemma {:induction false} Pow2Of7(k: nat)
    ensures Pow2(7 * k) == Pow128(k)
  {
    if k > 0 {
      Pow2Of7(k - 1);
      var m := 7 * (k - 1);
      assert Pow2(m + 7) == 128 * Pow2(m) by {
        assert Pow2(m + 1) == 2 * Pow2(m) && Pow2(m + 2) == 4 * Pow2(m) && Pow2(m + 3) == 8 * Pow2(m);
        assert Pow2(m + 4) == 16 * Pow2(m) && Pow2(m + 5) == 32 * Pow2(m) && Pow2(m + 6) == 64 * Pow2(m);
      }
    }
  }

  lemma DigitIs(b: byte, k: nat) returns (d: nat)
    requires k < 10
    ensures Digit(b, k) == d * Pow128(k)
  {
    Pow128Facts();
    d := b % 128;
    if k < 9 {
      Pow128Monotone(k, 8);
      assert Pow128(9) == 128 * Pow128(8);
      assert 0 <= d * Pow128(k) <= 127 * Pow128(k) < TWO64;
    } else {
      ShiftedTopBit(d);
      d := d % 2;
    }
  }

  /** The seven new bits, cut to 64, lie above the accumulator. */
  lemma OrDigit(b: byte, k: nat, acc: nat)
    requires k < 10 && acc < Pow128(k)
    ensures Or(acc, Digit(b, k)) == acc + Digit(b, k)
  {
    hide Digit, Pow128, Pow2, Or;
    var d := DigitIs(b, k);
    Pow2Of7(k);
    OrIsSum(acc, 7 * k, d);
  }

  /** The loop as the source writes it, OR-ing the bits in. */
  function ReadOr(s: Bytes, k: nat, acc: nat): ReadResult
    decreases |s|
  {
    if k >= 10 then Overflow
    else if s == [] then Eof
    else if s[0] < 128 then Value(Or(acc, Digit(s[0], k)), k + 1)
    else ReadOr(s[1..], k + 1, Or(acc, Digit(s[0], k)))
  }

  /** The source's accumulator, which ORs, and the sum agree on every input. */
  lemma {:induction false} ReadOrIsRead(s: Bytes, k: nat, acc: nat)
    requires acc < Pow128(k)
    ensures ReadOr(s, k, acc) == ReadFrom(s, k, acc)
    decreases |s|
  {
    hide Digit, Pow128, Or;
    if k < 10 && s != [] {
      OrDigit(s[0], k, acc);
      DigitBound(s[0], k, acc);
      ReadOrIsRead(s[1..], k + 1, acc + Digit(s[0], k));
    }
  }

  /** Reading uses between one and ten bytes, stays inside the input, and the value fits both 64 bits and its digits. */
  lemma {:induction false} ReadFromBound(s: Bytes, k: nat, acc: nat)
    requires ReadFrom(s, k, acc).Value? && acc < Pow128(k)
    ensures var r := ReadFrom(s, k, acc); k < r.n <= 10 && r.n - k <= |s| && r.v < Pow128(r.n) && r.v < TWO64
    decreases |s|
  {
    DigitBound(s[0], k, acc);
    if s[0] >= 128 {
      ReadFromBound(s[1..], k + 1, acc + Digit(s[0], k));
    }
  }

  /** Reading depends only on the bytes it uses. */
  lemma {:induction false} ReadFromLocal(s: Bytes, s': Bytes, k: nat, acc: nat)
    requires ReadFrom(s, k, acc).Value? && acc < Pow128(k)
    requires var r := ReadFrom(s, k, acc); r.n - k <= |s| && 0 <= r.n - k <= |s'| && s'[..r.n - k] == s[..r.n - k]
    ensures ReadFrom(s', k, acc) == ReadFrom(s, k, acc)
    decreases |s|
  {
    hide Digit, Pow128;
    var n := ReadFrom(s, k, acc).n - k;
    ReadFromBound(s, k, acc);
    assert s'[0] == s'[..n][0] == s[..n][0] == s[0];
    if s[0] >= 128 {
      DigitBound(s[0], k, acc);
      assert s'[1..][..n - 1] == s'[..n][1..] == s[..n][1..] == s[1..][..n - 1];
      ReadFromBound(s[1..], k + 1, acc + Digit(s[0], k));
      ReadFromLocal(s[1..], s'[1..], k + 1, acc + Digit(s[0], k));
    }
  }

  lemma ReadLocal(s: Bytes, s': Bytes)
    requires Read(s).Value?
    ensures var r := Read(s); 1 <= r.n <= 10 && r.n <= |s| && r.v < TWO64 && |Encode(r.v)| <= r.n
    ensures var r := Read(s); r.n <= |s'| && s'[..r.n] == s[..r.n] ==> Read(s') == r
  {
    ReadFromBound(s, 0, 0);
    var n := Read(s).n;
    if n <= |s'| && s'[..n] == s[..n] { ReadFromLocal(s, s', 0, 0); }
    EncodeIsShortest(Read(s).v, Read(s).n);
  }

  lemma {:induction false} EncodeIsShortest(v: nat, n: nat)
    requires v < Pow128(n)
    ensures n >= 1 ==> |Encode(v)| <= n
    decreases n
  {
    if v >= 128 && n >= 1 {
      assert v / 128 < Pow128(n - 1);
      EncodeIsShortest(v / 128, n - 1);
    }
  }

  ghost function Scaled(v: nat, k: nat): nat {
    v * Pow128(k)
  }

  lemma Distribute(d: nat, q: nat, p: nat)
    ensures (d + 128 * q) * p == d * p + q * (128 * p)
    ensures d * p >= 0 && (q >= 1 ==> 128 * p <= q * (128 * p))
  {
    assert (d + 128 * q) * p == d * p + (128 * q) * p;
    if q >= 1 { assert q * (128 * p) == (q - 1) * (128 * p) + 128 * p; }
  }

  lemma ScaledSplit(v: nat, k: nat)
    requires v >= 128 && Scaled(v, k) < TWO64
    ensures Scaled(v, k) == Digit(v % 128 + 128, k) + Scaled(v / 128, k + 1)
    ensures Pow128(k + 1) <= Scaled(v / 128, k + 1)
  {
    var p, d, q := Pow128(k), v % 128, v / 128;
    Distribute(d, q, p);
    assert v == d + 128 * q && (d + 128) % 128 == d;
    SmallMod(d * p);
  }

  lemma SmallMod(x: nat)
    requires x < TWO64
    ensures x % TWO64 == x
  {
  }

  /** Decoding undoes encoding, whatever follows, for every 64-bit value: one to ten bytes. */
  lemma {:induction false} ReadFromEncode(v: nat, t: Bytes, k: nat, acc: nat)
    requires acc + Scaled(v, k) < TWO64 && k < 10
    ensures ReadFrom(Encode(v) + t, k, acc) == Value(acc + Scaled(v, k), k + |Encode(v)|)
    decreases v
  {
    var s := Encode(v) + t;
    if v < 128 {
      assert s[0] == v;
      SmallMod(Scaled(v, k));
    } else {
      ScaledSplit(v, k);
      Pow128Facts();
      hide Pow128, Digit, Scaled;
      assert s[0] == v % 128 + 128 && s[1..] == Encode(v / 128) + t;
      ReadFromEncode(v / 128, t, k + 1, acc + Digit(s[0], k));
    }
  }

  lemma ReadEncode(v: nat, t: Bytes)
    requires v < TWO64
    ensures Read(Encode(v) + t) == Value(v, |Encode(v)|)
  {
    ReadFromEncode(v, t, 0, 0);
  }
}
