/** The cluster's slot hash: a table-driven CRC16, proved against schoolbook polynomial division. */
module Crc16 {

  //---- polynomial division over the two-element field --------------------------------------------------------------

  function Bits8(x: bv8): (s: seq<bool>)
    ensures |s| == 8
  {
    [x & 0x80 != 0, x & 0x40 != 0, x & 0x20 != 0, x & 0x10 != 0, x & 0x08 != 0, x & 0x04 != 0, x & 0x02 != 0,
        x & 0x01 != 0]
  }

  /** x^16 + x^12 + x^5 + 1 without its leading term, most significant coefficient first: 0x1021. */
  predicate Generator(i: nat) {
    i == 3 || i == 10 || i == 15
  }

  /** The sixteen coefficients of a register, most significant first. */
  datatype Coefficients = Coefficients(
    b0: bool, b1: bool, b2: bool, b3: bool, b4: bool, b5: bool, b6: bool, b7: bool,
    b8: bool, b9: bool, b10: bool, b11: bool, b12: bool, b13: bool, b14: bool, b15: bool)
  {
    predicate At(i: nat) {
      if i == 0 then b0 else if i == 1 then b1 else if i == 2 then b2 else if i == 3 then b3 else
      if i == 4 then b4 else if i == 5 then b5 else if i == 6 then b6 else if i == 7 then b7 else
      if i == 8 then b8 else if i == 9 then b9 else if i == 10 then b10 else if i == 11 then b11 else
      if i == 12 then b12 else if i == 13 then b13 else if i == 14 then b14 else b15
    }

    function Sequence(): (s: seq<bool>)
      ensures |s| == 16
    {
      seq(16, i requires 0 <= i < 16 => At(i))
    }
  }

  function Bits16(x: bv16): Coefficients {
    Coefficients(
      x & 0x8000 != 0, x & 0x4000 != 0, x & 0x2000 != 0, x & 0x1000 != 0, x & 0x0800 != 0, x & 0x0400 != 0,
      x & 0x0200 != 0, x & 0x0100 != 0, x & 0x0080 != 0, x & 0x0040 != 0, x & 0x0020 != 0, x & 0x0010 != 0,
      x & 0x0008 != 0, x & 0x0004 != 0, x & 0x0002 != 0, x & 0x0001 != 0)
  }

  function Zeros(n: nat): seq<bool> {
    seq(n, _ => false)
  }

  /** One step of long division: cancel the leading coefficient, drop it. */
  function Cancel(d: seq<bool>): (r: seq<bool>)
    requires |d| > 16
    ensures |r| == |d| - 1
  {
    seq(|d| - 1, i requires 0 <= i < |d| - 1 => if i < 16 then d[i + 1] != (d[0] && Generator(i)) else d[i + 1])
  }

  function LongDivision(d: seq<bool>): (r: seq<bool>)
    requires |d| >= 16
    ensures |r| == 16
    decreases |d|
  {
    if |d| == 16 then d else LongDivision(Cancel(d))
  }

  /** The checksum of a message: the remainder of message * x^16. */
  function Remainder(message: seq<bool>): (r: seq<bool>) {
    LongDivision(message + Zeros(16))
  }

  function MessageBits(buf: seq<bv8>): seq<bool> {
    if buf == [] then [] else Bits8(buf[0]) + MessageBits(buf[1..])
  }

  //---- the bit-serial register -------------------------------------------------------------------------------------

  /** One turn: the leading coefficient plus the message bit decides whether the generator is added after shifting. */
  function Shift(crc: bv16, bit: bool): bv16 {
    if (crc & 0x8000 != 0) == bit then crc << 1 else (crc << 1) ^ 0x1021
  }

  function Feed(crc: bv16, bits: seq<bool>): bv16
    decreases |bits|
  {
    if bits == [] then crc else Feed(Shift(crc, bits[0]), bits[1..])
  }

  /** The same turn on coefficients: shift, and add the generator when the leading coefficient is one. */
  function Turn(r: Coefficients, bit: bool): Coefficients {
    var h := r.b0 != bit;
    Coefficients(r.b1, r.b2, r.b3, r.b4 != h, r.b5, r.b6, r.b7, r.b8,
      r.b9, r.b10, r.b11 != h, r.b12, r.b13, r.b14, r.b15, h)
  }

  lemma ShiftIsTurn(crc: bv16, bit: bool)
    ensures Bits16(Shift(crc, bit)) == Turn(Bits16(crc), bit)
  {
  }

  lemma TurnAt0(r: Coefficients, bit: bool, i: nat)
    requires 0 <= i < 4
    ensures Turn(r, bit).At(i) == ((i < 15 && r.At(i + 1)) != ((r.b0 != bit) && Generator(i)))
  {
  }

  lemma TurnAt4(r: Coefficients, bit: bool, i: nat)
    requires 4 <= i < 8
    ensures Turn(r, bit).At(i) == ((i < 15 && r.At(i + 1)) != ((r.b0 != bit) && Generator(i)))
  {
  }

  lemma TurnAt8(r: Coefficients, bit: bool, i: nat)
    requires 8 <= i < 12
    ensures Turn(r, bit).At(i) == ((i < 15 && r.At(i + 1)) != ((r.b0 != bit) && Generator(i)))
  {
  }

  lemma TurnAt12(r: Coefficients, bit: bool, i: nat)
    requires 12 <= i < 16
    ensures Turn(r, bit).At(i) == ((i < 15 && r.At(i + 1)) != ((r.b0 != bit) && Generator(i)))
  {
  }

  lemma TurnAt(r: Coefficients, bit: bool, i: nat)
    requires i < 16
    ensures Turn(r, bit).At(i) == ((i < 15 && r.At(i + 1)) != ((r.b0 != bit) && Generator(i)))
  {
    hide Turn, Coefficients.At, Generator;
    if i < 4 { TurnAt0(r, bit, i); }
    else if i < 8 { TurnAt4(r, bit, i); }
    else if i < 12 { TurnAt8(r, bit, i); }
    else { TurnAt12(r, bit, i); }
  }

  /** The dividend left after some message bits: the register added to the front of what is still to come. */
  ghost function Mixed(r: Coefficients, m: seq<bool>): (d: seq<bool>)
    ensures |d| == |m| + 16
  {
    seq(|m| + 16, i requires 0 <= i < |m| + 16 => (i < 16 && r.At(i)) != (i < |m| && m[i]))
  }

  lemma MixedCancelAt(r: Coefficients, m: seq<bool>, i: nat)
    requires m != [] && i < |m| + 15
    ensures Cancel(Mixed(r, m))[i] == Mixed(Turn(r, m[0]), m[1..])[i]
  {
    hide Turn, Coefficients.At, Generator;
    var d := Mixed(r, m);
    FirstCoefficient(r);
    assert d[0] == (r.b0 != m[0]);
    if i < 16 {
      TurnAt(r, m[0], i);
      if i < 15 { assert d[i + 1] == (r.At(i + 1) != (i + 1 < |m| && m[i + 1])); }
    }
  }

  lemma FirstCoefficient(r: Coefficients)
    ensures r.At(0) == r.b0
  {
  }

  lemma MixedCancel(r: Coefficients, m: seq<bool>)
    requires m != []
    ensures Cancel(Mixed(r, m)) == Mixed(Turn(r, m[0]), m[1..])
  {
    hide Turn, Cancel, Mixed;
    forall i | 0 <= i < |m| + 15 ensures Cancel(Mixed(r, m))[i] == Mixed(Turn(r, m[0]), m[1..])[i] {
      MixedCancelAt(r, m, i);
    }
  }

  lemma {:induction false} FeedIsDivision(crc: bv16, m: seq<bool>)
    ensures LongDivision(Mixed(Bits16(crc), m)) == Bits16(Feed(crc, m)).Sequence()
    decreases |m|
  {
    hide Bits16, Shift, Turn, Cancel;
    if m == [] {
      assert Mixed(Bits16(crc), m) == Bits16(crc).Sequence();
    } else {
      MixedCancel(Bits16(crc), m);
      ShiftIsTurn(crc, m[0]);
      FeedIsDivision(Shift(crc, m[0]), m[1..]);
    }
  }

  lemma {:induction false} FeedConcat(crc: bv16, a: seq<bool>, b: seq<bool>)
    ensures Feed(crc, a + b) == Feed(Feed(crc, a), b)
    decreases |a|
  {
    if a == [] {
      assert a + b == b;
    } else {
      assert (a + b)[1..] == a[1..] + b;
      FeedConcat(Shift(crc, a[0]), a[1..], b);
    }
  }

  //---- the table ---------------------------------------------------------------------------------------------------

  function Pick(j: bv8, a0: bv16, a1: bv16, a2: bv16, a3: bv16, a4: bv16, a5: bv16, a6: bv16, a7: bv16, a8: bv16,
      a9: bv16, a10: bv16, a11: bv16, a12: bv16, a13: bv16, a14: bv16, a15: bv16): bv16
  {
    if j == 0 then a0 else if j == 1 then a1 else if j == 2 then a2 else if j == 3 then a3
    else if j == 4 then a4 else if j == 5 then a5 else if j == 6 then a6 else if j == 7 then a7
    else if j == 8 then a8 else if j == 9 then a9 else if j == 10 then a10 else if j == 11 then a11
    else if j == 12 then a12 else if j == 13 then a13 else if j == 14 then a14 else a15
  }

  function Tab(i: bv8): bv16 {
    if i < 0x10 then Pick(i & 15, 0x0000, 0x1021, 0x2042, 0x3063, 0x4084, 0x50a5, 0x60c6, 0x70e7,
           0x8108, 0x9129, 0xa14a, 0xb16b, 0xc18c, 0xd1ad, 0xe1ce, 0xf1ef)
    else if i < 0x20 then Pick(i & 15, 0x1231, 0x0210, 0x3273, 0x2252, 0x52b5, 0x4294, 0x72f7, 0x62d6,
           0x9339, 0x8318, 0xb37b, 0xa35a, 0xd3bd, 0xc39c, 0xf3ff, 0xe3de)
    else if i < 0x30 then Pick(i & 15, 0x2462, 0x3443, 0x0420, 0x1401, 0x64e6, 0x74c7, 0x44a4, 0x5485,
           0xa56a, 0xb54b, 0x8528, 0x9509, 0xe5ee, 0xf5cf, 0xc5ac, 0xd58d)
    else if i < 0x40 then Pick(i & 15, 0x3653, 0x2672, 0x1611, 0x0630, 0x76d7, 0x66f6, 0x5695, 0x46b4,
           0xb75b, 0xa77a, 0x9719, 0x8738, 0xf7df, 0xe7fe, 0xd79d, 0xc7bc)
    else if i < 0x50 then Pick(i & 15, 0x48c4, 0x58e5, 0x6886, 0x78a7, 0x0840, 0x1861, 0x2802, 0x3823,
           0xc9cc, 0xd9ed, 0xe98e, 0xf9af, 0x8948, 0x9969, 0xa90a, 0xb92b)
    else if i < 0x60 then Pick(i & 15, 0x5af5, 0x4ad4, 0x7ab7, 0x6a96, 0x1a71, 0x0a50, 0x3a33, 0x2a12,
           0xdbfd, 0xcbdc, 0xfbbf, 0xeb9e, 0x9b79, 0x8b58, 0xbb3b, 0xab1a)
    else if i < 0x70 then Pick(i & 15, 0x6ca6, 0x7c87, 0x4ce4, 0x5cc5, 0x2c22, 0x3c03, 0x0c60, 0x1c41,
           0xedae, 0xfd8f, 0xcdec, 0xddcd, 0xad2a, 0xbd0b, 0x8d68, 0x9d49)
    else if i < 0x80 then Pick(i & 15, 0x7e97, 0x6eb6, 0x5ed5, 0x4ef4, 0x3e13, 0x2e32, 0x1e51, 0x0e70,
           0xff9f, 0xefbe, 0xdfdd, 0xcffc, 0xbf1b, 0xaf3a, 0x9f59, 0x8f78)
    else if i < 0x90 then Pick(i & 15, 0x9188, 0x81a9, 0xb1ca, 0xa1eb, 0xd10c, 0xc12d, 0xf14e, 0xe16f,
           0x1080, 0x00a1, 0x30c2, 0x20e3, 0x5004, 0x4025, 0x7046, 0x6067)
    else if i < 0xa0 then Pick(i & 15, 0x83b9, 0x9398, 0xa3fb, 0xb3da, 0xc33d, 0xd31c, 0xe37f, 0xf35e,
           0x02b1, 0x1290, 0x22f3, 0x32d2, 0x4235, 0x5214, 0x6277, 0x7256)
    else if i < 0xb0 then Pick(i & 15, 0xb5ea, 0xa5cb, 0x95a8, 0x8589, 0xf56e, 0xe54f, 0xd52c, 0xc50d,
           0x34e2, 0x24c3, 0x14a0, 0x0481, 0x7466, 0x6447, 0x5424, 0x4405)
    else if i < 0xc0 then Pick(i & 15, 0xa7db, 0xb7fa, 0x8799, 0x97b8, 0xe75f, 0xf77e, 0xc71d, 0xd73c,
           0x26d3, 0x36f2, 0x0691, 0x16b0, 0x6657, 0x7676, 0x4615, 0x5634)
    else if i < 0xd0 then Pick(i & 15, 0xd94c, 0xc96d, 0xf90e, 0xe92f, 0x99c8, 0x89e9, 0xb98a, 0xa9ab,
           0x5844, 0x4865, 0x7806, 0x6827, 0x18c0, 0x08e1, 0x3882, 0x28a3)
    else if i < 0xe0 then Pick(i & 15, 0xcb7d, 0xdb5c, 0xeb3f, 0xfb1e, 0x8bf9, 0x9bd8, 0xabbb, 0xbb9a,
           0x4a75, 0x5a54, 0x6a37, 0x7a16, 0x0af1, 0x1ad0, 0x2ab3, 0x3a92)
    else if i < 0xf0 then Pick(i & 15, 0xfd2e, 0xed0f, 0xdd6c, 0xcd4d, 0xbdaa, 0xad8b, 0x9de8, 0x8dc9,
           0x7c26, 0x6c07, 0x5c64, 0x4c45, 0x3ca2, 0x2c83, 0x1ce0, 0x0cc1)
    else Pick(i & 15, 0xef1f, 0xff3e, 0xcf5d, 0xdf7c, 0xaf9b, 0xbfba, 0x8fd9, 0x9ff8,
           0x6e17, 0x7e36, 0x4e55, 0x5e74, 0x2e93, 0x3eb2, 0x0ed1, 0x1ef0)
  }

  /** Eight turns of the register with no message bits: what one table entry stands for. */
  function Eight(x: bv16): bv16 {
    var s: bv16 -> bv16 := (y: bv16) => Shift(y, false);
    s(s(s(s(s(s(s(s(x))))))))
  }

  lemma TabIsEight0(i: bv8)
    requires i < 0x40
    ensures Tab(i) == Eight(Place(i))
  {
  }

  lemma TabIsEight1(i: bv8)
    requires 0x40 <= i < 0x80
    ensures Tab(i) == Eight(Place(i))
  {
  }

  lemma TabIsEight2(i: bv8)
    requires 0x80 <= i < 0xc0
    ensures Tab(i) == Eight(Place(i))
  {
  }

  lemma TabIsEight3(i: bv8)
    requires 0xc0 <= i
    ensures Tab(i) == Eight(Place(i))
  {
  }

  lemma TabIsEight(i: bv8)
    ensures Tab(i) == Eight(Place(i))
  {
    hide Tab, Eight;
    if i < 0x40 { TabIsEight0(i); }
    else if i < 0x80 { TabIsEight1(i); }
    else if i < 0xc0 { TabIsEight2(i); }
    else { TabIsEight3(i); }
  }

  function Xor(x: bv16, y: bv16): bv16 { x ^ y }

  function Up(x: bv16): bv16 { x << 1 }

  predicate Top(x: bv16) { x & 0x8000 != 0 }

  lemma ShiftIs(x: bv16, bit: bool)
    ensures Shift(x, bit) == if Top(x) == bit then Up(x) else Xor(Up(x), 0x1021)
  {
  }

  lemma UpXor(c: bv16, r: bv16)
    ensures Up(Xor(c, r)) == Xor(Up(c), Up(r))
  {
  }

  lemma TopXor(c: bv16, r: bv16)
    ensures Top(Xor(c, r)) == (Top(c) != Top(r))
  {
  }

  lemma XorSwap(x: bv16, y: bv16, z: bv16)
    ensures Xor(Xor(x, y), z) == Xor(Xor(x, z), y)
  {
  }

  /** Adding r to the register before a turn adds r's leading bit to the message bit, and r moved up after it. */
  lemma ShiftMix(c: bv16, r: bv16)
    ensures Shift(Xor(c, r), false) == Xor(Shift(c, Top(r)), Up(r))
  {
    hide Xor, Up, Top, Shift;
    XorSwap(Up(c), Up(r), 0x1021);
    ShiftIs(Xor(c, r), false);
    ShiftIs(c, Top(r));
    UpXor(c, r);
    TopXor(c, r);
  }

  /** Eight turns on c plus r: r enters through the message bits as it moves up. */
  lemma EightMix(c: bv16, r: bv16, r1: bv16, r2: bv16, r3: bv16, r4: bv16, r5: bv16, r6: bv16, r7: bv16)
    requires r1 == Up(r) && r2 == Up(r1) && r3 == Up(r2) && r4 == Up(r3) && r5 == Up(r4) && r6 == Up(r5) && r7 == Up(r6)
    ensures Eight(Xor(c, r))
            == Xor(Shift(Shift(Shift(Shift(Shift(Shift(Shift(Shift(
                 c, Top(r)), Top(r1)), Top(r2)), Top(r3)), Top(r4)), Top(r5)), Top(r6)), Top(r7)), Up(r7))
  {
    hide Xor, Up, Top, Shift;
    var c1 := Shift(c, Top(r));
    var c2 := Shift(c1, Top(r1));
    var c3 := Shift(c2, Top(r2));
    var c4 := Shift(c3, Top(r3));
    var c5 := Shift(c4, Top(r4));
    var c6 := Shift(c5, Top(r5));
    ShiftMix(c, r);
    ShiftMix(c1, r1);
    ShiftMix(c2, r2);
    ShiftMix(c3, r3);
    ShiftMix(c4, r4);
    ShiftMix(c5, r5);
    ShiftMix(c6, r6);
    ShiftMix(Shift(c6, Top(r6)), r7);
  }

  lemma FeedTwo(crc: bv16, s: seq<bool>)
    requires |s| >= 2
    ensures Feed(crc, s) == Feed(Shift(Shift(crc, s[0]), s[1]), s[2..])
  {
    hide Shift;
    assert s[1..][1..] == s[2..];
  }

  lemma Feed8(crc: bv16, s: seq<bool>)
    requires |s| == 8
    ensures Feed(crc, s) == Shift(Shift(Shift(Shift(Shift(Shift(Shift(Shift(
                              crc, s[0]), s[1]), s[2]), s[3]), s[4]), s[5]), s[6]), s[7])
  {
    hide Shift;
    var c2 := Shift(Shift(crc, s[0]), s[1]);
    var c4 := Shift(Shift(c2, s[2]), s[3]);
    var c6 := Shift(Shift(c4, s[4]), s[5]);
    FeedTwo(crc, s);
    FeedTwo(c2, s[2..]);
    assert s[2..][2..] == s[4..];
    FeedTwo(c4, s[4..]);
    assert s[4..][2..] == s[6..];
    FeedTwo(c6, s[6..]);
    assert s[6..][2..] == [];
  }

  /** A byte in the upper half of the register; the lower half of the register; the table index. */
  function Place(b: bv8): bv16 { (b as bv16) << 8 }

  function Low(crc: bv16): bv16 { crc & 0xff }

  function Index(crc: bv16, b: bv8): bv8 { ((crc >> 8) as bv8) ^ b }

  function Lift(crc: bv16): bv16 { crc << 8 }

  lemma ByteTops(b: bv8)
    ensures Top(Place(b)) == (b & 0x80 != 0)
    ensures Top(Up(Place(b))) == (b & 0x40 != 0)
    ensures Top(Up(Up(Place(b)))) == (b & 0x20 != 0)
    ensures Top(Up(Up(Up(Place(b))))) == (b & 0x10 != 0)
    ensures Top(Up(Up(Up(Up(Place(b)))))) == (b & 0x08 != 0)
    ensures Top(Up(Up(Up(Up(Up(Place(b))))))) == (b & 0x04 != 0)
    ensures Top(Up(Up(Up(Up(Up(Up(Place(b)))))))) == (b & 0x02 != 0)
    ensures Top(Up(Up(Up(Up(Up(Up(Up(Place(b))))))))) == (b & 0x01 != 0)
    ensures Up(Up(Up(Up(Up(Up(Up(Up(Place(b))))))))) == 0
  {
  }

  lemma LowTops(crc: bv16)
    ensures !Top(Low(crc))
    ensures !Top(Up(Low(crc)))
    ensures !Top(Up(Up(Low(crc))))
    ensures !Top(Up(Up(Up(Low(crc)))))
    ensures !Top(Up(Up(Up(Up(Low(crc))))))
    ensures !Top(Up(Up(Up(Up(Up(Low(crc)))))))
    ensures !Top(Up(Up(Up(Up(Up(Up(Low(crc))))))))
    ensures !Top(Up(Up(Up(Up(Up(Up(Up(Low(crc)))))))))
    ensures Up(Up(Up(Up(Up(Up(Up(Up(Low(crc))))))))) == Lift(crc)
  {
  }

  lemma Halves(crc: bv16)
    ensures crc == Xor(Place((crc >> 8) as bv8), Low(crc))
  {
  }

  lemma PlaceXor(x: bv8, b: bv8)
    ensures Place(x ^ b) == Xor(Place(x), Place(b))
  {
  }

  lemma HighByte(crc: bv16, b: bv8)
    ensures Xor(crc, Place(b)) == Xor(Place(Index(crc, b)), Low(crc))
  {
    hide Xor, Place, Low;
    var x := (crc >> 8) as bv8;
    Halves(crc);
    PlaceXor(x, b);
    XorSwap(Place(x), Low(crc), Place(b));
  }

  /** The lower half of the register only moves up during eight turns. */
  lemma EightSplits(crc: bv16, b: bv8)
    ensures Eight(Xor(crc, Place(b))) == Xor(Eight(Place(Index(crc, b))), Lift(crc))
  {
    hide Xor, Up, Top, Shift, Place, Low, Index, Lift;
    HighByte(crc, b);
    LowTops(crc);
    var lo := Low(crc);
    EightMix(Place(Index(crc, b)), lo, Up(lo), Up(Up(lo)), Up(Up(Up(lo))), Up(Up(Up(Up(lo)))), Up(Up(Up(Up(Up(lo))))),
        Up(Up(Up(Up(Up(Up(lo)))))), Up(Up(Up(Up(Up(Up(Up(lo))))))));
  }

  lemma FeedByte(crc: bv16, b: bv8)
    ensures Feed(crc, Bits8(b)) == Eight(Xor(crc, Place(b)))
  {
    hide Xor, Up, Top, Shift, Eight, Feed, Place;
    ByteTops(b);
    XorZero(Feed(crc, Bits8(b)));
    Feed8(crc, Bits8(b));
    var r := Place(b);
    EightMix(crc, r, Up(r), Up(Up(r)), Up(Up(Up(r))), Up(Up(Up(Up(r)))), Up(Up(Up(Up(Up(r))))),
        Up(Up(Up(Up(Up(Up(r)))))), Up(Up(Up(Up(Up(Up(Up(r))))))));
  }

  lemma XorZero(x: bv16)
    ensures Xor(x, 0) == x
  {
  }

  lemma XorCommutes(x: bv16, y: bv16)
    ensures Xor(x, y) == Xor(y, x)
  {
  }

  function TableStep(crc: bv16, b: bv8): bv16 {
    Xor(Lift(crc), Tab(Index(crc, b)))
  }

  lemma TableStepIsFeed(crc: bv16, b: bv8)
    ensures TableStep(crc, b) == Feed(crc, Bits8(b))
  {
    hide Tab, Eight, Feed, Bits8, Xor, Place, Index, Lift;
    TabIsEight(Index(crc, b));
    EightSplits(crc, b);
    FeedByte(crc, b);
    XorCommutes(Tab(Index(crc, b)), Lift(crc));
  }

  /** The loop of CRC16 computes the remainder of the message, multiplied by x^16, on division by the generator. */
  method CRC16(buf: seq<bv8>) returns (crc: bv16)
    ensures crc == Crc(buf)
    ensures Bits16(crc).Sequence() == Remainder(MessageBits(buf))
  {
    hide Bits8, TableStep, Bits16, Shift;
    crc := 0;
    var i := 0;
    while i < |buf|
      invariant 0 <= i <= |buf|
      invariant Crc(buf) == Feed(crc, MessageBits(buf[i..]))
    {
      var b := buf[i];
      assert buf[i..][1..] == buf[i + 1..];
      TableStepIsFeed(crc, b);
      FeedConcat(crc, Bits8(b), MessageBits(buf[i + 1..]));
      crc := TableStep(crc, b);
      i := i + 1;
    }
    CrcIsRemainder(buf);
  }

  function Crc(buf: seq<bv8>): bv16 {
    Feed(0, MessageBits(buf))
  }

  lemma CrcIsRemainder(buf: seq<bv8>)
    ensures Bits16(Crc(buf)).Sequence() == Remainder(MessageBits(buf))
  {
    var m := MessageBits(buf);
    FeedIsDivision(0, m);
    assert Mixed(Bits16(0), m) == m + Zeros(16) by {
      assert forall i: nat :: !Bits16(0).At(i);
    }
  }

  lemma SameBits(x: bv16, y: bv16)
    ensures Bits16(x).Sequence() == Bits16(y).Sequence() ==> x == y
  {
    SameCoefficients(Bits16(x), Bits16(y));
    if Bits16(x).Sequence() == Bits16(y).Sequence() { SameWord(x, y); }
  }

  lemma SameCoefficients(a: Coefficients, b: Coefficients)
    ensures a.Sequence() == b.Sequence() ==> a == b
  {
    hide Coefficients.At;
    if a.Sequence() == b.Sequence() {
      forall i: nat | i < 16 ensures a.At(i) == b.At(i) { assert a.Sequence()[i] == b.Sequence()[i]; }
      EachCoefficient(a, b);
    }
  }

  lemma EachCoefficient(a: Coefficients, b: Coefficients)
    requires forall i: nat | i < 16 :: a.At(i) == b.At(i)
    ensures a == b
  {
    hide Coefficients.At;
    AtFirst(a);
    AtFirst(b);
    AtSecond(a);
    AtSecond(b);
    AtThird(a);
    AtThird(b);
    AtLast(a);
    AtLast(b);
  }

  lemma AtFirst(a: Coefficients)
    ensures a.At(0) == a.b0 && a.At(1) == a.b1
    ensures a.At(2) == a.b2 && a.At(3) == a.b3
  {
  }

  lemma AtSecond(a: Coefficients)
    ensures a.At(4) == a.b4 && a.At(5) == a.b5
    ensures a.At(6) == a.b6 && a.At(7) == a.b7
  {
  }

  lemma AtThird(a: Coefficients)
    ensures a.At(8) == a.b8 && a.At(9) == a.b9
    ensures a.At(10) == a.b10 && a.At(11) == a.b11
  {
  }

  lemma AtLast(a: Coefficients)
    ensures a.At(12) == a.b12 && a.At(13) == a.b13
    ensures a.At(14) == a.b14 && a.At(15) == a.b15
  {
  }

  lemma SameWord(x: bv16, y: bv16)
    requires Bits16(x) == Bits16(y)
    ensures x == y
  {
  }

  /** The CRC is the only word whose coefficients are the remainder. */
  lemma CrcExactly(buf: seq<bv8>, crc: bv16)
    requires Bits16(crc).Sequence() == Remainder(MessageBits(buf))
    ensures Crc(buf) == crc
  {
    hide Remainder, MessageBits, Crc, Bits16;
    CrcIsRemainder(buf);
    SameBits(crc, Crc(buf));
  }

  /** "foo". */
  lemma FooCrc()
    ensures Crc([0x66, 0x6f, 0x6f]) == 0xaf96
  {
    hide TableStep, Feed, Bits8;
    FooSteps();
    TableStepIsFeed(0, 0x66);
    TableStepIsFeed(0x0c60, 0x6f);
    TableStepIsFeed(0x3cc5, 0x6f);
    var f, o := Bits8(0x66), Bits8(0x6f);
    FeedConcat(0, f, o + o);
    FeedConcat(0x0c60, o, o);
    var buf: seq<bv8> := [0x66, 0x6f, 0x6f];
    assert buf[1..] == [0x6f, 0x6f] && buf[1..][1..] == [0x6f] && buf[1..][1..][1..] == [];
    assert MessageBits(buf) == f + (o + (o + [])) == f + (o + o);
  }

  lemma FooSteps()
    ensures TableStep(0, 0x66) == 0x0c60 && TableStep(0x0c60, 0x6f) == 0x3cc5 && TableStep(0x3cc5, 0x6f) == 0xaf96
  {
  }
}
