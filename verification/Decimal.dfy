/** strconv.AppendInt and strconv.ParseInt, base 10, 64 bits. */
module Decimal {
  import opened Words

  predicate IsInt64(i: int) {
    -TWO63 <= i < TWO63
  }

  function Digits(n: nat): (s: Bytes)
    ensures |s| >= 1
  {
    if n < 10 then [48 + n] else Digits(n / 10) + [48 + n % 10]
  }

  function Print(i: int): (s: Bytes) {
    if i < 0 then [45] + Digits(-i) else Digits(i)
  }

  predicate AllDigits(s: Bytes) {
    forall i | 0 <= i < |s| :: 48 <= s[i] <= 57
  }

  function Magnitude(s: Bytes): nat
    requires AllDigits(s)
  {
    if s == [] then 0 else 10 * Magnitude(s[..|s| - 1]) + (s[|s| - 1] - 48)
  }

  function ParseInt(s: Bytes): Option<int> {
    var signed := s != [] && (s[0] == 43 || s[0] == 45);
    var body := if signed then s[1..] else s;
    if body == [] || !AllDigits(body) then None
    else
      var m: int := Magnitude(body);
      var v := if signed && s[0] == 45 then -m else m;
      if IsInt64(v) then Some(v) else None
  }

  lemma {:induction false} DigitsParse(n: nat)
    ensures AllDigits(Digits(n)) && Magnitude(Digits(n)) == n
  {
    if n >= 10 {
      DigitsParse(n / 10);
      var s := Digits(n);
      assert s[..|s| - 1] == Digits(n / 10);
    } else {
      assert Digits(n)[..0] == [];
    }
  }

  /** Parsing undoes printing for every 64-bit integer. */
  lemma ParsePrint(i: int)
    requires IsInt64(i)
    ensures ParseInt(Print(i)) == Some(i)
    ensures forall k | 0 <= k < |Print(i)| :: Print(i)[k] == 45 || 48 <= Print(i)[k] <= 57
  {
    hide Digits, Magnitude;
    DigitsParse(if i < 0 then -i else i);
    if i < 0 {
      assert Print(i)[1..] == Digits(-i);
    }
  }

  lemma ParseRange(s: Bytes)
    ensures ParseInt(s).Some? ==> IsInt64(ParseInt(s).value)
  {
  }

  lemma PrintsMinus120()
    ensures Print(-120) == [45, 49, 50, 48] && Print(0) == [48]
  {
    assert Digits(1) == [49] && Digits(12) == [49, 50];
  }

  /** A sign and leading zeros are read; an empty body and any other character are refused. */
  lemma ReadsAndRefuses()
    ensures ParseInt([43, 48, 53]) == Some(5) && ParseInt([45, 55]) == Some(-7)
    ensures ParseInt([]) == None && ParseInt([45]) == None && ParseInt([49, 97]) == None
  {
    assert [43, 48, 53][1..] == [48, 53] && [48, 53][..1] == [48] && [48][..0] == [];
    assert [45, 55][1..] == [55] && [55][..0] == [];
    assert [45][1..] == [];
    assert [49, 97][1] == 97;
  }

  /** Digits of 2^63 and more are refused. */
  lemma TooManyDigits(n: nat)
    ensures ParseInt(Digits(n)) == if n < TWO63 then Some(n) else None
  {
    hide Digits, Magnitude;
    DigitsParse(n);
    assert AllDigits(Digits(n)) && 48 <= Digits(n)[0] <= 57;
  }
}
