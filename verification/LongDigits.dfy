/** Reading an arbitrary-precision Python integer into a C long long: the LongObject constructor in
    pytypes.cpp, on a 64-bit machine (30-bit digits). */
module LongDigits {
  import opened Basics
  import opened NativeFrames

  const SHIFT: nat := 30
  const DIGIT_BASE: int := 0x4000_0000
  const MAX_LONG_LONG: int := TWO_63 - 1

  type digit = d: int | 0 <= d < DIGIT_BASE

  /** `UndefinedShift` is a shift of a 64-bit one by 64 or more places. */
  datatype Folded = Value(v: int) | Overflowed | UndefinedShift

  /** The number the digits stand for, least significant digit first. */
  function Magnitude(digits: seq<digit>): nat {
    if digits == [] then 0 else digits[0] + DIGIT_BASE * Magnitude(digits[1..])
  }

  /** The loop from digit `i` on: shift, multiply with overflow check, add with overflow check. */
  function FoldFrom(digits: seq<digit>, i: nat, value: int): Folded
    decreases |digits| - i
  {
    if i >= |digits| then Value(value)
    else if SHIFT * i >= 64 then UndefinedShift
    else
      var factor := digits[i] * Pow2(SHIFT * i);
      if factor > MAX_LONG_LONG then Overflowed
      else if value + factor > MAX_LONG_LONG then Overflowed
      else FoldFrom(digits, i + 1, value + factor)
  }

  /** The sign and the number of digits, from the header word of the object. */
  function DecodeHeader(v: Version, word: word64): (bool, nat) {
    if v.AtLeast(Version(3, 12)) then (word % 4 == 2, word / 8)
    else
      var obSize := if word < TWO_63 then word else word - TWO_64;
      (obSize < 0, if obSize < 0 then -obSize else obSize)
  }

  function Signed(negative: bool, r: Folded): Folded {
    if r.Value? && negative then Value(-1 * r.v) else r
  }

  method ReadLong(negative: bool, digits: seq<digit>) returns (r: Folded)
    ensures r == Signed(negative, FoldFrom(digits, 0, 0))
  {
    var value := 0;
    for i := 0 to |digits|
      invariant FoldFrom(digits, i, value) == FoldFrom(digits, 0, 0)
    {
      if SHIFT * i >= 64 {
        return UndefinedShift;
      }
      var factor := digits[i] * Pow2(SHIFT * i);
      if factor > MAX_LONG_LONG {
        return Overflowed;
      }
      if value + factor > MAX_LONG_LONG {
        return Overflowed;
      }
      value := value + factor;
    }
    return Value(if negative then -1 * value else value);
  }

  // ----- What the loop computes

  lemma {:induction false} Powers()
    ensures Pow2(0) == 1 && Pow2(30) == DIGIT_BASE && Pow2(60) == DIGIT_BASE * DIGIT_BASE
  {
    Doubled(0);
    Doubled(10);
    Doubled(20);
    Doubled(30);
    Doubled(40);
    Doubled(50);
  }

  lemma {:induction false} Doubled(n: nat)
    ensures Pow2(n + 10) == 1024 * Pow2(n)
  {
    assert Pow2(n + 10) == 2 * Pow2(n + 9) == 4 * Pow2(n + 8) == 8 * Pow2(n + 7) == 16 * Pow2(n + 6);
    assert Pow2(n + 6) == 2 * Pow2(n + 5);
    assert Pow2(n + 5) == 2 * Pow2(n + 4) == 4 * Pow2(n + 3) == 8 * Pow2(n + 2) == 16 * Pow2(n + 1) == 32 * Pow2(n);
  }

  /** The loop on up to three digits, and on the first three of more. Only the multiplication can
      overflow: the sum of the factors seen so far always fits. */
  lemma {:induction false} FoldUnrolled(digits: seq<digit>)
    ensures FoldFrom(digits, 0, 0) ==
      if |digits| <= 2 then Value(Magnitude(digits))
      else if digits[2] >= 8 then Overflowed
      else if |digits| == 3 then Value(Magnitude(digits))
      else UndefinedShift
  {
    Powers();
    hide Pow2;
    MagnitudeUnrolled(digits);
    if |digits| > 0 {
      var d0 := digits[0];
      assert FoldFrom(digits, 0, 0) == FoldFrom(digits, 1, d0);
      if |digits| > 1 {
        var d1 := d0 + digits[1] * DIGIT_BASE;
        assert d1 < DIGIT_BASE * DIGIT_BASE;
        assert FoldFrom(digits, 1, d0) == FoldFrom(digits, 2, d1);
        if |digits| > 2 {
          var factor := digits[2] * (DIGIT_BASE * DIGIT_BASE);
          assert factor > MAX_LONG_LONG <==> digits[2] >= 8;
          if digits[2] < 8 {
            assert FoldFrom(digits, 2, d1) == FoldFrom(digits, 3, d1 + factor);
          }
        }
      }
    }
  }

  lemma {:induction false} MagnitudeUnrolled(digits: seq<digit>)
    ensures digits == [] ==> Magnitude(digits) == 0
    ensures |digits| == 1 ==> Magnitude(digits) == digits[0]
    ensures |digits| == 2 ==> Magnitude(digits) == digits[0] + DIGIT_BASE * digits[1]
    ensures |digits| == 3 ==>
      Magnitude(digits) == digits[0] + DIGIT_BASE * digits[1] + DIGIT_BASE * DIGIT_BASE * digits[2]
    ensures |digits| >= 3 && digits[2] >= 8 ==> Magnitude(digits) > MAX_LONG_LONG
  {
    hide Magnitude;
    MagnitudeStep(digits);
    if digits != [] {
      MagnitudeStep(digits[1..]);
      if |digits| > 1 {
        MagnitudeStep(digits[2..]);
        assert digits[1..][1..] == digits[2..];
        if |digits| > 2 {
          assert digits[2..][1..] == digits[3..];
          MagnitudeStep(digits[3..]);
        }
      }
    }
  }

  lemma {:induction false} MagnitudeStep(digits: seq<digit>)
    ensures Magnitude(digits) == if digits == [] then 0 else digits[0] + DIGIT_BASE * Magnitude(digits[1..])
  {
  }

  /** Integer folding. The shift is undefined exactly for four or more digits with a third digit below
      eight; in every other case the result is the magnitude if that fits a long long, and an overflow
      if and only if it does not. */
  lemma {:induction false} FoldIsMagnitude(digits: seq<digit>)
    ensures var r := FoldFrom(digits, 0, 0);
      && (r.UndefinedShift? <==> |digits| >= 4 && digits[2] < 8)
      && (!r.UndefinedShift? ==>
            && (r.Overflowed? <==> Magnitude(digits) > MAX_LONG_LONG)
            && (r.Value? ==> r.v == Magnitude(digits)))
  {
    FoldUnrolled(digits);
    MagnitudeUnrolled(digits);
  }

  /** A number whose digits reach the undefined shift: two to the ninetieth. */
  lemma {:induction false} TwoToTheNinety()
    ensures FoldFrom([0, 0, 0, 1], 0, 0).UndefinedShift?
  {
    FoldIsMagnitude([0, 0, 0, 1]);
  }

  // ----- Every number

  function DigitsOf(n: nat): (r: seq<digit>)
    ensures r != [] ==> r[|r| - 1] != 0
    ensures r == [] <==> n == 0
  {
    if n == 0 then [] else [n % DIGIT_BASE] + DigitsOf(n / DIGIT_BASE)
  }

  /** The header words CPython writes for a number with the given sign and digit count. */
  function EncodeHeader(v: Version, negative: bool, count: nat): word64
    requires count < TWO_64 / 8 && (negative ==> count > 0)
  {
    if v.AtLeast(Version(3, 12)) then 8 * count + (if count == 0 then 1 else if negative then 2 else 0)
    else if negative then TWO_64 - count
    else count
  }

  lemma {:induction false} HeaderRoundTrip(v: Version, negative: bool, count: nat)
    requires count < TWO_64 / 8 && (negative ==> count > 0)
    ensures DecodeHeader(v, EncodeHeader(v, negative, count)) == (negative, count)
  {
    TagParts(count, 0);
    TagParts(count, 1);
    TagParts(count, 2);
  }

  lemma {:induction false} TagParts(count: nat, sign: nat)
    requires sign < 3
    ensures (8 * count + sign) / 8 == count && (8 * count + sign) % 4 == sign
  {
    var word := 8 * count + sign;
    assert 8 * (word / 8) <= word < 8 * (word / 8) + 8;
    assert word == 4 * (word / 4) + word % 4 && word / 4 == 2 * count;
    assert 8 * count + sign == 4 * (2 * count) + sign;
  }

  lemma {:induction false} MagnitudeOfDigits(n: nat)
    ensures Magnitude(DigitsOf(n)) == n
  {
    if n != 0 {
      MagnitudeOfDigits(n / DIGIT_BASE);
      assert DigitsOf(n)[1..] == DigitsOf(n / DIGIT_BASE);
    }
  }

  function Abs(x: int): nat {
    if x < 0 then -x else x
  }

  /** Read from its digits, an integer comes back itself exactly when its magnitude is below 2^63; all
      others overflow or, from 2^90 on, may reach the undefined shift, never a wrong value. */
  lemma {:induction false} EveryInteger(x: int)
    ensures var r := Signed(x < 0, FoldFrom(DigitsOf(Abs(x)), 0, 0));
      && (r == Value(x) <==> Abs(x) <= MAX_LONG_LONG)
      && (r.Value? ==> r.v == x)
      && (r.UndefinedShift? ==> Abs(x) >= DIGIT_BASE * DIGIT_BASE * DIGIT_BASE)
  {
    var digits := DigitsOf(Abs(x));
    MagnitudeOfDigits(Abs(x));
    FoldIsMagnitude(digits);
    if |digits| >= 4 {
      FourDigits(digits);
    }
  }

  lemma {:induction false} FourDigits(digits: seq<digit>)
    requires |digits| >= 4 && digits[|digits| - 1] != 0
    ensures Magnitude(digits) >= DIGIT_BASE * DIGIT_BASE * DIGIT_BASE
  {
    var t1 := digits[1..];
    var t2 := t1[1..];
    var t3 := t2[1..];
    AtLeastOne(t3);
    assert Magnitude(t2) >= DIGIT_BASE;
    assert Magnitude(t1) >= DIGIT_BASE * DIGIT_BASE;
  }

  lemma {:induction false} AtLeastOne(digits: seq<digit>)
    requires digits != [] && digits[|digits| - 1] != 0
    ensures Magnitude(digits) >= 1
  {
    if |digits| > 1 {
      AtLeastOne(digits[1..]);
    }
  }
}
