/**
 The canonical notation of a number, told from the number itself: when it is plain and when
 scientific, and that neither has a needless zero.
 */
module Notation {
  import opened Decimal

  // ----- the size of a scaled number

  lemma {:induction false} FractionBounds(s: string)
    requires AllDigits(s)
    ensures 0.0 <= FractionValue(s) < 1.0
  {
    if s != [] {
      FractionBounds(s[1..]);
    }
  }

  function Ten(e: int): real {
    Scale(1.0, e)
  }

  lemma {:induction false} ScaleIsProduct(x: real, e: int)
    ensures Scale(x, e) == x * Ten(e)
    decreases Magnitude(e)
  {
    if e > 0 {
      ScaleIsProduct(10.0 * x, e - 1);
      ScaleIsProduct(10.0, e - 1);
      assert (10.0 * x) * Ten(e - 1) == x * (10.0 * Ten(e - 1));
    } else if e < 0 {
      ScaleIsProduct(x / 10.0, e + 1);
      ScaleIsProduct(1.0 / 10.0, e + 1);
      assert (x / 10.0) * Ten(e + 1) == x * ((1.0 / 10.0) * Ten(e + 1));
    }
  }

  lemma TenTimes(e: int)
    ensures Ten(e + 1) == 10.0 * Ten(e)
  {
    ScaleTen(1.0, e);
    ScaleIsProduct(10.0, e);
  }

  lemma {:induction false} TenIsPositive(e: int)
    ensures Ten(e) > 0.0
    decreases Magnitude(e)
  {
    if e > 0 {
      TenTimes(e - 1);
      TenIsPositive(e - 1);
    } else if e < 0 {
      TenTimes(e);
      TenIsPositive(e + 1);
    }
  }

  lemma {:induction false} TenGrows(a: int, b: int)
    requires a <= b
    ensures Ten(a) <= Ten(b)
    decreases b - a
  {
    if a < b {
      TenGrows(a, b - 1);
      TenTimes(b - 1);
      TenIsPositive(b - 1);
    }
  }

  lemma Thresholds()
    ensures Ten(-4) == 1.0 / 10000.0 && Ten(16) == 10000000000000000.0
  {
    assert Ten(-2) == 1.0 / 100.0;
    TenTimes(-3);
    TenTimes(-4);
    assert Ten(4) == 10000.0;
    TenTimes(4);
    TenTimes(5);
    TenTimes(6);
    TenTimes(7);
    TenTimes(8);
    TenTimes(9);
    TenTimes(10);
    TenTimes(11);
    TenTimes(12);
    TenTimes(13);
    TenTimes(14);
    TenTimes(15);
  }

  /** A number with one digit before the point lies between its power of ten and the next. */
  lemma ScaleBounds(x: real, e: int)
    requires 1.0 <= x < 10.0
    ensures Ten(e) <= Scale(x, e) < Ten(e + 1)
  {
    ScaleIsProduct(x, e);
    TenTimes(e);
    TenIsPositive(e);
    var p := Ten(e);
    assert (x - 1.0) * p >= 0.0;
    assert (10.0 - x) * p > 0.0;
  }

  function Absolute(x: real): real {
    if x < 0.0 then -x else x
  }

  lemma {:induction false} FirstDigit(d: Decimal)
    requires Normalized(d) && d.Finite?
    ensures Ten(d.exponent) <= Absolute(DecimalValue(d)) < Ten(d.exponent + 1)
  {
    FractionBounds(d.digits[1..]);
    TenIsPositive(d.exponent);
    ScaleBounds(DigitValue(d.digits[0]) as real + FractionValue(d.digits[1..]), d.exponent);
  }

  // ----- the notation

  /** Zero, and the numbers from a ten-thousandth up to ten to the sixteenth. */
  predicate IsPlain(x: real) {
    x == 0.0 || 1.0 / 10000.0 <= Absolute(x) < 10000000000000000.0
  }

  /** The canonical token has no exponent exactly for plain numbers. */
  lemma PlainHasNoExponent(d: Decimal)
    requires Normalized(d)
    ensures LayoutToken(d).exponent.None? <==> IsPlain(DecimalValue(d))
    ensures d.Zero? <==> DecimalValue(d) == 0.0
  {
    if d.Finite? {
      FirstDigit(d);
      Thresholds();
      TenIsPositive(d.exponent);
      if d.exponent >= -4 {
        TenGrows(-4, d.exponent);
      } else {
        TenGrows(d.exponent + 1, -4);
      }
      if d.exponent < 16 {
        TenGrows(d.exponent + 1, 16);
      } else {
        TenGrows(16, d.exponent);
      }
    }
  }

  predicate EndsInZero(s: string) {
    s != [] && s[|s| - 1] == '0'
  }

  /** A point with digits on both sides, and no zero at either end but one next to the point. */
  predicate PlainShape(t: Token) {
    && t.exponent.None? && t.fraction.Some? && t.integer != [] && t.fraction.value != []
    && (t.integer[0] == '0' ==> |t.integer| == 1)
    && (EndsInZero(t.fraction.value) ==> |t.fraction.value| == 1)
  }

  /**
   One digit that is not zero, a point only before more digits, which do not end in a zero, and an
   exponent of at least two digits, with a zero in front only if there are exactly two.
   */
  predicate ScientificShape(t: Token) {
    && |t.integer| == 1 && t.integer[0] != '0'
    && (t.fraction.Some? ==> t.fraction.value != [] && !EndsInZero(t.fraction.value))
    && t.exponent.Some? && |t.exponent.value.digits| >= 2
    && (t.exponent.value.digits[0] == '0' ==> |t.exponent.value.digits| == 2)
  }

  lemma PaddedShape(e: int)
    ensures |PaddedExponent(e)| >= 2 && (PaddedExponent(e)[0] == '0' ==> |PaddedExponent(e)| == 2)
  {
    NatTextReads(Magnitude(e));
    if Magnitude(e) >= 10 {
      assert NatText(Magnitude(e)) == NatText(Magnitude(e) / 10) + [DigitChar(Magnitude(e) % 10)];
    } else {
      assert NatText(Magnitude(e)) == [DigitChar(Magnitude(e))];
    }
  }

  lemma PlainToken(d: Decimal)
    requires Normalized(d) && LayoutToken(d).exponent.None?
    ensures PlainShape(LayoutToken(d))
  {
  }

  lemma ScientificToken(d: Decimal)
    requires Normalized(d) && LayoutToken(d).exponent.Some?
    ensures ScientificShape(LayoutToken(d))
  {
    PaddedShape(d.exponent);
  }

  /** Each number is written in the notation of its size, with its own sign and no needless zero. */
  lemma CanonicalNotation(d: Decimal)
    requires Normalized(d)
    ensures LayoutToken(d).negative == d.negative
    ensures if IsPlain(DecimalValue(d)) then PlainShape(LayoutToken(d)) else ScientificShape(LayoutToken(d))
  {
    PlainHasNoExponent(d);
    if LayoutToken(d).exponent.None? {
      PlainToken(d);
    } else {
      ScientificToken(d);
    }
  }

  lemma ExponentSign(d: Decimal)
    requires Normalized(d) && LayoutToken(d).exponent.Some?
    ensures LayoutToken(d).exponent.value.negative <==> Absolute(DecimalValue(d)) < 1.0
  {
    FirstDigit(d);
    if d.exponent < 0 {
      TenGrows(d.exponent + 1, 0);
    } else {
      TenGrows(0, d.exponent);
    }
  }

  lemma PlainTokenText(t: Token)
    requires PlainShape(t)
    ensures TokenText(t) == (if t.negative then "-" else "") + t.integer + "." + t.fraction.value
  {
  }

  lemma ScientificTokenText(t: Token)
    requires t.exponent.Some?
    ensures TokenText(t) == (if t.negative then "-" else "") + t.integer
                            + (if t.fraction.None? then "" else "." + t.fraction.value)
                            + (if t.exponent.value.negative then "e-" else "e+") + t.exponent.value.digits
  {
  }

  /** The text of a plain number, piece by piece. */
  lemma PlainText(d: Decimal) returns (integer: string, fraction: string)
    requires Normalized(d) && IsPlain(DecimalValue(d))
    ensures Layout(d) == (if d.negative then "-" else "") + integer + "." + fraction
    ensures AllDigits(integer) && AllDigits(fraction) && integer != "" && fraction != ""
    ensures (integer[0] == '0' ==> |integer| == 1) && (EndsInZero(fraction) ==> |fraction| == 1)
  {
    var t := LayoutToken(d);
    CanonicalNotation(d);
    PlainTokenText(t);
    integer, fraction := t.integer, t.fraction.value;
  }

  /** The text of any other number: the exponent's sign is that of the number's size. */
  lemma ScientificText(d: Decimal) returns (integer: string, fraction: string, power: string)
    requires Normalized(d) && !IsPlain(DecimalValue(d))
    ensures Layout(d) == (if d.negative then "-" else "") + integer
                         + (if fraction == "" then "" else "." + fraction)
                         + (if Absolute(DecimalValue(d)) < 1.0 then "e-" else "e+") + power
    ensures AllDigits(integer) && AllDigits(fraction) && AllDigits(power)
    ensures |integer| == 1 && integer[0] != '0' && !EndsInZero(fraction)
    ensures |power| >= 2 && (power[0] == '0' ==> |power| == 2)
  {
    var t := LayoutToken(d);
    CanonicalNotation(d);
    ScientificTokenText(t);
    ExponentSign(d);
    integer, fraction, power := t.integer, FractionDigits(t.fraction), t.exponent.value.digits;
  }
}
