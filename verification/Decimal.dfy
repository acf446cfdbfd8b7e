/**
 Decimal numbers as JSON writes them.  A binary64 value enters the model as its shortest
 decimal: a sign, significant digits and the exponent of the first of them.  The canonical
 token of such a decimal reads back as the same decimal, and denotes the same real number.
 */
module Decimal {
  import opened Prelude

  // ----- digit strings

  predicate IsDigit(c: char) {
    '0' <= c <= '9'
  }

  predicate AllDigits(s: string) {
    forall i | 0 <= i < |s| :: IsDigit(s[i])
  }

  function DigitValue(c: char): int {
    c as int - '0' as int
  }

  function DigitChar(n: nat): (c: char)
    requires n < 10
    ensures IsDigit(c) && DigitValue(c) == n
  {
    (n + '0' as int) as char
  }

  /** The number that a digit string writes. */
  function NatOf(s: string): nat
    requires AllDigits(s)
  {
    if s == [] then 0 else 10 * NatOf(s[..|s| - 1]) + DigitValue(s[|s| - 1])
  }

  /** The decimal text of a number, without leading zeros. */
  function NatText(n: nat): (s: string)
    ensures |s| > 0 && AllDigits(s)
  {
    if n < 10 then [DigitChar(n)] else NatText(n / 10) + [DigitChar(n % 10)]
  }

  function Zeros(n: nat): (s: string)
    ensures |s| == n && AllDigits(s) && forall i | 0 <= i < n :: s[i] == '0'
  {
    RepeatIs('0', n);
    Repeat('0', n)
  }

  lemma {:induction false} NatTextReads(n: nat)
    ensures NatOf(NatText(n)) == n
    ensures NatText(n)[0] == '0' ==> NatText(n) == "0"
  {
    if n >= 10 {
      NatTextReads(n / 10);
      assert NatText(n)[..|NatText(n)| - 1] == NatText(n / 10);
    }
  }

  /** Without leading zeros a number has one spelling. */
  lemma {:induction false} NatTextOfDigits(s: string)
    requires s != [] && AllDigits(s) && (s[0] == '0' ==> s == "0")
    ensures NatText(NatOf(s)) == s
  {
    if |s| == 1 {
      assert NatOf(s[..0]) == 0;
      assert s == [DigitChar(DigitValue(s[0]))];
    } else {
      var p, last := s[..|s| - 1], s[|s| - 1];
      NatTextOfDigits(p);
      NatOfPositive(p);
      assert s == p + [last];
      NextDigit(NatOf(p), last);
    }
  }

  lemma NextDigit(n: nat, c: char)
    requires n > 0 && IsDigit(c)
    ensures NatText(10 * n + DigitValue(c)) == NatText(n) + [c]
  {
    assert (10 * n + DigitValue(c)) / 10 == n && (10 * n + DigitValue(c)) % 10 == DigitValue(c);
    assert DigitChar(DigitValue(c)) == c;
  }

  lemma {:induction false} NatOfPositive(s: string)
    requires s != [] && AllDigits(s) && s[0] != '0'
    ensures NatOf(s) > 0
  {
    if |s| > 1 {
      NatOfPositive(s[..|s| - 1]);
    }
  }

  // ----- number tokens (section 6 of RFC 8259)

  datatype Exponent = Exponent(negative: bool, digits: string)

  datatype Token = Token(negative: bool, integer: string, fraction: Option<string>, exponent: Option<Exponent>)

  predicate IsIntegerPart(s: string) {
    s != [] && AllDigits(s) && (s[0] == '0' ==> |s| == 1)
  }

  predicate WellFormedToken(t: Token) {
    && IsIntegerPart(t.integer)
    && (t.fraction.Some? ==> t.fraction.value != [] && AllDigits(t.fraction.value))
    && (t.exponent.Some? ==> t.exponent.value.digits != [] && AllDigits(t.exponent.value.digits))
  }

  /** The digits after the point, if there is one. */
  function FractionDigits(f: Option<string>): string {
    if f.Some? then f.value else []
  }

  function ExponentValue(t: Token): int
    requires WellFormedToken(t)
  {
    if t.exponent.None? then 0
    else if t.exponent.value.negative then -(NatOf(t.exponent.value.digits) as int)
    else NatOf(t.exponent.value.digits)
  }

  function FractionText(f: Option<string>): string {
    if f.Some? then "." + f.value else ""
  }

  function ExponentText(e: Option<Exponent>): string {
    if e.Some? then (if e.value.negative then "e-" else "e+") + e.value.digits else ""
  }

  /** A token's text, with an explicit sign and lower-case marker on the exponent. */
  function TokenText(t: Token): string {
    (if t.negative then "-" else "") + t.integer + FractionText(t.fraction) + ExponentText(t.exponent)
  }

  // ----- normalized decimals

  /** `Finite(neg, d0 d1 d2 ..., e)` is +-d0.d1d2... times 10^e. */
  datatype Decimal = Zero(negative: bool) | Finite(negative: bool, digits: string, exponent: int)

  predicate Normalized(d: Decimal) {
    d.Finite? ==>
      d.digits != [] && AllDigits(d.digits) && d.digits[0] != '0' && d.digits[|d.digits| - 1] != '0'
  }

  function DropLeadingZeros(s: string): string {
    if s != [] && s[0] == '0' then DropLeadingZeros(s[1..]) else s
  }

  function DropTrailingZeros(s: string): string {
    if s != [] && s[|s| - 1] == '0' then DropTrailingZeros(s[..|s| - 1]) else s
  }

  /** The decimal +-d0.d1d2... times 10^exponent for any digits, zeros at either end included. */
  function Normalize(negative: bool, digits: string, exponent: int): (d: Decimal)
    requires AllDigits(digits)
    ensures Normalized(d)
  {
    DropLeadingKeepsDigits(digits);
    var kept := DropLeadingZeros(digits);
    DropTrailingKeepsDigits(kept);
    if kept == [] then Zero(negative)
    else Finite(negative, DropTrailingZeros(kept), exponent - (|digits| - |kept|))
  }

  lemma {:induction false} DropLeadingKeepsDigits(s: string)
    requires AllDigits(s)
    ensures AllDigits(DropLeadingZeros(s)) && |DropLeadingZeros(s)| <= |s|
    ensures DropLeadingZeros(s) != [] ==> DropLeadingZeros(s)[0] != '0'
  {
    if s != [] && s[0] == '0' {
      DropLeadingKeepsDigits(s[1..]);
    }
  }

  lemma {:induction false} DropTrailingKeepsDigits(s: string)
    requires AllDigits(s)
    ensures AllDigits(DropTrailingZeros(s)) && |DropTrailingZeros(s)| <= |s|
    ensures DropTrailingZeros(s) != [] ==> DropTrailingZeros(s)[|DropTrailingZeros(s)| - 1] != '0'
    ensures s != [] && s[0] != '0' ==> DropTrailingZeros(s) != [] && DropTrailingZeros(s)[0] == s[0]
  {
    if s != [] && s[|s| - 1] == '0' {
      DropTrailingKeepsDigits(s[..|s| - 1]);
    }
  }

  /** The decimal that a token writes. */
  function TokenDecimal(t: Token): (d: Decimal)
    requires WellFormedToken(t)
    ensures Normalized(d)
  {
    Normalize(t.negative, t.integer + FractionDigits(t.fraction), ExponentValue(t) + |t.integer| - 1)
  }

  // ----- the canonical layout

  function Magnitude(e: int): nat {
    if e < 0 then -e else e
  }

  /** The exponent's digits, at least two of them. */
  function PaddedExponent(e: int): (s: string)
    ensures s != [] && AllDigits(s)
  {
    if Magnitude(e) < 10 then "0" + NatText(Magnitude(e)) else NatText(Magnitude(e))
  }

  predicate UsesFixedPoint(exponent: int) {
    -4 <= exponent < 16
  }

  function LayoutToken(d: Decimal): (t: Token)
    requires Normalized(d)
    ensures WellFormedToken(t)
  {
    match d
    case Zero(negative) => Token(negative, "0", Some("0"), None)
    case Finite(negative, digits, exponent) =>
      var point := exponent + 1;
      if !UsesFixedPoint(exponent) then
        Token(negative, digits[..1], if |digits| > 1 then Some(digits[1..]) else None,
              Some(Exponent(exponent < 0, PaddedExponent(exponent))))
      else if point <= 0 then Token(negative, "0", Some(Zeros(-point) + digits), None)
      else if point < |digits| then Token(negative, digits[..point], Some(digits[point..]), None)
      else Token(negative, digits + Zeros(point - |digits|), Some("0"), None)
  }

  function Layout(d: Decimal): string
    requires Normalized(d)
  {
    TokenText(LayoutToken(d))
  }

  // ----- reading the layout back

  lemma {:induction false} DropLeadingRun(zeros: string, s: string)
    requires forall i | 0 <= i < |zeros| :: zeros[i] == '0'
    requires s != [] ==> s[0] != '0'
    ensures DropLeadingZeros(zeros + s) == s
  {
    if zeros == [] {
      assert zeros + s == s;
    } else {
      assert (zeros + s)[1..] == zeros[1..] + s;
      DropLeadingRun(zeros[1..], s);
    }
  }

  lemma {:induction false} DropTrailingRun(s: string, zeros: string)
    requires forall i | 0 <= i < |zeros| :: zeros[i] == '0'
    requires s != [] ==> s[|s| - 1] != '0'
    ensures DropTrailingZeros(s + zeros) == s
  {
    if zeros == [] {
      assert s + zeros == s;
    } else {
      assert (s + zeros)[..|s + zeros| - 1] == s + zeros[..|zeros| - 1];
      DropTrailingRun(s, zeros[..|zeros| - 1]);
    }
  }

  lemma NormalizePadded(negative: bool, leading: string, digits: string, trailing: string, exponent: int)
    requires AllDigits(leading) && AllDigits(digits) && AllDigits(trailing)
    requires forall i | 0 <= i < |leading| :: leading[i] == '0'
    requires forall i | 0 <= i < |trailing| :: trailing[i] == '0'
    requires Normalized(Finite(negative, digits, exponent))
    ensures Normalize(negative, leading + (digits + trailing), exponent + |leading|) ==
            Finite(negative, digits, exponent)
  {
    DropLeadingRun(leading, digits + trailing);
    DropTrailingRun(digits, trailing);
  }

  lemma PaddedExponentReads(e: int)
    ensures NatOf(PaddedExponent(e)) == Magnitude(e)
  {
    NatTextReads(Magnitude(e));
    if Magnitude(e) < 10 {
      var s := PaddedExponent(e);
      assert s == ['0', DigitChar(Magnitude(e))];
      assert s[..1] == "0" && NatOf("0") == 0;
    }
  }

  /** The canonical token of a decimal reads back as that decimal. */
  lemma LayoutReadsBack(d: Decimal)
    requires Normalized(d)
    ensures TokenDecimal(LayoutToken(d)) == d
  {
    match d
    case Zero(negative) => ZeroReadsBack(negative);
    case Finite(negative, digits, exponent) =>
      if !UsesFixedPoint(exponent) {
        ScientificReadsBack(negative, digits, exponent);
      } else if exponent < 0 {
        SmallReadsBack(negative, digits, exponent);
      } else {
        LargeReadsBack(negative, digits, exponent);
      }
  }

  lemma ZeroReadsBack(negative: bool)
    ensures TokenDecimal(LayoutToken(Zero(negative))) == Zero(negative)
  {
    assert "0" + "0" == Zeros(2) + [];
    DropLeadingRun(Zeros(2), []);
  }

  lemma ScientificReadsBack(negative: bool, digits: string, exponent: int)
    requires Normalized(Finite(negative, digits, exponent)) && !UsesFixedPoint(exponent)
    ensures TokenDecimal(LayoutToken(Finite(negative, digits, exponent))) == Finite(negative, digits, exponent)
  {
    var t := LayoutToken(Finite(negative, digits, exponent));
    PaddedExponentReads(exponent);
    assert ExponentValue(t) == exponent && |t.integer| == 1;
    assert t.integer + FractionDigits(t.fraction) == [] + (digits + []);
    NormalizePadded(negative, [], digits, [], exponent);
  }

  lemma SmallReadsBack(negative: bool, digits: string, exponent: int)
    requires Normalized(Finite(negative, digits, exponent)) && UsesFixedPoint(exponent) && exponent < 0
    ensures TokenDecimal(LayoutToken(Finite(negative, digits, exponent))) == Finite(negative, digits, exponent)
  {
    var t := LayoutToken(Finite(negative, digits, exponent));
    assert t.integer + FractionDigits(t.fraction) == Zeros(-exponent) + (digits + []);
    NormalizePadded(negative, Zeros(-exponent), digits, [], exponent);
  }

  lemma LargeReadsBack(negative: bool, digits: string, exponent: int)
    requires Normalized(Finite(negative, digits, exponent)) && UsesFixedPoint(exponent) && exponent >= 0
    ensures TokenDecimal(LayoutToken(Finite(negative, digits, exponent))) == Finite(negative, digits, exponent)
  {
    var t := LayoutToken(Finite(negative, digits, exponent));
    var zeros := if exponent + 1 < |digits| then [] else Zeros(exponent + 2 - |digits|);
    assert t.integer + FractionDigits(t.fraction) == [] + (digits + zeros);
    NormalizePadded(negative, [], digits, zeros, exponent);
  }

  /** A canonical float token has a fraction or an exponent, so it is never an integer token. */
  lemma LayoutIsNotInteger(d: Decimal)
    requires Normalized(d)
    ensures LayoutToken(d).fraction.Some? || LayoutToken(d).exponent.Some?
  {
  }

  // ----- the real number that digits denote

  /** `x` times 10^e, by repeated multiplication or division. */
  function Scale(x: real, e: int): real
    decreases Magnitude(e)
  {
    if e == 0 then x else if e > 0 then Scale(10.0 * x, e - 1) else Scale(x / 10.0, e + 1)
  }

  /** The value of `0.s`. */
  function FractionValue(s: string): real
    requires AllDigits(s)
  {
    if s == [] then 0.0 else (DigitValue(s[0]) as real + FractionValue(s[1..])) / 10.0
  }

  function Signed(negative: bool, x: real): real {
    if negative then -x else x
  }

  function DecimalValue(d: Decimal): real
    requires Normalized(d)
  {
    match d
    case Zero(_) => 0.0
    case Finite(negative, digits, exponent) =>
      Signed(negative, Scale(DigitValue(digits[0]) as real + FractionValue(digits[1..]), exponent))
  }

  /** Integer part, fraction and exponent read separately, as the number grammar describes them. */
  function TokenValue(t: Token): real
    requires WellFormedToken(t)
  {
    Signed(t.negative, Scale(NatOf(t.integer) as real + FractionValue(FractionDigits(t.fraction)), ExponentValue(t)))
  }

  lemma ScaleTen(x: real, e: int)
    ensures Scale(10.0 * x, e) == Scale(x, e + 1)
  {
    assert (10.0 * x) / 10.0 == x;
  }

  lemma {:induction false} ZeroScale(e: int)
    ensures Scale(0.0, e) == 0.0
    decreases Magnitude(e)
  {
    if e > 0 {
      ZeroScale(e - 1);
    } else if e < 0 {
      ZeroScale(e + 1);
    }
  }

  lemma NatOfSnoc(s: string, c: char)
    requires AllDigits(s) && IsDigit(c)
    ensures AllDigits(s + [c]) && NatOf(s + [c]) == 10 * NatOf(s) + DigitValue(c)
  {
    assert (s + [c])[..|s + [c]| - 1] == s;
  }

  /** Moving the decimal point past a fraction's digits and lowering the exponent to match. */
  lemma {:induction false} MovePoint(integer: string, fraction: string, e: int)
    requires AllDigits(integer) && AllDigits(fraction)
    ensures AllDigits(integer + fraction)
    ensures Scale(NatOf(integer) as real + FractionValue(fraction), e)
            == Scale(NatOf(integer + fraction) as real, e - |fraction|)
    decreases |fraction|
  {
    if fraction == [] {
      assert integer + fraction == integer;
    } else {
      var longer, c := integer + [fraction[0]], fraction[0];
      NatOfSnoc(integer, c);
      assert longer + fraction[1..] == integer + fraction;
      MovePoint(longer, fraction[1..], e - 1);
      var x := NatOf(integer) as real + FractionValue(fraction);
      assert 10.0 * x == NatOf(longer) as real + FractionValue(fraction[1..]);
      ScaleTen(x, e - 1);
    }
  }

  lemma {:induction false} DropLeadingKeepsValue(s: string)
    requires AllDigits(s)
    ensures AllDigits(DropLeadingZeros(s)) && NatOf(DropLeadingZeros(s)) == NatOf(s)
  {
    if s != [] && s[0] == '0' {
      DropLeadingKeepsValue(s[1..]);
      LeadingZero(s[1..]);
      assert s == ['0'] + s[1..];
    }
  }

  lemma {:induction false} LeadingZero(s: string)
    requires AllDigits(s)
    ensures AllDigits(['0'] + s) && NatOf(['0'] + s) == NatOf(s)
  {
    if s == [] {
      assert ['0'] + s == [] + ['0'];
    } else {
      var u := s[..|s| - 1];
      LeadingZero(u);
      assert (['0'] + s)[..|s|] == ['0'] + u;
    }
  }

  lemma {:induction false} DropTrailingKeepsValue(s: string, low: int)
    requires AllDigits(s)
    ensures AllDigits(DropTrailingZeros(s))
    ensures Scale(NatOf(DropTrailingZeros(s)) as real, low + |s| - |DropTrailingZeros(s)|) ==
            Scale(NatOf(s) as real, low)
  {
    if s != [] && s[|s| - 1] == '0' {
      var t := s[..|s| - 1];
      assert t + ['0'] == s;
      NatOfSnoc(t, '0');
      ScaleTen(NatOf(t) as real, low);
      DropTrailingKeepsValue(t, low + 1);
    }
  }

  /** A decimal as an integer times a power of ten. */
  lemma DecimalIsScaled(d: Decimal)
    requires Normalized(d) && d.Finite?
    ensures DecimalValue(d) == Signed(d.negative, Scale(NatOf(d.digits) as real, d.exponent - |d.digits| + 1))
  {
    var first, rest := d.digits[..1], d.digits[1..];
    assert first == [] + [d.digits[0]] && first + rest == d.digits;
    NatOfSnoc([], d.digits[0]);
    MovePoint(first, rest, d.exponent);
  }

  /** Dropping zeros at either end changes the digits and the exponent, not the number. */
  lemma NormalizeKeepsValue(negative: bool, digits: string, exponent: int)
    requires AllDigits(digits)
    ensures DecimalValue(Normalize(negative, digits, exponent))
            == Signed(negative, Scale(NatOf(digits) as real, exponent - |digits| + 1))
  {
    var kept := DropLeadingZeros(digits);
    DropLeadingKeepsDigits(digits);
    DropLeadingKeepsValue(digits);
    DropTrailingKeepsDigits(kept);
    DropTrailingKeepsValue(kept, exponent - |digits| + 1);
    var d := Normalize(negative, digits, exponent);
    if d.Finite? {
      DecimalIsScaled(d);
    } else {
      ZeroScale(exponent - |digits| + 1);
    }
  }

  /** The digits of `integer.fraction` with exponent `e`, whatever zeros they have. */
  lemma NormalizePointed(negative: bool, integer: string, fraction: string, e: int)
    requires AllDigits(integer) && AllDigits(fraction)
    ensures DecimalValue(Normalize(negative, integer + fraction, e + |integer| - 1))
            == Signed(negative, Scale(NatOf(integer) as real + FractionValue(fraction), e))
  {
    MovePoint(integer, fraction, e);
    NormalizeKeepsValue(negative, integer + fraction, e + |integer| - 1);
    assert e + |integer| - 1 - |integer + fraction| + 1 == e - |fraction|;
  }

  /** The decimal of a token is the real number that the token writes. */
  lemma TokenDecimalKeepsValue(t: Token)
    requires WellFormedToken(t)
    ensures DecimalValue(TokenDecimal(t)) == TokenValue(t)
  {
    NormalizePointed(t.negative, t.integer, FractionDigits(t.fraction), ExponentValue(t));
  }

  /** Fixed or scientific, the canonical token denotes exactly the decimal it was made from. */
  lemma LayoutKeepsValue(d: Decimal)
    requires Normalized(d)
    ensures TokenValue(LayoutToken(d)) == DecimalValue(d)
  {
    LayoutReadsBack(d);
    TokenDecimalKeepsValue(LayoutToken(d));
  }
}
