/**
 The rendering of a non-zero binary64 value from its shortest-digits text: sign, mantissa
 with an optional point, and an optional exponent.  The digit search itself is not part of
 this model; its text is the input.
 */
module FloatFormatter {
  import opened Prelude
  import opened Decimal

  /** The index of the first point, or the length when there is none. */
  function PointPosition(s: string): (n: nat)
    ensures n <= |s|
  {
    if s == [] || s[0] == '.' then 0 else 1 + PointPosition(s[1..])
  }

  function WithoutPoints(s: string): string {
    if s == [] then [] else (if s[0] == '.' then [] else [s[0]]) + WithoutPoints(s[1..])
  }

  /** The decimal that the shortest-digits text writes. */
  function ShortestDecimal(negative: bool, mantissa: string, explicit: Option<int>): (d: Decimal)
    requires AllDigits(WithoutPoints(mantissa))
    ensures Normalized(d)
  {
    Normalize(negative, WithoutPoints(mantissa), Shift(explicit) + PointPosition(mantissa) - 1)
  }

  /** The exponent that a text writes, or 0. */
  function Shift(explicit: Option<int>): int {
    if explicit.Some? then explicit.value else 0
  }

  lemma {:induction false} WithoutPointsAppend(s: string, t: string)
    ensures WithoutPoints(s + t) == WithoutPoints(s) + WithoutPoints(t)
  {
    if s == [] {
      assert s + t == t;
    } else {
      assert (s + t)[1..] == s[1..] + t;
      WithoutPointsAppend(s[1..], t);
    }
  }

  lemma {:induction false} DigitsHaveNoPoint(s: string, t: string)
    requires AllDigits(s)
    ensures WithoutPoints(s) == s && PointPosition(s + t) == |s| + PointPosition(t)
  {
    if s == [] {
      assert s + t == t;
    } else {
      assert (s + t)[1..] == s[1..] + t;
      DigitsHaveNoPoint(s[1..], t);
    }
  }

  lemma MantissaText(integer: string, fraction: Option<string>)
    requires AllDigits(integer) && AllDigits(FractionDigits(fraction))
    ensures var m := integer + FractionText(fraction);
            WithoutPoints(m) == integer + FractionDigits(fraction) && PointPosition(m) == |integer|
  {
    var tail := FractionText(fraction);
    assert fraction.Some? ==> tail[1..] == FractionDigits(fraction);
    DigitsHaveNoPoint(integer, tail);
    DigitsHaveNoPoint(FractionDigits(fraction), []);
    WithoutPointsAppend(integer, tail);
  }

  /** The real number that `integer.fraction` with an exponent writes. */
  function TextValue(negative: bool, integer: string, fraction: string, exponent: int): real
    requires AllDigits(integer) && AllDigits(fraction)
  {
    Signed(negative, Scale(NatOf(integer) as real + FractionValue(fraction), exponent))
  }

  /**
   Every shortest-digits text, with a point or without and with an exponent or without, denotes
   the decimal that the renderer starts from.
   */
  lemma ShortestTextValue(negative: bool, integer: string, fraction: Option<string>, explicit: Option<int>)
    requires AllDigits(integer) && AllDigits(FractionDigits(fraction))
    ensures AllDigits(WithoutPoints(integer + FractionText(fraction)))
    ensures DecimalValue(ShortestDecimal(negative, integer + FractionText(fraction), explicit))
            == TextValue(negative, integer, FractionDigits(fraction), Shift(explicit))
  {
    var m := integer + FractionText(fraction);
    MantissaText(integer, fraction);
    assert Shift(explicit) + PointPosition(m) - 1 == Shift(explicit) + |integer| - 1;
    NormalizePointed(negative, integer, FractionDigits(fraction), Shift(explicit));
  }

  /** So the rendered token of such a text denotes the same real number as the text. */
  lemma RenderedValue(negative: bool, integer: string, fraction: Option<string>, explicit: Option<int>)
    requires AllDigits(integer) && AllDigits(FractionDigits(fraction))
    ensures AllDigits(WithoutPoints(integer + FractionText(fraction)))
    ensures TokenValue(LayoutToken(ShortestDecimal(negative, integer + FractionText(fraction), explicit)))
            == TextValue(negative, integer, FractionDigits(fraction), Shift(explicit))
  {
    ShortestTextValue(negative, integer, fraction, explicit);
    LayoutKeepsValue(ShortestDecimal(negative, integer + FractionText(fraction), explicit));
  }

  method CollectDigits(mantissa: string) returns (digits: string)
    ensures digits == WithoutPoints(mantissa)
  {
    digits := "";
    for i := 0 to |mantissa|
      invariant digits == WithoutPoints(mantissa[..i])
    {
      assert mantissa[..i + 1] == mantissa[..i] + [mantissa[i]];
      WithoutPointsAppend(mantissa[..i], [mantissa[i]]);
      if mantissa[i] != '.' {
        digits := digits + [mantissa[i]];
      }
    }
    assert mantissa[..|mantissa|] == mantissa;
  }

  method FindPoint(mantissa: string) returns (n: nat)
    ensures n == PointPosition(mantissa)
  {
    n := 0;
    while n < |mantissa| && mantissa[n] != '.'
      invariant n <= |mantissa| && n + PointPosition(mantissa[n..]) == PointPosition(mantissa)
    {
      assert mantissa[n..][1..] == mantissa[n + 1..];
      n := n + 1;
    }
  }

  method CountLeadingZeros(digits: string) returns (n: nat)
    ensures n <= |digits| && digits[n..] == DropLeadingZeros(digits)
  {
    n := 0;
    while n < |digits| && digits[n] == '0'
      invariant n <= |digits| && DropLeadingZeros(digits[n..]) == DropLeadingZeros(digits)
    {
      assert digits[n..][1..] == digits[n + 1..];
      n := n + 1;
    }
  }

  method PopTrailingZeros(s: string) returns (digits: string)
    ensures digits == DropTrailingZeros(s)
  {
    digits := s;
    while digits != [] && digits[|digits| - 1] == '0'
      invariant DropTrailingZeros(digits) == DropTrailingZeros(s)
      decreases |digits|
    {
      digits := digits[..|digits| - 1];
    }
  }

  method PushZeros(text: string, count: nat) returns (rendered: string)
    ensures rendered == text + Zeros(count)
  {
    rendered := text;
    for i := 0 to count
      invariant rendered == text + Zeros(i)
    {
      rendered := rendered + ['0'];
      assert Zeros(i) + ['0'] == Zeros(i + 1);
    }
  }

  /** The digits and exponent of a normalized decimal, with a lone zero standing for both zeros. */
  function LaidOutDigits(d: Decimal): string {
    if d.Zero? then "0" else d.digits
  }

  function LaidOutExponent(d: Decimal): int {
    if d.Zero? then 0 else d.exponent
  }

  lemma ExponentPieces(head: string, negative: bool, digits: string)
    ensures head + "e" + (if negative then "-" else "+") + digits ==
            head + ExponentText(Some(Exponent(negative, digits)))
  {
  }

  /** The significand in scientific notation: one digit, and a point only before more digits. */
  method RenderSignificand(negative: bool, digits: string) returns (rendered: string)
    requires digits != []
    ensures rendered == (if negative then "-" else "") + digits[..1]
                        + FractionText(if |digits| > 1 then Some(digits[1..]) else None)
  {
    rendered := if negative then "-" else "";
    rendered := rendered + [digits[0]];
    assert digits[..1] == [digits[0]];
    if |digits| > 1 {
      ghost var first := rendered;
      rendered := rendered + ".";
      rendered := rendered + digits[1..];
      assert rendered == first + ("." + digits[1..]);
    }
  }

  method RenderScientific(negative: bool, digits: string, exponent: int) returns (rendered: string)
    requires Normalized(Finite(negative, digits, exponent)) && !UsesFixedPoint(exponent)
    ensures rendered == Layout(Finite(negative, digits, exponent))
  {
    rendered := RenderSignificand(negative, digits);
    ExponentPieces(rendered, exponent < 0, PaddedExponent(exponent));
    rendered := rendered + "e";
    rendered := rendered + (if exponent >= 0 then "+" else "-");
    rendered := rendered + PaddedExponent(exponent);
  }

  /** The text of a token without exponent, whose fraction has been written after its point. */
  lemma FixedText(t: Token, text: string)
    requires t.fraction.Some? && t.exponent.None?
    requires text == (if t.negative then "-" else "") + (t.integer + ("." + t.fraction.value))
    ensures text == TokenText(t)
  {
  }

  method RenderFixed(d: Decimal) returns (rendered: string)
    requires Normalized(d) && UsesFixedPoint(LaidOutExponent(d))
    ensures rendered == Layout(d)
  {
    var digits := LaidOutDigits(d);
    var point := LaidOutExponent(d) + 1;
    var body: string;
    if point <= 0 {
      body := "0.";
      body := PushZeros(body, -point);
      body := body + digits;
      assert body == "0" + ("." + (Zeros(-point) + digits));
    } else if point < |digits| {
      body := digits[..point];
      body := body + ".";
      body := body + digits[point..];
      assert body == digits[..point] + ("." + digits[point..]);
    } else {
      body := PushZeros(digits, point - |digits|);
      body := body + ".0";
      assert body == digits + Zeros(point - |digits|) + ("." + "0");
    }
    rendered := (if d.negative then "-" else "") + body;
    FixedText(LayoutToken(d), rendered);
  }

  lemma NormalizedParts(negative: bool, digits: string, exponent: int)
    requires AllDigits(digits)
    ensures var kept := DropLeadingZeros(digits);
            Normalize(negative, digits, exponent) ==
            if DropTrailingZeros(kept) == [] then Zero(negative)
            else Finite(negative, DropTrailingZeros(kept), exponent - (|digits| - |kept|))
  {
    DropLeadingKeepsDigits(digits);
    DropTrailingKeepsDigits(DropLeadingZeros(digits));
  }

  /** Drops the zeros at both ends of the digits and adjusts the exponent. */
  method StripZeros(negative: bool, digits: string, exponent: int) returns (d: Decimal)
    requires AllDigits(digits)
    ensures d == Normalize(negative, digits, exponent)
  {
    NormalizedParts(negative, digits, exponent);
    var leadingZeroes := CountLeadingZeros(digits);
    var kept := PopTrailingZeros(digits[leadingZeroes..]);
    d := if kept == [] then Zero(negative) else Finite(negative, kept, exponent - leadingZeroes);
  }

  /** The choice between the two notations; a zero is written with the lone digit 0 and exponent 0. */
  method Render(d: Decimal) returns (rendered: string)
    requires Normalized(d)
    ensures rendered == Layout(d)
  {
    if UsesFixedPoint(LaidOutExponent(d)) {
      rendered := RenderFixed(d);
    } else {
      rendered := RenderScientific(d.negative, d.digits, d.exponent);
    }
  }

  method ReadShortest(negative: bool, mantissa: string, explicitExponent: Option<int>) returns (d: Decimal)
    requires AllDigits(WithoutPoints(mantissa))
    ensures d == ShortestDecimal(negative, mantissa, explicitExponent)
  {
    var decimalPosition := FindPoint(mantissa);
    var digits := CollectDigits(mantissa);
    var explicit := if explicitExponent.Some? then explicitExponent.value else 0;
    d := StripZeros(negative, digits, explicit + decimalPosition - 1);
  }

  /** The rendered token is the canonical layout of the decimal that the shortest-digits text writes. */
  method FormatFiniteFloat(negative: bool, mantissa: string, explicitExponent: Option<int>) returns (rendered: string)
    requires AllDigits(WithoutPoints(mantissa))
    ensures rendered == Layout(ShortestDecimal(negative, mantissa, explicitExponent))
  {
    var d := ReadShortest(negative, mantissa, explicitExponent);
    rendered := Render(d);
  }
}
