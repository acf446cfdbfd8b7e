/**
 The lexical layer of canonical JSON: strings and number tokens, written and read back
 (sections 6 and 7 of RFC 8259).
 */
module JsonText {
  import opened Prelude
  import opened Utf8
  import opened Decimal
  import Hex

  /** A value read from the front of a text, and the text after it. */
  datatype Parsed<+T> = Parsed(value: T, rest: string)

  // ----- strings

  /** Quote, reverse solidus and control characters are escaped; everything else is written as it is. */
  function EscapeChar(c: char): (s: string)
    ensures |s| > 0
  {
    var x := c as int;
    if c == '\"' then "\\\""
    else if c == '\\' then "\\\\"
    else if x == 0x08 then "\\b"
    else if x == 0x0c then "\\f"
    else if x == 0x0a then "\\n"
    else if x == 0x0d then "\\r"
    else if x == 0x09 then "\\t"
    else if x < 0x20 then ['\\', 'u', '0', '0', Hex.HexChar(x / 16), Hex.HexChar(x % 16)]
    else [c]
  }

  /** The rest of a string literal after its opening quote. */
  function RenderStringTail(s: string): string {
    if s == [] then "\"" else EscapeChar(s[0]) + RenderStringTail(s[1..])
  }

  function HexValue(c: char): int {
    if '0' <= c <= '9' then c as int - '0' as int
    else if 'a' <= c <= 'f' then c as int - 'a' as int + 10
    else if 'A' <= c <= 'F' then c as int - 'A' as int + 10
    else -1
  }

  /** The number written by four hexadecimal digits, or -1. */
  function Hex4(a: char, b: char, c: char, d: char): int {
    if HexValue(a) < 0 || HexValue(b) < 0 || HexValue(c) < 0 || HexValue(d) < 0 then -1
    else HexValue(a) * 0x1000 + HexValue(b) * 0x100 + HexValue(c) * 0x10 + HexValue(d)
  }

  /** A \u escape at the front of `s`; a surrogate is only accepted as half of a pair. */
  function ParseUnicodeEscape(s: string): (r: Option<Parsed<char>>)
    ensures r.Some? ==> |r.value.rest| < |s|
  {
    if |s| < 6 then None else
    var x := Hex4(s[2], s[3], s[4], s[5]);
    if IsScalar(x) then Some(Parsed(x as char, s[6..]))
    else if !(0xd800 <= x < 0xdc00) || |s| < 12 || s[6] != '\\' || s[7] != 'u' then None
    else
      var y := Hex4(s[8], s[9], s[10], s[11]);
      if !(0xdc00 <= y < 0xe000) then None
      else Some(Parsed((0x1_0000 + (x - 0xd800) * 0x400 + (y - 0xdc00)) as char, s[12..]))
  }

  /** The character that a two-character escape stands for. */
  function ShortEscape(c: char): Option<char> {
    if c == '\"' || c == '\\' || c == '/' then Some(c)
    else if c == 'b' then Some(0x08 as char)
    else if c == 'f' then Some(0x0c as char)
    else if c == 'n' then Some(0x0a as char)
    else if c == 'r' then Some(0x0d as char)
    else if c == 't' then Some(0x09 as char)
    else None
  }

  /** One character of a string literal, escaped or not. */
  function ParseStringChar(s: string): (r: Option<Parsed<char>>)
    ensures r.Some? ==> |r.value.rest| < |s|
  {
    if s == [] || s[0] as int < 0x20 then None
    else if s[0] != '\\' then Some(Parsed(s[0], s[1..]))
    else if |s| < 2 then None
    else if s[1] == 'u' then ParseUnicodeEscape(s)
    else if ShortEscape(s[1]).None? then None
    else Some(Parsed(ShortEscape(s[1]).value, s[2..]))
  }

  /** The rest of a string literal after its opening quote, up to and including the closing one. */
  function ParseStringTail(s: string): (r: Option<Parsed<string>>)
    ensures r.Some? ==> |r.value.rest| < |s|
    decreases |s|
  {
    if s == [] then None
    else if s[0] == '\"' then Some(Parsed([], s[1..]))
    else
      match ParseStringChar(s)
      case None => None
      case Some(Parsed(c, more)) =>
        match ParseStringTail(more)
        case None => None
        case Some(Parsed(text, rest)) => Some(Parsed([c] + text, rest))
  }

  lemma EscapedCharReads(c: char, rest: string)
    ensures var s := EscapeChar(c) + rest;
            s[0] != '\"' && ParseStringChar(s) == Some(Parsed(c, rest))
  {
    var x, e := c as int, EscapeChar(c);
    var s := e + rest;
    assert s[|e|..] == rest;
    if |e| == 6 {
      assert HexValue(Hex.HexChar(x / 16)) == x / 16 && HexValue(Hex.HexChar(x % 16)) == x % 16;
      assert HexValue('0') == 0;
      assert Hex4(s[2], s[3], s[4], s[5]) == x;
    }
  }

  lemma StringStep(s: string, c: char, more: string, text: string, rest: string)
    requires s != [] && s[0] != '\"' && ParseStringChar(s) == Some(Parsed(c, more))
    requires ParseStringTail(more) == Some(Parsed(text, rest))
    ensures ParseStringTail(s) == Some(Parsed([c] + text, rest))
  {
  }

  /** An escaped string reads back as itself. */
  lemma {:induction false} StringRoundTrip(text: string, rest: string)
    ensures ParseStringTail(RenderStringTail(text) + rest) == Some(Parsed(text, rest))
    decreases |text|
  {
    var s := RenderStringTail(text) + rest;
    if text == [] {
      assert s[1..] == rest;
    } else {
      var more := RenderStringTail(text[1..]) + rest;
      assert s == EscapeChar(text[0]) + more;
      EscapedCharReads(text[0], more);
      StringRoundTrip(text[1..], rest);
      StringStep(s, text[0], more, text[1..], rest);
      assert text == [text[0]] + text[1..];
    }
  }

  // ----- numbers

  predicate StartsWithDigit(s: string) {
    s != [] && IsDigit(s[0])
  }

  function TakeDigits(s: string): (r: Parsed<string>)
    ensures |r.rest| <= |s|
  {
    if !StartsWithDigit(s) then Parsed([], s)
    else
      var r := TakeDigits(s[1..]);
      Parsed([s[0]] + r.value, r.rest)
  }

  function ScanFraction(s: string): (r: Option<Parsed<Option<string>>>)
    ensures r.Some? ==> |r.value.rest| <= |s|
  {
    if s == [] || s[0] != '.' then Some(Parsed(None, s))
    else
      var d := TakeDigits(s[1..]);
      if d.value == [] then None else Some(Parsed(Some(d.value), d.rest))
  }

  function ScanExponentDigits(negative: bool, s: string): (r: Option<Parsed<Option<Exponent>>>)
    ensures r.Some? ==> |r.value.rest| <= |s|
  {
    var d := TakeDigits(s);
    if d.value == [] then None else Some(Parsed(Some(Exponent(negative, d.value)), d.rest))
  }

  function ScanExponent(s: string): (r: Option<Parsed<Option<Exponent>>>)
    ensures r.Some? ==> |r.value.rest| <= |s|
  {
    if s == [] || (s[0] != 'e' && s[0] != 'E') then Some(Parsed(None, s))
    else if |s| > 1 && (s[1] == '+' || s[1] == '-') then ScanExponentDigits(s[1] == '-', s[2..])
    else ScanExponentDigits(false, s[1..])
  }

  /** The integer part, with no leading zero. */
  function ScanInteger(s: string): (r: Option<Parsed<string>>)
    ensures r.Some? ==> |r.value.rest| < |s|
  {
    var d := TakeDigits(s);
    TakeDigitsSplits(s);
    if d.value == [] || (d.value[0] == '0' && |d.value| > 1) then None else Some(d)
  }

  /** Fraction and exponent, after the sign and the integer part. */
  function ScanTail(negative: bool, integer: string, s: string): (r: Option<Parsed<Token>>)
    ensures r.Some? ==> |r.value.rest| <= |s|
  {
    match ScanFraction(s)
    case None => None
    case Some(Parsed(fraction, more)) =>
      match ScanExponent(more)
      case None => None
      case Some(Parsed(exponent, rest)) => Some(Parsed(Token(negative, integer, fraction, exponent), rest))
  }

  function ScanUnsigned(negative: bool, s: string): (r: Option<Parsed<Token>>)
    ensures r.Some? ==> |r.value.rest| < |s|
  {
    match ScanInteger(s)
    case None => None
    case Some(Parsed(integer, more)) => ScanTail(negative, integer, more)
  }

  function ScanNumber(s: string): (r: Option<Parsed<Token>>)
    ensures r.Some? ==> |r.value.rest| < |s|
  {
    if s != [] && s[0] == '-' then ScanUnsigned(true, s[1..]) else ScanUnsigned(false, s)
  }

  lemma {:induction false} TakeDigitsSplits(s: string)
    ensures s == TakeDigits(s).value + TakeDigits(s).rest
    ensures AllDigits(TakeDigits(s).value)
  {
    if StartsWithDigit(s) {
      var r := TakeDigits(s[1..]);
      TakeDigitsSplits(s[1..]);
      assert TakeDigits(s).value == [s[0]] + r.value;
      assert s == [s[0]] + s[1..] == [s[0]] + (r.value + r.rest);
    }
  }

  lemma ScannedInteger(s: string)
    requires ScanInteger(s).Some?
    ensures IsIntegerPart(ScanInteger(s).value.value)
  {
    TakeDigitsSplits(s);
  }

  lemma ScannedFraction(s: string)
    requires ScanFraction(s).Some?
    ensures var f := ScanFraction(s).value.value;
            f.Some? ==> f.value != [] && AllDigits(f.value)
  {
    if s != [] {
      TakeDigitsSplits(s[1..]);
    }
  }

  lemma ScannedExponent(s: string)
    requires ScanExponent(s).Some?
    ensures var e := ScanExponent(s).value.value;
            e.Some? ==> e.value.digits != [] && AllDigits(e.value.digits)
  {
    if s != [] {
      TakeDigitsSplits(s[1..]);
      if |s| > 1 {
        TakeDigitsSplits(s[2..]);
      }
    }
  }

  lemma ScannedTail(negative: bool, integer: string, s: string)
    requires ScanTail(negative, integer, s).Some? && IsIntegerPart(integer)
    ensures WellFormedToken(ScanTail(negative, integer, s).value.value)
  {
    ScannedFraction(s);
    ScannedExponent(ScanFraction(s).value.rest);
  }

  lemma ScannedUnsigned(negative: bool, s: string)
    requires ScanUnsigned(negative, s).Some?
    ensures WellFormedToken(ScanUnsigned(negative, s).value.value)
  {
    var integer := ScanInteger(s).value;
    ScannedInteger(s);
    ScannedTail(negative, integer.value, integer.rest);
  }

  /** The scanner only returns tokens of the number grammar. */
  lemma ScannedIsWellFormed(s: string)
    requires ScanNumber(s).Some?
    ensures WellFormedToken(ScanNumber(s).value.value)
  {
    if s[0] == '-' {
      ScannedUnsigned(true, s[1..]);
    } else {
      ScannedUnsigned(false, s);
    }
  }

  predicate NumberChar(c: char) {
    IsDigit(c) || c == '.' || c == 'e' || c == 'E'
  }

  /** Nothing at the front of `s` could continue a number. */
  predicate Stops(s: string) {
    s == [] || !NumberChar(s[0])
  }

  lemma {:induction false} DigitsRead(digits: string, rest: string)
    requires AllDigits(digits) && !StartsWithDigit(rest)
    ensures TakeDigits(digits + rest) == Parsed(digits, rest)
  {
    var s := digits + rest;
    if digits == [] {
      assert s == rest;
    } else {
      assert s[1..] == digits[1..] + rest;
      DigitsRead(digits[1..], rest);
      assert digits == [digits[0]] + digits[1..];
    }
  }

  lemma FractionReads(f: Option<string>, rest: string)
    requires f.Some? ==> f.value != [] && AllDigits(f.value)
    requires !StartsWithDigit(rest) && (rest != [] ==> rest[0] != '.')
    ensures ScanFraction(FractionText(f) + rest) == Some(Parsed(f, rest))
    ensures !StartsWithDigit(FractionText(f) + rest)
  {
    var s := FractionText(f) + rest;
    if f.Some? {
      assert s[1..] == f.value + rest;
      DigitsRead(f.value, rest);
    } else {
      assert s == rest;
    }
  }

  lemma ExponentReads(e: Option<Exponent>, rest: string)
    requires e.Some? ==> e.value.digits != [] && AllDigits(e.value.digits)
    requires Stops(rest)
    ensures ScanExponent(ExponentText(e) + rest) == Some(Parsed(e, rest))
    ensures var s := ExponentText(e) + rest;
            !StartsWithDigit(s) && (s != [] ==> s[0] != '.')
  {
    var s := ExponentText(e) + rest;
    if e.Some? {
      assert s[2..] == e.value.digits + rest;
      DigitsRead(e.value.digits, rest);
    } else {
      assert s == rest;
    }
  }

  lemma IntegerReads(integer: string, rest: string)
    requires IsIntegerPart(integer) && !StartsWithDigit(rest)
    ensures ScanInteger(integer + rest) == Some(Parsed(integer, rest))
  {
    DigitsRead(integer, rest);
  }

  lemma UnsignedReads(t: Token, rest: string)
    requires WellFormedToken(t) && Stops(rest)
    ensures ScanUnsigned(t.negative, UnsignedText(t, rest)) == Some(Parsed(t, rest))
  {
    var e := ExponentText(t.exponent) + rest;
    var f := FractionText(t.fraction) + e;
    ExponentReads(t.exponent, rest);
    FractionReads(t.fraction, e);
    IntegerReads(t.integer, f);
  }

  function UnsignedText(t: Token, rest: string): string {
    t.integer + (FractionText(t.fraction) + (ExponentText(t.exponent) + rest))
  }

  lemma TokenTextSplits(t: Token, rest: string)
    ensures TokenText(t) + rest == (if t.negative then ['-'] else []) + UnsignedText(t, rest)
  {
    var sign := if t.negative then "-" else "";
    var f, e := FractionText(t.fraction), ExponentText(t.exponent);
    assert sign + t.integer + f + e + rest == sign + (t.integer + (f + (e + rest)));
  }

  lemma SignReads(negative: bool, u: string)
    requires u != [] && u[0] != '-'
    ensures ScanNumber((if negative then ['-'] else []) + u) == ScanUnsigned(negative, u)
  {
    if negative {
      assert (['-'] + u)[1..] == u;
    } else {
      assert [] + u == u;
    }
  }

  /** A token's text reads back as the same token. */
  lemma TokenRoundTrip(t: Token, rest: string)
    requires WellFormedToken(t) && Stops(rest)
    ensures ScanNumber(TokenText(t) + rest) == Some(Parsed(t, rest))
  {
    TokenTextSplits(t, rest);
    assert UnsignedText(t, rest)[0] == t.integer[0];
    SignReads(t.negative, UnsignedText(t, rest));
    UnsignedReads(t, rest);
  }

  /** Two tokens of the grammar never share a text. */
  lemma TokenTextIsInjective(t: Token, u: Token)
    requires WellFormedToken(t) && WellFormedToken(u) && TokenText(t) == TokenText(u)
    ensures t == u
  {
    TokenRoundTrip(t, []);
    TokenRoundTrip(u, []);
  }
}
