/**
 UTF-8 (RFC 3629): strict decoding is the inverse of encoding, and comparing encoded bytes
 is the same as comparing code points.
 */
module Utf8 {
  import opened Prelude

  function EncodeChar(c: char): (b: Bytes)
    ensures 1 <= |b| <= 4
  {
    var x := c as int;
    if x < 0x80 then [x]
    else if x < 0x800 then [0xc0 + x / 0x40, 0x80 + x % 0x40]
    else if x < 0x1_0000 then [0xe0 + x / 0x1000, 0x80 + x / 0x40 % 0x40, 0x80 + x % 0x40]
    else [0xf0 + x / 0x4_0000, 0x80 + x / 0x1000 % 0x40, 0x80 + x / 0x40 % 0x40, 0x80 + x % 0x40]
  }

  function Encode(s: string): (b: Bytes)
    ensures |b| >= |s|
  {
    if s == [] then [] else EncodeChar(s[0]) + Encode(s[1..])
  }

  predicate IsScalar(x: int) {
    0 <= x < 0xd800 || 0xe000 <= x < 0x11_0000
  }

  predicate IsContinuation(b: Byte) {
    0x80 <= b < 0xc0
  }

  /** Appends the six payload bits of a continuation byte. */
  function Shift6(high: nat, b: int): nat
    requires 0x80 <= b < 0xc0
  {
    high * 0x40 + (b - 0x80)
  }

  datatype DecodedChar = DecodedChar(c: char, length: nat)

  /** The shortest-form code point at the front of `b`; surrogates and overlong forms are refused. */
  function DecodeChar(b: Bytes): (r: Option<DecodedChar>)
    ensures r.Some? ==> 0 < r.value.length <= |b|
  {
    if b == [] then None
    else if b[0] < 0x80 then Some(DecodedChar(b[0] as char, 1))
    else if b[0] < 0xe0 then
      if |b| < 2 || b[0] < 0xc2 || !IsContinuation(b[1]) then None
      else Some(DecodedChar(Shift6(b[0] - 0xc0, b[1]) as char, 2))
    else if b[0] < 0xf0 then
      if |b| < 3 || !IsContinuation(b[1]) || !IsContinuation(b[2]) then None
      else
        var x := Shift6(Shift6(b[0] - 0xe0, b[1]), b[2]);
        if x < 0x800 || !IsScalar(x) then None else Some(DecodedChar(x as char, 3))
    else
      if |b| < 4 || !IsContinuation(b[1]) || !IsContinuation(b[2]) || !IsContinuation(b[3]) then None
      else
        var x := Shift6(Shift6(Shift6(b[0] - 0xf0, b[1]), b[2]), b[3]);
        if x < 0x1_0000 || !IsScalar(x) then None else Some(DecodedChar(x as char, 4))
  }

  function Decode(b: Bytes): Option<string> {
    if b == [] then Some([])
    else
      match DecodeChar(b)
      case None => None
      case Some(d) =>
        match Decode(b[d.length..])
        case None => None
        case Some(rest) => Some([d.c] + rest)
  }

  // ----- decoding inverts encoding

  lemma SixBits(high: nat, b: int)
    requires 0x80 <= b < 0xc0
    ensures Shift6(high, b) / 0x40 == high && 0x80 + Shift6(high, b) % 0x40 == b
  {
  }

  lemma SixBitGroups(x: nat)
    ensures x == Shift6(x / 0x40, 0x80 + x % 0x40)
    ensures x / 0x1000 == x / 0x40 / 0x40 && x / 0x4_0000 == x / 0x40 / 0x40 / 0x40
  {
  }

  lemma DecodeEncodedChar(c: char, b: Bytes)
    requires EncodeChar(c) <= b
    ensures DecodeChar(b) == Some(DecodedChar(c, |EncodeChar(c)|))
  {
    var x, e := c as int, EncodeChar(c);
    SixBitGroups(x);
    SixBitGroups(x / 0x40);
    SixBitGroups(x / 0x1000);
    assert forall i | 0 <= i < |e| :: b[i] == e[i];
  }

  lemma EncodeDecodedChar(b: Bytes)
    requires DecodeChar(b).Some?
    ensures EncodeChar(DecodeChar(b).value.c) == b[..DecodeChar(b).value.length]
  {
    var x := DecodeChar(b).value.c as int;
    SixBitGroups(x);
    if 0x80 <= b[0] < 0xe0 {
      SixBits(b[0] - 0xc0, b[1]);
    } else if 0xe0 <= b[0] < 0xf0 {
      SixBits(b[0] - 0xe0, b[1]);
      SixBits(Shift6(b[0] - 0xe0, b[1]), b[2]);
    } else if 0xf0 <= b[0] {
      SixBits(b[0] - 0xf0, b[1]);
      SixBits(Shift6(b[0] - 0xf0, b[1]), b[2]);
      SixBits(Shift6(Shift6(b[0] - 0xf0, b[1]), b[2]), b[3]);
    }
  }

  lemma {:induction false} DecodeEncoded(s: string)
    ensures Decode(Encode(s)) == Some(s)
  {
    if s == [] {
    } else {
      var e := EncodeChar(s[0]);
      DecodeEncodedChar(s[0], Encode(s));
      assert Encode(s)[|e|..] == Encode(s[1..]);
      DecodeEncoded(s[1..]);
      assert s == [s[0]] + s[1..];
    }
  }

  lemma DecodeStep(b: Bytes) returns (c: char, k: nat, rest: string)
    requires b != [] && Decode(b).Some?
    ensures k <= |b| && 0 < k && EncodeChar(c) == b[..k]
    ensures Decode(b[k..]) == Some(rest) && Decode(b).value == [c] + rest
  {
    var d := DecodeChar(b).value;
    c, k, rest := d.c, d.length, Decode(b[d.length..]).value;
    EncodeDecodedChar(b);
  }

  lemma EncodeCons(c: char, rest: string)
    ensures Encode([c] + rest) == EncodeChar(c) + Encode(rest)
  {
    assert ([c] + rest)[1..] == rest;
  }

  /** Strict decoding accepts exactly the encodings, so it loses nothing. */
  lemma {:induction false} EncodeDecoded(b: Bytes)
    requires Decode(b).Some?
    ensures Encode(Decode(b).value) == b
    decreases |b|
  {
    if b == [] {
    } else {
      var c, k, rest := DecodeStep(b);
      EncodeDecoded(b[k..]);
      EncodeCons(c, rest);
      assert b == b[..k] + b[k..];
    }
  }

  lemma EncodeIsInjective(s: string, t: string)
    requires Encode(s) == Encode(t)
    ensures s == t
  {
    DecodeEncoded(s);
    DecodeEncoded(t);
  }

  // ----- order

  /** Lexicographic order of byte strings. */
  predicate ByteLess(a: Bytes, b: Bytes) {
    b != [] && (a == [] || a[0] < b[0] || (a[0] == b[0] && ByteLess(a[1..], b[1..])))
  }

  /** Lexicographic order of strings by code point. */
  predicate CodePointLess(s: string, t: string) {
    t != [] && (s == [] || s[0] < t[0] || (s[0] == t[0] && CodePointLess(s[1..], t[1..])))
  }

  lemma {:induction false} ByteLessPrefix(p: Bytes, a: Bytes, b: Bytes)
    ensures ByteLess(p + a, p + b) == ByteLess(a, b)
  {
    if p == [] {
      assert p + a == a && p + b == b;
    } else {
      assert (p + a)[1..] == p[1..] + a && (p + b)[1..] == p[1..] + b;
      ByteLessPrefix(p[1..], a, b);
    }
  }

  /** The byte strings differ first at index `i`, where `a` is smaller. */
  lemma {:induction false} ByteLessAt(a: Bytes, b: Bytes, i: nat)
    requires i < |a| && i < |b| && a[..i] == b[..i] && a[i] < b[i]
    ensures ByteLess(a, b) && !ByteLess(b, a)
  {
    if i > 0 {
      assert a[..i][0] == a[0] && b[..i][0] == b[0];
      assert a[1..][..i - 1] == a[..i][1..] && b[1..][..i - 1] == b[..i][1..];
      ByteLessAt(a[1..], b[1..], i - 1);
    }
  }

  lemma GroupOrder(x: nat, y: nat)
    requires x < y
    ensures x / 0x40 < y / 0x40 || (x / 0x40 == y / 0x40 && x % 0x40 < y % 0x40)
  {
  }

  /** The encodings of two code points differ at a byte that both have, and order as the code points do. */
  lemma CharOrder(c: char, d: char) returns (i: nat)
    requires c < d
    ensures i < |EncodeChar(c)| && i < |EncodeChar(d)|
    ensures EncodeChar(c)[..i] == EncodeChar(d)[..i] && EncodeChar(c)[i] < EncodeChar(d)[i]
  {
    var x, y := c as int, d as int;
    if x < 0x80 || (x < 0x800 <= y) || (x < 0x1_0000 <= y) {
      i := 0;
    } else if x < 0x800 {
      i := TwoByteOrder(c, d);
    } else if x < 0x1_0000 {
      i := ThreeByteOrder(c, d);
    } else {
      i := FourByteOrder(c, d);
    }
  }

  lemma TwoByteOrder(c: char, d: char) returns (i: nat)
    requires 0x80 <= c as int < d as int < 0x800
    ensures i < 2 && EncodeChar(c)[..i] == EncodeChar(d)[..i] && EncodeChar(c)[i] < EncodeChar(d)[i]
  {
    GroupOrder(c as int, d as int);
    i := if c as int / 0x40 < d as int / 0x40 then 0 else 1;
  }

  lemma ThreeByteOrder(c: char, d: char) returns (i: nat)
    requires 0x800 <= c as int < d as int < 0x1_0000
    ensures i < 3 && EncodeChar(c)[..i] == EncodeChar(d)[..i] && EncodeChar(c)[i] < EncodeChar(d)[i]
  {
    var x, y := c as int, d as int;
    SixBitGroups(x);
    SixBitGroups(y);
    GroupOrder(x, y);
    if x / 0x40 < y / 0x40 {
      GroupOrder(x / 0x40, y / 0x40);
      i := if x / 0x1000 < y / 0x1000 then 0 else 1;
    } else {
      i := 2;
    }
  }

  lemma FourByteOrder(c: char, d: char) returns (i: nat)
    requires 0x1_0000 <= c as int < d as int
    ensures i < 4 && EncodeChar(c)[..i] == EncodeChar(d)[..i] && EncodeChar(c)[i] < EncodeChar(d)[i]
  {
    var x, y := c as int, d as int;
    SixBitGroups(x);
    SixBitGroups(y);
    GroupOrder(x, y);
    if x / 0x40 < y / 0x40 {
      GroupOrder(x / 0x40, y / 0x40);
      if x / 0x1000 < y / 0x1000 {
        GroupOrder(x / 0x1000, y / 0x1000);
        i := if x / 0x4_0000 < y / 0x4_0000 then 0 else 1;
      } else {
        i := 2;
      }
    } else {
      i := 3;
    }
  }

  lemma DifferentChars(c: char, d: char, a: Bytes, b: Bytes)
    requires c < d
    ensures ByteLess(EncodeChar(c) + a, EncodeChar(d) + b)
    ensures !ByteLess(EncodeChar(d) + b, EncodeChar(c) + a)
  {
    var i := CharOrder(c, d);
    var p, q := EncodeChar(c) + a, EncodeChar(d) + b;
    assert p[..i] == EncodeChar(c)[..i] && q[..i] == EncodeChar(d)[..i];
    ByteLessAt(p, q, i);
  }

  /** Sorting keys by their UTF-8 bytes is sorting them by code point. */
  lemma {:induction false} ByteOrderIsCodePointOrder(s: string, t: string)
    ensures ByteLess(Encode(s), Encode(t)) == CodePointLess(s, t)
  {
    if s == [] || t == [] {
    } else if s[0] == t[0] {
      ByteLessPrefix(EncodeChar(s[0]), Encode(s[1..]), Encode(t[1..]));
      ByteOrderIsCodePointOrder(s[1..], t[1..]);
    } else if s[0] < t[0] {
      DifferentChars(s[0], t[0], Encode(s[1..]), Encode(t[1..]));
    } else {
      DifferentChars(t[0], s[0], Encode(t[1..]), Encode(s[1..]));
    }
  }

  // ----- line feeds

  /** A byte 0x0a occurs in an encoding exactly when the text has a line feed. */
  lemma {:induction false} LineFeedByte(s: string)
    ensures 0x0a in Encode(s) <==> 0x0a as char in s
  {
    if s == [] {
    } else {
      LineFeedByte(s[1..]);
      assert 0x0a in EncodeChar(s[0]) <==> s[0] == 0x0a as char;
      assert s == [s[0]] + s[1..];
    }
  }

  lemma {:induction false} EncodeAppend(s: string, t: string)
    ensures Encode(s + t) == Encode(s) + Encode(t)
  {
    if s == [] {
      assert s + t == t;
    } else {
      assert (s + t)[1..] == s[1..] + t;
      EncodeAppend(s[1..], t);
    }
  }

  // ----- the encoding, bit by bit

  /** The forms of RFC 3629, section 3: the lead byte tells the length, and each byte after it holds six bits. */
  lemma EncodedForm(c: char)
    ensures var x, b := c as int, EncodeChar(c);
            && (x <= 0x7f ==> b == [x])
            && (0x80 <= x <= 0x7ff ==>
                  |b| == 2 && 0xc0 <= b[0] <= 0xdf && 0x80 <= b[1] <= 0xbf
                  && x == (b[0] as int - 0xc0) * 64 + (b[1] as int - 0x80))
            && (0x800 <= x <= 0xffff ==>
                  |b| == 3 && 0xe0 <= b[0] <= 0xef && 0x80 <= b[1] <= 0xbf && 0x80 <= b[2] <= 0xbf
                  && x == (b[0] as int - 0xe0) * 4096 + (b[1] as int - 0x80) * 64 + (b[2] as int - 0x80))
            && (0x1_0000 <= x ==>
                  |b| == 4 && 0xf0 <= b[0] <= 0xf7 && 0x80 <= b[1] <= 0xbf && 0x80 <= b[2] <= 0xbf
                  && 0x80 <= b[3] <= 0xbf
                  && x == (b[0] as int - 0xf0) * 262144 + (b[1] as int - 0x80) * 4096 + (b[2] as int - 0x80) * 64 +
                       (b[3] as int - 0x80))
  {
    SixBitGroups(c as int);
  }
}
