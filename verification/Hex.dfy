/** Lowercase hexadecimal text of byte strings. */
module Hex {
  import opened Prelude

  predicate IsLowerHexChar(c: char) {
    '0' <= c <= '9' || 'a' <= c <= 'f'
  }

  predicate IsLowerHex(s: string, length: nat) {
    |s| == length && forall i | 0 <= i < |s| :: IsLowerHexChar(s[i])
  }

  function Nibble(c: char): (n: nat)
    requires IsLowerHexChar(c)
    ensures n < 16
  {
    if '0' <= c <= '9' then c as int - '0' as int else c as int - 'a' as int + 10
  }

  function HexChar(n: nat): (c: char)
    requires n < 16
    ensures IsLowerHexChar(c) && Nibble(c) == n
  {
    if n < 10 then (n + '0' as int) as char else (n - 10 + 'a' as int) as char
  }

  function ByteOf(high: char, low: char): Byte
    requires IsLowerHexChar(high) && IsLowerHexChar(low)
  {
    Nibble(high) * 16 + Nibble(low)
  }

  lemma ByteRoundTrip(b: Byte)
    ensures ByteOf(HexChar(b / 16), HexChar(b % 16)) == b
  {
  }

  lemma CharsRoundTrip(high: char, low: char)
    requires IsLowerHexChar(high) && IsLowerHexChar(low)
    ensures HexChar(ByteOf(high, low) / 16) == high && HexChar(ByteOf(high, low) % 16) == low
  {
    assert ByteOf(high, low) / 16 == Nibble(high) && ByteOf(high, low) % 16 == Nibble(low);
  }

  function Encode(bytes: Bytes): (s: string)
    ensures |s| == 2 * |bytes|
  {
    if bytes == [] then []
    else Encode(bytes[..|bytes| - 1]) + [HexChar(bytes[|bytes| - 1] / 16), HexChar(bytes[|bytes| - 1] % 16)]
  }

  lemma {:induction false} EncodeIsLowerHex(bytes: Bytes)
    ensures IsLowerHex(Encode(bytes), 2 * |bytes|)
  {
    if bytes != [] {
      EncodeIsLowerHex(bytes[..|bytes| - 1]);
    }
  }

  /** The bytes that a hexadecimal text of `length` pairs writes. */
  function Decode(s: string, length: nat): (b: Bytes)
    requires IsLowerHex(s, 2 * length)
    ensures |b| == length
  {
    seq(length, i requires 0 <= i < length => ByteOf(s[2 * i], s[2 * i + 1]))
  }

  lemma DecodeSnoc(s: string, length: nat)
    requires length > 0 && IsLowerHex(s, 2 * length)
    ensures IsLowerHex(s[..2 * (length - 1)], 2 * (length - 1))
    ensures Decode(s, length) == Decode(s[..2 * (length - 1)], length - 1) +
            [ByteOf(s[2 * length - 2], s[2 * length - 1])]
  {
  }

  lemma {:induction false} DecodeEncoded(bytes: Bytes)
    ensures IsLowerHex(Encode(bytes), 2 * |bytes|) && Decode(Encode(bytes), |bytes|) == bytes
  {
    EncodeIsLowerHex(bytes);
    if bytes != [] {
      var init, last := bytes[..|bytes| - 1], bytes[|bytes| - 1];
      DecodeEncoded(init);
      DecodeSnoc(Encode(bytes), |bytes|);
      assert Encode(bytes)[..2 * |init|] == Encode(init);
      ByteRoundTrip(last);
    }
  }

  lemma {:induction false} EncodeDecoded(s: string, length: nat)
    requires IsLowerHex(s, 2 * length)
    ensures Encode(Decode(s, length)) == s
  {
    if length > 0 {
      var init := s[..2 * (length - 1)];
      EncodeDecoded(init, length - 1);
      assert Decode(s, length)[..length - 1] == Decode(init, length - 1);
      CharsRoundTrip(s[2 * (length - 1)], s[2 * (length - 1) + 1]);
      assert s == init + [s[2 * (length - 1)], s[2 * (length - 1) + 1]];
    }
  }

  /** A byte is written by the digit of its high half and then that of its low half. */
  lemma ByteText(b: Byte)
    ensures Encode([b]) == ["0123456789abcdef"[b / 16], "0123456789abcdef"[b % 16]]
  {
    assert Encode([b]) == Encode([]) + [HexChar(b / 16), HexChar(b % 16)];
    DigitTable(b / 16);
    DigitTable(b % 16);
  }

  lemma DigitTable(n: nat)
    requires n < 16
    ensures HexChar(n) == "0123456789abcdef"[n]
  {
  }

  lemma {:induction false} TextOfEach(bytes: Bytes, i: nat)
    requires i < |bytes|
    ensures Encode(bytes)[2 * i..2 * i + 2] == Encode([bytes[i]])
  {
    var init, last := bytes[..|bytes| - 1], bytes[|bytes| - 1];
    assert Encode([last]) == [] + [HexChar(last / 16), HexChar(last % 16)];
    if i < |init| {
      TextOfEach(init, i);
      assert Encode(bytes)[2 * i..2 * i + 2] == Encode(init)[2 * i..2 * i + 2];
    } else {
      assert Encode(bytes)[2 * i..2 * i + 2] == [HexChar(last / 16), HexChar(last % 16)];
    }
  }

  /** Different byte strings have different texts. */
  lemma EncodeIsInjective(a: Bytes, b: Bytes)
    requires Encode(a) == Encode(b)
    ensures a == b
  {
    DecodeEncoded(a);
    DecodeEncoded(b);
  }

  method EncodeHex(bytes: Bytes) returns (output: string)
    ensures output == Encode(bytes)
  {
    output := "";
    for i := 0 to |bytes|
      invariant output == Encode(bytes[..i])
    {
      assert bytes[..i + 1][..i] == bytes[..i];
      output := output + [HexChar(bytes[i] / 16)];
      output := output + [HexChar(bytes[i] % 16)];
    }
    assert bytes[..|bytes|] == bytes;
  }

  /** Decoding fails exactly on text that is not lowercase hex of the length, and inverts encoding. */
  method DecodeHexArray(value: string, length: nat) returns (r: Option<Bytes>)
    ensures r.Some? <==> IsLowerHex(value, 2 * length)
    ensures r.Some? ==> r.value == Decode(value, length) && Encode(r.value) == value
  {
    if !IsLowerHex(value, 2 * length) {
      return None;
    }
    var output: Bytes := [];
    for i := 0 to length
      invariant output == Decode(value, length)[..i]
    {
      output := output + [ByteOf(value[2 * i], value[2 * i + 1])];
    }
    EncodeDecoded(value, length);
    r := Some(output);
  }
}
