/**
 The base-128 little-endian integers of the OpenTimestamps format.  A spelling is the
 byte string of one integer; its length is not unique, because 0x80 0x00 spells zero too.
 */
module VarUint {
  import opened Prelude

  const MAX_SPELLING_BYTES := 10

  /** Continuation bytes, then one byte without the continuation bit. */
  predicate IsSpelling(s: Bytes) {
    s != [] && if s[0] < 128 then |s| == 1 else IsSpelling(s[1..])
  }

  /** The number that a byte string spells, with no bound on its size. */
  function SpelledValue(s: Bytes): nat {
    if s == [] then 0 else s[0] % 128 + 128 * SpelledValue(s[1..])
  }

  /** What the format accepts: at most ten bytes that spell a number below 2^64. */
  predicate IsVarUint(s: Bytes) {
    IsSpelling(s) && |s| <= MAX_SPELLING_BYTES && SpelledValue(s) < U64_LIMIT
  }

  datatype VarUintError = Truncated | Overflow

  datatype VarUintRead = VarUintRead(value: nat, length: nat)

  /** Reads the rest of an integer after `i` continuation bytes; the tenth byte may only be 0 or 1. */
  function ReadGroups(s: Bytes, i: nat): (r: Result<VarUintRead, VarUintError>)
    ensures r.Ok? ==> 0 < r.value.length <= |s|
  {
    if s == [] then Err(Truncated)
    else if i >= 9 && s[0] > 1 then Err(Overflow)
    else if s[0] < 128 then Ok(VarUintRead(s[0], 1))
    else
      match ReadGroups(s[1..], i + 1)
      case Err(e) => Err(e)
      case Ok(v) => Ok(VarUintRead(s[0] % 128 + 128 * v.value, 1 + v.length))
  }

  /** The outcome of reading an integer at the front of `s`, without a register or a shift. */
  function ReadVarUint(s: Bytes): (r: Result<VarUintRead, VarUintError>)
    ensures r.Ok? ==> 0 < r.value.length <= |s|
  {
    ReadGroups(s, 0)
  }

  function MinimalSpelling(v: nat): (s: Bytes)
    ensures |s| > 0
  {
    if v < 128 then [v] else [128 + v % 128] + MinimalSpelling(v / 128)
  }

  // ----- the value of a spelling grows at its end

  lemma {:induction false} SpelledValueSnoc(s: Bytes, b: Byte)
    ensures SpelledValue(s + [b]) == SpelledValue(s) + (b % 128) * Pow2(7 * |s|)
  {
    if s == [] {
    } else {
      var p := Pow2(7 * |s[1..]|);
      assert (s + [b])[1..] == s[1..] + [b];
      SpelledValueSnoc(s[1..], b);
      Pow2Values();
      Pow2Adds(7, 7 * |s[1..]|);
      assert Pow2(7 * |s|) == 128 * p;
      assert 128 * ((b % 128) * p) == (b % 128) * (128 * p);
    }
  }

  lemma {:induction false} SpelledValueBound(s: Bytes)
    ensures SpelledValue(s) < Pow2(7 * |s|)
  {
    if s == [] {
    } else {
      SpelledValueBound(s[1..]);
      Pow2Values();
      Pow2Adds(7, 7 * |s[1..]|);
    }
  }

  // ----- the shift-and-or of a 64-bit register

  /** Bitwise or of two naturals. */
  function BitOr(a: nat, b: nat): nat {
    if a == 0 && b == 0 then 0
    else (if a % 2 == 1 || b % 2 == 1 then 1 else 0) + 2 * BitOr(a / 2, b / 2)
  }

  /** The left shift of a 64-bit register: the bits pushed out are lost. */
  function ShiftLeft64(x: nat, shift: nat): nat {
    (x * Pow2(shift)) % U64_LIMIT
  }

  lemma {:induction false} BitOrZero(b: nat)
    ensures BitOr(0, b) == b
  {
    if b > 0 {
      BitOrZero(b / 2);
    }
  }

  lemma {:induction false} BitOrIsSum(a: nat, c: nat, shift: nat)
    requires a < Pow2(shift)
    ensures BitOr(a, c * Pow2(shift)) == a + c * Pow2(shift)
  {
    if shift == 0 {
      BitOrZero(c);
    } else {
      var b := c * Pow2(shift - 1);
      assert c * Pow2(shift) == 2 * b;
      BitOrIsSum(a / 2, c, shift - 1);
      if a == 0 && b == 0 {
      } else {
        assert (2 * b) / 2 == b && (2 * b) % 2 == 0;
      }
    }
  }

  lemma DivisionTest(c: nat, p: nat, limit: nat)
    requires p > 0
    ensures c <= limit / p <==> c * p <= limit
  {
    var q := limit / p;
    if c <= q {
      assert c * p <= q * p <= limit;
    } else {
      assert c * p >= (q + 1) * p == q * p + p > limit;
    }
  }

  /** The overflow test `chunk > u64::MAX >> shift` lets through exactly the chunks that lose no bit. */
  lemma ShiftLosesNothing(chunk: nat, shift: nat)
    requires shift <= 64
    ensures chunk <= (U64_LIMIT - 1) / Pow2(shift) <==> chunk * Pow2(shift) < U64_LIMIT
    ensures chunk * Pow2(shift) < U64_LIMIT ==> ShiftLeft64(chunk, shift) == chunk * Pow2(shift)
  {
    DivisionTest(chunk, Pow2(shift), U64_LIMIT - 1);
  }

  // ----- which byte strings the reader accepts

  /** Nine 7-bit groups always fit; a tenth fits exactly when it is 0 or 1. */
  lemma SpellingFits(s: Bytes)
    requires s != [] && s[|s| - 1] < 128
    ensures |s| <= 9 ==> SpelledValue(s) < U64_LIMIT
    ensures |s| == 10 ==> (SpelledValue(s) < U64_LIMIT <==> s[9] <= 1)
  {
    if |s| <= 9 {
      ShortSpellingFits(s);
    } else if |s| == 10 {
      LongestSpellingFits(s);
    }
  }

  lemma ShortSpellingFits(s: Bytes)
    requires |s| <= 9
    ensures SpelledValue(s) < U64_LIMIT
  {
    Pow2Values();
    SpelledValueBound(s);
    Pow2Grows(7 * |s|, 63);
  }

  lemma LongestSpellingFits(s: Bytes)
    requires |s| == 10 && s[9] < 128
    ensures SpelledValue(s) < U64_LIMIT <==> s[9] <= 1
  {
    Pow2Values();
    SpelledValueBound(s[..9]);
    SpelledValueSnoc(s[..9], s[9]);
    assert s == s[..9] + [s[9]];
  }

  lemma {:induction false} SpellingShape(s: Bytes)
    ensures IsSpelling(s) <==>
            s != [] && s[|s| - 1] < 128 && forall i | 0 <= i < |s| - 1 :: s[i] >= 128
  {
    if |s| > 1 {
      SpellingShape(s[1..]);
      assert forall i | 0 < i < |s| :: s[i] == s[1..][i - 1];
      assert (forall i | 0 <= i < |s| - 1 :: s[i] >= 128) <==>
             s[0] >= 128 && forall i | 0 <= i < |s[1..]| - 1 :: s[1..][i] >= 128 by {
        if forall i | 0 <= i < |s| - 1 :: s[i] >= 128 {
          assert forall i | 0 <= i < |s[1..]| - 1 :: s[1..][i] == s[i + 1];
        }
      }
    }
  }

  lemma {:induction false} ReadGroupsExact(s: Bytes, i: nat, n: nat)
    requires i <= 9 && 0 < n <= |s|
    ensures ReadGroups(s, i).Ok? && ReadGroups(s, i).value.length == n <==>
            IsSpelling(s[..n]) && i + n <= 10 && (i + n == 10 ==> s[n - 1] <= 1)
    ensures ReadGroups(s, i).Ok? && ReadGroups(s, i).value.length == n ==>
            ReadGroups(s, i).value.value == SpelledValue(s[..n])
  {
    assert s[..n][0] == s[0];
    if s[0] < 128 {
      if n == 1 {
        assert SpelledValue(s[..1]) == s[0] + 128 * SpelledValue(s[..1][1..]);
      }
    } else if n == 1 {
      assert !IsSpelling(s[..1][1..]);
    } else if i < 9 {
      ReadGroupsExact(s[1..], i + 1, n - 1);
      assert s[..n][1..] == s[1..][..n - 1];
      assert s[1..][n - 2] == s[n - 1];
    }
  }

  /** The reader succeeds on exactly the inputs that start with an accepted spelling, and returns its value. */
  lemma ReadVarUintExact(s: Bytes, n: nat)
    requires 0 < n <= |s|
    ensures IsVarUint(s[..n]) <==> (ReadVarUint(s).Ok? && ReadVarUint(s).value.length == n)
    ensures IsVarUint(s[..n]) ==> ReadVarUint(s).value.value == SpelledValue(s[..n])
  {
    ReadGroupsExact(s, 0, n);
    SpellingShape(s[..n]);
    assert s[..n][n - 1] == s[n - 1];
    if s[n - 1] < 128 {
      SpellingFits(s[..n]);
    }
  }

  lemma {:induction false} ReadGroupsErrors(s: Bytes, i: nat)
    requires i <= 9
    ensures ReadGroups(s, i) == Err(Overflow) <==>
            |s| >= 10 - i && (forall j | 0 <= j < 9 - i :: s[j] >= 128) && s[9 - i] > 1
    ensures ReadGroups(s, i) == Err(Truncated) <==>
            |s| < 10 - i && forall j | 0 <= j < |s| :: s[j] >= 128
  {
    if s != [] && i < 9 {
      ReadGroupsErrors(s[1..], i + 1);
      assert forall j | 0 < j < |s| :: s[j] == s[1..][j - 1];
      assert forall j | 0 <= j < |s| - 1 :: s[1..][j] == s[j + 1];
    }
  }

  /** The failing inputs: overflow after ten bytes without a fitting end, truncation before that. */
  lemma ReadVarUintErrors(s: Bytes)
    ensures ReadVarUint(s) == Err(Overflow) <==>
            |s| >= 10 && (forall i | 0 <= i < 9 :: s[i] >= 128) && s[9] > 1
    ensures ReadVarUint(s) == Err(Truncated) <==>
            |s| < 10 && forall i | 0 <= i < |s| :: s[i] >= 128
  {
    ReadGroupsErrors(s, 0);
  }

  lemma MulGrows(a: nat, b: nat, p: nat, q: nat)
    requires a <= b && p <= q
    ensures a * p <= b * q
  {
    assert a * p <= b * p;
    assert b * p <= b * q;
  }

  /** A tenth group overflows exactly when it is above 1; earlier groups never do. */
  lemma ShiftKeepsGroups(chunk: nat, shift: nat, i: nat)
    requires chunk < 128 && shift == 7 * i && i <= 9
    ensures chunk * Pow2(shift) < U64_LIMIT <==> i < 9 || chunk <= 1
  {
    Pow2Values();
    if i < 9 {
      Pow2Grows(shift, 56);
      Pow2Adds(56, 7);
      MulGrows(chunk, 127, Pow2(shift), Pow2(56));
    }
  }

  /** The overflow test and the register update of one round of the loop. */
  predicate GroupOverflows(chunk: nat, shift: nat) {
    chunk > (U64_LIMIT - 1) / Pow2(shift)
  }

  function NextRegister(value: nat, chunk: nat, shift: nat): nat {
    BitOr(value, ShiftLeft64(chunk, shift))
  }

  lemma NextGroup(value: nat, i: nat, chunk: nat)
    requires chunk < 128 && value < Pow2(7 * i)
    ensures value + chunk * Pow2(7 * i) < Pow2(7 * (i + 1)) == 128 * Pow2(7 * i)
  {
    var p := Pow2(7 * i);
    Pow2Values();
    Pow2Adds(7, 7 * i);
    assert 7 * (i + 1) == 7 + 7 * i;
    MulGrows(chunk, 127, p, p);
  }

  /** The loop's register test and update at its `i`-th byte. */
  lemma RegisterStep(value: nat, i: nat, chunk: nat)
    requires i <= 9 && chunk < 128 && value < Pow2(7 * i)
    ensures GroupOverflows(chunk, 7 * i) <==> i == 9 && chunk > 1
    ensures !GroupOverflows(chunk, 7 * i) ==> NextRegister(value, chunk, 7 * i) == value + chunk * Pow2(7 * i)
  {
    ShiftLosesNothing(chunk, 7 * i);
    ShiftKeepsGroups(chunk, 7 * i, i);
    BitOrIsSum(value, chunk, 7 * i);
  }

  /** The outcome of the whole read, when `i` bytes have put `value` in the register and `r` reads the rest. */
  function Resume(value: nat, i: nat, r: Result<VarUintRead, VarUintError>): Result<VarUintRead, VarUintError> {
    match r
    case Err(e) => Err(e)
    case Ok(v) => Ok(VarUintRead(value + v.value * Pow2(7 * i), i + v.length))
  }

  lemma Distribute(c: nat, v: nat, p: nat)
    ensures (c + 128 * v) * p == c * p + v * (128 * p)
  {
  }

  lemma ResumeStep(s: Bytes, value: nat, i: nat)
    requires s != [] && s[0] >= 128 && i < 9 && value < Pow2(7 * i)
    ensures Resume(value, i, ReadGroups(s, i))
            == Resume(value + (s[0] % 128) * Pow2(7 * i), i + 1, ReadGroups(s[1..], i + 1))
  {
    NextGroup(value, i, s[0] % 128);
    ResumeNext(value, i, s[0] % 128, ReadGroups(s[1..], i + 1));
  }

  lemma ResumeNext(value: nat, i: nat, chunk: nat, r: Result<VarUintRead, VarUintError>)
    requires Pow2(7 * (i + 1)) == 128 * Pow2(7 * i)
    ensures r.Ok? ==>
              Resume(value, i, Ok(VarUintRead(chunk + 128 * r.value.value, r.value.length + 1)))
              == Resume(value + chunk * Pow2(7 * i), i + 1, r)
  {
    if r.Ok? {
      Distribute(chunk, r.value.value, Pow2(7 * i));
    }
  }

  /** One round of the loop, which finds `s` ahead after `i` continuation bytes. */
  lemma LoopRound(s: Bytes, value: nat, i: nat)
    requires s != [] && i <= 9 && value < Pow2(7 * i)
    ensures var chunk, r := s[0] % 128, ReadGroups(s, i);
            if GroupOverflows(chunk, 7 * i) then r == Err(Overflow)
            else
              var next := NextRegister(value, chunk, 7 * i);
              if s[0] < 128 then Resume(value, i, r) == Ok(VarUintRead(next, i + 1))
              else if i == 9 then r == Err(Overflow)
              else Resume(value, i, r) == Resume(next, i + 1, ReadGroups(s[1..], i + 1)) && next < Pow2(7 * (i + 1))
  {
    RegisterStep(value, i, s[0] % 128);
    if s[0] >= 128 && i < 9 {
      NextGroup(value, i, s[0] % 128);
      ResumeStep(s, value, i);
    } else {
      LastGroup(s, i);
    }
  }

  /** A byte without the continuation bit, and the tenth byte, end the read. */
  lemma LastGroup(s: Bytes, i: nat)
    requires s != [] && i <= 9 && (s[0] < 128 || i == 9)
    ensures ReadGroups(s, i) ==
            if s[0] < 128 && (i < 9 || s[0] <= 1) then Ok(VarUintRead(s[0], 1)) else Err(Overflow)
  {
  }

  lemma ReadVarUintAppend(s: Bytes, rest: Bytes)
    requires IsVarUint(s)
    ensures ReadVarUint(s + rest) == Ok(VarUintRead(SpelledValue(s), |s|))
  {
    assert (s + rest)[..|s|] == s;
    ReadVarUintExact(s + rest, |s|);
  }

  // ----- the minimal spelling

  lemma {:induction false} MinimalSpellingSpells(v: nat)
    ensures IsSpelling(MinimalSpelling(v))
    ensures SpelledValue(MinimalSpelling(v)) == v
  {
    if v >= 128 {
      MinimalSpellingSpells(v / 128);
      assert MinimalSpelling(v)[1..] == MinimalSpelling(v / 128);
    }
  }

  /** No spelling of a number is shorter than the minimal one. */
  lemma {:induction false} MinimalSpellingIsShortest(s: Bytes)
    requires IsSpelling(s)
    ensures |MinimalSpelling(SpelledValue(s))| <= |s|
  {
    var v := SpelledValue(s);
    if s[0] >= 128 {
      MinimalSpellingIsShortest(s[1..]);
      assert v / 128 == SpelledValue(s[1..]);
    }
  }

  lemma {:induction false} MinimalSpellingLength(v: nat, groups: nat)
    requires groups > 0 && v < Pow2(7 * groups)
    ensures |MinimalSpelling(v)| <= groups
    decreases groups
  {
    Pow2Values();
    if v >= 128 {
      if groups == 1 {
        assert false;
      } else {
        Pow2Adds(7, 7 * (groups - 1));
        MinimalSpellingLength(v / 128, groups - 1);
      }
    }
  }

  /** Every 64-bit number survives the trip through its minimal spelling, whatever follows it. */
  lemma MinimalSpellingRoundTrip(v: nat, rest: Bytes)
    requires v < U64_LIMIT
    ensures IsVarUint(MinimalSpelling(v))
    ensures ReadVarUint(MinimalSpelling(v) + rest) == Ok(VarUintRead(v, |MinimalSpelling(v)|))
  {
    Pow2Values();
    Pow2Adds(64, 6);
    MinimalSpellingLength(v, 10);
    MinimalSpellingSpells(v);
    ReadVarUintAppend(MinimalSpelling(v), rest);
  }
}
