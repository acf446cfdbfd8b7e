/** The capped exponential delay with jitter, over exact reals, and its rounding to microseconds. */
module RetrySchedule {
  import opened Prelude

  const BASE_SECONDS := 900
  const MAX_SECONDS := 86400
  const FINAL_MAX_SECONDS := 108000.0

  function Min(a: real, b: real): real {
    if a <= b then a else b
  }

  function RawDelay(attempt: nat): nat
    requires attempt >= 1
  {
    BASE_SECONDS * Pow2(attempt - 1)
  }

  /** The delay after the attempt of this number has failed; None for arguments that are refused. */
  function RetryDelay(attempt: int, jitter: real): Option<real> {
    if attempt < 1 || !(0.0 <= jitter <= 1.0) then None
    else
      var raw := RawDelay(attempt) as real;
      Some(Capped(raw, Jitter(raw, jitter)))
  }

  function Jitter(raw: real, sample: real): real {
    raw * 0.25 * sample
  }

  function Capped(raw: real, jitter: real): real {
    Min(Min(raw, MAX_SECONDS as real) + jitter, FINAL_MAX_SECONDS)
  }

  /** The delay without jitter. */
  function CappedDelay(attempt: nat): nat
    requires attempt >= 1
  {
    if RawDelay(attempt) <= MAX_SECONDS then RawDelay(attempt) else MAX_SECONDS
  }

  lemma ProductGrows(a: real, b: real, j: real, k: real)
    requires 0.0 <= a <= b && 0.0 <= j <= k
    ensures a * j <= b * k
  {
    assert b * k - a * j == (b - a) * k + a * (k - j);
  }

  lemma JitterGrows(raw: real, rawLater: real, sample: real, sampleLater: real)
    requires 0.0 <= raw <= rawLater && 0.0 <= sample <= sampleLater
    ensures Jitter(raw, sample) <= Jitter(rawLater, sampleLater)
  {
    ProductGrows(raw * 0.25, rawLater * 0.25, sample, sampleLater);
  }

  lemma JitterBounds(raw: real, sample: real)
    requires raw >= 0.0 && 0.0 <= sample <= 1.0
    ensures 0.0 <= Jitter(raw, sample) <= raw * 0.25
  {
    ProductGrows(0.0, raw * 0.25, sample, sample);
    ProductGrows(raw * 0.25, raw * 0.25, sample, 1.0);
  }

  lemma CappedBounds(raw: real, jitter: real)
    requires 0.0 <= jitter <= raw * 0.25
    ensures Min(raw, MAX_SECONDS as real) <= Capped(raw, jitter) <= 1.25 * Min(raw, MAX_SECONDS as real)
  {
  }

  lemma CappedDelayIs(attempt: nat)
    requires attempt >= 1
    ensures CappedDelay(attempt) as real == Min(RawDelay(attempt) as real, MAX_SECONDS as real)
  {
  }

  /** The delay lies between the capped delay and one and a quarter times that. */
  lemma DelayBounds(attempt: nat, jitter: real)
    requires attempt >= 1 && 0.0 <= jitter <= 1.0
    ensures var d := RetryDelay(attempt, jitter).value;
            CappedDelay(attempt) as real <= d <= 1.25 * CappedDelay(attempt) as real
  {
    var raw := RawDelay(attempt) as real;
    JitterBounds(raw, jitter);
    CappedBounds(raw, Jitter(raw, jitter));
    CappedDelayIs(attempt);
  }

  lemma CappedIsMonotone(raw: real, jitter: real, rawLater: real, jitterLater: real)
    requires raw <= rawLater && jitter <= jitterLater
    ensures Capped(raw, jitter) <= Capped(rawLater, jitterLater)
  {
  }

  /** The delay grows with the number of attempts and with the jitter sample. */
  lemma DelayIsMonotone(attempt: nat, later: nat, jitter: real, more: real)
    requires 1 <= attempt <= later && 0.0 <= jitter <= more <= 1.0
    ensures RetryDelay(attempt, jitter).value <= RetryDelay(later, more).value
  {
    var raw, rawLater := RawDelay(attempt) as real, RawDelay(later) as real;
    Pow2Grows(attempt - 1, later - 1);
    JitterGrows(raw, rawLater, jitter, more);
    CappedIsMonotone(raw, Jitter(raw, jitter), rawLater, Jitter(rawLater, more));
  }

  /** A quarter of an hour, doubled each time, up to a day. */
  lemma DelayTable(attempt: nat)
    ensures CappedDelay(1) == 900 && CappedDelay(2) == 1800 && CappedDelay(3) == 3600 && CappedDelay(4) == 7200
    ensures CappedDelay(5) == 14400 && CappedDelay(6) == 28800 && CappedDelay(7) == 57600
    ensures attempt >= 8 ==> CappedDelay(attempt) == 86400
  {
    assert Pow2(6) == 64 && Pow2(7) == 128;
    if attempt >= 8 {
      Pow2Grows(7, attempt - 1);
    }
  }

  /** Below the cap the sample adds up to a quarter; from the cap on, nothing exceeds a day and a quarter. */
  lemma DelayExact(attempt: nat, jitter: real)
    requires attempt >= 1 && 0.0 <= jitter <= 1.0
    ensures attempt <= 7 ==>
              RetryDelay(attempt, jitter) == Some(CappedDelay(attempt) as real * (1.0 + jitter / 4.0))
    ensures RetryDelay(attempt, 0.0) == Some(CappedDelay(attempt) as real)
    ensures RetryDelay(attempt, 1.0) == Some(CappedDelay(attempt) as real * 1.25)
    ensures attempt >= 8 ==> 86400.0 <= RetryDelay(attempt, jitter).value <= 108000.0
  {
    DelayTable(attempt);
    DelayBounds(attempt, 0.0);
    DelayBounds(attempt, jitter);
    UncappedDelay(attempt, jitter);
    FullJitter(attempt);
  }

  lemma UncappedDelay(attempt: nat, jitter: real)
    requires attempt >= 1 && 0.0 <= jitter <= 1.0
    ensures attempt <= 7 ==> RetryDelay(attempt, jitter).value == CappedDelay(attempt) as real * (1.0 + jitter / 4.0)
    ensures RetryDelay(attempt, 0.0).value == CappedDelay(attempt) as real
  {
    var raw := RawDelay(attempt) as real;
    JitterBounds(raw, jitter);
    DelayTable(attempt);
    if attempt <= 7 {
      Pow2Grows(attempt - 1, 6);
    }
    assert Jitter(raw, 0.0) == 0.0;
    assert raw + Jitter(raw, jitter) == raw * (1.0 + jitter / 4.0);
  }

  lemma FullJitter(attempt: nat)
    requires attempt >= 1
    ensures RetryDelay(attempt, 1.0).value == CappedDelay(attempt) as real * 1.25
  {
    var raw := RawDelay(attempt) as real;
    assert Jitter(raw, 1.0) == raw * 0.25;
  }

  // ----- microseconds

  /** Rounding to the nearest integer, ties to even. */
  function RoundHalfEven(x: real): int {
    var f := x.Floor;
    var rest := x - f as real;
    if rest < 0.5 || (rest == 0.5 && f % 2 == 0) then f else f + 1
  }

  function Micros(seconds: real): int {
    RoundHalfEven(seconds * 1000000.0)
  }

  lemma RoundIsMonotone(x: real, y: real)
    requires x <= y
    ensures RoundHalfEven(x) <= RoundHalfEven(y)
  {
  }

  lemma RoundOfInteger(n: int)
    ensures RoundHalfEven(n as real) == n
  {
  }

  /** After rounding, the bounds are whole microseconds and still hold. */
  lemma DelayMicrosBounds(attempt: nat, jitter: real)
    requires attempt >= 1 && 0.0 <= jitter <= 1.0
    ensures var d := Micros(RetryDelay(attempt, jitter).value);
            CappedDelay(attempt) * 1000000 <= d <= CappedDelay(attempt) * 1250000
  {
    DelayBounds(attempt, jitter);
    var d := RetryDelay(attempt, jitter).value * 1000000.0;
    var low, high := CappedDelay(attempt) * 1000000, CappedDelay(attempt) * 1250000;
    assert low as real <= d <= high as real;
    RoundIsMonotone(low as real, d);
    RoundIsMonotone(d, high as real);
    RoundOfInteger(low);
    RoundOfInteger(high);
  }

  lemma DelayMicrosMonotone(attempt: nat, later: nat, jitter: real, more: real)
    requires 1 <= attempt <= later && 0.0 <= jitter <= more <= 1.0
    ensures Micros(RetryDelay(attempt, jitter).value) <= Micros(RetryDelay(later, more).value)
  {
    DelayIsMonotone(attempt, later, jitter, more);
    RoundIsMonotone(RetryDelay(attempt, jitter).value * 1000000.0, RetryDelay(later, more).value * 1000000.0);
  }
}
