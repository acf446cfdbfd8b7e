/** Times as fixed-width text: comparing the texts is comparing the times. */
module UtcText {
  import opened Utf8
  import opened Decimal
  import opened RecordSchema

  /** A UTC time to the microsecond. */
  datatype DateTime = DateTime(year: nat, month: nat, day: nat, hour: nat, minute: nat, second: nat, micro: nat) {
    predicate Valid() {
      && 1 <= year <= 9999 && 1 <= month <= 12 && 1 <= day <= DaysInMonth(year, month)
      && hour < 24 && minute < 60 && second < 60 && micro < 1000000
    }
  }

  // ----- text

  /** The last `width` decimal digits of a number. */
  function Pad(n: nat, width: nat): string {
    if width == 0 then [] else Pad(n / 10, width - 1) + [DigitChar(n % 10)]
  }

  function TimeText(t: DateTime): string {
    Pad(t.hour, 2) + (":" + (Pad(t.minute, 2) + (":" + (Pad(t.second, 2) + ("." + (Pad(t.micro, 6) + "Z"))))))
  }

  /** `YYYY-MM-DDTHH:MM:SS.ffffffZ` */
  function Text(t: DateTime): string {
    Pad(t.year, 4) + ("-" + (Pad(t.month, 2) + ("-" + (Pad(t.day, 2) + ("T" + TimeText(t))))))
  }

  function Pow10(width: nat): nat {
    if width == 0 then 1 else 10 * Pow10(width - 1)
  }

  lemma DigitOrder(a: nat, b: nat, s: string, t: string)
    ensures CodePointLess([DigitChar(a % 10)] + s, [DigitChar(b % 10)] + t) <==>
            a % 10 < b % 10 || (a % 10 == b % 10 && CodePointLess(s, t))
  {
    assert ([DigitChar(a % 10)] + s)[1..] == s && ([DigitChar(b % 10)] + t)[1..] == t;
  }

  /** Padded numbers compare first, then what follows them. */
  lemma {:induction false} PadOrder(a: nat, b: nat, width: nat, s: string, t: string)
    requires a < Pow10(width) && b < Pow10(width)
    ensures CodePointLess(Pad(a, width) + s, Pad(b, width) + t) <==> a < b || (a == b && CodePointLess(s, t))
    decreases width
  {
    if width == 0 {
      assert Pad(a, 0) + s == s && Pad(b, 0) + t == t;
    } else {
      PadOrder(a / 10, b / 10, width - 1, [DigitChar(a % 10)] + s, [DigitChar(b % 10)] + t);
      assert Pad(a, width) + s == Pad(a / 10, width - 1) + ([DigitChar(a % 10)] + s);
      assert Pad(b, width) + t == Pad(b / 10, width - 1) + ([DigitChar(b % 10)] + t);
      DigitOrder(a, b, s, t);
    }
  }

  /** One field and the separator after it. */
  lemma FieldOrder(a: nat, b: nat, width: nat, c: char, s: string, t: string)
    requires a < Pow10(width) && b < Pow10(width)
    ensures CodePointLess(Pad(a, width) + ([c] + s), Pad(b, width) + ([c] + t)) <==>
            a < b || (a == b && CodePointLess(s, t))
  {
    PadOrder(a, b, width, [c] + s, [c] + t);
    assert ([c] + s)[1..] == s && ([c] + t)[1..] == t;
  }

  predicate TimeBefore(a: DateTime, b: DateTime) {
    a.hour < b.hour || (a.hour == b.hour &&
    (a.minute < b.minute || (a.minute == b.minute &&
    (a.second < b.second || (a.second == b.second && a.micro < b.micro)))))
  }

  predicate DateBefore(a: DateTime, b: DateTime) {
    a.year < b.year || (a.year == b.year && (a.month < b.month || (a.month == b.month && a.day < b.day)))
  }

  predicate SameDate(a: DateTime, b: DateTime) {
    a.year == b.year && a.month == b.month && a.day == b.day
  }

  predicate Before(a: DateTime, b: DateTime) {
    DateBefore(a, b) || (SameDate(a, b) && TimeBefore(a, b))
  }

  lemma Widths()
    ensures Pow10(2) == 100 && Pow10(4) == 10000 && Pow10(6) == 1000000
  {
    assert Pow10(3) == 1000;
    assert Pow10(5) == 100000;
  }

  lemma TimeTextOrder(a: DateTime, b: DateTime)
    requires a.Valid() && b.Valid()
    ensures CodePointLess(TimeText(a), TimeText(b)) <==> TimeBefore(a, b)
  {
    Widths();
    PadOrder(a.micro, b.micro, 6, "Z", "Z");
    assert "Z"[1..] == "";
    var a3, b3 := Pad(a.micro, 6) + "Z", Pad(b.micro, 6) + "Z";
    FieldOrder(a.second, b.second, 2, '.', a3, b3);
    var a2, b2 := Pad(a.second, 2) + ("." + a3), Pad(b.second, 2) + ("." + b3);
    FieldOrder(a.minute, b.minute, 2, ':', a2, b2);
    var a1, b1 := Pad(a.minute, 2) + (":" + a2), Pad(b.minute, 2) + (":" + b2);
    FieldOrder(a.hour, b.hour, 2, ':', a1, b1);
  }

  lemma TextOrderIsFieldOrder(a: DateTime, b: DateTime)
    requires a.Valid() && b.Valid()
    ensures CodePointLess(Text(a), Text(b)) <==> Before(a, b)
  {
    Widths();
    TimeTextOrder(a, b);
    FieldOrder(a.day, b.day, 2, 'T', TimeText(a), TimeText(b));
    var a2, b2 := Pad(a.day, 2) + ("T" + TimeText(a)), Pad(b.day, 2) + ("T" + TimeText(b));
    FieldOrder(a.month, b.month, 2, '-', a2, b2);
    var a1, b1 := Pad(a.month, 2) + ("-" + a2), Pad(b.month, 2) + ("-" + b2);
    FieldOrder(a.year, b.year, 4, '-', a1, b1);
  }

  // ----- times on the proleptic Gregorian calendar

  /** Days before January 1st of the year, counted from January 1st of year 1. */
  function DaysBeforeYear(year: nat): nat
    requires year >= 1
  {
    var y := year - 1;
    365 * y + y / 4 - y / 100 + y / 400
  }

  function DaysBeforeMonth(year: nat, month: nat): nat {
    if month <= 1 then 0 else DaysBeforeMonth(year, month - 1) + DaysInMonth(year, month - 1)
  }

  function DayNumber(t: DateTime): nat
    requires t.Valid()
  {
    DaysBeforeYear(t.year) + DaysBeforeMonth(t.year, t.month) + t.day
  }

  function MicrosOfDay(t: DateTime): nat {
    ((t.hour * 60 + t.minute) * 60 + t.second) * 1000000 + t.micro
  }

  /** Microseconds since the start of year 1. */
  function Instant(t: DateTime): nat
    requires t.Valid()
  {
    DayNumber(t) * 86400000000 + MicrosOfDay(t)
  }

  lemma YearLength(year: nat)
    requires year >= 1
    ensures DaysBeforeYear(year + 1) == DaysBeforeYear(year) + if IsLeapYear(year) then 366 else 365
  {
    EveryFourth(year);
    EveryHundredth(year);
    EveryFourHundredth(year);
    if year % 400 == 0 {
      FourHundredsAreHundreds(year, year / 400);
    }
    if year % 100 == 0 {
      HundredsAreFours(year, year / 100);
    }
  }

  lemma EveryFourth(n: nat)
    requires n >= 1
    ensures n / 4 == (n - 1) / 4 + if n % 4 == 0 then 1 else 0
  {
  }

  lemma EveryHundredth(n: nat)
    requires n >= 1
    ensures n / 100 == (n - 1) / 100 + if n % 100 == 0 then 1 else 0
  {
  }

  lemma EveryFourHundredth(n: nat)
    requires n >= 1
    ensures n / 400 == (n - 1) / 400 + if n % 400 == 0 then 1 else 0
  {
  }

  lemma HundredsAreFours(n: nat, q: nat)
    requires n == 100 * q
    ensures n % 4 == 0
  {
    QuotientIs(n, 25 * q);
  }

  lemma QuotientIs(n: nat, q: nat)
    requires n == 4 * q
    ensures n % 4 == 0
  {
  }

  lemma FourHundredsAreHundreds(n: nat, q: nat)
    requires n == 400 * q
    ensures n % 100 == 0
  {
    assert n == 100 * (4 * q);
  }

  lemma {:induction false} YearsPass(a: nat, b: nat)
    requires 1 <= a < b
    ensures DaysBeforeYear(a) + (if IsLeapYear(a) then 366 else 365) <= DaysBeforeYear(b)
    decreases b
  {
    YearLength(b - 1);
    if a < b - 1 {
      YearsPass(a, b - 1);
    }
  }

  lemma {:induction false} MonthsPass(year: nat, a: nat, b: nat)
    requires 1 <= a < b
    ensures DaysBeforeMonth(year, a) + DaysInMonth(year, a) <= DaysBeforeMonth(year, b)
    decreases b
  {
    if a < b - 1 {
      MonthsPass(year, a, b - 1);
    }
  }

  lemma YearOfMonths(year: nat)
    ensures DaysBeforeMonth(year, 13) == if IsLeapYear(year) then 366 else 365
  {
    var february := DaysInMonth(year, 2);
    assert DaysBeforeMonth(year, 2) == 31;
    assert DaysBeforeMonth(year, 3) == 31 + february;
    assert DaysBeforeMonth(year, 4) == 62 + february;
    assert DaysBeforeMonth(year, 5) == 92 + february;
    assert DaysBeforeMonth(year, 6) == 123 + february;
    assert DaysBeforeMonth(year, 7) == 153 + february;
    assert DaysBeforeMonth(year, 8) == 184 + february;
    assert DaysBeforeMonth(year, 9) == 215 + february;
    assert DaysBeforeMonth(year, 10) == 245 + february;
    assert DaysBeforeMonth(year, 11) == 276 + february;
    assert DaysBeforeMonth(year, 12) == 306 + february;
  }

  lemma EarlierDate(a: DateTime, b: DateTime)
    requires a.Valid() && b.Valid() && DateBefore(a, b)
    ensures DayNumber(a) < DayNumber(b)
  {
    if a.year < b.year {
      YearsPass(a.year, b.year);
      MonthsPass(a.year, a.month, 13);
      YearOfMonths(a.year);
    } else if a.month < b.month {
      MonthsPass(a.year, a.month, b.month);
    }
  }

  lemma EarlierTime(a: DateTime, b: DateTime)
    requires a.Valid() && b.Valid() && Before(a, b)
    ensures Instant(a) < Instant(b)
  {
    assert MicrosOfDay(a) < 86400000000 && MicrosOfDay(b) < 86400000000;
    if DateBefore(a, b) {
      EarlierDate(a, b);
    }
  }

  /** The text comparison of the due-jobs query is the comparison of the times. */
  lemma TextOrderIsTimeOrder(a: DateTime, b: DateTime)
    requires a.Valid() && b.Valid()
    ensures CodePointLess(Text(a), Text(b)) <==> Instant(a) < Instant(b)
    ensures Text(a) == Text(b) <==> Instant(a) == Instant(b)
  {
    TextOrderIsFieldOrder(a, b);
    TextOrderIsFieldOrder(b, a);
    TextOrderIsFieldOrder(a, a);
    if Before(a, b) {
      EarlierTime(a, b);
    } else if Before(b, a) {
      EarlierTime(b, a);
    } else {
      assert a == b;
    }
  }
}
