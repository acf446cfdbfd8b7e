/** The timestamps of both validators are the texts of calendar times, with or without a fraction. */
module Timestamps {
  import opened Decimal
  import opened RecordSchema
  import opened UtcText

  /** `YYYY-MM-DDTHH:MM:SS` */
  function SecondText(t: DateTime): string {
    DateOf(Pad(t.year, 4), Pad(t.month, 2), Pad(t.day, 2)) + TimeOf(Pad(t.hour, 2), Pad(t.minute, 2), Pad(t.second, 2))
  }

  function DateOf(year: string, month: string, day: string): string {
    year + ("-" + (month + ("-" + day)))
  }

  function TimeOf(hour: string, minute: string, second: string): string {
    "T" + (hour + (":" + (minute + (":" + second))))
  }

  /** A fraction of a second has one digit or more, if it is there. */
  function FractionOf(fraction: string): string {
    if fraction == "" then "" else "." + fraction
  }

  /** A day of the calendar and a time of the day, with seconds up to `lastSecond`. */
  predicate IsTime(t: DateTime, firstYear: nat, lastSecond: nat) {
    && firstYear <= t.year <= 9999 && 1 <= t.month <= 12 && 1 <= t.day <= DaysInMonth(t.year, t.month)
    && t.hour <= 23 && t.minute <= 59 && t.second <= lastSecond
  }

  // ----- padded numbers

  lemma {:induction false} PadDigits(n: nat, width: nat)
    requires n < Pow10(width)
    ensures |Pad(n, width)| == width && AllDigits(Pad(n, width)) && NatOf(Pad(n, width)) == n
    decreases width
  {
    if width > 0 {
      PadDigits(n / 10, width - 1);
      NatOfSnoc(Pad(n / 10, width - 1), DigitChar(n % 10));
    }
  }

  lemma {:induction false} PadOfDigits(s: string)
    requires AllDigits(s)
    ensures Pad(NatOf(s), |s|) == s && NatOf(s) < Pow10(|s|)
  {
    if s != [] {
      var init, last := s[..|s| - 1], s[|s| - 1];
      PadOfDigits(init);
      assert DigitChar(DigitValue(last)) == last;
      assert NatOf(s) / 10 == NatOf(init) && NatOf(s) % 10 == DigitValue(last);
      assert s == init + [last];
    }
  }

  lemma FieldsFit(t: DateTime, lastSecond: nat)
    requires IsTime(t, 0, lastSecond) && lastSecond < 100
    ensures t.year < Pow10(4) && t.month < Pow10(2) && t.day < Pow10(2)
    ensures t.hour < Pow10(2) && t.minute < Pow10(2) && t.second < Pow10(2)
  {
    Widths();
  }

  lemma PadsAreDigits(t: DateTime, lastSecond: nat)
    requires IsTime(t, 0, lastSecond) && lastSecond < 100
    ensures |Pad(t.year, 4)| == 4 && AllDigits(Pad(t.year, 4)) && NatOf(Pad(t.year, 4)) == t.year
    ensures |Pad(t.month, 2)| == 2 && AllDigits(Pad(t.month, 2)) && NatOf(Pad(t.month, 2)) == t.month
    ensures |Pad(t.day, 2)| == 2 && AllDigits(Pad(t.day, 2)) && NatOf(Pad(t.day, 2)) == t.day
    ensures |Pad(t.hour, 2)| == 2 && AllDigits(Pad(t.hour, 2)) && NatOf(Pad(t.hour, 2)) == t.hour
    ensures |Pad(t.minute, 2)| == 2 && AllDigits(Pad(t.minute, 2)) && NatOf(Pad(t.minute, 2)) == t.minute
    ensures |Pad(t.second, 2)| == 2 && AllDigits(Pad(t.second, 2)) && NatOf(Pad(t.second, 2)) == t.second
  {
    FieldsFit(t, lastSecond);
    PadDigits(t.year, 4);
    PadDigits(t.month, 2);
    PadDigits(t.day, 2);
    PadDigits(t.hour, 2);
    PadDigits(t.minute, 2);
    PadDigits(t.second, 2);
  }

  // ----- the pieces of a text

  lemma DatePieces(year: string, month: string, day: string)
    requires |year| == 4 && |month| == 2 && |day| == 2
    ensures var d := DateOf(year, month, day);
            && |d| == 10 && d[4] == '-' && d[7] == '-'
            && d[0..4] == year && d[5..7] == month && d[8..10] == day
  {
  }

  lemma TimePieces(hour: string, minute: string, second: string)
    requires |hour| == 2 && |minute| == 2 && |second| == 2
    ensures var t := TimeOf(hour, minute, second);
            && |t| == 9 && t[0] == 'T' && t[3] == ':' && t[6] == ':'
            && t[1..3] == hour && t[4..6] == minute && t[7..9] == second
  {
  }

  lemma DateJoins(d: string)
    requires |d| == 10 && d[4] == '-' && d[7] == '-'
    ensures d == DateOf(d[0..4], d[5..7], d[8..10])
  {
  }

  lemma TimeJoins(t: string)
    requires |t| == 9 && t[0] == 'T' && t[3] == ':' && t[6] == ':'
    ensures t == TimeOf(t[1..3], t[4..6], t[7..9])
  {
  }

  lemma TextPieces(date: string, time: string, tail: string)
    requires |date| == 10 && |time| == 9 && |tail| >= 1
    ensures var s := date + time + tail;
            && |s| == 19 + |tail| && s[4] == date[4] && s[7] == date[7]
            && s[10] == time[0] && s[13] == time[3] && s[16] == time[6] && s[|s| - 1] == tail[|tail| - 1]
            && s[0..4] == date[0..4] && s[5..7] == date[5..7] && s[8..10] == date[8..10]
            && s[11..13] == time[1..3] && s[14..16] == time[4..6] && s[17..19] == time[7..9]
            && (|tail| > 1 ==> s[19] == tail[0] && s[20..|s| - 1] == tail[1..|tail| - 1])
  {
  }

  lemma TailPieces(fraction: string)
    ensures var tail := FractionOf(fraction) + "Z";
            && |tail| == (if fraction == "" then 1 else |fraction| + 2) && tail[|tail| - 1] == 'Z'
            && (fraction != "" ==> tail[0] == '.' && tail[1..|tail| - 1] == fraction)
  {
  }

  lemma TailJoins(tail: string)
    requires tail == "Z" || (|tail| > 2 && tail[0] == '.' && tail[|tail| - 1] == 'Z')
    ensures tail == FractionOf(if tail == "Z" then "" else tail[1..|tail| - 1]) + "Z"
  {
  }

  // ----- timestamps

  /** A text with these pieces is a timestamp. */
  lemma PiecesAreTimestamp(s: string, t: DateTime, firstYear: nat, lastSecond: nat)
    requires IsTime(t, firstYear, lastSecond) && lastSecond < 100 && |s| >= 20
    requires s[4] == '-' && s[7] == '-' && s[10] == 'T' && s[13] == ':' && s[16] == ':' && s[|s| - 1] == 'Z'
    requires s[0..4] == Pad(t.year, 4) && s[5..7] == Pad(t.month, 2) && s[8..10] == Pad(t.day, 2)
    requires s[11..13] == Pad(t.hour, 2) && s[14..16] == Pad(t.minute, 2) && s[17..19] == Pad(t.second, 2)
    requires |s| == 20 || (s[19] == '.' && |s| > 21 && AllDigits(s[20..|s| - 1]))
    ensures IsTimestamp(s, firstYear, lastSecond)
  {
    PadsAreDigits(t, lastSecond);
  }

  /** The text of a calendar time is a timestamp. */
  lemma TimeIsTimestamp(t: DateTime, fraction: string, firstYear: nat, lastSecond: nat)
    requires IsTime(t, firstYear, lastSecond) && lastSecond < 100 && AllDigits(fraction)
    ensures IsTimestamp(SecondText(t) + (FractionOf(fraction) + "Z"), firstYear, lastSecond)
  {
    PadsAreDigits(t, lastSecond);
    var date := DateOf(Pad(t.year, 4), Pad(t.month, 2), Pad(t.day, 2));
    var time := TimeOf(Pad(t.hour, 2), Pad(t.minute, 2), Pad(t.second, 2));
    DatePieces(Pad(t.year, 4), Pad(t.month, 2), Pad(t.day, 2));
    TimePieces(Pad(t.hour, 2), Pad(t.minute, 2), Pad(t.second, 2));
    TailPieces(fraction);
    TextPieces(date, time, FractionOf(fraction) + "Z");
    PiecesAreTimestamp(date + time + (FractionOf(fraction) + "Z"), t, firstYear, lastSecond);
  }

  /** Every timestamp is the text of a calendar time. */
  lemma TimestampIsTime(s: string, firstYear: nat, lastSecond: nat) returns (t: DateTime, fraction: string)
    requires IsTimestamp(s, firstYear, lastSecond) && lastSecond < 100
    ensures IsTime(t, firstYear, lastSecond) && AllDigits(fraction)
    ensures s == SecondText(t) + (FractionOf(fraction) + "Z")
  {
    t := TimeOfText(s, firstYear, lastSecond);
    fraction := if |s| == 20 then "" else s[20..|s| - 1];
    var date, time, tail := s[..10], s[10..19], s[19..];
    assert s == date + time + tail;
    TextPieces(date, time, tail);
    DateJoins(date);
    TimeJoins(time);
    TailJoins(tail);
  }

  lemma TimeOfText(s: string, firstYear: nat, lastSecond: nat) returns (t: DateTime)
    requires IsTimestamp(s, firstYear, lastSecond) && lastSecond < 100
    ensures IsTime(t, firstYear, lastSecond)
    ensures Pad(t.year, 4) == s[0..4] && Pad(t.month, 2) == s[5..7] && Pad(t.day, 2) == s[8..10]
    ensures Pad(t.hour, 2) == s[11..13] && Pad(t.minute, 2) == s[14..16] && Pad(t.second, 2) == s[17..19]
  {
    t := DateTime(NumberAt(s, 0, 4), NumberAt(s, 5, 7), NumberAt(s, 8, 10),
                  NumberAt(s, 11, 13), NumberAt(s, 14, 16), NumberAt(s, 17, 19), 0);
    Widths();
    PadAt(s, 0, 4);
    PadAt(s, 5, 7);
    PadAt(s, 8, 10);
    PadAt(s, 11, 13);
    PadAt(s, 14, 16);
    PadAt(s, 17, 19);
  }

  lemma PadAt(s: string, from: nat, to: nat)
    requires DigitsAt(s, from, to)
    ensures Pad(NumberAt(s, from, to), to - from) == s[from..to] && NumberAt(s, from, to) < Pow10(to - from)
  {
    PadOfDigits(s[from..to]);
  }

  /** A text is a timestamp of the writer's validator exactly if it writes a time from the year 1 on, to the second. */
  lemma LenientTimestampExact(s: string)
    ensures LenientTimestamp(s) <==> exists t, fraction ::
              IsTime(t, 1, 59) && AllDigits(fraction) && s == SecondText(t) + (FractionOf(fraction) + "Z")
  {
    if LenientTimestamp(s) {
      var t, fraction := TimestampIsTime(s, 1, 59);
    }
    if t, fraction :| IsTime(t, 1, 59) && AllDigits(fraction) && s == SecondText(t) + (FractionOf(fraction) + "Z") {
      TimeIsTimestamp(t, fraction, 1, 59);
    }
  }

  /** The strict validator also takes the year 0 and the second 60. */
  lemma StrictTimestampExact(s: string)
    ensures StrictTimestamp(s) <==> exists t, fraction ::
              IsTime(t, 0, 60) && AllDigits(fraction) && s == SecondText(t) + (FractionOf(fraction) + "Z")
  {
    if StrictTimestamp(s) {
      var t, fraction := TimestampIsTime(s, 0, 60);
    }
    if t, fraction :| IsTime(t, 0, 60) && AllDigits(fraction) && s == SecondText(t) + (FractionOf(fraction) + "Z") {
      TimeIsTimestamp(t, fraction, 0, 60);
    }
  }

  /** The months of the calendar. */
  lemma MonthLengths(year: nat)
    ensures DaysInMonth(year, 1) == 31 && DaysInMonth(year, 3) == 31 && DaysInMonth(year, 4) == 30
    ensures DaysInMonth(year, 5) == 31 && DaysInMonth(year, 6) == 30 && DaysInMonth(year, 7) == 31
    ensures DaysInMonth(year, 8) == 31 && DaysInMonth(year, 9) == 30 && DaysInMonth(year, 10) == 31
    ensures DaysInMonth(year, 11) == 30 && DaysInMonth(year, 12) == 31
    ensures DaysInMonth(year, 2) == if year % 4 == 0 && (year % 100 == 0 ==> year % 400 == 0) then 29 else 28
  {
  }

  lemma JoinTail(date: string, time: string, fraction: string)
    ensures date + (time + ("." + (fraction + "Z"))) == date + time + (("." + fraction) + "Z")
  {
  }

  lemma JoinDate(year: string, month: string, day: string, time: string)
    ensures year + ("-" + (month + ("-" + (day + time)))) == DateOf(year, month, day) + time
  {
  }

  lemma JoinTime(hour: string, minute: string, second: string, tail: string)
    ensures "T" + (hour + (":" + (minute + (":" + (second + tail))))) == TimeOf(hour, minute, second) + tail
  {
  }

  lemma JoinAll(year: string, month: string, day: string, hour: string, minute: string, second: string,
                fraction: string)
    ensures var tail := "." + (fraction + "Z");
            var time := hour + (":" + (minute + (":" + (second + tail))));
            year + ("-" + (month + ("-" + (day + ("T" + time)))))
            == DateOf(year, month, day) + TimeOf(hour, minute, second) + (("." + fraction) + "Z")
  {
    var tail := "." + (fraction + "Z");
    JoinTime(hour, minute, second, tail);
    JoinDate(year, month, day, TimeOf(hour, minute, second) + tail);
    JoinTail(DateOf(year, month, day), TimeOf(hour, minute, second), fraction);
  }

  /** What the worker stores is such a text, to the microsecond. */
  lemma StoredText(t: DateTime)
    requires t.Valid()
    ensures Text(t) == SecondText(t) + (("." + Pad(t.micro, 6)) + "Z") && |Pad(t.micro, 6)| == 6
    ensures LenientTimestamp(Text(t))
  {
    Widths();
    PadDigits(t.micro, 6);
    TimeIsTimestamp(t, Pad(t.micro, 6), 1, 59);
    JoinAll(Pad(t.year, 4), Pad(t.month, 2), Pad(t.day, 2), Pad(t.hour, 2), Pad(t.minute, 2), Pad(t.second, 2),
            Pad(t.micro, 6));
  }
}
