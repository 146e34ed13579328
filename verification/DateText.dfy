/** The text form of the date picker's value, "YYYY-MM-DDTHH:MM", and its reader. */
module DateText {
  import opened Wrappers
  import opened Decimal
  import opened CivilDate

  datatype Time = Time(h: nat, m: nat)
  datatype Value = Value(date: Option<int>, time: Option<Time>)

  /** The numeral padded with a zero to two places. */
  function Pad2(n: nat): string {
    if n < 10 then "0" + Show(n) else Show(n)
  }

  function ShowYear(y: int): string {
    if y < 0 then "-" + Show(-y) else Show(y)
  }

  function TextOf(y: int, mo: nat, d: nat, t: Time): string {
    ShowYear(y) + "-" + Pad2(mo) + "-" + Pad2(d) + "T" + Pad2(t.h) + ":" + Pad2(t.m)
  }

  function FormatValue(v: Value): string {
    if v.date.None? then ""
    else
      var day := v.date.value;
      assert DateOf(day) >= 1 by { DayRoundTrip(day); }
      TextOf(YearOf(day), MonthOf(day) + 1, DateOf(day), if v.time.Some? then v.time.value else Time(0, 0))
  }

  /** JavaScript's Number on the empty text and on numerals; `None` is NaN. */
  function Number(s: string): Option<nat> {
    if AllDigits(s) then Some(Decimal.Value(s)) else None
  }

  /** The k-th piece read as a number; a missing piece reads as NaN. */
  function NumberAt(pieces: seq<string>, k: nat): Option<nat> {
    if k < |pieces| then Number(pieces[k]) else None
  }

  predicate Falsy(n: Option<nat>) {
    n.None? || n.value == 0
  }

  function ParseValue(text: string): Value {
    if text == "" then Value(None, None)
    else
      var halves := Split(text, 'T');
      var date := Split(halves[0], '-');
      var clock := Split(if |halves| > 1 then halves[1] else "", ':');
      var (yy, mo, dd) := (NumberAt(date, 0), NumberAt(date, 1), NumberAt(date, 2));
      var (hh, mm) := (NumberAt(clock, 0), NumberAt(clock, 1));
      if Falsy(yy) || Falsy(mo) || Falsy(dd) then Value(None, None)
      else
        Value(Some(MakeDay(FullYear(yy.value), mo.value - 1, dd.value)),
              Some(if hh.Some? && mm.Some? then Time(hh.value, mm.value) else Time(0, 0)))
  }

  lemma NumberOfPad2(n: nat)
    ensures AllDigits(Pad2(n)) && Number(Pad2(n)) == Some(n)
  {
    ValueOfShow(n);
    LeadingZero(Show(n));
  }

  lemma SplitInTwo(a: string, sep: char, b: string)
    requires sep !in a && sep !in b
    ensures Split(a + [sep] + b, sep) == [a, b]
  {
    SplitAt(a, sep, b);
    SplitWithout(b, sep);
  }

  lemma SplitInThree(a: string, sep: char, b: string, c: string)
    requires sep !in a && sep !in b && sep !in c
    ensures Split(a + [sep] + b + [sep] + c, sep) == [a, b, c]
  {
    assert a + [sep] + b + [sep] + c == a + [sep] + (b + [sep] + c);
    SplitAt(a, sep, b + [sep] + c);
    SplitInTwo(b, sep, c);
  }

  /** The pieces of a formatted value. */
  lemma FormattedPieces(y: string, mo: string, d: string, h: string, mi: string)
    requires AllDigits(mo) && AllDigits(d) && AllDigits(h) && AllDigits(mi) && 'T' !in y
    ensures var text := y + "-" + mo + "-" + d + "T" + h + ":" + mi;
            Split(text, 'T') == [y + ['-'] + mo + ['-'] + d, h + [':'] + mi]
    ensures '-' !in y ==> Split(y + ['-'] + mo + ['-'] + d, '-') == [y, mo, d]
    ensures Split(h + [':'] + mi, ':') == [h, mi]
  {
    var date, clock := y + ['-'] + mo + ['-'] + d, h + [':'] + mi;
    assert y + "-" + mo + "-" + d + "T" + h + ":" + mi == date + ['T'] + clock;
    assert 'T' !in date && 'T' !in clock;
    SplitInTwo(date, 'T', clock);
    SplitInTwo(h, ':', mi);
    if '-' !in y {
      SplitInThree(y, '-', mo, d);
    }
  }

  lemma ParseOfPositiveYear(y: nat, mo: nat, d: nat, t: Time)
    requires mo >= 1 && d >= 1
    ensures ParseValue(TextOf(y, mo, d, t)) ==
            if y == 0 then Value(None, None) else Value(Some(MakeDay(FullYear(y), mo - 1, d)), Some(t))
  {
    NumberOfPad2(mo);
    NumberOfPad2(d);
    NumberOfPad2(t.h);
    NumberOfPad2(t.m);
    FormattedPieces(Show(y), Pad2(mo), Pad2(d), Pad2(t.h), Pad2(t.m));
    ValueOfShow(y);
    assert Number(Show(y)) == Some(y);
  }

  /** A year before the year 0 leaves nothing before its sign, which reads as 0. */
  lemma ParseOfNegativeYear(y: int, mo: nat, d: nat, t: Time)
    requires y < 0
    ensures ParseValue(TextOf(y, mo, d, t)) == Value(None, None)
  {
    NumberOfPad2(mo);
    NumberOfPad2(d);
    NumberOfPad2(t.h);
    NumberOfPad2(t.m);
    FormattedPieces(ShowYear(y), Pad2(mo), Pad2(d), Pad2(t.h), Pad2(t.m));
    var rest := Show(-y) + ['-'] + Pad2(mo) + ['-'] + Pad2(d);
    assert ShowYear(y) + ['-'] + Pad2(mo) + ['-'] + Pad2(d) == "" + ['-'] + rest;
    SplitAt("", '-', rest);
  }

  /** What reading the text of a year, month, date and time yields. */
  lemma ParseOfText(y: int, m: Month, d: int, t: Time)
    requires d >= 1
    ensures ParseValue(TextOf(y, m + 1, d, t)) ==
            if y <= 0 then Value(None, None) else Value(Some(DayIn(FullYear(y), m, d)), Some(t))
  {
    if y >= 0 {
      ParseOfPositiveYear(y, m + 1, d, t);
      NoCarryInMonth(FullYear(y), m, d);
    } else {
      ParseOfNegativeYear(y, m + 1, d, t);
    }
  }

  lemma NoCarryInMonth(y: int, m: Month, date: int)
    ensures MakeDay(y, m, date) == DayIn(y, m, date)
  {
  }

  /** A date and time read back from their text exactly for the years from 100 on; earlier years
      come back as another year, or as no date at all. Any hour and minute survive. */
  lemma RoundTripIff(day: int, t: Time)
    ensures ParseValue(FormatValue(Value(Some(day), Some(t)))) == Value(Some(day), Some(t)) <==> YearOf(day) >= 100
  {
    DayRoundTrip(day);
    FormatIsText(day, Some(t));
    TextReadsBackIff(YearOf(day), MonthOf(day), DateOf(day), t);
  }

  lemma FormatIsText(day: int, t: Option<Time>)
    ensures DateOf(day) >= 1
    ensures FormatValue(Value(Some(day), t)) ==
            TextOf(YearOf(day), MonthOf(day) + 1, DateOf(day), if t.Some? then t.value else Time(0, 0))
  {
    DayRoundTrip(day);
  }

  lemma TextReadsBackIff(y: int, m: Month, d: nat, t: Time)
    requires d >= 1
    ensures ParseValue(TextOf(y, m + 1, d, t)) == Value(Some(DayIn(y, m, d)), Some(t)) <==> y >= 100
  {
    ParseOfText(y, m, d, t);
    if 0 < y < 100 {
      TwoDigitYearMoves(y, m, d);
    }
  }

  /** The year read back is 1900 years later, and so is the day. */
  lemma TwoDigitYearMoves(y: int, m: Month, d: int)
    requires 0 < y < 100
    ensures DayIn(FullYear(y), m, d) != DayIn(y, m, d)
    ensures ValidDate(y, m, d) ==> YearOf(DayIn(FullYear(y), m, d)) == FullYear(y)
  {
    LaterYear(y, 1900 + y, m, d);
    if ValidDate(y, m, d) {
      assert ValidDate(1900 + y, m, d);
      DateRoundTrip(1900 + y, m, d);
    }
  }

  lemma LaterYear(y: int, z: int, m: Month, d: int)
    requires y + 1 < z
    ensures DayIn(y, m, d) < DayIn(z, m, d)
  {
    YearsIncrease(y + 1, z);
    DaysBeforeGrows(z, 0, m);
    DaysBeforeGrows(y, m, 12);
    MonthsMakeTheYear(y);
    YearLength(y);
  }

  /** Formatting what was read is the identity on a text the formatter writes exactly when the text
      is empty or its year is 100 or later; a missing time is written, and read back, as midnight. */
  lemma TextRoundTrip(v: Value)
    ensures FormatValue(ParseValue(FormatValue(v))) == FormatValue(v) <==> v.date.None? || YearOf(v.date.value) >= 100
  {
    if v.date.Some? && YearOf(v.date.value) >= 100 {
      LateTextRoundTrip(v.date.value, v.time);
    } else if v.date.Some? {
      EarlyTextChanges(v.date.value, v.time);
    }
  }

  lemma LateTextRoundTrip(day: int, time: Option<Time>)
    requires YearOf(day) >= 100
    ensures var text := FormatValue(Value(Some(day), time)); FormatValue(ParseValue(text)) == text
  {
    FormatIsText(day, time);
    NewTextIsReadBack(day, if time.Some? then time.value else Time(0, 0));
  }

  lemma EarlyTextChanges(day: int, time: Option<Time>)
    requires YearOf(day) < 100
    ensures var text := FormatValue(Value(Some(day), time)); FormatValue(ParseValue(text)) != text
  {
    FormatIsText(day, time);
    DayRoundTrip(day);
    OldTextIsNotReadBack(YearOf(day), MonthOf(day), DateOf(day), if time.Some? then time.value else Time(0, 0));
  }

  lemma NewTextIsReadBack(day: int, t: Time)
    requires YearOf(day) >= 100
    ensures DateOf(day) >= 1
    ensures var text := TextOf(YearOf(day), MonthOf(day) + 1, DateOf(day), t); FormatValue(ParseValue(text)) == text
  {
    FormatIsText(day, Some(t));
    RoundTripIff(day, t);
  }

  /** A text of a year before 100 is formatted again with another year, or as no text at all. */
  lemma OldTextIsNotReadBack(y: int, m: Month, d: int, t: Time)
    requires y < 100 && ValidDate(y, m, d)
    ensures FormatValue(ParseValue(TextOf(y, m + 1, d, t))) != TextOf(y, m + 1, d, t)
  {
    ParseOfText(y, m, d, t);
    if y > 0 {
      var day := DayIn(FullYear(y), m, d);
      TwoDigitYearMoves(y, m, d);
      DayRoundTrip(day);
      YearIsWritten(y, m + 1, d, t);
      YearIsWritten(FullYear(y), MonthOf(day) + 1, DateOf(day), t);
      ValueOfShow(y);
      ValueOfShow(FullYear(y));
    }
  }

  lemma YearIsWritten(y: nat, mo: nat, d: nat, t: Time)
    ensures Split(Split(TextOf(y, mo, d, t), 'T')[0], '-')[0] == Show(y)
  {
    NumberOfPad2(mo);
    NumberOfPad2(d);
    NumberOfPad2(t.h);
    NumberOfPad2(t.m);
    FormattedPieces(Show(y), Pad2(mo), Pad2(d), Pad2(t.h), Pad2(t.m));
  }

  // ── the shape of the text, and texts the formatter does not write ──

  /** A number below a hundred takes two digits and reads back. */
  lemma TwoDigits(n: nat)
    requires n < 100
    ensures |Pad2(n)| == 2 && AllDigits(Pad2(n)) && Number(Pad2(n)) == Some(n)
    ensures Pad2(n)[0] as int - '0' as int == n / 10 && Pad2(n)[1] as int - '0' as int == n % 10
  {
    NumberOfPad2(n);
    if n < 10 {
      assert Show(n) == [Digit(n)];
    } else {
      assert Show(n / 10) == [Digit(n / 10)];
      assert Show(n) == [Digit(n / 10)] + [Digit(n % 10)];
    }
  }

  /** The text is this year, then -MM-DDTHH:MM with these numbers. */
  ghost predicate HasShape(text: string, y: string, mo: nat, d: nat, t: Time) {
    && |text| == |y| + 12 && text[..|y|] == y
    && text[|y|] == '-' && text[|y| + 3] == '-' && text[|y| + 6] == 'T' && text[|y| + 9] == ':'
    && Number(text[|y| + 1..|y| + 3]) == Some(mo) && Number(text[|y| + 4..|y| + 6]) == Some(d)
    && Number(text[|y| + 7..|y| + 9]) == Some(t.h) && Number(text[|y| + 10..|y| + 12]) == Some(t.m)
  }

  /** Every text has that shape, with the month counted from 1; a year of four digits takes four places. */
  lemma TextHasItsShape(day: int, t: Time)
    requires t.h < 24 && t.m < 60
    ensures DateOf(day) >= 1
    ensures HasShape(FormatValue(Value(Some(day), Some(t))), ShowYear(YearOf(day)), MonthOf(day) + 1, DateOf(day), t)
    ensures 1000 <= YearOf(day) <= 9999 ==> |ShowYear(YearOf(day))| == 4
  {
    FormatIsText(day, Some(t));
    DayRoundTrip(day);
    MonthLengths(YearOf(day), MonthOf(day));
    ShapeOfText(YearOf(day), MonthOf(day) + 1, DateOf(day), t);
    if 1000 <= YearOf(day) <= 9999 {
      FourDigits(YearOf(day));
    }
  }

  lemma ShapeOfText(y: int, mo: nat, d: nat, t: Time)
    requires mo < 100 && d < 100 && t.h < 100 && t.m < 100
    ensures HasShape(TextOf(y, mo, d, t), ShowYear(y), mo, d, t)
  {
    TwoDigits(mo);
    TwoDigits(d);
    TwoDigits(t.h);
    TwoDigits(t.m);
    Pieces(ShowYear(y), Pad2(mo), Pad2(d), Pad2(t.h), Pad2(t.m));
  }

  lemma FourDigits(n: nat)
    requires 1000 <= n <= 9999
    ensures |Show(n)| == 4
  {
    DigitsOf(n / 100);
    assert Show(n / 10) == Show(n / 100) + [Digit(n / 10 % 10)] by {
      assert n / 10 / 10 == n / 100;
    }
    assert Show(n) == Show(n / 10) + [Digit(n % 10)];
  }

  lemma Pieces(y: string, mo: string, d: string, h: string, mi: string)
    requires |mo| == |d| == |h| == |mi| == 2
    ensures var text := y + "-" + mo + "-" + d + "T" + h + ":" + mi;
            && |text| == |y| + 12 && text[..|y|] == y
            && text[|y|] == '-' && text[|y| + 3] == '-' && text[|y| + 6] == 'T' && text[|y| + 9] == ':'
            && text[|y| + 1..|y| + 3] == mo && text[|y| + 4..|y| + 6] == d
            && text[|y| + 7..|y| + 9] == h && text[|y| + 10..|y| + 12] == mi
  {
  }

  /** A text without a time is that date at midnight; the month may lie past December. */
  lemma DateOnlyIsMidnight(y: nat, mo: nat, d: nat)
    requires y > 0 && mo > 0 && d > 0
    ensures ParseValue(Show(y) + ['-'] + Show(mo) + ['-'] + Show(d)) ==
            Value(Some(MakeDay(if y <= 99 then 1900 + y else y, mo - 1, d)), Some(Time(0, 0)))
  {
    ValueOfShow(y);
    ValueOfShow(mo);
    ValueOfShow(d);
    assert FullYear(y) == if y <= 99 then 1900 + y else y;
    ParsesDateOnly(Show(y), Show(mo), Show(d), y, mo, d);
  }

  lemma ParsesDateOnly(ys: string, ms: string, ds: string, y: nat, mo: nat, d: nat)
    requires Number(ys) == Some(y) && Number(ms) == Some(mo) && Number(ds) == Some(d) && y > 0 && mo > 0 && d > 0
    ensures ParseValue(ys + ['-'] + ms + ['-'] + ds) == Value(Some(MakeDay(FullYear(y), mo - 1, d)), Some(Time(0, 0)))
  {
    DateOnlyPieces(ys, ms, ds);
  }

  lemma DateOnlyPieces(y: string, mo: string, d: string)
    requires AllDigits(y) && AllDigits(mo) && AllDigits(d)
    ensures Split(y + ['-'] + mo + ['-'] + d, 'T') == [y + ['-'] + mo + ['-'] + d]
    ensures Split(y + ['-'] + mo + ['-'] + d, '-') == [y, mo, d]
    ensures Split("", ':') == [[]]
  {
    SplitInThree(y, '-', mo, d);
    SplitWithout(y + ['-'] + mo + ['-'] + d, 'T');
  }

  /** Nothing reads as nothing, and is written as nothing; a zero month or day is no date. */
  lemma NothingReadsAsNothing(mo: nat, d: nat)
    requires mo == 0 || d == 0
    ensures ParseValue("") == Value(None, None) && FormatValue(Value(None, None)) == ""
    ensures ParseValue("2024" + ['-'] + Show(mo) + ['-'] + Show(d)) == Value(None, None)
  {
    ValueOfShow(mo);
    ValueOfShow(d);
    var text := "2024" + ['-'] + Show(mo) + ['-'] + Show(d);
    SplitInThree("2024", '-', Show(mo), Show(d));
    SplitWithout(text, 'T');
  }
}
