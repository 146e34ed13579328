/** Civil day arithmetic of section 21.4.1 of ECMA-262: a day is its distance from 1 January 1970. */
module CivilDate {
  /** Months count from 0, January. */
  type Month = m: int | 0 <= m < 12

  function DaysInYear(y: int): int {
    if y % 4 != 0 then 365 else if y % 100 != 0 then 366 else if y % 400 != 0 then 365 else 366
  }

  /** The first day of a year, counted year by year. */
  function DayFromYear(y: int): int
    decreases if y < 1970 then 1970 - y else y - 1970
  {
    if y == 1970 then 0
    else if y > 1970 then DayFromYear(y - 1) + DaysInYear(y - 1)
    else DayFromYear(y + 1) - DaysInYear(y)
  }

  lemma YearLength(y: int)
    ensures DayFromYear(y + 1) == DayFromYear(y) + DaysInYear(y)
    ensures 365 <= DaysInYear(y) <= 366
  {
  }

  function YearFormula(y: int): int {
    365 * (y - 1970) + (y - 1969) / 4 - (y - 1901) / 100 + (y - 1601) / 400
  }

  lemma Leap4(y: int)
    ensures (y - 1968) / 4 == (y - 1969) / 4 + if y % 4 == 0 then 1 else 0
  {
  }

  lemma Leap100(y: int)
    ensures (y - 1900) / 100 == (y - 1901) / 100 + if y % 100 == 0 then 1 else 0
  {
  }

  lemma Leap400(y: int)
    ensures (y - 1600) / 400 == (y - 1601) / 400 + if y % 400 == 0 then 1 else 0
  {
  }

  lemma Divisors(y: int)
    ensures y % 400 == 0 ==> y % 100 == 0
    ensures y % 100 == 0 ==> y % 4 == 0
  {
  }

  lemma FormulaStep(y: int)
    ensures YearFormula(y + 1) == YearFormula(y) + DaysInYear(y)
  {
    Leap4(y);
    Leap100(y);
    Leap400(y);
    Divisors(y);
    assert YearFormula(y + 1) == 365 * (y - 1969) + (y - 1968) / 4 - (y - 1900) / 100 + (y - 1600) / 400;
  }

  /** Counting year by year is the closed formula of the standard. */
  lemma {:induction false} DayFromYearFormula(y: int)
    ensures DayFromYear(y) == YearFormula(y)
    decreases if y < 1970 then 1970 - y else y - 1970
  {
    if y > 1970 {
      DayFromYearFormula(y - 1);
      FormulaStep(y - 1);
    } else if y < 1970 {
      DayFromYearFormula(y + 1);
      FormulaStep(y);
    }
  }

  function DaysInMonth(y: int, m: Month): int {
    if m == 1 then DaysInYear(y) - 337 else if m == 3 || m == 5 || m == 8 || m == 10 then 30 else 31
  }

  /** Days before month m (0 to 12) within a year. */
  function DaysBefore(y: int, m: int): int
    requires 0 <= m <= 12
  {
    if m == 0 then 0 else DaysBefore(y, m - 1) + DaysInMonth(y, m - 1)
  }

  lemma {:induction false} DaysBeforeGrows(y: int, m: int, k: int)
    requires 0 <= m <= k <= 12
    ensures DaysBefore(y, m) + 28 * (k - m) <= DaysBefore(y, k)
  {
    if m < k {
      DaysBeforeGrows(y, m, k - 1);
    }
  }

  lemma MonthsMakeTheYear(y: int)
    ensures DaysBefore(y, 12) == DaysInYear(y)
  {
    assert DaysBefore(y, 1) == 31;
    assert DaysBefore(y, 3) == DaysBefore(y, 1) + DaysInYear(y) - 337 + 31;
    assert DaysBefore(y, 5) == DaysBefore(y, 3) + 61;
    assert DaysBefore(y, 7) == DaysBefore(y, 5) + 61;
    assert DaysBefore(y, 9) == DaysBefore(y, 7) + 61;
    assert DaysBefore(y, 11) == DaysBefore(y, 9) + 61;
  }

  /** The year that contains the day, searched from y. */
  function YearFrom(day: int, y: int): (z: int)
    ensures DayFromYear(z) <= day < DayFromYear(z + 1)
    decreases Distance(day, y)
  {
    YearLength(y);
    YearLength(y - 1);
    if DayFromYear(y) > day then YearFrom(day, y - 1)
    else if DayFromYear(y + 1) <= day then YearFrom(day, y + 1)
    else y
  }

  /** Days from the first day of year y to the day. */
  function Distance(day: int, y: int): nat {
    if DayFromYear(y) > day then DayFromYear(y) - day + 366 else day - DayFromYear(y)
  }

  function YearOf(day: int): int {
    YearFrom(day, 1970)
  }

  lemma {:induction false} YearsIncrease(y: int, z: int)
    requires y < z
    ensures DayFromYear(y) + 365 <= DayFromYear(z)
    decreases z - y
  {
    YearLength(z - 1);
    if y < z - 1 {
      YearsIncrease(y, z - 1);
    }
  }

  lemma YearIsUnique(day: int, y: int)
    requires DayFromYear(y) <= day < DayFromYear(y + 1)
    ensures YearOf(day) == y
  {
    var z := YearOf(day);
    if y + 1 < z { YearsIncrease(y + 1, z); }
    if z + 1 < y { YearsIncrease(z + 1, y); }
  }

  /** The month of the n-th day of year y, searched from month m. */
  function MonthFrom(y: int, n: int, m: Month): Month
    decreases 12 - m
  {
    if m == 11 || n < DaysBefore(y, m + 1) then m else MonthFrom(y, n, m + 1)
  }

  function MonthOf(day: int): Month {
    MonthFrom(YearOf(day), day - DayFromYear(YearOf(day)), 0)
  }

  function DateOf(day: int): int {
    day - DayFromYear(YearOf(day)) - DaysBefore(YearOf(day), MonthOf(day)) + 1
  }

  /** 0 is Sunday. */
  function WeekDay(day: int): int {
    (day + 4) % 7
  }

  /** A date of a month; the date may lie outside the month and then counts on. */
  function DayIn(y: int, m: Month, date: int): int {
    DayFromYear(y) + DaysBefore(y, m) + date - 1
  }

  /** The constructor carries a month outside 0 to 11 over into the year. */
  function MakeDay(y: int, m: int, date: int): int {
    DayIn(y + m / 12, m % 12, date)
  }

  /** The constructor's two-digit rule. */
  function FullYear(y: int): int {
    if 0 <= y <= 99 then 1900 + y else y
  }

  predicate ValidDate(y: int, m: Month, date: int) {
    1 <= date <= DaysInMonth(y, m)
  }

  lemma {:induction false} MonthIsFound(y: int, n: int, from: Month, m: Month)
    requires from <= m && DaysBefore(y, m) <= n < DaysBefore(y, m + 1)
    ensures MonthFrom(y, n, from) == m
    decreases m - from
  {
    if from < m {
      DaysBeforeGrows(y, from + 1, m);
      MonthIsFound(y, n, from + 1, m);
    }
  }

  lemma {:induction false} FoundMonthContains(y: int, n: int, from: Month)
    requires DaysBefore(y, from) <= n < DaysBefore(y, 12)
    ensures DaysBefore(y, MonthFrom(y, n, from)) <= n < DaysBefore(y, MonthFrom(y, n, from) + 1)
    decreases 12 - from
  {
    if from < 11 && n >= DaysBefore(y, from + 1) {
      FoundMonthContains(y, n, from + 1);
    }
  }

  /** A valid civil date is the year, month and date of its own day number. */
  lemma DateRoundTrip(y: int, m: Month, date: int)
    requires ValidDate(y, m, date)
    ensures YearOf(DayIn(y, m, date)) == y && MonthOf(DayIn(y, m, date)) == m && DateOf(DayIn(y, m, date)) == date
  {
    DaysBeforeGrows(y, 0, m);
    DaysBeforeGrows(y, m + 1, 12);
    MonthsMakeTheYear(y);
    YearLength(y);
    YearIsUnique(DayIn(y, m, date), y);
    MonthIsFound(y, DaysBefore(y, m) + date - 1, 0, m);
  }

  /** Every day number is the day of a valid civil date. */
  lemma DayRoundTrip(day: int)
    ensures ValidDate(YearOf(day), MonthOf(day), DateOf(day))
    ensures DayIn(YearOf(day), MonthOf(day), DateOf(day)) == day
  {
    var y := YearOf(day);
    YearLength(y);
    MonthsMakeTheYear(y);
    FoundMonthContains(y, day - DayFromYear(y), 0);
  }

  lemma MonthLengths(y: int, m: Month)
    ensures 28 <= DaysInMonth(y, m) <= 31
    ensures m < 11 ==> DayIn(y, m + 1, 1) == DayIn(y, m, 1) + DaysInMonth(y, m)
    ensures m == 11 ==> DayIn(y + 1, 0, 1) == DayIn(y, m, 1) + DaysInMonth(y, m)
  {
    YearLength(y);
    MonthsMakeTheYear(y);
  }

  /** A JavaScript date restricted to whole days. */
  // ── the day number from the three numbers alone ────────────────

  /** Years and months counted from March, so that the leap day ends the year. */
  function MarchYear(y: int, m: Month): int {
    if m < 2 then y - 1 else y
  }

  function MarchMonth(m: Month): nat {
    if m < 2 then m + 10 else m - 2
  }

  lemma MonthsFromMarch(y: int, m: Month)
    ensures m >= 2 ==> DaysBefore(y, m) == DaysBefore(y, 2) + (153 * MarchMonth(m) + 2) / 5
    ensures m < 2 ==> DaysBefore(y, m) == (153 * MarchMonth(m) + 2) / 5 - 306
    ensures DaysBefore(y, 2) == DaysInYear(y) - 306
  {
    assert DaysBefore(y, 1) == 31 && DaysBefore(y, 2) == DaysInYear(y) - 306;
    assert DaysBefore(y, 4) == DaysBefore(y, 2) + 61;
    assert DaysBefore(y, 6) == DaysBefore(y, 4) + 61;
    assert DaysBefore(y, 8) == DaysBefore(y, 6) + 62;
    assert DaysBefore(y, 10) == DaysBefore(y, 8) + 61;
  }

  /** The day number of a date in the Gregorian calendar, in closed form. */
  lemma DayOfCivilDate(y: int, m: Month, date: int)
    ensures var a := MarchYear(y, m);
            DayIn(y, m, date) ==
            365 * a + a / 4 - a / 100 + a / 400 + (153 * MarchMonth(m) + 2) / 5 + date - 1 - 719468
  {
    MonthsFromMarch(y, m);
    if m < 2 {
      DayFromYearFormula(y);
      assert DayFromYear(y) == YearFormula(y);
      FormulaFromMarch(y - 1);
    } else {
      DayFromYearFormula(y + 1);
      YearLength(y);
      FormulaFromMarch(y);
    }
  }

  lemma FormulaFromMarch(a: int)
    ensures YearFormula(a + 1) == 365 * a + a / 4 - a / 100 + a / 400 + 306 - 719468
  {
    FloorBack(a, 4, 492);
    FloorBack(a, 100, 19);
    FloorBack(a, 400, 4);
  }

  lemma FloorBack(a: int, k: int, n: int)
    requires k in {4, 100, 400}
    ensures (a - n * k) / k == a / k - n
  {
  }

  /** The weekday of every date, from the three numbers alone: Zeller's congruence. 0 is Sunday. */
  lemma WeekDayOfDate(y: int, m: Month, date: int)
    ensures var a, n := MarchYear(y, m), MarchMonth(m);
            WeekDay(DayIn(y, m, date)) == (a + a / 4 - a / 100 + a / 400 + 2 * n + (3 * n + 2) / 5 + date + 2) % 7
  {
    var a, n := MarchYear(y, m), MarchMonth(m);
    DayOfCivilDate(y, m, date);
    assert (153 * n + 2) / 5 == 30 * n + (3 * n + 2) / 5;
    var zeller := a + a / 4 - a / 100 + a / 400 + 2 * n + (3 * n + 2) / 5 + date + 2;
    assert DayIn(y, m, date) + 4 == zeller + 7 * (52 * a + 4 * n - 102781);
    SameRemainder(zeller, 52 * a + 4 * n - 102781);
  }

  lemma SameRemainder(x: int, k: int)
    ensures (x + 7 * k) % 7 == x % 7
  {
  }

  /** The months have the lengths everyone knows, and leap years the rule everyone knows. */
  lemma LengthsOfTheMonths(y: int, m: Month)
    ensures var leap := y % 400 == 0 || (y % 4 == 0 && y % 100 != 0);
            DaysInMonth(y, m) == [31, if leap then 29 else 28, 31, 30, 31, 30, 31, 31, 30, 31, 30, 31][m]
  {
  }

  /** A month past the end of the year carries over. */
  lemma MonthsCarry(y: int, m: int, date: int)
    ensures MakeDay(y, m + 12, date) == MakeDay(y + 1, m, date)
  {
  }

  class JsDate {
    var day: int

    constructor (year: int, month: Month, date: int)
      ensures day == DayIn(FullYear(year), month, date)
    {
      day := DayIn(FullYear(year), month, date);
    }

    constructor Copy(other: JsDate)
      ensures day == other.day
    {
      day := other.day;
    }

    method SetDate(date: int)
      modifies this
      ensures day == old(day) + date - DateOf(old(day))
    {
      DayRoundTrip(day);
      day := DayIn(YearOf(day), MonthOf(day), date);
    }
  }
}
