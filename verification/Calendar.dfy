/** The month grid of the date picker: six weeks from the Monday on or before the first. */
module Calendar {
  import opened CivilDate

  datatype Cell = Cell(date: JsDate, outside: bool)

  function MonthStart(month: int): int {
    DayIn(FullYear(YearOf(month)), MonthOf(month), 1)
  }

  /** Days from the Monday before, or on, to the day. */
  function Lead(day: int): (lead: int)
    ensures 0 <= lead <= 6
  {
    (WeekDay(day) + 6) % 7
  }

  function GridStart(month: int): int {
    MonthStart(month) - Lead(MonthStart(month))
  }

  function GridDay(month: int, i: int): int {
    GridStart(month) + i
  }

  predicate Outside(month: int, i: int) {
    MonthOf(GridDay(month, i)) != MonthOf(month)
  }

  /** The cell holds the i-th day from the start and tells whether it is in another month. */
  ghost predicate IsCell(cell: Cell, start: int, m: Month, i: int)
    reads cell.date
  {
    cell.date.day == start + i && (cell.outside <==> MonthOf(start + i) != m)
  }

  method BuildGrid(month: JsDate) returns (cells: seq<Cell>)
    ensures IsGrid(cells, GridStart(month.day), MonthOf(month.day))
  {
    var start := FirstMonday(month);
    cells := FillGrid(start, MonthOf(month.day));
  }

  method FirstMonday(month: JsDate) returns (start: JsDate)
    ensures start.day == GridStart(month.day) && fresh(start)
  {
    var first := new JsDate(YearOf(month.day), MonthOf(month.day), 1);
    start := new JsDate.Copy(first);
    var at := start.day;
    start.SetDate(DateOf(at) - Lead(at));
  }

  ghost predicate IsGrid(cells: seq<Cell>, start: int, m: Month)
    reads set cell | cell in cells :: cell.date
  {
    |cells| == 42 && forall i | 0 <= i < 42 :: IsCell(cells[i], start, m, i)
  }

  method FillGrid(start: JsDate, m: Month) returns (cells: seq<Cell>)
    ensures IsGrid(cells, start.day, m)
  {
    cells := [];
    var i := 0;
    while i < 42
      invariant 0 <= i <= 42 && |cells| == i
      invariant forall k | 0 <= k < i :: IsCell(cells[k], start.day, m, k)
    {
      var d := new JsDate.Copy(start);
      d.SetDate(DateOf(start.day) + i);
      cells := cells + [Cell(d, MonthOf(d.day) != m)];
      i := i + 1;
    }
  }

  lemma BeforeTheMonth(y: int, m: Month, k: int)
    requires 1 <= k <= 6
    ensures MonthOf(DayIn(y, m, 1) - k) == if m == 0 then 11 else m - 1
  {
    var py, pm: Month := if m == 0 then y - 1 else y, if m == 0 then 11 else m - 1;
    MonthLengths(py, pm);
    DateRoundTrip(py, pm, DaysInMonth(py, pm) - k + 1);
  }

  lemma AfterTheMonth(y: int, m: Month, j: int)
    requires 0 <= j < 14
    ensures MonthOf(DayIn(y, m, 1) + DaysInMonth(y, m) + j) == if m == 11 then 0 else m + 1
  {
    var ny, nm: Month := if m == 11 then y + 1 else y, if m == 11 then 0 else m + 1;
    MonthLengths(y, m);
    MonthLengths(ny, nm);
    DateRoundTrip(ny, nm, j + 1);
  }

  lemma WithinTheMonth(y: int, m: Month, j: int)
    requires 0 <= j < DaysInMonth(y, m)
    ensures YearOf(DayIn(y, m, 1) + j) == y && MonthOf(DayIn(y, m, 1) + j) == m && DateOf(DayIn(y, m, 1) + j) == j + 1
  {
    DateRoundTrip(y, m, j + 1);
  }

  lemma WeekdayOfCell(first: int, i: int)
    ensures WeekDay(first - Lead(first) + i) == (i + 1) % 7
  {
  }

  /** For every month of every year: 42 consecutive days, Monday in every seventh place from the
      first, in which the cells not marked outside are exactly the days 1 to DaysInMonth of the
      month, in one block that starts in the first week. The year shown is the month's own year
      outside 0 to 99, and 1900 years later inside, the two-digit rule of the constructor. */
  lemma GridIsTheMonth(month: int, i: int)
    requires 0 <= i < 42
    ensures var y, m, lead, day := FullYear(YearOf(month)), MonthOf(month), Lead(MonthStart(month)), GridDay(month, i);
            && day == GridDay(month, 0) + i
            && WeekDay(day) == (i + 1) % 7
            && (!Outside(month, i) <==> lead <= i < lead + DaysInMonth(y, m))
            && (!Outside(month, i) ==> YearOf(day) == y && MonthOf(day) == m && DateOf(day) == i - lead + 1)
  {
    WeekdayOfCell(MonthStart(month), i);
    CellOfTheMonth(FullYear(YearOf(month)), MonthOf(month), Lead(MonthStart(month)), i);
  }

  lemma CellOfTheMonth(y: int, m: Month, lead: nat, i: nat)
    requires lead <= 6 && i < 42
    ensures var day := DayIn(y, m, 1) - lead + i;
            && (MonthOf(day) == m <==> lead <= i < lead + DaysInMonth(y, m))
            && (MonthOf(day) == m ==> YearOf(day) == y && DateOf(day) == i - lead + 1)
  {
    MonthLengths(y, m);
    if i < lead {
      BeforeTheMonth(y, m, lead - i);
    } else if i < lead + DaysInMonth(y, m) {
      WithinTheMonth(y, m, i - lead);
    } else {
      AfterTheMonth(y, m, i - lead - DaysInMonth(y, m));
    }
  }

  /** The grid shows the month asked for exactly when its year is not one of two digits; otherwise it
      shows the same month 1900 years later. */
  lemma GridShowsTheYearIff(month: int)
    ensures var y := YearOf(month);
            YearOf(GridDay(month, Lead(MonthStart(month)))) == if 0 <= y && y <= 99 then y + 1900 else y
    ensures YearOf(GridDay(month, Lead(MonthStart(month)))) == YearOf(month) <==> !(0 <= YearOf(month) <= 99)
  {
    var lead := Lead(MonthStart(month));
    GridIsTheMonth(month, lead);
    MonthLengths(FullYear(YearOf(month)), MonthOf(month));
  }
}
