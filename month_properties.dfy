/** What the month grid shows: every day of the month exactly once and in
    order, framed by at most six days of the previous and of the next month;
    every column on its own weekday, Sunday first; the month name and the
    year in the title; and two months worked out in full. */
module MonthProperties {
  import opened Gregorian
  import opened Text
  import opened CalendarMaker

  /** The cells of the grid, row by row. */
  function Flatten(weeks: seq<seq<Date>>): seq<Date> {
    if |weeks| == 0 then [] else Flatten(weeks[..|weeks| - 1]) + weeks[|weeks| - 1]
  }

  predicate InMonth(d: Date, year: int, month: int) {
    d.year == year && d.month == month
  }

  /** The day numbers of the dates in ds that lie in the given month, in order. */
  function MonthDays(ds: seq<Date>, year: int, month: int): seq<nat> {
    if |ds| == 0 then []
    else
      var last := ds[|ds| - 1];
      MonthDays(ds[..|ds| - 1], year, month) + (if InMonth(last, year, month) then [last.day] else [])
  }

  /** The numbers 1, 2, ..., n. */
  function Range(n: nat): (r: seq<nat>)
    ensures |r| == n && forall i :: 0 <= i < n ==> r[i] == i + 1
  {
    if n == 0 then [] else Range(n - 1) + [n]
  }

  /** How many of the first k grid positions hold days of the month. */
  function Shown(year: int, month: int, k: nat): nat {
    ShownCount(Lead(year, month), DaysInMonth(year, month), k)
  }

  /** How many of the first k positions fall in the span of dim positions
      that starts at lead. */
  function ShownCount(lead: nat, dim: nat, k: nat): nat {
    if k <= lead then 0 else if k - lead >= dim then dim else k - lead
  }

  /** Position k adds the next day number exactly when it lies in the span. */
  lemma RangeStep(lead: nat, dim: nat, k: nat, inSpan: bool, day: int)
    requires inSpan <==> lead <= k < lead + dim
    requires inSpan ==> day == k - lead + 1
    ensures Range(ShownCount(lead, dim, k)) + (if inSpan then [day] else [])
         == Range(ShownCount(lead, dim, k + 1))
  {
  }

  /** The dates at positions k .. k + a + b - 1 are those at k .. k + a - 1
      followed by those at k + a .. k + a + b - 1. */
  lemma {:induction false} GridDatesSplit(year: int, month: int, k: nat, a: nat, b: nat)
    ensures GridDates(year, month, k, a + b) == GridDates(year, month, k, a) + GridDates(year, month, k + a, b)
  {
    if b > 0 {
      GridDatesSplit(year, month, k, a, b - 1);
      var last := GridDate(year, month, k + a + b - 1);
      assert GridDates(year, month, k, a + b) == GridDates(year, month, k, a + b - 1) + [last];
      assert GridDates(year, month, k + a, b) == GridDates(year, month, k + a, b - 1) + [last];
    }
  }

  /** The first n weeks, row by row, are the first 7 * n grid positions. */
  lemma {:induction false} FlattenWeeks(year: int, month: int, n: nat)
    ensures Flatten(Weeks(year, month, n)) == GridDates(year, month, 0, 7 * n)
  {
    if n > 0 {
      var weeks := Weeks(year, month, n);
      assert weeks[..n - 1] == Weeks(year, month, n - 1);
      FlattenWeeks(year, month, n - 1);
      GridDatesSplit(year, month, 0, 7 * (n - 1), 7);
      assert 7 * (n - 1) + 7 == 7 * n;
    }
  }

  /** The previous and the next month are other months. */
  lemma NeighbourMonths(year: int, month: int)
    requires 1 <= month <= 12
    ensures PrevMonth(year, month) != (year, month) && NextMonth(year, month) != (year, month)
  {
  }

  /** Position k of the grid holds a day of the month exactly when it is one
      of the DaysInMonth positions from Lead on, and then it holds day
      k - Lead + 1. */
  lemma GridPosition(year: int, month: int, k: nat)
    requires Renderable(year, month)
    requires k < Lead(year, month) + DaysInMonth(year, month) + 7
    ensures var d, lead, dim := GridDate(year, month, k), Lead(year, month), DaysInMonth(year, month);
      && (InMonth(d, year, month) <==> lead <= k < lead + dim)
      && (InMonth(d, year, month) ==> d.day == k - lead + 1)
  {
    GridMonth(year, month, k);
    NeighbourMonths(year, month);
  }

  lemma MonthDaysSnoc(ds: seq<Date>, d: Date, year: int, month: int)
    ensures MonthDays(ds + [d], year, month) == MonthDays(ds, year, month) + (if InMonth(d, year, month) then [d.day] else [])
  {
    assert (ds + [d])[..|ds|] == ds;
  }

  /** Among the first k grid positions, the days of the month are 1, 2, ...,
      one for each position from Lead on. */
  lemma {:induction false} MonthDaysPrefix(year: int, month: int, k: nat)
    requires Renderable(year, month)
    requires k <= Lead(year, month) + DaysInMonth(year, month) + 7
    ensures MonthDays(GridDates(year, month, 0, k), year, month) == Range(Shown(year, month, k))
  {
    if k > 0 {
      MonthDaysPrefix(year, month, k - 1);
      var d := GridDate(year, month, k - 1);
      assert GridDates(year, month, 0, k) == GridDates(year, month, 0, k - 1) + [d];
      MonthDaysSnoc(GridDates(year, month, 0, k - 1), d, year, month);
      GridPosition(year, month, k - 1);
      RangeStep(Lead(year, month), DaysInMonth(year, month), k - 1, InMonth(d, year, month), d.day);
    }
  }

  /** Every day of the month appears in the grid exactly once, in increasing
      order: read row by row, the cells of the month are 1, 2, ..., its
      last day. */
  lemma MonthCoverage(year: int, month: int)
    requires Renderable(year, month)
    ensures MonthDays(Flatten(Grid(year, month)), year, month) == Range(DaysInMonth(year, month))
  {
    var n := WeekCount(year, month);
    FlattenWeeks(year, month, n);
    WeekCountBounds(year, month);
    MonthDaysPrefix(year, month, 7 * n);
  }

  /** Cell j of week w: the first Lead cells show the last days of the
      previous month, the next DaysInMonth cells the month, and the rest the
      first days of the next month; at most six cells come before the month
      and at most six after it. */
  lemma GridCells(year: int, month: int, w: nat, j: nat)
    requires Renderable(year, month) && w < WeekCount(year, month) && j < 7
    ensures var d, k, lead, dim := Grid(year, month)[w][j], 7 * w + j, Lead(year, month), DaysInMonth(year, month);
      && IsValid(d)
      && (InMonth(d, year, month) <==> lead <= k < lead + dim)
      && (InMonth(d, year, month) ==> d.day == k - lead + 1)
      && (k < lead ==> (d.year, d.month) == PrevMonth(year, month))
      && (lead + dim <= k ==> (d.year, d.month) == NextMonth(year, month))
      && lead <= 6 && lead + dim <= 7 * WeekCount(year, month) <= lead + dim + 6
  {
    GridAt(year, month, w, j);
    GridMonth(year, month, 7 * w + j);
    NeighbourMonths(year, month);
    WeekCountBounds(year, month);
  }

  /** The name of the weekday of a date. */
  function DayName(d: Date): string {
    DAYS[(Weekday(d) + 1) % 7]
  }

  lemma ColumnOf(w: nat, j: nat)
    requires j < 7
    ensures (7 * w + j) % 7 == j
  {
  }

  /** Weekday x, the one of column j, has the name DAYS[j]. */
  lemma NameAt(x: int, j: nat)
    requires j < 7 && x == (j + SUNDAY) % 7
    ensures DAYS[(x + 1) % 7] == DAYS[j]
    ensures j == 0 ==> x == SUNDAY
  {
    assert (x + 1) % 7 == j;
  }

  /** Column j of every week is the weekday DAYS[j]: every row starts on a
      Sunday and ends on a Saturday. */
  lemma ColumnWeekday(year: int, month: int, w: nat, j: nat)
    requires Renderable(year, month) && w < WeekCount(year, month) && j < 7
    ensures DayName(Grid(year, month)[w][j]) == DAYS[j]
    ensures j == 0 ==> Weekday(Grid(year, month)[w][j]) == SUNDAY
  {
    GridAt(year, month, w, j);
    var k := 7 * w + j;
    GridWeekday(year, month, k);
    ColumnOf(w, j);
    NameAt(Weekday(GridDate(year, month, k)), j);
  }

  /** The upper-case form of an ASCII letter; other characters unchanged. */
  function UpperChar(c: char): char {
    if 'a' <= c <= 'z' then (c as int - 32) as char else c
  }

  /** The upper-case form of the ASCII letters of s. */
  function Upper(s: string): (r: string)
    ensures |r| == |s|
  {
    if |s| == 0 then "" else Upper(s[..|s| - 1]) + [UpperChar(s[|s| - 1])]
  }

  /** Upper works character by character. */
  lemma {:induction false} UpperAt(s: string, i: nat)
    requires i < |s|
    ensures Upper(s)[i] == UpperChar(s[i])
  {
    if i < |s| - 1 {
      UpperAt(s[..|s| - 1], i);
    }
  }

  /** The label line is one character short of a grid line (its newline
      comes after it), and names the weekday of every column: the upper-case
      abbreviation of DAYS[j] sits in the middle of the cell of column j. */
  lemma LabelColumns(j: nat)
    requires j < 7
    ensures |LABEL_ROW| == WIDTH - 1
    ensures LABEL_ROW[CELL_WIDTH * j + 5 .. CELL_WIDTH * j + 8] == Upper(DAYS[j][..3])
  {
    var name := DAYS[j][..3];
    UpperAt(name, 0);
    UpperAt(name, 1);
    UpperAt(name, 2);
    assert Upper(name) == [UpperChar(name[0]), UpperChar(name[1]), UpperChar(name[2])];
  }

  /** The part of the title line between the styling sequences: the month
      name and the year, each between spaces. */
  function Title(year: nat, month: int): string
    requires 1 <= month <= 12
  {
    " " + MONTHS[month - 1] + " " + NatToString(year) + " "
  }

  /** The title line shows the name of the month and the year in decimal,
      after 34 spaces of indentation and the styling sequences. */
  lemma HeaderShows(year: nat, month: int)
    requires 1 <= month <= 12
    ensures var at := 34 + |STYLE_BRIGHT + BACK_GREEN + FORE_BLACK|;
      && at + |Title(year, month)| <= |Header(year, month)|
      && Header(year, month)[at .. at + |Title(year, month)|] == Title(year, month)
      && Header(year, month)[..34] == Repeat(" ", 34)
  {
    var pad, style, title := Repeat(" ", 34), STYLE_BRIGHT + BACK_GREEN + FORE_BLACK, Title(year, month);
    RepeatSpaces(34);
    HeaderParts(year, month);
    FourParts(pad, style, title, BACK_RESET + "\n");
  }

  /** The title line is the indentation, the styling, the title and the reset. */
  lemma HeaderParts(year: nat, month: int)
    requires 1 <= month <= 12
    ensures Header(year, month) ==
      Repeat(" ", 34) + (STYLE_BRIGHT + BACK_GREEN + FORE_BLACK) + Title(year, month) + (BACK_RESET + "\n")
  {
    Regroup(Repeat(" ", 34), STYLE_BRIGHT, BACK_GREEN, FORE_BLACK,
      " ", MONTHS[month - 1], " ", NatToString(year), " ", BACK_RESET, "\n");
  }

  /** Where the first and the third of four concatenated parts lie. */
  lemma FourParts<T>(a: seq<T>, b: seq<T>, c: seq<T>, d: seq<T>)
    ensures (a + b + c + d)[..|a|] == a
    ensures (a + b + c + d)[|a| + |b| .. |a| + |b| + |c|] == c
  {
  }


  /** February 2024 starts on a Thursday and has 29 days: five weeks. */
  lemma February2024Shape(year: int, month: int)
    requires year == 2024 && month == 2
    ensures Renderable(year, month) && Lead(year, month) == 4 && WeekCount(year, month) == 5
  {
    ExampleShape(year, month, 3, 4, 29);
  }

  /** The first row of February 2024 starts on Sunday 28 January. */
  lemma February2024First(year: int, month: int)
    requires year == 2024 && month == 2
    ensures WeekCount(year, month) == 5 && Grid(year, month)[0][0] == Date(year, 1, 28)
  {
    February2024Shape(year, month);
    ExampleBefore(year, month, 0, Date(year, 1, 28));
    ExampleCell(year, month, 0, 0, Date(year, 1, 28));
  }

  /** 29 February 2024 is the Thursday of the last row. */
  lemma February2024Last(year: int, month: int)
    requires year == 2024 && month == 2
    ensures WeekCount(year, month) == 5 && Grid(year, month)[4][4] == Date(year, month, 29)
  {
    February2024Shape(year, month);
    ExampleDay(year, month, 32, 29);
    ExampleCell(year, month, 4, 4, Date(year, month, 29));
  }

  /** The last row of February 2024 ends on Saturday 2 March. */
  lemma February2024Trailing(year: int, month: int)
    requires year == 2024 && month == 2
    ensures WeekCount(year, month) == 5 && Grid(year, month)[4][6] == Date(year, 3, 2)
  {
    February2024Shape(year, month);
    ExampleAfter(year, month, 34, Date(year, 3, 2));
    ExampleCell(year, month, 4, 6, Date(year, 3, 2));
  }

  /** January 2025 starts on a Wednesday and has 31 days: five weeks. */
  lemma January2025Shape(year: int, month: int)
    requires year == 2025 && month == 1
    ensures Renderable(year, month) && Lead(year, month) == 3 && WeekCount(year, month) == 5
  {
    ExampleShape(year, month, 2, 3, 31);
  }

  /** 1 January 2025 is in the fourth column (DAYS[3], Wednesday) of the first row. */
  lemma January2025First(year: int, month: int)
    requires year == 2025 && month == 1
    ensures WeekCount(year, month) == 5 && Grid(year, month)[0][3] == Date(year, month, 1)
  {
    January2025Shape(year, month);
    ExampleDay(year, month, 3, 1);
    ExampleCell(year, month, 0, 3, Date(year, month, 1));
  }

  /** 31 January 2025 is in the sixth column (DAYS[5], Friday) of the last row. */
  lemma January2025Last(year: int, month: int)
    requires year == 2025 && month == 1
    ensures WeekCount(year, month) == 5 && Grid(year, month)[4][5] == Date(year, month, 31)
  {
    January2025Shape(year, month);
    ExampleDay(year, month, 33, 31);
    ExampleCell(year, month, 4, 5, Date(year, month, 31));
  }

  /** A month whose first day has weekday w (Monday = 0) has lead
      (w + 1) % 7. */
  lemma ExampleShape(year: int, month: int, w: int, lead: nat, dim: int)
    requires Renderable(year, month) && lead == (w + 1) % 7 && dim == DaysInMonth(year, month)
    requires var y1, m1 := year - 1, month - 1;
      (y1 * 365 + y1 / 4 - y1 / 100 + y1 / 400 +
       [0, 31, 59, 90, 120, 151, 181, 212, 243, 273, 304, 334][m1] + (if month > 2 && IsLeapYear(year) then 1 else 0)
       + 1 + 6) % 7 == w
    ensures Lead(year, month) == lead && WeekCount(year, month) == (lead + dim + 6) / 7
  {
    FirstWeekday(year, month, w);
  }

  /** Cell j of week w shows the date d, given that grid position 7 * w + j
      holds d. */
  lemma ExampleCell(year: int, month: int, w: nat, j: nat, d: Date)
    requires Renderable(year, month) && w < WeekCount(year, month) && j < 7
    requires GridDate(year, month, 7 * w + j) == d
    ensures Grid(year, month)[w][j] == d
  {
    GridAt(year, month, w, j);
  }

  /** Position k of the grid in the month's span holds day k - Lead + 1. */
  lemma ExampleDay(year: int, month: int, k: nat, day: int)
    requires Renderable(year, month)
    requires Lead(year, month) <= k < Lead(year, month) + DaysInMonth(year, month) && day == k - Lead(year, month) + 1
    ensures GridDate(year, month, k) == Date(year, month, day)
  {
    GridMonth(year, month, k);
  }

  /** Position k of the grid before the month's span holds a late day of the
      previous month. */
  lemma ExampleBefore(year: int, month: int, k: nat, d: Date)
    requires Renderable(year, month) && k < Lead(year, month)
    requires var (py, pm) := PrevMonth(year, month); d == Date(py, pm, DaysInMonth(py, pm) - Lead(year, month) + 1 + k)
    ensures GridDate(year, month, k) == d
  {
    GridMonth(year, month, k);
  }

  /** Position k of the grid after the month's span holds an early day of the
      next month. */
  lemma ExampleAfter(year: int, month: int, k: nat, d: Date)
    requires Renderable(year, month)
    requires var lead, dim := Lead(year, month), DaysInMonth(year, month); lead + dim <= k < lead + dim + 7
    requires var (ny, nm) := NextMonth(year, month); d == Date(ny, nm, k - Lead(year, month) - DaysInMonth(year, month) + 1)
    ensures GridDate(year, month, k) == d
  {
    GridMonth(year, month, k);
  }

  /** The weekday of the first of a month, from the closed forms of the day
      number (Monday = 0). */
  lemma FirstWeekday(year: int, month: int, w: int)
    requires 1 <= year && 1 <= month <= 12
    requires var y1, m1 := year - 1, month - 1;
      (y1 * 365 + y1 / 4 - y1 / 100 + y1 / 400 +
       [0, 31, 59, 90, 120, 151, 181, 212, 243, 273, 304, 334][m1] + (if month > 2 && IsLeapYear(year) then 1 else 0)
       + 1 + 6) % 7 == w
    ensures Weekday(Date(year, month, 1)) == w
  {
    DaysBeforeYearFormula(year);
    DaysBeforeMonthTable(year, month);
  }
}
