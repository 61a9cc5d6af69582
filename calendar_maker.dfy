/** The month grid of the calendar maker. For a year and a month it renders a
    header naming the month and the year, a Sunday-first weekday label line,
    and then one block per week: a separator line, a row of seven day cells
    and three blank filler rows, closed by one more separator line.

    The grid is specified in closed form: the dates it shows are those at
    offsets 0, 1, ... from the Sunday on or before the first of the month
    (GridDate), in WeekCount rows of seven. GetCalendar finds that Sunday and
    the number of rows the way the program does, by stepping a date cursor
    one day at a time, and is proved to produce exactly Render. */
module CalendarMaker {
  import opened Gregorian
  import opened Text

  const MONTHS: seq<string> := ["January", "February", "March", "April", "May", "June",
    "July", "August", "September", "October", "November", "December"]
  const DAYS: seq<string> := ["Sunday", "Monday", "Tuesday", "Wednesday",
    "Thursday", "Friday", "Saturday"]

  /** The weekday number of Sunday (Monday = 0). */
  const SUNDAY := 6

  /** Terminal styling: the ANSI sequences of the colorama constants used. */
  const STYLE_BRIGHT := "\U{1B}[1m"
  const FORE_BLACK := "\U{1B}[30m"
  const FORE_YELLOW := "\U{1B}[33m"
  const BACK_GREEN := "\U{1B}[42m"
  const BACK_RESET := "\U{1B}[49m"

  /** Characters in one day cell: a border, a two-column label and padding. */
  const CELL_WIDTH := 11
  /** Characters in every grid line, its newline included: seven cells, the
      closing border and the newline. */
  const WIDTH := 7 * CELL_WIDTH + 2

  /** The weekday label line, written cell by cell: in each column of the
      grid, five dots, the three-letter name and three dots; one dot closes it. */
  const LABEL_ROW := ".....SUN..." + ".....MON..." + ".....TUE..." + ".....WED..." +
    ".....THU..." + ".....FRI..." + ".....SAT..." + "."
  const LABELS := STYLE_BRIGHT + FORE_YELLOW + "\n" + LABEL_ROW + "\n"
  /** Separator at the top of each week block and at the bottom of the grid. */
  const LINE := Repeat("+----------", 7) + "+\n"
  /** Filler row below each day row. */
  const BLANK := Repeat("|          ", 7) + "|\n"

  /** The months the date library can render: every date the grid visits
      lies between 0001-01-01 and 9999-12-31. January of year 1 is out
      because 0001-01-01 is a Monday, so looking for the Sunday before it
      steps out of range; December 9999 is out because the cursor is always
      advanced past the last cell, into January 10000. */
  predicate Renderable(year: int, month: int) {
    MIN_YEAR <= year <= MAX_YEAR && 1 <= month <= 12 &&
    !(year == MIN_YEAR && month == 1) && !(year == MAX_YEAR && month == 12)
  }

  function PrevMonth(year: int, month: int): (int, int) {
    if month == 1 then (year - 1, 12) else (year, month - 1)
  }

  function NextMonth(year: int, month: int): (int, int) {
    if month == 12 then (year + 1, 1) else (year, month + 1)
  }

  /** How many days the Sunday on or before the first of the month precedes it. */
  function Lead(year: int, month: int): (n: nat)
    ensures n <= 6
  {
    (Weekday(Date(year, month, 1)) + 1) % 7
  }

  /** Number of week blocks: enough rows of seven to reach the last day. */
  function WeekCount(year: int, month: int): nat
  {
    (Lead(year, month) + DaysInMonth(year, month) + 6) / 7
  }

  /** The Sunday on or before the first of the month: the first of the month
      itself when that is a Sunday, otherwise a day late in the previous month. */
  function GridStart(year: int, month: int): Date
  {
    var lead := Lead(year, month);
    if lead == 0 then Date(year, month, 1)
    else
      var (py, pm) := PrevMonth(year, month);
      Date(py, pm, DaysInMonth(py, pm) - lead + 1)
  }

  /** Grid position k: the date k days after GridStart. */
  function GridDate(year: int, month: int, k: nat): Date
  {
    DateAfter(GridStart(year, month), k)
  }

  /** The n dates from k days after d on. */
  function DatesFrom(d: Date, k: nat, n: nat): (ds: seq<Date>)
    ensures |ds| == n
  {
    if n == 0 then [] else DatesFrom(d, k, n - 1) + [DateAfter(d, k + n - 1)]
  }

  /** The n grid dates from position k on. */
  function GridDates(year: int, month: int, k: nat, n: nat): (ds: seq<Date>)
    ensures |ds| == n
  {
    DatesFrom(GridStart(year, month), k, n)
  }

  /** The first day of week n of a grid that starts at d. */
  function WeekDate(d: Date, n: nat): Date {
    DateAfter(d, 7 * n)
  }

  /** Starting at d, the week loop runs exactly count times: the day after
      week n (counting from 1) has left the month exactly when n is count. */
  predicate LeavesMonthAfter(d: Date, month: int, count: nat) {
    forall n :: 1 <= n <= count ==> (WeekDate(d, n).month != month <==> n == count)
  }

  lemma {:induction false} GridDatesAt(year: int, month: int, k: nat, n: nat, i: nat)
    requires Renderable(year, month)
    requires i < n
    ensures GridDates(year, month, k, n)[i] == GridDate(year, month, k + i)
  {
    if i < n - 1 {
      GridDatesAt(year, month, k, n - 1, i);
    }
  }

  /** Week w of the grid: seven consecutive dates, Sunday first. */
  function Week(year: int, month: int, w: nat): (week: seq<Date>)
    ensures |week| == 7
  {
    GridDates(year, month, 7 * w, 7)
  }

  /** The first n weeks of the grid. */
  function Weeks(year: int, month: int, n: nat): (weeks: seq<seq<Date>>)
    ensures |weeks| == n && forall i :: 0 <= i < n ==> |weeks[i]| == 7
  {
    if n == 0 then [] else Weeks(year, month, n - 1) + [Week(year, month, n - 1)]
  }

  /** The rows of the month grid. */
  function Grid(year: int, month: int): (weeks: seq<seq<Date>>)
    ensures |weeks| == WeekCount(year, month)
    ensures forall i :: 0 <= i < |weeks| ==> |weeks[i]| == 7
  {
    Weeks(year, month, WeekCount(year, month))
  }

  /** Between 0 and 6 days of the next month complete the last week, and the
      grid has 4, 5 or 6 weeks. */
  lemma WeekCountBounds(year: int, month: int)
    ensures var n, shown := WeekCount(year, month), Lead(year, month) + DaysInMonth(year, month);
      shown <= 7 * n < shown + 7 && 4 <= n <= 6
  {
  }

  /** Which date each position of the grid shows: the last Lead days of the
      previous month, then days 1 .. DaysInMonth of the month in order, then
      the first days of the next month; all of them representable. */
  lemma {:induction false} GridMonth(year: int, month: int, k: nat)
    requires Renderable(year, month)
    requires k < Lead(year, month) + DaysInMonth(year, month) + 7
    ensures IsValid(GridDate(year, month, k))
    ensures var d, lead, dim := GridDate(year, month, k), Lead(year, month), DaysInMonth(year, month);
      && (k < lead ==> var (py, pm) := PrevMonth(year, month);
            d == Date(py, pm, DaysInMonth(py, pm) - lead + 1 + k))
      && (lead <= k < lead + dim ==> d == Date(year, month, k - lead + 1))
      && (lead + dim <= k ==> var (ny, nm) := NextMonth(year, month);
            d == Date(ny, nm, k - lead - dim + 1))
  {
    if k > 0 {
      GridMonth(year, month, k - 1);
    }
  }

  /** Consecutive grid positions hold consecutive dates, and no position
      before the last is the final representable date. */
  lemma GridNext(year: int, month: int, k: nat)
    requires Renderable(year, month)
    requires k + 1 < Lead(year, month) + DaysInMonth(year, month) + 7
    ensures IsValid(GridDate(year, month, k)) && GridDate(year, month, k) != MAX_DATE
    ensures Next(GridDate(year, month, k)) == GridDate(year, month, k + 1)
  {
    GridMonth(year, month, k);
  }

  /** The grid starts Lead days before the first of the month. */
  lemma GridStartOrdinal(year: int, month: int)
    requires Renderable(year, month)
    ensures IsValid(GridStart(year, month))
    ensures Ordinal(GridStart(year, month)) == Ordinal(Date(year, month, 1)) - Lead(year, month)
  {
    GridMonth(year, month, 0);
    if month == 1 {
      DaysBeforeNextMonth(year - 1, 12);
    }
  }

  /** Position k of the grid is k - Lead days after the first of the month. */
  lemma {:induction false} GridOrdinal(year: int, month: int, k: nat)
    requires Renderable(year, month)
    requires k < Lead(year, month) + DaysInMonth(year, month) + 7
    ensures IsValid(GridDate(year, month, k))
    ensures Ordinal(GridDate(year, month, k)) == Ordinal(Date(year, month, 1)) - Lead(year, month) + k
  {
    if k == 0 {
      GridStartOrdinal(year, month);
    } else {
      GridOrdinal(year, month, k - 1);
      GridNext(year, month, k - 1);
      OrdinalNext(GridDate(year, month, k - 1));
    }
  }

  /** The date at position k falls on the weekday of column k % 7, whose
      name is DAYS[k % 7]: position 0, and every seventh after it, is a Sunday. */
  lemma GridWeekday(year: int, month: int, k: nat)
    requires Renderable(year, month)
    requires k < Lead(year, month) + DaysInMonth(year, month) + 7
    ensures IsValid(GridDate(year, month, k))
    ensures Weekday(GridDate(year, month, k)) == (k % 7 + SUNDAY) % 7
  {
    GridOrdinal(year, month, k);
    var o := Ordinal(Date(year, month, 1));
    SundayAlignment(o, Lead(year, month), k);
  }

  /** Arithmetic behind GridWeekday: stepping back (weekday + 1) % 7 days
      from day number o lands on a day number that is a multiple of 7. */
  lemma SundayAlignment(o: int, lead: int, k: int)
    requires lead == ((o + 6) % 7 + 1) % 7
    ensures (o - lead + k + 6) % 7 == (k % 7 + 6) % 7
  {
    var q := (o - lead) / 7;
    assert o - lead == 7 * q;
    var r := k / 7;
    assert k == 7 * r + k % 7;
    assert o - lead + k + 6 == 7 * (q + r) + (k % 7 + 6);
  }

  /** The day of the month, right-aligned in two columns. */
  function DayLabel(day: nat): string {
    RightJustify(NatToString(day), 2)
  }

  /** The cell of one day: a border, the day label and eight spaces. */
  function Cell(d: Date): string {
    "|" + DayLabel(d.day) + Repeat(" ", 8)
  }

  /** The cells of the given days, in order. */
  function Cells(ds: seq<Date>): string {
    if |ds| == 0 then "" else Cells(ds[..|ds| - 1]) + Cell(ds[|ds| - 1])
  }

  /** The row of day numbers of a week, closed by a border. */
  function DayRow(week: seq<Date>): string {
    Cells(week) + "|\n"
  }

  /* The week blocks are described twice. WeekLines and BodyLines give them
     as lines, over the rows of Grid: the form the properties of the layout
     (widths, separators, positions of lines) are stated in. WeekText and
     BodyText give them as the text the week loop appends, over the dates
     stepped from the start of the grid, with the separator and the filler
     row as parameters: the form the loop is proved against, which keeps the
     calendar arithmetic of Grid and the long string constants out of the
     loop's proof. WeekTextLines and BodyTextLines show the two agree. */

  /** The lines of a week block: a separator, the day row and three filler rows. */
  function WeekLines(week: seq<Date>): seq<string> {
    [LINE, DayRow(week), BLANK, BLANK, BLANK]
  }

  function BodyLines(weeks: seq<seq<Date>>): seq<string> {
    if |weeks| == 0 then [] else BodyLines(weeks[..|weeks| - 1]) + WeekLines(weeks[|weeks| - 1])
  }

  /** The text of a week block drawn with the given separator and filler
      row: the separator, the day row and three filler rows. */
  function WeekText(week: seq<Date>, line: string, blank: string): string {
    line + DayRow(week) + blank + blank + blank
  }

  /** The text of the first n week blocks of a grid that starts at d. */
  function BodyText(d: Date, n: nat, line: string, blank: string): string {
    if n == 0 then "" else BodyText(d, n - 1, line, blank) + WeekText(DatesFrom(d, 7 * (n - 1), 7), line, blank)
  }

  /** The title line: the month name and the year on a green background. */
  function Header(year: int, month: int): string
    requires year >= 0 && 1 <= month <= 12
  {
    Repeat(" ", 34) + STYLE_BRIGHT + BACK_GREEN + FORE_BLACK +
    " " + MONTHS[month - 1] + " " + NatToString(year) + " " + BACK_RESET + "\n"
  }

  /** The pieces of the calendar text in output order: the title, the weekday
      labels, the lines of every week block and the closing separator. */
  function Pieces(year: int, month: int): seq<string>
    requires Renderable(year, month)
  {
    [Header(year, month), LABELS] + GridLines(year, month)
  }

  /** The lines of the grid below the labels: every week block, then the
      closing separator. */
  function GridLines(year: int, month: int): seq<string>
  {
    BodyLines(Grid(year, month)) + [LINE]
  }

  /** The whole calendar text for a month. */
  function Render(year: int, month: int): string
    requires Renderable(year, month)
  {
    Join(Pieces(year, month))
  }

  lemma CellsSnoc(ds: seq<Date>, d: Date)
    ensures Cells(ds + [d]) == Cells(ds) + Cell(d)
  {
    assert (ds + [d])[..|ds|] == ds;
  }

  lemma Assoc<T>(a: seq<T>, b: seq<T>, c: seq<T>)
    ensures a + b + c == a + (b + c)
  {
  }

  /** The five lines of a week block, joined, are its text. */
  lemma WeekTextLines(week: seq<Date>)
    ensures Join(WeekLines(week)) == WeekText(week, LINE, BLANK)
  {
    JoinFive(LINE, DayRow(week), BLANK, BLANK, BLANK);
  }

  lemma JoinFive(a: string, b: string, c: string, d: string, e: string)
    ensures Join([a, b, c, d, e]) == a + b + c + d + e
  {
    JoinSnoc([], a);
    JoinSnoc([a], b);
    JoinSnoc([a, b], c);
    JoinSnoc([a, b, c], d);
    JoinSnoc([a, b, c, d], e);
    assert [] + [a] == [a] && [a] + [b] == [a, b] && [a, b] + [c] == [a, b, c];
    assert [a, b, c] + [d] == [a, b, c, d] && [a, b, c, d] + [e] == [a, b, c, d, e];
  }

  /** The text of the first n week blocks is their lines, joined. */
  lemma {:induction false} BodyTextLines(year: int, month: int, n: nat)
    ensures BodyText(GridStart(year, month), n, LINE, BLANK) == Join(BodyLines(Weeks(year, month, n)))
  {
    if n > 0 {
      BodyTextLines(year, month, n - 1);
      var weeks := Weeks(year, month, n);
      assert weeks[..n - 1] == Weeks(year, month, n - 1);
      JoinAppend(BodyLines(Weeks(year, month, n - 1)), WeekLines(Week(year, month, n - 1)));
      WeekTextLines(Week(year, month, n - 1));
    }
  }

  /** Lines h and l, the lines of a body and a last line, joined. */
  lemma JoinFrame(h: string, l: string, body: seq<string>, last: string)
    ensures Join([h, l] + (body + [last])) == h + l + Join(body) + last
  {
    JoinTwoThen(h, l, body + [last]);
    JoinSnoc(body, last);
  }

  /** The calendar text is the title line, the day labels, the text of every
      week block and the closing separator. */
  lemma RenderText(year: int, month: int)
    requires Renderable(year, month)
    ensures Render(year, month) == Header(year, month) + LABELS + BodyText(GridStart(year, month), WeekCount(year, month), LINE, BLANK) + LINE
  {
    BodyTextLines(year, month, WeekCount(year, month));
    JoinFrame(Header(year, month), LABELS, BodyLines(Grid(year, month)), LINE);
  }

  /** One pass of the week loop, from the first day of week w: its block
      extends the first w blocks, and seven days on is the first day of week
      w + 1. */
  lemma WeekStep(d: Date, w: nat, prefix: string, line: string, blank: string)
    ensures prefix + BodyText(d, w, line, blank) + WeekText(DatesFrom(WeekDate(d, w), 0, 7), line, blank)
         == prefix + BodyText(d, w + 1, line, blank)
    ensures DateAfter(WeekDate(d, w), 7) == WeekDate(d, w + 1)
  {
    DatesShift(d, 7 * w, 7);
    Assoc(prefix, BodyText(d, w, line, blank), WeekText(DatesFrom(d, 7 * w, 7), line, blank));
    DateAfterAdd(d, 7 * w, 7);
  }

  /** The dates from k days after d on are the dates from DateAfter(d, k). */
  lemma {:induction false} DatesShift(d: Date, k: nat, n: nat)
    ensures DatesFrom(DateAfter(d, k), 0, n) == DatesFrom(d, k, n)
  {
    if n > 0 {
      DatesShift(d, k, n - 1);
      DateAfterAdd(d, k, n - 1);
    }
  }

  /** Pass n of the week loop is its last exactly when it leaves the month. */
  lemma LoopExit(d: Date, month: int, count: nat, n: nat)
    requires LeavesMonthAfter(d, month, count) && 1 <= n <= count
    ensures WeekDate(d, n).month != month <==> n == count
  {
  }

  /** The grid of a renderable month is walked by the week loop exactly
      WeekCount times. */
  lemma WeekLoopBound(year: int, month: int)
    requires Renderable(year, month)
    ensures WeekCount(year, month) >= 1
    ensures LeavesMonthAfter(GridStart(year, month), month, WeekCount(year, month))
  {
    WeekCountBounds(year, month);
    forall n | 1 <= n <= WeekCount(year, month)
      ensures WeekDate(GridStart(year, month), n).month != month <==> n == WeekCount(year, month)
    {
      WeekEnd(year, month, n - 1, 7 * n);
    }
  }

  /** Every date the cursor visits in the grid is one the library can step
      forward from, and the step is to the next grid position: stepping with
      Successor is stepping with the bounded Next. */
  lemma CursorInRange(year: int, month: int, k: nat)
    requires Renderable(year, month) && k < 7 * WeekCount(year, month)
    ensures IsValid(GridDate(year, month, k)) && GridDate(year, month, k) != MAX_DATE
    ensures Next(GridDate(year, month, k)) == GridDate(year, month, k + 1)
  {
    WeekCountBounds(year, month);
    GridNext(year, month, k);
  }

  /** Cell j of week w is grid position 7 * w + j. */
  lemma GridAt(year: int, month: int, w: nat, j: nat)
    requires Renderable(year, month) && w < WeekCount(year, month) && j < 7
    ensures 7 * w + j < Lead(year, month) + DaysInMonth(year, month) + 7
    ensures Grid(year, month)[w][j] == GridDate(year, month, 7 * w + j)
  {
    WeekCountBounds(year, month);
    WeeksAt(year, month, WeekCount(year, month), w);
    GridDatesAt(year, month, 7 * w, 7, j);
  }

  lemma {:induction false} WeeksAt(year: int, month: int, n: nat, w: nat)
    requires Renderable(year, month) && w < n <= WeekCount(year, month)
    ensures Weeks(year, month, n)[w] == Week(year, month, w)
  {
    if w < n - 1 {
      WeeksAt(year, month, n - 1, w);
    }
  }

  /** The search for the Sunday: the cursor at position k (at most Lead) is on
      a Sunday exactly at position 0; before that it is not the first
      representable date, and the day before it is position k - 1. */
  lemma RollbackStep(year: int, month: int, k: nat, current: Date)
    requires Renderable(year, month) && k <= Lead(year, month) && current == GridDate(year, month, k)
    ensures IsValid(current)
    ensures Weekday(current) == SUNDAY <==> k == 0
    ensures k > 0 ==> current != MIN_DATE && Prev(current) == GridDate(year, month, k - 1)
  {
    RollbackSunday(year, month, k);
    if k > 0 {
      RollbackPrev(year, month, k);
    }
  }

  /** Before position 0, the day before position k is position k - 1. */
  lemma RollbackPrev(year: int, month: int, k: nat)
    requires Renderable(year, month) && 0 < k <= Lead(year, month)
    ensures IsValid(GridDate(year, month, k)) && GridDate(year, month, k) != MIN_DATE
    ensures Prev(GridDate(year, month, k)) == GridDate(year, month, k - 1)
  {
    GridNext(year, month, k - 1);
    PrevOfNext(GridDate(year, month, k - 1));
  }

  lemma RollbackSunday(year: int, month: int, k: nat)
    requires Renderable(year, month) && k <= Lead(year, month)
    ensures IsValid(GridDate(year, month, k))
    ensures Weekday(GridDate(year, month, k)) == SUNDAY <==> k == 0
  {
    GridWeekday(year, month, k);
    FirstColumn(k);
  }

  /** Within the first week only column 0 is Sunday's. */
  lemma FirstColumn(k: int)
    requires 0 <= k <= 6
    ensures (k % 7 + SUNDAY) % 7 == SUNDAY <==> k == 0
  {
  }

  /** The date after the last cell of week w is within reach of GridMonth. */
  lemma WeekInGrid(year: int, month: int, w: nat, next: nat)
    requires w < WeekCount(year, month) && next == 7 * w + 7
    ensures next < Lead(year, month) + DaysInMonth(year, month) + 7
  {
    WeekCountBounds(year, month);
  }

  /** The check after week w (0-based): the cursor has left the month exactly
      when w is the last week. */
  lemma WeekEnd(year: int, month: int, w: nat, next: nat)
    requires Renderable(year, month) && w < WeekCount(year, month) && next == 7 * w + 7
    ensures GridDate(year, month, next).month != month <==> w + 1 == WeekCount(year, month)
  {
    WeekInGrid(year, month, w, next);
    GridMonth(year, month, next);
  }

  /** The search for the first grid cell: starting from the first of the
      month, steps back one day at a time until the cursor is on a Sunday. */
  method FindGridStart(year: int, month: int) returns (current: Date)
    requires Renderable(year, month)
    ensures current == GridStart(year, month)
    ensures IsValid(current) && Weekday(current) == SUNDAY
    ensures Ordinal(current) <= Ordinal(Date(year, month, 1)) <= Ordinal(current) + 6
  {
    current := Date(year, month, 1);
    ghost var lead := Lead(year, month);
    ghost var back := 0;
    RollbackFrom(year, month);
    while Weekday(current) != SUNDAY
      invariant 0 <= back <= lead
      invariant current == GridDate(year, month, lead - back) && IsValid(current)
      decreases lead - back
    {
      RollbackStep(year, month, lead - back, current);
      current := Prev(current);
      back := back + 1;
    }
    RollbackEnd(year, month, lead - back);
  }

  /** The rollback starts at grid position Lead: the first of the month. */
  lemma RollbackFrom(year: int, month: int)
    requires Renderable(year, month)
    ensures Date(year, month, 1) == GridDate(year, month, Lead(year, month))
    ensures IsValid(Date(year, month, 1))
  {
    GridMonth(year, month, Lead(year, month));
  }

  /** The rollback stops at the first Sunday it meets, grid position 0: the
      Sunday 0 to 6 days before the first of the month. */
  lemma RollbackEnd(year: int, month: int, k: nat)
    requires Renderable(year, month) && k <= Lead(year, month)
    requires Weekday(GridDate(year, month, k)) == SUNDAY
    ensures k == 0
    ensures IsValid(GridStart(year, month)) && Weekday(GridStart(year, month)) == SUNDAY
    ensures Ordinal(GridStart(year, month)) <= Ordinal(Date(year, month, 1)) <= Ordinal(GridStart(year, month)) + 6
  {
    RollbackSunday(year, month, k);
    RollbackSunday(year, month, 0);
    GridOrdinal(year, month, 0);
  }

  /** The day row of the week that starts at start: one cell per day,
      advancing the cursor one day per cell, and the closing border. */
  method WeekRow(start: Date) returns (dayRow: string, current: Date)
    ensures dayRow == DayRow(DatesFrom(start, 0, 7))
    ensures current == DateAfter(start, 7)
  {
    current := start;
    dayRow := "";
    for i := 0 to 7
      invariant current == DateAfter(start, i)
      invariant dayRow == Cells(DatesFrom(start, 0, i))
    {
      CellsSnoc(DatesFrom(start, 0, i), current);
      var dayLabel := RightJustify(NatToString(current.day), 2);
      dayRow := dayRow + ("|" + dayLabel + Repeat(" ", 8));
      current := Successor(current);
    }
    dayRow := dayRow + "|\n";
  }

  /** One pass of the week loop: the separator, the day row of the week that
      starts at start and the three filler rows are appended to text, and the
      cursor advances by seven days. */
  method EmitWeek(line: string, blank: string, text: string, start: Date)
    returns (out: string, current: Date)
    ensures out == text + WeekText(DatesFrom(start, 0, 7), line, blank)
    ensures current == DateAfter(start, 7)
  {
    out := text + line;
    var dayRow;
    dayRow, current := WeekRow(start);
    out := out + dayRow;
    ghost var row := out;
    for i := 0 to 3
      invariant out == row + Repeat(blank, i)
    {
      Assoc(row, Repeat(blank, i), blank);
      out := out + blank;
    }
    BlockText(text, line, dayRow, blank);
  }

  /** A prefix, a separator, a day row and three filler rows. */
  lemma BlockText(t: string, a: string, b: string, c: string)
    ensures t + a + b + Repeat(c, 3) == t + (a + b + c + c + c)
  {
    assert Repeat(c, 3) == c + c + c by {
      assert Repeat(c, 1) == c;
    }
  }

  /** The week loop: from the first grid date, emits one week block after
      another, and stops after the block whose following day has left the
      month. With count the number of passes this takes, the text gains the
      first count week blocks of the grid. */
  method EmitWeeks(month: int, line: string, blank: string, text: string, start: Date, ghost count: nat)
    returns (out: string)
    requires count >= 1 && LeavesMonthAfter(start, month, count)
    ensures out == text + BodyText(start, count, line, blank)
  {
    out := text;
    var current := start;
    ghost var weeks := 0;
    while true
      invariant 0 <= weeks < count
      invariant current == WeekDate(start, weeks)
      invariant out == text + BodyText(start, weeks, line, blank)
      decreases count - weeks
    {
      WeekStep(start, weeks, text, line, blank);
      out, current := EmitWeek(line, blank, out, current);
      LoopExit(start, month, count, weeks + 1);
      if current.month != month {
        assert weeks + 1 == count;
        break;
      }
      weeks := weeks + 1;
    }
  }

  /** Appending to the empty text gives the appended text. */
  lemma EmptyPrefix<T>(s: seq<T>)
    ensures [] + s == s
  {
  }

  /** Builds the calendar text as the program does: the title and the day
      labels, then, starting from the Sunday on or before the first of the
      month, one block per week until the running date has left the month,
      and a closing separator. */
  method GetCalendar(year: int, month: int) returns (text: string)
    requires Renderable(year, month)
    ensures text == Render(year, month)
  {
    text := "";
    var header := Header(year, month);
    EmptyPrefix(header);
    text := text + header;
    text := text + LABELS;

    var line := LINE;
    var blank := BLANK;
    var current := FindGridStart(year, month);
    WeekLoopBound(year, month);
    text := EmitWeeks(month, line, blank, text, current, WeekCount(year, month));
    text := text + line;
    RenderText(year, month);
  }
}
