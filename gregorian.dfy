/** The proleptic Gregorian calendar over the years 1 to 9999: the part of a
    standard date library that the calendar maker relies on (constructing a
    date, stepping it one day forward or back, and its day of the week).
    Ordinals and weekdays follow the usual convention of such libraries:
    0001-01-01 has ordinal 1, and weekdays run Monday = 0 ... Sunday = 6. */
module Gregorian {

  const MIN_YEAR := 1
  const MAX_YEAR := 9999

  datatype Date = Date(year: int, month: int, day: nat)

  const MIN_DATE := Date(MIN_YEAR, 1, 1)
  const MAX_DATE := Date(MAX_YEAR, 12, 31)

  /** Every fourth year is a leap year, except centuries not divisible by 400. */
  predicate IsLeapYear(y: int) {
    y % 4 == 0 && (y % 100 != 0 || y % 400 == 0)
  }

  /** Days in month m (1..12) of year y. */
  function DaysInMonth(y: int, m: int): (n: int)
    ensures 28 <= n <= 31
    ensures n == 29 <==> m == 2 && IsLeapYear(y)
  {
    if m == 2 then (if IsLeapYear(y) then 29 else 28)
    else if m == 4 || m == 6 || m == 9 || m == 11 then 30
    else 31
  }

  function DaysInYear(y: int): int {
    if IsLeapYear(y) then 366 else 365
  }

  /** A date the library can represent. */
  predicate IsValid(d: Date) {
    MIN_YEAR <= d.year <= MAX_YEAR && 1 <= d.month <= 12 &&
    1 <= d.day <= DaysInMonth(d.year, d.month)
  }

  /** The calendar day after d, with no bound on the year. */
  function Successor(d: Date): Date {
    if d.day < DaysInMonth(d.year, d.month) then Date(d.year, d.month, d.day + 1)
    else if d.month < 12 then Date(d.year, d.month + 1, 1)
    else Date(d.year + 1, 1, 1)
  }

  /** The date k days after d: Successor applied k times. */
  function DateAfter(d: Date, k: nat): Date {
    if k == 0 then d else Successor(DateAfter(d, k - 1))
  }

  /** k days and then j more days are k + j days. */
  lemma {:induction false} DateAfterAdd(d: Date, k: nat, j: nat)
    ensures DateAfter(DateAfter(d, k), j) == DateAfter(d, k + j)
  {
    if j > 0 {
      DateAfterAdd(d, k, j - 1);
    }
  }

  /** The date one day later, as the date library computes it: stepping
      past MAX_DATE is an overflow, so it is excluded. */
  function Next(d: Date): (r: Date)
    requires IsValid(d) && d != MAX_DATE
    ensures IsValid(r) && r != MIN_DATE
    ensures r.year == d.year || (r.year == d.year + 1 && r.month == 1 && r.day == 1)
  {
    Successor(d)
  }

  /** The date one day earlier; stepping before MIN_DATE is an overflow. */
  function Prev(d: Date): (r: Date)
    requires IsValid(d) && d != MIN_DATE
    ensures IsValid(r) && r != MAX_DATE
    ensures r.year == d.year || (r.year == d.year - 1 && r.month == 12 && r.day == 31)
  {
    if d.day > 1 then Date(d.year, d.month, d.day - 1)
    else if d.month > 1 then Date(d.year, d.month - 1, DaysInMonth(d.year, d.month - 1))
    else Date(d.year - 1, 12, 31)
  }

  /** Number of days in the years 1 .. y - 1. */
  function DaysBeforeYear(y: int): int {
    if y <= 1 then 0 else DaysBeforeYear(y - 1) + DaysInYear(y - 1)
  }

  /** Number of days in year y before the first of month m. */
  function DaysBeforeMonth(y: int, m: int): int {
    if m <= 1 then 0 else DaysBeforeMonth(y, m - 1) + DaysInMonth(y, m - 1)
  }

  /** Day number counted from 0001-01-01, which is day 1. */
  function Ordinal(d: Date): int {
    DaysBeforeYear(d.year) + DaysBeforeMonth(d.year, d.month) + d.day
  }

  /** Day of the week: Monday = 0, ..., Saturday = 5, Sunday = 6. */
  function Weekday(d: Date): (w: int)
    ensures 0 <= w < 7
  {
    (Ordinal(d) + 6) % 7
  }

  /** Moving from year y - 1 to year y crosses a multiple of 4, 100 or 400
      exactly when y is one. */
  lemma StepDiv(y: int)
    requires y >= 1
    ensures y / 4 - (y - 1) / 4 == if y % 4 == 0 then 1 else 0
    ensures y / 100 - (y - 1) / 100 == if y % 100 == 0 then 1 else 0
    ensures y / 400 - (y - 1) / 400 == if y % 400 == 0 then 1 else 0
  {
  }

  /** The days before year y in closed form, as date libraries compute them:
      365 per year plus one per leap year among 1 .. y - 1. */
  lemma {:induction false} DaysBeforeYearFormula(y: int)
    requires y >= 1
    ensures var y1 := y - 1; DaysBeforeYear(y) == y1 * 365 + y1 / 4 - y1 / 100 + y1 / 400
  {
    if y > 1 {
      var y0 := y - 1;
      DaysBeforeYearFormula(y0);
      StepDiv(y0);
      if y0 % 400 == 0 {
        assert y0 % 100 == 0 && y0 % 4 == 0 by { assert y0 == 400 * (y0 / 400); }
      } else if y0 % 100 == 0 {
        assert y0 % 4 == 0 by { assert y0 == 100 * (y0 / 100); }
      }
    }
  }

  /** The days before month m as the usual cumulative table, plus the leap
      day once February is past. */
  lemma {:induction false} DaysBeforeMonthTable(y: int, m: int)
    requires 1 <= m <= 12
    ensures DaysBeforeMonth(y, m) ==
      [0, 31, 59, 90, 120, 151, 181, 212, 243, 273, 304, 334][m - 1] + (if m > 2 && IsLeapYear(y) then 1 else 0)
  {
    if m > 1 {
      DaysBeforeMonthTable(y, m - 1);
    }
  }

  /** Consecutive months are DaysInMonth apart; December closes the year. */
  lemma DaysBeforeNextMonth(y: int, m: int)
    requires 1 <= m <= 12
    ensures m < 12 ==> DaysBeforeMonth(y, m + 1) == DaysBeforeMonth(y, m) + DaysInMonth(y, m)
    ensures m == 12 ==> DaysBeforeMonth(y, m) + DaysInMonth(y, m) == DaysInYear(y)
  {
    if m == 12 {
      DaysBeforeMonthTable(y, 12);
    }
  }

  /** Next is the successor on day numbers. */
  lemma OrdinalNext(d: Date)
    requires IsValid(d) && d != MAX_DATE
    ensures Ordinal(Next(d)) == Ordinal(d) + 1
  {
    DaysBeforeNextMonth(d.year, d.month);
  }

  /** Prev is the predecessor on day numbers. */
  lemma OrdinalPrev(d: Date)
    requires IsValid(d) && d != MIN_DATE
    ensures Ordinal(Prev(d)) == Ordinal(d) - 1
  {
    NextOfPrev(d);
    OrdinalNext(Prev(d));
  }

  lemma PrevOfNext(d: Date)
    requires IsValid(d) && d != MAX_DATE
    ensures Prev(Next(d)) == d
  {
  }

  lemma NextOfPrev(d: Date)
    requires IsValid(d) && d != MIN_DATE
    ensures Next(Prev(d)) == d
  {
  }

  /** One day forward is one weekday forward, Sunday wrapping to Monday. */
  lemma WeekdayNext(d: Date)
    requires IsValid(d) && d != MAX_DATE
    ensures Weekday(Next(d)) == (Weekday(d) + 1) % 7
  {
    OrdinalNext(d);
    WeekdayStep(Ordinal(d));
  }

  lemma WeekdayStep(o: int)
    ensures (o + 1 + 6) % 7 == ((o + 6) % 7 + 1) % 7
  {
  }

  /** One day back is one weekday back, Monday wrapping to Sunday. */
  lemma WeekdayPrev(d: Date)
    requires IsValid(d) && d != MIN_DATE
    ensures Weekday(Prev(d)) == (Weekday(d) + 6) % 7
  {
    NextOfPrev(d);
    WeekdayNext(Prev(d));
  }

  /** The first representable date is a Monday, so no Sunday precedes it. */
  lemma MinDateIsMonday()
    ensures Weekday(MIN_DATE) == 0
  {
  }

  /** The last representable date is a Friday. */
  lemma MaxDateIsFriday()
    ensures Weekday(MAX_DATE) == 4
  {
    DaysBeforeYearFormula(MAX_YEAR);
    DaysBeforeMonthTable(MAX_YEAR, 12);
  }
}
