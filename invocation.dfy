/** From the command line to the calendar text: the argument check followed
    by the drawing, without the printing and the file writing around them. */
module Invocation {
  import opened Gregorian
  import opened Text
  import opened Arguments
  import opened CalendarMaker

  /** The argument check as written lets through months that cannot be
      drawn. A year past 9999 is refused by the date library as soon as the
      first of the month is built. January of year 1 starts on the first of
      all dates, a Monday, so the search for the Sunday before it has to step
      before that date. December 9999 ends on the last of all dates, a
      Friday, so filling the Saturday cell of its last row has to step past
      that date. */
  lemma AcceptsUndrawable(program: string, year: nat, month: nat)
    requires (year > MAX_YEAR && 1 <= month <= 12)
          || (year == MIN_YEAR && month == 1)
          || (year == MAX_YEAR && month == 12)
    ensures ParseArgs([program, NatToString(year), NatToString(month)]) == Some((year, month))
    ensures !Renderable(year, month)
    ensures year > MAX_YEAR ==> !IsValid(Date(year, month, 1))
    ensures year == MIN_YEAR && month == 1 ==>
      Date(year, month, 1) == MIN_DATE && Weekday(MIN_DATE) != SUNDAY
    ensures year == MAX_YEAR && month == 12 ==>
      Date(year, month, DaysInMonth(year, month)) == MAX_DATE && Weekday(MAX_DATE) == 4
  {
    ParseArgsRoundTrip(program, year, month);
    MinDateIsMonday();
    MaxDateIsFriday();
  }

  /** The argument check the drawing needs: a year and a month given in
      decimal, accepted exactly when the month lies in the range the date
      library can draw; what it accepts is what the check as written reads. */
  function ParseDrawable(argv: seq<string>): (r: Option<(nat, nat)>)
    ensures r.Some? <==>
      |argv| == 3 && IsDecimal(argv[1]) && IsDecimal(argv[2]) &&
      Renderable(DecimalValue(argv[1]), DecimalValue(argv[2]))
    ensures r.Some? ==> r == ParseArgs(argv) && Renderable(r.value.0, r.value.1)
  {
    match ParseArgs(argv)
    case None => None
    case Some((year, month)) => if Renderable(year, month) then Some((year, month)) else None
  }

  /** Every drawable month, written in decimal, passes the corrected check
      and is read back unchanged; every other one is refused. */
  lemma ParseDrawableRoundTrip(program: string, year: nat, month: nat)
    requires 1 <= month <= 12
    ensures ParseDrawable([program, NatToString(year), NatToString(month)]) ==
      if Renderable(year, month) then Some((year, month)) else None
  {
    if year >= 1 {
      ParseArgsRoundTrip(program, year, month);
    } else {
      assert !Renderable(year, month);
    }
  }

  /** How a run of the program ends: with its usage text, with an error
      raised by the date library, or with the calendar text printed and
      saved. */
  datatype Outcome = Usage | LibraryFailure | Printed(text: string)

  /** The program as written, without its printing and file writing: the
      argument check, then the drawing. Of the months the check accepts, the
      date library fails on every year past 9999, on January of year 1 and
      on December 9999; every other one is drawn. */
  method Run(argv: seq<string>) returns (r: Outcome)
    ensures ParseArgs(argv).None? <==> r == Usage
    ensures r == LibraryFailure <==>
      ParseArgs(argv).Some? &&
      var (year, month) := ParseArgs(argv).value;
      year > MAX_YEAR || (year == MIN_YEAR && month == 1) || (year == MAX_YEAR && month == 12)
    ensures r.Printed? ==>
      Renderable(ParseArgs(argv).value.0, ParseArgs(argv).value.1) &&
      r.text == Render(ParseArgs(argv).value.0, ParseArgs(argv).value.1)
  {
    var args := ParseArgs(argv);
    if args.None? {
      return Usage;
    }
    var (year, month) := args.value;
    if !Renderable(year, month) {
      return LibraryFailure;
    }
    var text := GetCalendar(year, month);
    return Printed(text);
  }

  /** The program with the corrected argument check: the calendar text it
      prints and saves, or None where it prints its usage text and exits.
      It never reaches a failure of the date library. */
  method CalendarFor(argv: seq<string>) returns (r: Option<string>)
    ensures ParseDrawable(argv).None? ==> r == None
    ensures ParseDrawable(argv).Some? ==>
      r == Some(Render(ParseDrawable(argv).value.0, ParseDrawable(argv).value.1))
  {
    var args := ParseDrawable(argv);
    if args.None? {
      return None;
    }
    var text := GetCalendar(args.value.0, args.value.1);
    return Some(text);
  }
}
