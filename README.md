# Calendar Maker, modelled in Dafny

Calendar Maker is a small command-line program. It takes a year and a month
and draws that month as a text grid:

- a title line with the month's name and the year;
- a line of weekday labels, Sunday first;
- one block of five lines per week: a `+----------` separator, a row of day
  numbers, and three empty filler rows;
- a closing separator.

The grid starts on the Sunday on or before the first of the month. It runs
in whole weeks until the week that contains the last day of the month, so it
also shows a few days of the neighbouring months.

This project models two things:

- `get_calendar`, the function that builds this text;
- the rule by which the program accepts its command-line arguments.

It also models the parts of the date library the program leans on:

- building a date;
- stepping a date one day forward or back;
- the day of the week.

Each Dafny module follows one part of the program:

| file | module | what it holds |
|---|---|---|
| `gregorian.dfy` | `Gregorian` | The proleptic Gregorian calendar over the years 1 to 9999. Dates, day numbers (0001-01-01 is day 1) and weekdays (Monday = 0, Sunday = 6), as the program's date library computes them. |
| `text.dfy` | `Text` | The string operations: `*` repetition, `rjust`, `str` of a number, reading a digit string as a number, and joining lines. |
| `arguments.dfy` | `Arguments` | The acceptance rule for the year and month arguments. |
| `calendar_maker.dfy` | `CalendarMaker` | The constants, and a closed form of the grid (`Lead`, `WeekCount`, `GridStart`, `GridDate`, `Grid`, `Render`). Also the imperative `GetCalendar`, written as the program writes it: one loop steps back to the Sunday, and one emits week blocks until the running date leaves the month. `GetCalendar` is proved to produce exactly `Render`. |
| `grid_properties.dfy` | `GridProperties` | What the text looks like: line widths, cells, separators, and the layout of the lines. |
| `month_properties.dfy` | `MonthProperties` | What the grid shows: every day of the month once and in order, the weekday of every column, the title, and two months worked out in full. |
| `invocation.dfy` | `Invocation` | The path from the argument vector to the calendar text, and the finding below. |

The running date of the week loop is stepped with `Successor`, the calendar
day after a date with no bound on the year. `CalendarMaker.CursorInRange`
shows that every date the loop steps from is representable, so `Successor`
agrees there with the library's bounded `Next`. The rollback loop steps back
with the library's `Prev` directly.

Facts of the date library the model builds on:

- Weekdays are numbered from Monday: `weekday()` returns 0 for Monday and 6
  for Sunday.
- The library covers 0001-01-01 to 9999-12-31. Building a date outside that
  range, or stepping a day past either end, raises an error. The model
  therefore draws only the months `Renderable` admits: years 1 to 9999, minus
  January of year 1 and December 9999. `Invocation.AcceptsUndrawable` shows
  that the argument check accepts these months and gives the range fact
  behind each; `CalendarMaker.FindGridStart` and
  `CalendarMaker.CursorInRange` show that every other month is drawn without
  leaving the range. `Invocation.Run` sorts the accepted arguments by that
  split; see "Findings".

## Model

| member | source | states |
|---|---|---|
| Text.RightJustifyShape | calendar_maker.py:118 | `rjust(width)` pads on the left with spaces to exactly `width` characters, keeps the string as its suffix, and leaves a string that is already wide enough unchanged. |
| Text.RepeatShape | calendar_maker.py:97-99 | `s * n` is `n` times as long as `s` and is made only of the characters of `s`. |
| Text.NatToString | calendar_maker.py:91 | `str(n)` is a non-empty digit string without a leading zero (unless `n` is 0) that reads back as `n`, and it is one character exactly when `n < 10`. |
| Arguments.ParseArgs | calendar_maker.py:39-62 | The arguments are accepted exactly when there are two of them, the year is a decimal string with value above 0, and the month is a decimal string with value in 1..12. The values returned are those strings without leading zeros. |
| Arguments.CanonicalValue | calendar_maker.py:47-48 | Reading a digit string with `int` ignores its leading zeros; what is left is the decimal representation of the value. |
| Arguments.ParseArgsRoundTrip | calendar_maker.py:47-58 | Every year of at least 1 and every month in 1..12, written in decimal, is accepted and read back unchanged. |
| Arguments.NonDigitRefused | calendar_maker.py:47-57 | An empty argument, or one with any character other than a decimal digit, makes the program print its usage text. |
| Arguments.OutOfRangeRefused | calendar_maker.py:47-57 | A year of only zeros, or a month above 12, makes the program print its usage text. |
| Gregorian.Next | calendar_maker.py:121 | Stepping a representable date other than 9999-12-31 one day forward gives a representable date. It stays in the same year, or it is 1 January of the next year. |
| Gregorian.Prev | calendar_maker.py:106 | Stepping a representable date other than 0001-01-01 one day back gives a representable date. It stays in the same year, or it is 31 December of the year before. |
| Gregorian.PrevOfNext | calendar_maker.py:106-121 | Stepping back undoes stepping forward. |
| Gregorian.NextOfPrev | calendar_maker.py:106-121 | Stepping forward undoes stepping back. |
| Gregorian.OrdinalNext | calendar_maker.py:121 | The next day has the next day number. |
| Gregorian.WeekdayNext | calendar_maker.py:105-121 | The next day falls on the next weekday. |
| Gregorian.WeekdayPrev | calendar_maker.py:105-106 | The day before falls on the weekday before. |
| Gregorian.DaysBeforeYearFormula | calendar_maker.py:105 | Counting the days of the years before `y` one year at a time gives the leap-year formula `365(y-1) + (y-1)/4 - (y-1)/100 + (y-1)/400`. |
| Gregorian.DaysBeforeMonthTable | calendar_maker.py:105 | Counting the days of the months before `m` gives the usual cumulative month table, plus one after February in leap years. |
| Gregorian.MinDateIsMonday | calendar_maker.py:105-106 | 0001-01-01 is a Monday, so the search for a Sunday cannot start from it. |
| Gregorian.MaxDateIsFriday | calendar_maker.py:114-121 | 9999-12-31 is a Friday, so its row needs a Saturday cell beyond it. |
| CalendarMaker.FindGridStart | calendar_maker.py:101-106 | The rollback loop ends on `GridStart`: a representable Sunday 0 to 6 days before the first of the month, counted by day numbers. |
| CalendarMaker.RollbackStep | calendar_maker.py:105-106 | During the rollback, the cursor `k` days after the grid start is a Sunday exactly when `k` is 0. Before that, it is not 0001-01-01, and the day before it is position `k - 1`. |
| CalendarMaker.RollbackPrev | calendar_maker.py:106 | Each step of the rollback moves from grid position `k` to position `k - 1`, and never from 0001-01-01. |
| CalendarMaker.WeekCountBounds | calendar_maker.py:109-132 | The weeks drawn cover the lead days and the whole month with fewer than 7 cells to spare, and there are 4, 5 or 6 of them. |
| CalendarMaker.GridMonth | calendar_maker.py:102-121 | Which date every grid position shows, and that it is representable. The first `Lead` positions show the last days of the previous month. The next `DaysInMonth` show days 1, 2, … of the month. The rest show days 1, 2, … of the next month. |
| CalendarMaker.GridNext | calendar_maker.py:121 | Consecutive grid positions hold consecutive dates, and no position before the last is 9999-12-31. |
| CalendarMaker.GridOrdinal | calendar_maker.py:102-121 | Grid position `k` is `k - Lead` days after the first of the month. |
| CalendarMaker.GridWeekday | calendar_maker.py:104-121 | Grid position `k` falls on the weekday of column `k % 7`: position 0 and every seventh one after it is a Sunday. |
| CalendarMaker.GridAt | calendar_maker.py:114-121 | Cell `j` of week `w` is grid position `7w + j`. |
| CalendarMaker.WeekEnd | calendar_maker.py:130-132 | After week `w`, the running date has left the month exactly when `w` is the last week. |
| CalendarMaker.WeekLoopBound | calendar_maker.py:109-132 | The week loop, started at the grid start, stops after exactly `WeekCount` passes. |
| CalendarMaker.CursorInRange | calendar_maker.py:121 | Every date the week loop steps from is representable and not 9999-12-31, so the library's step lands on the next grid position. |
| CalendarMaker.WeekRow | calendar_maker.py:113-123 | The day row is one cell per day for the seven days from the cursor (a bar, the day right-justified to width 2, eight spaces), closed by a bar and a newline. The cursor ends seven days later. |
| CalendarMaker.EmitWeek | calendar_maker.py:110-128 | One pass appends a separator, the week's day row and three filler rows to the text, and advances the cursor seven days. |
| CalendarMaker.WeekStep | calendar_maker.py:109-128 | The block of the week that starts seven days after week `w - 1` starts is week `w`'s block, and it extends the text of the first `w` weeks to the first `w + 1`. |
| CalendarMaker.EmitWeeks | calendar_maker.py:109-132 | The week loop appends the blocks of the first `count` weeks of the grid, where `count` is the pass after which the running date leaves the month. |
| CalendarMaker.WeekTextLines | calendar_maker.py:110-128 | A week's text is its five lines joined: separator, day row, three fillers. |
| CalendarMaker.BodyTextLines | calendar_maker.py:109-132 | The text of the first `n` week blocks is the lines of those weeks, joined in week order. |
| CalendarMaker.RenderText | calendar_maker.py:85-135 | The calendar is the title line, the label lines, the blocks of all `WeekCount` weeks, and a closing separator. |
| CalendarMaker.GetCalendar | calendar_maker.py:78-137 | For every drawable month, the program's loops produce exactly `Render(year, month)`. |
| GridProperties.DayLabelShape | calendar_maker.py:118 | A day label is two characters: a space and the digit for days 1 to 9, the two digits for days 10 to 99. |
| GridProperties.CellShape | calendar_maker.py:119 | A cell is 11 characters: a bar, the day label, then spaces. |
| GridProperties.CellsAt | calendar_maker.py:114-121 | The cell of day `j` of a row takes characters `11j .. 11j + 11`. |
| GridProperties.CellsShape | calendar_maker.py:114-121 | The cells of a row are 11 characters each, one after another in day order. |
| GridProperties.DayRowShape | calendar_maker.py:113-123 | A day row is 79 characters: the seven cells at 11-character intervals, a leading bar, and a closing bar and newline. |
| GridProperties.RuleShapes | calendar_maker.py:97-99 | The separator is seven `+----------` cells and `"+\n"`, and the filler row is seven blank cells and a closing bar and newline. Both are 79 characters. The separator starts with a plus sign and the filler row with a bar. |
| GridProperties.BodyLinesShape | calendar_maker.py:109-132 | The week blocks have five lines per week, and lines `5w .. 5w+5` are week `w`'s block. |
| GridProperties.GridValid | calendar_maker.py:102-121 | Every date in the grid is representable. |
| GridProperties.LinesLayout | calendar_maker.py:109-135 | Below the labels come, for each week, a separator, its day row and three fillers, and then one closing separator. |
| GridProperties.GridLinesLayout | calendar_maker.py:109-135 | The grid of a month has `5 * WeekCount + 1` lines, with week `w`'s block at lines `5w .. 5w+5`. |
| GridProperties.LineWidthAt | calendar_maker.py:110-128 | Every line of a week block is 79 characters with the newline last. |
| GridProperties.LineWidths | calendar_maker.py:109-135 | Every line below the labels is 79 characters with the newline last. |
| GridProperties.GridLineWidths | calendar_maker.py:109-135 | The same, for the grid of any drawable month. |
| GridProperties.WeekSeparators | calendar_maker.py:110-128 | A week block holds exactly one separator line. |
| GridProperties.BodySeparators | calendar_maker.py:109-132 | The week blocks hold one separator per week. |
| GridProperties.HeadNotSeparators | calendar_maker.py:90-94 | Neither the title line nor the label lines is a separator. |
| GridProperties.SeparatorCount | calendar_maker.py:110-135 | Of the pieces the calendar text is joined from (the title, the label piece, one piece per grid line), exactly `WeekCount + 1` are the separator: one per week block and the closing one. The count is over these pieces, not over newline-delimited lines. |
| GridProperties.RenderLayout | calendar_maker.py:85-137 | The calendar text is the title, the labels and the grid lines, with grid line `i` filling characters `79i .. 79i + 79` of the grid part. |
| MonthProperties.GridPosition | calendar_maker.py:102-132 | A grid position holds a day of the month exactly when it is one of the `DaysInMonth` positions from `Lead` on, and then it holds day `k - Lead + 1`. |
| MonthProperties.MonthDaysPrefix | calendar_maker.py:105-132 | Among the first `k` grid positions, the days of the month shown are 1, 2, …, one for each position from `Lead` on. |
| MonthProperties.FlattenWeeks | calendar_maker.py:109-132 | The weeks read row by row are the consecutive grid positions. |
| MonthProperties.MonthCoverage | calendar_maker.py:109-132 | Read row by row, the grid shows days 1 to `DaysInMonth` of the month, each exactly once and in increasing order. |
| MonthProperties.GridCells | calendar_maker.py:105-132 | Cells before the month belong to the previous month and cells after it to the next. There are at most 6 of each, and the month's cells are days `k - Lead + 1`. |
| MonthProperties.ColumnWeekday | calendar_maker.py:94-121 | Column `j` of every week falls on the weekday `DAYS[j]`, so every row starts on a Sunday. |
| MonthProperties.LabelColumns | calendar_maker.py:94 | The label line is 78 characters plus its newline, and column `j` shows the first three letters of `DAYS[j]` in upper case at the middle of its cell. |
| MonthProperties.HeaderParts | calendar_maker.py:90-91 | The title line is 34 spaces, the styling, the title and the colour reset. |
| MonthProperties.HeaderShows | calendar_maker.py:90-91 | The title shows `MONTHS[month-1]` and `str(year)`, each between spaces, after 34 spaces of indentation. |
| MonthProperties.February2024Shape | calendar_maker.py:78-137 | February 2024 starts on a Thursday and has 29 days, so 4 lead cells and 5 weeks. |
| MonthProperties.February2024First | calendar_maker.py:102-106 | Its grid starts on Sunday 28 January 2024. |
| MonthProperties.February2024Last | calendar_maker.py:114-121 | 29 February 2024 is the Thursday cell of the last row. |
| MonthProperties.February2024Trailing | calendar_maker.py:114-132 | The last row of February 2024 ends on Saturday 2 March. |
| MonthProperties.January2025Shape | calendar_maker.py:78-137 | January 2025 starts on a Wednesday and has 31 days, so 3 lead cells and 5 weeks. |
| MonthProperties.January2025First | calendar_maker.py:102-121 | 1 January 2025 is the Wednesday cell of the first row. |
| MonthProperties.January2025Last | calendar_maker.py:114-132 | 31 January 2025 is the Friday cell of the last row. |
| Invocation.AcceptsUndrawable | calendar_maker.py:47-58 | The argument check as written accepts every year past 9999, January of year 1 and December 9999, none of which `get_calendar` can draw. |
| Invocation.ParseDrawable | calendar_maker.py:47-58 | Corrected check: two decimal arguments are accepted exactly when they name a drawable month, and then it reads what the check as written reads. |
| Invocation.ParseDrawableRoundTrip | calendar_maker.py:47-58 | Under the corrected check, every drawable month written in decimal is read back unchanged, and every other month is refused. |
| Invocation.Run | calendar_maker.py:39-66 | The program as written: it ends with its usage text exactly when the argument check refuses the arguments; it fails in the date library exactly when the accepted year is past 9999 or the month is January of year 1 or December 9999; otherwise it prints exactly `Render(year, month)`. |
| Invocation.CalendarFor | calendar_maker.py:39-66 | The program with the corrected argument check: the usage path (`None`) exactly when `ParseDrawable` refuses the arguments, otherwise exactly `Render(year, month)`; no accepted argument reaches a failure of the date library. |

## Findings

| source | as written | input that shows it | evidently intended | confidence | as-written member | corrected member |
|---|---|---|---|---|---|---|
| calendar_maker.py:47-57 | The year check accepts every positive year. The month check accepts 1..12 in every year. | `10000 1`: `datetime.date(10000, 1, 1)` at line 102 is out of range. `1 1`: 0001-01-01 is a Monday, so the step back at line 106 leaves the range. `9999 12`: 9999-12-31 is a Friday, so the step forward at line 121 that fills the Saturday cell leaves the range. | Refuse these arguments with the usage text, as other bad arguments are refused, instead of failing inside the date library. | medium, not executed | Invocation.AcceptsUndrawable, Invocation.Run | Invocation.ParseDrawable, Invocation.CalendarFor |

## Left out

- Printing, the banner line, the usage text read from `usage.txt`, writing `calendar_<year>_<month>.txt`, and `sys.exit` are I/O. `Invocation.Run` models only the computation between them: `Usage` stands for the usage path and `LibraryFailure` for an error raised by the date library.
- `colorama.init(autoreset=True)` and the terminal's treatment of the escape sequences are left out. The colour constants are kept as the ANSI sequences colorama writes (`ESC[1m`, `ESC[30m`, `ESC[33m`, `ESC[42m`, `ESC[49m`).
- `str.isdecimal` and `int` accept every Unicode decimal digit. The model accepts only the ASCII digits `'0'`..`'9'`.
- Arguments.ParseArgs: puts no bound on the length of a digit string. Since Python 3.11 (and the 3.10.7, 3.9.14 and 3.8.14 releases), `int()` raises ValueError on a decimal string of more than 4300 digits, leading zeros included, so an argument that long which passes `isdecimal()` makes the program fail instead of being read; the model reads it.
- Invocation.Run: for the same reason it has no outcome for the ValueError `int()` raises on an argument of more than 4300 digits. Such an argument is read as its value, so `Run` prints a calendar for a year written with many leading zeros and reports a longer year as `LibraryFailure`.
- CalendarMaker.GetCalendar: the exceptions the date library raises for undrawable months are not modelled as results. The method requires `Renderable`, and the finding above shows which accepted inputs fall outside it.
- CalendarMaker.EmitWeeks: the running date is stepped with `Successor`, the calendar day after a date with no upper bound on the year. That it never leaves the library's range is proved separately (`CalendarMaker.CursorInRange`) rather than by the method itself.
- The two `while True` loops of `main` run at most once, each ending in `break` or `sys.exit()`. They are modelled as the single check they amount to.
