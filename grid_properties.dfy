/** What the rendered month grid looks like: the shape of every line, the
    order of the lines, the number of separators, which date each cell shows
    and on which weekday, and what the title line shows. */
module GridProperties {
  import opened Gregorian
  import opened Text
  import opened CalendarMaker

  /** A day label is two characters: a space and the digit for days 1 to 9,
      the two digits for days 10 to 99. */
  lemma DayLabelShape(day: nat)
    requires day < 100
    ensures |DayLabel(day)| == 2
    ensures day < 10 ==> DayLabel(day) == [' ', DigitChar(day)]
    ensures day >= 10 ==> DayLabel(day) == [DigitChar(day / 10), DigitChar(day % 10)]
  {
    if day >= 10 {
      assert NatToString(day / 10) == [DigitChar(day / 10)];
    } else {
      assert Repeat(" ", 1) == " ";
    }
  }

  /** A cell is eleven characters: the border, the day label and spaces. */
  lemma CellShape(d: Date)
    requires d.day < 100
    ensures |Cell(d)| == CELL_WIDTH
    ensures Cell(d)[0] == '|' && Cell(d)[1..3] == DayLabel(d.day)
    ensures forall i :: 3 <= i < CELL_WIDTH ==> Cell(d)[i] == ' '
  {
    DayLabelShape(d.day);
    RepeatSpaces(8);
  }

  /** A cell of a day of at most two digits is CELL_WIDTH characters. */
  lemma CellLength(d: Date)
    requires d.day < 100
    ensures |Cell(d)| == CELL_WIDTH
  {
    CellShape(d);
  }

  /** The cells of n days take CELL_WIDTH * n characters. */
  lemma {:induction false} CellsLength(ds: seq<Date>)
    requires forall i :: 0 <= i < |ds| ==> ds[i].day < 100
    ensures |Cells(ds)| == CELL_WIDTH * |ds|
  {
    if |ds| > 0 {
      CellsLength(ds[..|ds| - 1]);
      CellLength(ds[|ds| - 1]);
    }
  }

  /** The cell of day j starts CELL_WIDTH * j characters in. */
  lemma {:induction false} CellsAt(ds: seq<Date>, j: int)
    requires forall i :: 0 <= i < |ds| ==> ds[i].day < 100
    requires 0 <= j < |ds|
    ensures |Cells(ds)| == CELL_WIDTH * |ds|
    ensures Cells(ds)[CELL_WIDTH * j .. CELL_WIDTH * j + CELL_WIDTH] == Cell(ds[j])
    decreases |ds|, 1
  {
    CellsLength(ds);
    if j < |ds| - 1 {
      CellsAtInit(ds, j);
    } else {
      CellsAtLast(ds);
    }
  }

  /** A cell before the last one lies within the cells of the days before
      the last. */
  lemma {:induction false} CellsAtInit(ds: seq<Date>, j: int)
    requires forall i :: 0 <= i < |ds| ==> ds[i].day < 100
    requires 0 <= j < |ds| - 1
    ensures |Cells(ds)| == CELL_WIDTH * |ds|
    ensures Cells(ds)[CELL_WIDTH * j .. CELL_WIDTH * j + CELL_WIDTH] == Cell(ds[j])
    decreases |ds|, 0
  {
    CellsLength(ds);
    var init := ds[..|ds| - 1];
    CellsAt(init, j);
    assert init[j] == ds[j];
    SliceLeft(Cells(init), Cell(ds[|ds| - 1]), CELL_WIDTH * j, CELL_WIDTH * j + CELL_WIDTH);
  }

  /** The last cell comes after the cells of the days before it. */
  lemma CellsAtLast(ds: seq<Date>)
    requires forall i :: 0 <= i < |ds| ==> ds[i].day < 100
    requires |ds| > 0
    ensures |Cells(ds)| == CELL_WIDTH * |ds|
    ensures Cells(ds)[CELL_WIDTH * (|ds| - 1) .. CELL_WIDTH * |ds|] == Cell(ds[|ds| - 1])
  {
    var init, last := ds[..|ds| - 1], ds[|ds| - 1];
    CellsLength(init);
    CellLength(last);
    assert Cells(ds) == Cells(init) + Cell(last);
    SliceTail(Cells(init), Cell(last), CELL_WIDTH * (|ds| - 1), CELL_WIDTH * |ds|);
  }

  /** The cells of a sequence of days, one after the other, CELL_WIDTH apart. */
  lemma CellsShape(ds: seq<Date>)
    requires forall i :: 0 <= i < |ds| ==> ds[i].day < 100
    ensures |Cells(ds)| == CELL_WIDTH * |ds|
    ensures forall j :: 0 <= j < |ds| ==> Cells(ds)[CELL_WIDTH * j .. CELL_WIDTH * j + CELL_WIDTH] == Cell(ds[j])
  {
    CellsLength(ds);
    forall j | 0 <= j < |ds|
      ensures Cells(ds)[CELL_WIDTH * j .. CELL_WIDTH * j + CELL_WIDTH] == Cell(ds[j])
    {
      CellsAt(ds, j);
    }
  }

  /** A day row is WIDTH characters: seven cells, the closing border and the
      newline. */
  lemma DayRowShape(week: seq<Date>)
    requires |week| == 7 && forall i :: 0 <= i < 7 ==> week[i].day < 100
    ensures |DayRow(week)| == WIDTH
    ensures forall j :: 0 <= j < 7 ==> DayRow(week)[CELL_WIDTH * j .. CELL_WIDTH * j + CELL_WIDTH] == Cell(week[j])
    ensures DayRow(week)[0] == '|' && DayRow(week)[WIDTH - 2 ..] == "|\n"
  {
    CellsShape(week);
    var c := Cells(week);
    forall j | 0 <= j < 7
      ensures DayRow(week)[CELL_WIDTH * j .. CELL_WIDTH * j + CELL_WIDTH] == Cell(week[j])
    {
      assert (c + "|\n")[CELL_WIDTH * j .. CELL_WIDTH * j + CELL_WIDTH] == c[CELL_WIDTH * j .. CELL_WIDTH * j + CELL_WIDTH];
    }
    CellShape(week[0]);
    assert c[0..CELL_WIDTH] == Cell(week[0]);
    assert (c + "|\n")[|c| ..] == "|\n";
  }

  /** The separator is seven "+----------" cells and "+\n"; the filler row is
      seven "|          " cells and "|\n". Both are WIDTH characters; the
      separator starts with '+' and the filler row with '|'. */
  lemma RuleShapes()
    ensures |LINE| == WIDTH && |BLANK| == WIDTH
    ensures forall j :: 0 <= j < 7 ==> LINE[CELL_WIDTH * j .. CELL_WIDTH * j + CELL_WIDTH] == "+----------"
    ensures forall j :: 0 <= j < 7 ==> BLANK[CELL_WIDTH * j .. CELL_WIDTH * j + CELL_WIDTH] == "|          "
    ensures LINE[WIDTH - 2 ..] == "+\n" && BLANK[WIDTH - 2 ..] == "|\n"
    ensures LINE[0] == '+' && BLANK[0] == '|'
  {
    var r, b := Repeat("+----------", 7), Repeat("|          ", 7);
    forall j | 0 <= j < 7
      ensures LINE[CELL_WIDTH * j .. CELL_WIDTH * j + CELL_WIDTH] == "+----------"
      ensures BLANK[CELL_WIDTH * j .. CELL_WIDTH * j + CELL_WIDTH] == "|          "
    {
      RepeatAt("+----------", 7, j);
      RepeatAt("|          ", 7, j);
      assert (r + "+\n")[CELL_WIDTH * j .. CELL_WIDTH * j + CELL_WIDTH] == r[CELL_WIDTH * j .. CELL_WIDTH * j + CELL_WIDTH];
      assert (b + "|\n")[CELL_WIDTH * j .. CELL_WIDTH * j + CELL_WIDTH] == b[CELL_WIDTH * j .. CELL_WIDTH * j + CELL_WIDTH];
    }
    RepeatAt("+----------", 7, 0);
    RepeatAt("|          ", 7, 0);
    assert (r + "+\n")[|r| ..] == "+\n";
    assert (b + "|\n")[|b| ..] == "|\n";
  }

  /** The lines of the week blocks: five per week, in week order. */
  lemma {:induction false} BodyLinesShape(weeks: seq<seq<Date>>)
    ensures |BodyLines(weeks)| == 5 * |weeks|
    ensures forall w :: 0 <= w < |weeks| ==> BodyLines(weeks)[5 * w .. 5 * w + 5] == WeekLines(weeks[w])
  {
    if |weeks| > 0 {
      var init := weeks[..|weeks| - 1];
      BodyLinesShape(init);
      var a, b := BodyLines(init), WeekLines(weeks[|weeks| - 1]);
      assert BodyLines(weeks) == a + b;
      forall w | 0 <= w < |weeks|
        ensures BodyLines(weeks)[5 * w .. 5 * w + 5] == WeekLines(weeks[w])
      {
        if w < |weeks| - 1 {
          assert init[w] == weeks[w];
          SliceLeft(a, b, 5 * w, 5 * w + 5);
        } else {
          SliceRight(a, b);
        }
      }
    }
  }

  /** Every date in the grid is one the library can represent. */
  lemma GridValid(year: int, month: int)
    requires Renderable(year, month)
    ensures forall w, j :: 0 <= w < WeekCount(year, month) && 0 <= j < 7 ==> IsValid(Grid(year, month)[w][j])
  {
    forall w, j | 0 <= w < WeekCount(year, month) && 0 <= j < 7
      ensures IsValid(Grid(year, month)[w][j])
    {
      GridAt(year, month, w, j);
      GridMonth(year, month, 7 * w + j);
    }
  }

  /** The five lines of week w within the week blocks. */
  lemma BodyLinesSlice(weeks: seq<seq<Date>>, w: int)
    requires 0 <= w < |weeks|
    ensures |BodyLines(weeks)| == 5 * |weeks|
    ensures BodyLines(weeks)[5 * w .. 5 * w + 5] == WeekLines(weeks[w])
  {
    BodyLinesShape(weeks);
  }

  /** Line k of week w within the week blocks. */
  lemma BodyLineAt(weeks: seq<seq<Date>>, w: int, k: int)
    requires 0 <= w < |weeks| && 0 <= k < 5
    ensures |BodyLines(weeks)| == 5 * |weeks|
    ensures BodyLines(weeks)[5 * w + k] == WeekLines(weeks[w])[k]
  {
    BodyLinesSlice(weeks, w);
    SliceIndex(BodyLines(weeks), 5 * w, 5 * w + 5, k);
  }

  /** The five lines of week w, and the closing separator, within the
      lines below the labels. */
  lemma BlockAt(weeks: seq<seq<Date>>, w: int)
    requires 0 <= w < |weeks|
    ensures |BodyLines(weeks) + [LINE]| == 5 * |weeks| + 1
    ensures (BodyLines(weeks) + [LINE])[5 * w .. 5 * w + 5] == WeekLines(weeks[w])
  {
    BodyLinesSlice(weeks, w);
    SliceLeft(BodyLines(weeks), [LINE], 5 * w, 5 * w + 5);
  }

  /** The lines closing a sequence of weeks: for each week a separator, the
      day row of that week and three filler rows, then one closing separator. */
  lemma LinesLayout(weeks: seq<seq<Date>>)
    ensures var lines := BodyLines(weeks) + [LINE];
      && |lines| == 5 * |weeks| + 1
      && (forall w :: 0 <= w < |weeks| ==> lines[5 * w .. 5 * w + 5] == WeekLines(weeks[w]))
      && lines[5 * |weeks|] == LINE
  {
    assert |BodyLines(weeks)| == 5 * |weeks| by { BodyLinesShape(weeks); }
    forall w | 0 <= w < |weeks|
      ensures (BodyLines(weeks) + [LINE])[5 * w .. 5 * w + 5] == WeekLines(weeks[w])
    {
      BlockAt(weeks, w);
    }
  }

  /** The separator and the filler row are WIDTH characters, newline last. */
  lemma RuleWidths()
    ensures |LINE| == WIDTH && LINE[WIDTH - 1] == '\n'
    ensures |BLANK| == WIDTH && BLANK[WIDTH - 1] == '\n'
  {
    RuleShapes();
    assert LINE[WIDTH - 1] == LINE[WIDTH - 2 ..][1];
    assert BLANK[WIDTH - 1] == BLANK[WIDTH - 2 ..][1];
  }

  /** A day row of two-digit days is WIDTH characters, newline last. */
  lemma DayRowWidth(week: seq<Date>)
    requires |week| == 7 && forall i :: 0 <= i < 7 ==> week[i].day < 100
    ensures |DayRow(week)| == WIDTH && DayRow(week)[WIDTH - 1] == '\n'
  {
    DayRowShape(week);
    assert DayRow(week)[WIDTH - 1] == DayRow(week)[WIDTH - 2 ..][1];
  }

  /** Days of at most two digits in weeks of seven give lines of WIDTH
      characters with the newline last: line k of week w. */
  lemma LineWidthAt(weeks: seq<seq<Date>>, w: int, k: int)
    requires forall v :: 0 <= v < |weeks| ==> |weeks[v]| == 7
    requires forall v, j :: 0 <= v < |weeks| && 0 <= j < |weeks[v]| ==> weeks[v][j].day < 100
    requires 0 <= w < |weeks| && 0 <= k < 5
    ensures |BodyLines(weeks)| == 5 * |weeks|
    ensures |BodyLines(weeks)[5 * w + k]| == WIDTH && BodyLines(weeks)[5 * w + k][WIDTH - 1] == '\n'
  {
    BodyLineAt(weeks, w, k);
    RuleWidths();
    DayRowWidth(weeks[w]);
    FiveLines(LINE, DayRow(weeks[w]), BLANK, k);
  }

  /** A separator, a day row and three fillers, each WIDTH characters with
      the newline last: so is every one of the five. */
  lemma FiveLines(a: string, b: string, c: string, k: int)
    requires |a| == WIDTH && a[WIDTH - 1] == '\n'
    requires |b| == WIDTH && b[WIDTH - 1] == '\n'
    requires |c| == WIDTH && c[WIDTH - 1] == '\n'
    requires 0 <= k < 5
    ensures |[a, b, c, c, c][k]| == WIDTH && [a, b, c, c, c][k][WIDTH - 1] == '\n'
  {
  }

  /** When every week has seven days of at most two digits, every line is
      WIDTH characters with the newline last. */
  lemma LineWidths(weeks: seq<seq<Date>>)
    requires forall w :: 0 <= w < |weeks| ==> |weeks[w]| == 7
    requires forall w, j :: 0 <= w < |weeks| && 0 <= j < |weeks[w]| ==> weeks[w][j].day < 100
    ensures LinesOfWidth(BodyLines(weeks) + [LINE], WIDTH)
  {
    var body := BodyLines(weeks);
    assert |body| == 5 * |weeks| by { BodyLinesShape(weeks); }
    forall i | 0 <= i < |body|
      ensures |body[i]| == WIDTH && body[i][WIDTH - 1] == '\n'
    {
      var w, k := i / 5, i % 5;
      assert i == 5 * w + k && w < |weeks|;
      LineWidthAt(weeks, w, k);
    }
    RuleWidths();
    LinesSnoc(body, LINE, WIDTH);
  }

  /** Lines of a width, followed by one more of that width. */
  lemma LinesSnoc(lines: seq<string>, last: string, width: nat)
    requires LinesOfWidth(lines, width)
    requires |last| == width && width > 0 && last[width - 1] == '\n'
    ensures LinesOfWidth(lines + [last], width)
  {
    forall i | 0 <= i < |lines| + 1
      ensures |(lines + [last])[i]| == width && (lines + [last])[i][width - 1] == '\n'
    {
      if i == |lines| {
        assert (lines + [last])[i] == last;
      } else {
        assert (lines + [last])[i] == lines[i];
      }
    }
  }

  /** Below the labels the grid of a month is, for each of its weeks, a
      separator, the day row of that week and three filler rows, and then one
      closing separator. */
  lemma GridLinesLayout(year: int, month: int)
    requires Renderable(year, month)
    ensures var lines, grid := GridLines(year, month), Grid(year, month);
      && |lines| == 5 * WeekCount(year, month) + 1
      && (forall w :: 0 <= w < |grid| ==>
            lines[5 * w .. 5 * w + 5] == WeekLines(grid[w]))
      && lines[|lines| - 1] == LINE
  {
    LinesLayout(Grid(year, month));
  }

  /** Every line of the grid of a month is WIDTH characters, newline last. */
  lemma GridLineWidths(year: int, month: int)
    requires Renderable(year, month)
    ensures LinesOfWidth(GridLines(year, month), WIDTH)
  {
    var grid: seq<seq<Date>> := Grid(year, month);
    GridValid(year, month);
    forall w, j | 0 <= w < |grid| && 0 <= j < |grid[w]|
      ensures grid[w][j].day < 100
    {
      assert IsValid(grid[w][j]);
    }
    LineWidths(grid);
  }

  /** Strings that differ in their first character differ. */
  lemma FirstCharDiffers(s: string, t: string)
    requires |s| > 0 && |t| > 0 && s[0] != t[0]
    ensures s != t
  {
  }

  /** The separator starts with '+', the filler row with '|'. */
  lemma RuleStarts()
    ensures |LINE| > 0 && LINE[0] == '+' && |BLANK| > 0 && BLANK[0] == '|'
  {
    RuleShapes();
  }

  /** Of the five lines a, b, c, c, c only the first is x. */
  lemma OccurrencesBlock<T>(a: T, b: T, c: T, x: T)
    requires a == x && b != x && c != x
    ensures Occurrences([a, b, c, c, c], x) == 1
  {
    assert Occurrences([a], x) == 1 by {
      assert [a][..0] == [];
    }
    OccurrencesSnoc([a], b, x);
    OccurrencesSnoc([a, b], c, x);
    OccurrencesSnoc([a, b, c], c, x);
    OccurrencesSnoc([a, b, c, c], c, x);
    assert [a] + [b] == [a, b] && [a, b] + [c] == [a, b, c];
    assert [a, b, c] + [c] == [a, b, c, c] && [a, b, c, c] + [c] == [a, b, c, c, c];
  }

  /** A week block holds exactly one separator: the day row starts with a
      border and the filler rows with '|'. */
  lemma WeekSeparators(week: seq<Date>)
    requires |week| == 7 && forall i :: 0 <= i < 7 ==> week[i].day < 100
    ensures Occurrences(WeekLines(week), LINE) == 1
  {
    RuleStarts();
    assert DayRow(week)[0] == '|' && |DayRow(week)| > 0 by {
      DayRowShape(week);
    }
    FirstCharDiffers(DayRow(week), LINE);
    FirstCharDiffers(BLANK, LINE);
    OccurrencesBlock(LINE, DayRow(week), BLANK, LINE);
  }

  /** The week blocks hold one separator per week. */
  lemma {:induction false} BodySeparators(weeks: seq<seq<Date>>)
    requires forall w :: 0 <= w < |weeks| ==> |weeks[w]| == 7
    requires forall w, j :: 0 <= w < |weeks| && 0 <= j < |weeks[w]| ==> weeks[w][j].day < 100
    ensures Occurrences(BodyLines(weeks), LINE) == |weeks|
  {
    if |weeks| > 0 {
      var init, last := weeks[..|weeks| - 1], weeks[|weeks| - 1];
      BodySeparators(init);
      WeekSeparators(last);
      OccurrencesAppend(BodyLines(init), WeekLines(last), LINE);
    }
  }

  /** The title line starts with a space and the label line with the escape
      character, so neither is a separator. */
  lemma HeadNotSeparators(year: int, month: int)
    requires year >= 0 && 1 <= month <= 12
    ensures Occurrences([Header(year, month), LABELS], LINE) == 0
  {
    RuleStarts();
    HeaderStart(year, month);
    FirstCharDiffers(Header(year, month), LINE);
    FirstCharDiffers(LABELS, LINE);
    OccurrencesPairNone(Header(year, month), LABELS, LINE);
  }

  /** The title line starts with its indentation. */
  lemma HeaderStart(year: int, month: int)
    requires year >= 0 && 1 <= month <= 12
    ensures |Header(year, month)| > 0 && Header(year, month)[0] == ' '
  {
    var pad := Repeat(" ", 34);
    RepeatSpaces(34);
    Regroup(pad, STYLE_BRIGHT, BACK_GREEN, FORE_BLACK,
      " ", MONTHS[month - 1], " ", NatToString(year), " ", BACK_RESET, "\n");
    HeadOf(pad, STYLE_BRIGHT + BACK_GREEN + FORE_BLACK + " " + MONTHS[month - 1] + " " +
      NatToString(year) + " " + BACK_RESET + "\n");
  }

  /** Two lines, neither of them x, hold no occurrence of x. */
  lemma OccurrencesPairNone<T>(a: T, b: T, x: T)
    requires a != x && b != x
    ensures Occurrences([a, b], x) == 0
  {
    assert Occurrences([a], x) == 0 by {
      assert [a][..0] == [];
    }
    OccurrencesSnoc([a], b, x);
    assert [a] + [b] == [a, b];
  }

  /** Among the pieces the calendar text is joined from (the title, the
      label piece, and one piece per grid line), one per week block plus the
      closing one is a separator. The count is over pieces, not over the
      newline-delimited lines of the text. */
  lemma SeparatorCount(year: int, month: int)
    requires Renderable(year, month)
    ensures Occurrences(Pieces(year, month), LINE) == WeekCount(year, month) + 1
  {
    var grid: seq<seq<Date>> := Grid(year, month);
    GridValid(year, month);
    forall w, j | 0 <= w < |grid| && 0 <= j < |grid[w]|
      ensures grid[w][j].day < 100
    {
      assert IsValid(grid[w][j]);
    }
    BodySeparators(grid);
    HeadNotSeparators(year, month);
    OccurrencesAppend(BodyLines(grid), [LINE], LINE);
    assert Occurrences([LINE], LINE) == 1 by {
      assert [LINE][..0] == [];
    }
    assert Occurrences(GridLines(year, month), LINE) == |grid| + 1;
    OccurrencesAppend([Header(year, month), LABELS], GridLines(year, month), LINE);
    assert Pieces(year, month) == [Header(year, month), LABELS] + GridLines(year, month);
    assert |grid| == WeekCount(year, month);
    assert Occurrences(Pieces(year, month), LINE) == |grid| + 1;
  }

  /** The calendar text is the title line, the label lines and the grid
      lines; grid line i takes the WIDTH characters from WIDTH * i on. */
  lemma RenderLayout(year: int, month: int)
    requires Renderable(year, month)
    ensures var lines := GridLines(year, month);
      && Render(year, month) == Header(year, month) + LABELS + Join(lines)
      && |lines| == 5 * WeekCount(year, month) + 1
      && SideBySide(Join(lines), lines, WIDTH)
  {
    var lines := GridLines(year, month);
    assert Render(year, month) == Header(year, month) + LABELS + Join(lines) by {
      JoinTwoThen(Header(year, month), LABELS, lines);
    }
    assert |lines| == 5 * WeekCount(year, month) + 1 by {
      GridLinesLayout(year, month);
    }
    assert SideBySide(Join(lines), lines, WIDTH) by {
      GridLineWidths(year, month);
      JoinUniform(lines, WIDTH);
    }
  }
}
