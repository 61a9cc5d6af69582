/** The string operations the calendar maker uses: repetition of a string,
    right justification in a field, decimal rendering of a number, reading a
    decimal-digit string back as a number, and concatenation of lines. Only
    the ASCII digits '0'..'9' count as decimal digits here. */
module Text {

  /** The string s repeated n times. */
  function Repeat(s: string, n: nat): string {
    if n == 0 then "" else Repeat(s, n - 1) + s
  }

  /** n copies of s: n times as long, made only of the characters of s. */
  lemma {:induction false} RepeatShape(s: string, n: nat)
    ensures |Repeat(s, n)| == n * |s|
    ensures forall i :: 0 <= i < |Repeat(s, n)| ==> Repeat(s, n)[i] in s
  {
    if n > 0 {
      RepeatShape(s, n - 1);
    }
  }

  /** s padded on the left with spaces to the given width; a string that is
      already at least that wide is returned unchanged. */
  function RightJustify(s: string, width: nat): string {
    if |s| < width then Repeat(" ", width - |s|) + s else s
  }

  /** The justified string ends with s, is exactly width long unless s is
      longer, and has only spaces before s. */
  lemma RightJustifyShape(s: string, width: nat)
    ensures var r := RightJustify(s, width);
      && |r| == (if |s| < width then width else |s|)
      && r[|r| - |s|..] == s
      && forall i :: 0 <= i < |r| - |s| ==> r[i] == ' '
  {
    RepeatSpaces(width - |s|);
  }

  lemma {:induction false} RepeatSpaces(n: int)
    ensures n >= 0 ==> |Repeat(" ", n)| == n && forall i :: 0 <= i < n ==> Repeat(" ", n)[i] == ' '
  {
    if n > 0 {
      RepeatSpaces(n - 1);
    }
  }

  predicate IsDigit(c: char) {
    '0' <= c <= '9'
  }

  predicate AllDigits(s: string) {
    forall i :: 0 <= i < |s| ==> IsDigit(s[i])
  }

  /** A non-empty string of decimal digits. */
  predicate IsDecimal(s: string) {
    |s| > 0 && AllDigits(s)
  }

  function DigitChar(n: nat): (c: char)
    requires n < 10
    ensures IsDigit(c)
  {
    ('0' as int + n) as char
  }

  function DigitValue(c: char): (n: nat)
    requires IsDigit(c)
    ensures n < 10 && DigitChar(n) == c
  {
    c as int - '0' as int
  }

  /** The number a string of decimal digits denotes (leading zeros allowed). */
  function DecimalValue(s: string): nat
    requires AllDigits(s)
  {
    if |s| == 0 then 0 else DecimalValue(s[..|s| - 1]) * 10 + DigitValue(s[|s| - 1])
  }

  /** The decimal representation of n, without leading zeros. */
  function NatToString(n: nat): (s: string)
    ensures IsDecimal(s) && DecimalValue(s) == n
    ensures s[0] != '0' || n == 0
    ensures |s| == 1 <==> n < 10
  {
    if n < 10 then [DigitChar(n)]
    else
      var s := NatToString(n / 10) + [DigitChar(n % 10)];
      assert s[..|s| - 1] == NatToString(n / 10);
      s
  }

  /** The concatenation of the given lines, in order. */
  function Join(lines: seq<string>): string {
    if |lines| == 0 then "" else Join(lines[..|lines| - 1]) + lines[|lines| - 1]
  }

  /** Appending one more line appends its text. */
  lemma JoinSnoc(lines: seq<string>, line: string)
    ensures Join(lines + [line]) == Join(lines) + line
  {
    assert (lines + [line])[..|lines|] == lines;
  }

  /** The second part of a concatenation. */
  lemma SliceRight<T>(a: seq<T>, b: seq<T>)
    ensures (a + b)[|a| ..] == b
  {
  }

  /** Eleven concatenated parts, grouped as four, and as the first and the
      rest. */
  lemma Regroup<T>(a: seq<T>, b: seq<T>, c: seq<T>, d: seq<T>, e: seq<T>, f: seq<T>,
                   g: seq<T>, h: seq<T>, i: seq<T>, j: seq<T>, k: seq<T>)
    ensures a + b + c + d + e + f + g + h + i + j + k == a + (b + c + d) + (e + f + g + h + i) + (j + k)
    ensures a + b + c + d + e + f + g + h + i + j + k == a + (b + c + d + e + f + g + h + i + j + k)
  {
  }

  /** A concatenation starts with the first element of its first part. */
  lemma HeadOf<T>(a: seq<T>, b: seq<T>)
    requires |a| > 0
    ensures |a + b| > 0 && (a + b)[0] == a[0]
  {
  }

  /** The second part of a concatenation, sliced out with explicit bounds. */
  lemma SliceTail<T>(a: seq<T>, b: seq<T>, i: int, j: int)
    requires i == |a| && j == |a| + |b|
    ensures (a + b)[i .. j] == b
  {
    assert (a + b)[i .. j] == (a + b)[|a| ..];
  }

  /** An element of a slice is the element of the sequence at that offset. */
  lemma SliceIndex<T>(s: seq<T>, i: int, j: int, k: int)
    requires 0 <= i <= j <= |s| && 0 <= k < j - i
    ensures s[i .. j][k] == s[i + k]
  {
  }

  /** Every line is `width` characters long and ends with a newline. */
  predicate LinesOfWidth(lines: seq<string>, width: nat) {
    forall i :: 0 <= i < |lines| ==> |lines[i]| == width && width > 0 && lines[i][width - 1] == '\n'
  }

  /** A slice within the first part of a concatenation. */
  lemma SliceLeft<T>(a: seq<T>, b: seq<T>, i: int, j: int)
    requires 0 <= i <= j <= |a|
    ensures (a + b)[i .. j] == a[i .. j]
  {
  }

  lemma {:induction false} JoinAppend(a: seq<string>, b: seq<string>)
    ensures Join(a + b) == Join(a) + Join(b)
    decreases |b|
  {
    if |b| == 0 {
      assert a + b == a;
    } else {
      var b0 := b[..|b| - 1];
      assert (a + b)[..|a + b| - 1] == a + b0;
      JoinAppend(a, b0);
      assert b[..|b| - 1] == b0;
    }
  }

  /** Copy j of s inside n copies of s. */
  lemma {:induction false} RepeatAt(s: string, n: nat, j: nat)
    requires j < n
    ensures |Repeat(s, n)| == n * |s|
    ensures Repeat(s, n)[j * |s| .. j * |s| + |s|] == s
  {
    RepeatShape(s, n - 1);
    var r := Repeat(s, n - 1);
    if j < n - 1 {
      RepeatAt(s, n - 1, j);
      assert (r + s)[j * |s| .. j * |s| + |s|] == r[j * |s| .. j * |s| + |s|];
    } else {
      assert (r + s)[|r| ..] == s;
    }
  }

  /** Two lines and then more lines. */
  lemma JoinTwoThen(a: string, b: string, lines: seq<string>)
    ensures Join([a, b] + lines) == a + b + Join(lines)
  {
    JoinAppend([a, b], lines);
    JoinSnoc([], a);
    JoinSnoc([a], b);
    assert [a] + [b] == [a, b];
  }

  /** The text is the lines of the given width one after the other: line i
      occupies the characters width * i up to width * (i + 1). */
  predicate SideBySide(text: string, lines: seq<string>, width: nat) {
    && |text| == width * |lines|
    && forall i :: 0 <= i < |lines| ==>
         0 <= width * i && width * i + width <= |text| && text[width * i .. width * i + width] == lines[i]
  }

  /** Lines of one common width lie side by side in their concatenation. */
  lemma JoinUniform(lines: seq<string>, width: nat)
    requires forall k :: 0 <= k < |lines| ==> |lines[k]| == width
    ensures SideBySide(Join(lines), lines, width)
  {
    JoinLength(lines, width);
    forall i | 0 <= i < |lines|
      ensures 0 <= width * i && width * i + width <= |Join(lines)|
      ensures Join(lines)[width * i .. width * i + width] == lines[i]
    {
      JoinAt(lines, width, i);
    }
  }

  lemma {:induction false} JoinLength(lines: seq<string>, width: nat)
    requires forall k :: 0 <= k < |lines| ==> |lines[k]| == width
    ensures |Join(lines)| == width * |lines|
  {
    if |lines| > 0 {
      JoinLength(lines[..|lines| - 1], width);
      assert width * |lines| == width * (|lines| - 1) + width;
    }
  }

  lemma {:induction false} JoinAt(lines: seq<string>, width: nat, i: nat)
    requires forall k :: 0 <= k < |lines| ==> |lines[k]| == width
    requires i < |lines|
    ensures 0 <= width * i && width * i + width <= |Join(lines)|
    ensures Join(lines)[width * i .. width * i + width] == lines[i]
  {
    var init := lines[..|lines| - 1];
    JoinLength(init, width);
    var a, b := Join(init), lines[|lines| - 1];
    assert Join(lines) == a + b;
    MulMonotone(width, 0, i);
    if i < |lines| - 1 {
      JoinAt(init, width, i);
      assert (a + b)[width * i .. width * i + width] == a[width * i .. width * i + width];
    } else {
      assert |a| == width * i;
      assert (a + b)[|a| ..] == b;
    }
  }

  lemma MulMonotone(w: nat, a: nat, b: nat)
    requires a <= b
    ensures w * a <= w * b
  {
  }

  /** How many of the lines are exactly x. */
  function Occurrences<T(==)>(lines: seq<T>, x: T): nat {
    if |lines| == 0 then 0
    else Occurrences(lines[..|lines| - 1], x) + (if lines[|lines| - 1] == x then 1 else 0)
  }

  /** One more line adds one occurrence exactly when it is x. */
  lemma OccurrencesSnoc<T>(s: seq<T>, y: T, x: T)
    ensures Occurrences(s + [y], x) == Occurrences(s, x) + (if y == x then 1 else 0)
  {
    assert (s + [y])[..|s|] == s;
  }

  lemma {:induction false} OccurrencesAppend<T>(a: seq<T>, b: seq<T>, x: T)
    ensures Occurrences(a + b, x) == Occurrences(a, x) + Occurrences(b, x)
    decreases |b|
  {
    if |b| == 0 {
      assert a + b == a;
    } else {
      var b0 := b[..|b| - 1];
      assert (a + b)[..|a + b| - 1] == a + b0;
      OccurrencesAppend(a, b0, x);
    }
  }
}
