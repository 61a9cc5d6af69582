/** The acceptance rule of the command line. The program takes a year and a
    month, each a string of decimal digits (leading zeros allowed); the year
    must denote a number greater than 0 and the month one in 1 .. 12.
    Anything else makes the program print its usage text and exit. */
module Arguments {
  import opened Text

  datatype Option<T> = None | Some(value: T)

  /** The year argument is accepted. */
  predicate YearAccepted(s: string) {
    IsDecimal(s) && DecimalValue(s) > 0
  }

  /** The month argument is accepted. */
  predicate MonthAccepted(s: string) {
    IsDecimal(s) && 1 <= DecimalValue(s) <= 12
  }

  /** The year and the month the program goes on with, given its argument
      vector (the program name, then the arguments), or None when it prints
      its usage text and exits instead. */
  function ParseArgs(argv: seq<string>): (r: Option<(nat, nat)>)
    ensures r.Some? <==> |argv| == 3 && YearAccepted(argv[1]) && MonthAccepted(argv[2])
    ensures r.Some? ==> r.value.0 >= 1 && 1 <= r.value.1 <= 12
    ensures r.Some? ==> NatToString(r.value.0) == Canonical(argv[1]) && NatToString(r.value.1) == Canonical(argv[2])
  {
    if |argv| != 3 then None
    else if !YearAccepted(argv[1]) then None
    else if !MonthAccepted(argv[2]) then None
    else
      CanonicalValue(argv[1]);
      CanonicalValue(argv[2]);
      Some((DecimalValue(argv[1]), DecimalValue(argv[2])))
  }

  /** A digit string without its leading zeros (a lone "0" for zero). */
  function Canonical(s: string): (c: string)
    requires AllDigits(s)
    ensures AllDigits(c) && (|s| > 0 ==> |c| > 0)
  {
    if |s| > 1 && s[0] == '0' then Canonical(s[1..]) else s
  }

  /** Dropping the leading zeros keeps the value and leaves the decimal
      representation of that value. */
  lemma {:induction false} CanonicalValue(s: string)
    requires IsDecimal(s)
    ensures DecimalValue(Canonical(s)) == DecimalValue(s)
    ensures Canonical(s) == NatToString(DecimalValue(s))
    decreases |s|
  {
    if |s| > 1 && s[0] == '0' {
      CanonicalValue(s[1..]);
      LeadingZero(s[1..]);
      assert s == "0" + s[1..];
    } else if |s| > 1 {
      RepresentationUnique(s);
    }
  }

  /** A leading zero does not change the value of a digit string. */
  lemma {:induction false} LeadingZero(s: string)
    requires AllDigits(s)
    ensures AllDigits("0" + s) && DecimalValue("0" + s) == DecimalValue(s)
    decreases |s|
  {
    if |s| > 0 {
      var t := "0" + s;
      assert t[..|t| - 1] == "0" + s[..|s| - 1];
      LeadingZero(s[..|s| - 1]);
    }
  }

  /** A digit string with no leading zero is the decimal representation of
      its value. */
  lemma {:induction false} RepresentationUnique(s: string)
    requires IsDecimal(s) && (s[0] != '0' || |s| == 1)
    ensures NatToString(DecimalValue(s)) == s
    decreases |s|
  {
    var n := DecimalValue(s);
    if |s| == 1 {
      assert s[..0] == [];
    } else {
      var init := s[..|s| - 1];
      assert init[0] == s[0];
      RepresentationUnique(init);
      PositiveValue(init);
      assert n / 10 == DecimalValue(init) && n % 10 == DigitValue(s[|s| - 1]);
      assert s == init + [s[|s| - 1]];
    }
  }

  /** A digit string that does not start with 0 denotes a positive number. */
  lemma {:induction false} PositiveValue(s: string)
    requires IsDecimal(s) && s[0] != '0'
    ensures DecimalValue(s) > 0
    decreases |s|
  {
    if |s| > 1 {
      var init := s[..|s| - 1];
      assert init[0] == s[0];
      PositiveValue(init);
    }
  }

  /** Every year and month in range, written in decimal, is accepted and read
      back unchanged. */
  lemma ParseArgsRoundTrip(program: string, year: nat, month: nat)
    requires year >= 1 && 1 <= month <= 12
    ensures ParseArgs([program, NatToString(year), NatToString(month)]) == Some((year, month))
  {
  }

  /** An argument with any character other than a decimal digit, or an empty
      one, is refused. */
  lemma NonDigitRefused(argv: seq<string>, i: nat)
    requires |argv| == 3 && (i == 1 || i == 2)
    requires |argv[i]| == 0 || exists k :: 0 <= k < |argv[i]| && !IsDigit(argv[i][k])
    ensures ParseArgs(argv) == None
  {
  }

  /** A year of all zeros is refused, as is a month above 12. */
  lemma OutOfRangeRefused(argv: seq<string>)
    requires |argv| == 3 && IsDecimal(argv[1]) && IsDecimal(argv[2])
    requires (forall k :: 0 <= k < |argv[1]| ==> argv[1][k] == '0') || DecimalValue(argv[2]) > 12
    ensures ParseArgs(argv) == None
  {
    if forall k :: 0 <= k < |argv[1]| ==> argv[1][k] == '0' {
      ZerosValue(argv[1]);
    }
  }

  /** A string of zeros denotes 0. */
  lemma {:induction false} ZerosValue(s: string)
    requires forall k :: 0 <= k < |s| ==> s[k] == '0'
    ensures AllDigits(s) && DecimalValue(s) == 0
    decreases |s|
  {
    if |s| > 0 {
      ZerosValue(s[..|s| - 1]);
    }
  }
}
