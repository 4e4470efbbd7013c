/**
 * The `Data As Of` column: a date written month/day/year, parsed the way
 * `pd.to_datetime(..., format='%m/%d/%Y')` does for ASCII digits, and reduced
 * to a calendar date.
 */
module Dates {
  import opened Common
  import opened Text

  datatype Date = Date(year: int, month: int, day: int)

  predicate IsLeapYear(y: int)
  {
    y % 4 == 0 && (y % 100 != 0 || y % 400 == 0)
  }

  function DaysInMonth(y: int, m: int): int
  {
    if m == 2 then (if IsLeapYear(y) then 29 else 28)
    else if m == 4 || m == 6 || m == 9 || m == 11 then 30
    else 31
  }

  /** A date of the proleptic Gregorian calendar with a four-digit year. */
  predicate ValidDate(d: Date)
  {
    1 <= d.year <= 9999 && 1 <= d.month <= 12 && 1 <= d.day <= DaysInMonth(d.year, d.month)
  }

  predicate IsDigit(ch: char)
  {
    '0' <= ch <= '9'
  }

  predicate AllDigits(s: string)
  {
    forall i :: 0 <= i < |s| ==> IsDigit(s[i])
  }

  /** The number a string of decimal digits denotes. */
  function DigitsValue(s: string): nat
    requires AllDigits(s)
    decreases |s|
  {
    if |s| == 0 then 0
    else DigitsValue(s[..|s| - 1]) * 10 + ((s[|s| - 1] as int) - ('0' as int))
  }

  function DigitChar(n: int): (c: char)
    requires 0 <= n <= 9
    ensures IsDigit(c)
  {
    (('0' as int) + n) as char
  }

  function Pow10(w: nat): nat
  {
    if w == 0 then 1 else 10 * Pow10(w - 1)
  }

  /** `n` written with exactly `w` digits, zero-padded on the left. */
  function Pad(n: nat, w: nat): (s: string)
    ensures |s| == w && AllDigits(s)
    decreases w
  {
    if w == 0 then "" else Pad(n / 10, w - 1) + [DigitChar(n % 10)]
  }

  lemma {:induction false} PadValue(n: nat, w: nat)
    requires n < Pow10(w)
    ensures DigitsValue(Pad(n, w)) == n
    decreases w
  {
    if w > 0 {
      var s := Pad(n, w);
      assert s[..w - 1] == Pad(n / 10, w - 1);
      assert n / 10 < Pow10(w - 1);
      PadValue(n / 10, w - 1);
    }
  }

  /**
   * Parses a date in the `%m/%d/%Y` format: a month of one or two digits, a
   * day of one or two digits and a year of four digits, separated by slashes,
   * naming a date that exists. Anything else is malformed (`None`).
   */
  function ParseDate(s: string): (r: Option<Date>)
    ensures r.Some? ==> ValidDate(r.value)
  {
    var parts := Split(s, '/');
    if |parts| != 3 then None
    else
      var mm, dd, yyyy := parts[0], parts[1], parts[2];
      if !(1 <= |mm| <= 2 && 1 <= |dd| <= 2 && |yyyy| == 4) then None
      else if !(AllDigits(mm) && AllDigits(dd) && AllDigits(yyyy)) then None
      else
        var d := Date(DigitsValue(yyyy), DigitsValue(mm), DigitsValue(dd));
        if ValidDate(d) then Some(d) else None
  }

  /** The date written as MM/DD/YYYY. */
  function FormatDate(d: Date): (s: string)
    requires ValidDate(d)
  {
    Join([Pad(d.month, 2), Pad(d.day, 2), Pad(d.year, 4)], "/")
  }

  /** Every valid date survives formatting and parsing. */
  lemma FormatThenParse(d: Date)
    requires ValidDate(d)
    ensures ParseDate(FormatDate(d)) == Some(d)
  {
    var parts := [Pad(d.month, 2), Pad(d.day, 2), Pad(d.year, 4)];
    forall i | 0 <= i < 3
      ensures '/' !in parts[i]
    {
      assert forall k :: 0 <= k < |parts[i]| ==> parts[i][k] != '/';
    }
    SplitJoin(parts, '/');
    PadValue(d.month, 2);
    PadValue(d.day, 2);
    PadValue(d.year, 4);
  }

  /** A string of three slash-free fields joined by slashes splits back into them. */
  lemma SplitDate(mm: string, dd: string, yyyy: string)
    requires '/' !in mm && '/' !in dd && '/' !in yyyy
    ensures Split(mm + "/" + dd + "/" + yyyy, '/') == [mm, dd, yyyy]
  {
    assert mm + "/" + dd + "/" + yyyy == mm + ['/'] + (dd + ['/'] + yyyy);
    SplitFirst(mm, '/', dd + ['/'] + yyyy);
    SplitFirst(dd, '/', yyyy);
    SplitNoSeparator(yyyy, '/');
  }

  lemma TwoDigits(s: string)
    requires |s| == 2 && AllDigits(s)
    ensures DigitsValue(s) == 10 * ((s[0] as int) - ('0' as int)) + ((s[1] as int) - ('0' as int))
  {
    var a := s[..1];
    assert a[..0] == [] && a[0] == s[0];
    assert DigitsValue(a) == (s[0] as int) - ('0' as int);
    assert s[..|s| - 1] == a;
  }

  /**
   * The Gregorian leap-year rule as the parser applies it: February 29th
   * exists in 2024 and 2000 but not in 2023 or 1900, and no month has a 32nd.
   */
  lemma LeapDayRule()
    ensures ValidDate(Date(2024, 2, 29)) && ValidDate(Date(2000, 2, 29))
    ensures !ValidDate(Date(2023, 2, 29)) && !ValidDate(Date(1900, 2, 29))
    ensures !ValidDate(Date(2023, 2, 30)) && !ValidDate(Date(2023, 4, 31))
    ensures forall y, m :: !ValidDate(Date(y, m, 32))
  {
  }

  /** A zero month is malformed. */
  lemma {:induction false} ZeroMonthExample()
    ensures ParseDate("00/10/2023").None?
  {
    SplitDate("00", "10", "2023");
    assert "00/10/2023" == "00" + "/" + "10" + "/" + "2023";
    TwoDigits("00");
  }

  /** A two-digit year is malformed. */
  lemma {:induction false} TwoDigitYearExample()
    ensures ParseDate("1/5/23").None?
  {
    SplitDate("1", "5", "23");
    assert "1/5/23" == "1" + "/" + "5" + "/" + "23";
  }

  /** An ISO-style date, with no '/' at all, is malformed. */
  lemma {:induction false} IsoDateExample()
    ensures ParseDate("2023-01-05").None?
  {
    SplitNoSeparator("2023-01-05", '/');
  }
}
