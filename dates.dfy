/**
 * The date conversion at ima/app.py:196:
 *
 *   datetime.strptime(data, '%d/%m/%Y').strftime('%Y-%m-%d')
 *
 * `strptime` matches the format's directives as regular expressions (`%d` is
 * `3[01]|[12]\d|0[1-9]|[1-9]| [1-9]`, `%m` is `1[0-2]|0[1-9]|[1-9]`, `%Y` is
 * four digits), refuses unconverted trailing text, then builds a date, which
 * fails for year 0 and for a day beyond the end of its month. Every
 * `ValueError` becomes `None`. The output is the ISO 8601 extended calendar
 * date `YYYY-MM-DD` (section 4.1.2.2 of ISO 8601:2004).
 */
module Dates {

  import opened Wrappers
  import opened Text

  datatype Date = Date(year: int, month: int, day: int)

  /** Gregorian leap years. */
  predicate IsLeapYear(y: int)
  {
    y % 4 == 0 && (y % 100 != 0 || y % 400 == 0)
  }

  function DaysInMonth(y: int, m: int): (n: int)
    requires 1 <= m <= 12
    ensures 28 <= n <= 31
  {
    if m == 2 then (if IsLeapYear(y) then 29 else 28)
    else if m == 4 || m == 6 || m == 9 || m == 11 then 30
    else 31
  }

  /** A date Python's `datetime.date` accepts (MINYEAR 1, MAXYEAR 9999). */
  predicate ValidDate(d: Date)
  {
    1 <= d.year <= 9999 && 1 <= d.month <= 12 && 1 <= d.day <= DaysInMonth(d.year, d.month)
  }

  predicate IsDigit(c: char)
  {
    '0' <= c <= '9'
  }

  predicate AllDigits(s: string)
  {
    forall i :: 0 <= i < |s| ==> IsDigit(s[i])
  }

  function DigitValue(c: char): nat
    requires IsDigit(c)
  {
    c as int - '0' as int
  }

  function Pow10(k: nat): nat
  {
    if k == 0 then 1 else 10 * Pow10(k - 1)
  }

  /** The decimal value of a digit string, most significant digit first. */
  function DigitsValue(s: string): (v: nat)
    requires AllDigits(s)
    ensures v < Pow10(|s|)
  {
    if |s| == 0 then 0 else 10 * DigitsValue(s[..|s| - 1]) + DigitValue(s[|s| - 1])
  }

  function DigitChar(n: nat): (c: char)
    requires n < 10
    ensures IsDigit(c) && DigitValue(c) == n
  {
    ('0' as int + n) as char
  }

  /** The `width` low decimal digits of `n`, zero-padded on the left. */
  function Pad(n: nat, width: nat): (s: string)
    ensures |s| == width && AllDigits(s)
  {
    if width == 0 then "" else Pad(n / 10, width - 1) + [DigitChar(n % 10)]
  }

  /** The `%d` directive: one or two digits, or a space and one digit; 1 to 31. */
  function DayField(t: string): (r: Option<int>)
    ensures r.Some? ==> 1 <= r.value <= 31
  {
    if |t| == 1 && '1' <= t[0] <= '9' then Some(DigitValue(t[0]))
    else if |t| == 2 && t[0] == ' ' && '1' <= t[1] <= '9' then Some(DigitValue(t[1]))
    else if |t| == 2 && AllDigits(t) && 1 <= DigitsValue(t) <= 31 then Some(DigitsValue(t))
    else None
  }

  /** The `%m` directive: one or two digits; 1 to 12. */
  function MonthField(t: string): (r: Option<int>)
    ensures r.Some? ==> 1 <= r.value <= 12
  {
    if |t| == 1 && '1' <= t[0] <= '9' then Some(DigitValue(t[0]))
    else if |t| == 2 && AllDigits(t) && 1 <= DigitsValue(t) <= 12 then Some(DigitsValue(t))
    else None
  }

  /** The `%Y` directive: exactly four digits. */
  function YearField(t: string): (r: Option<int>)
    ensures r.Some? ==> 0 <= r.value <= 9999
  {
    if |t| == 4 && AllDigits(t) then assert Pow10(4) == 10000; Some(DigitsValue(t)) else None
  }

  /** `datetime.strptime(s, '%d/%m/%Y')`; `None` where it raises `ValueError`. */
  function ParseDayMonthYear(s: string): (r: Option<Date>)
    ensures r.Some? ==> ValidDate(r.value)
  {
    var parts := Split(s, "/");
    if |parts| != 3 then None
    else
      match (DayField(parts[0]), MonthField(parts[1]), YearField(parts[2]))
      case (Some(d), Some(m), Some(y)) =>
        if ValidDate(Date(y, m, d)) then Some(Date(y, m, d)) else None
      case _ => None
  }

  /** `strftime('%Y-%m-%d')` for a valid date. */
  function FormatIso(d: Date): string
    requires ValidDate(d)
  {
    Pad(d.year, 4) + "-" + Pad(d.month, 2) + "-" + Pad(d.day, 2)
  }

  /** The conversion at ima/app.py:196. */
  function Reformat(s: string): Option<string>
  {
    match ParseDayMonthYear(s)
    case None => None
    case Some(d) => Some(FormatIso(d))
  }

  /** Reading an ISO 8601 extended calendar date back: the partner of FormatIso. */
  function ParseIso(s: string): Option<Date>
  {
    if |s| == 10 && s[4] == '-' && s[7] == '-' &&
       AllDigits(s[..4]) && AllDigits(s[5..7]) && AllDigits(s[8..])
    then
      var d := Date(DigitsValue(s[..4]), DigitsValue(s[5..7]), DigitsValue(s[8..]));
      if ValidDate(d) then Some(d) else None
    else None
  }

  /** Padding a number below 10^width and reading it back gives the number. */
  lemma {:induction false} PadValue(n: nat, width: nat, bound: nat)
    requires bound == Pow10(width) && n < bound
    ensures DigitsValue(Pad(n, width)) == n
    decreases width
  {
    if width > 0 {
      var s := Pad(n, width);
      assert s[..|s| - 1] == Pad(n / 10, width - 1);
      PadValue(n / 10, width - 1, Pow10(width - 1));
    }
  }

  /** Padding the value of a digit string to its own length gives the string back. */
  lemma {:induction false} PadDigits(s: string)
    requires AllDigits(s)
    ensures Pad(DigitsValue(s), |s|) == s
    decreases |s|
  {
    if |s| > 0 {
      var init := s[..|s| - 1];
      assert AllDigits(init);
      PadDigits(init);
      var v := DigitsValue(s);
      assert v / 10 == DigitsValue(init);
      assert v % 10 == DigitValue(s[|s| - 1]);
      assert init + [s[|s| - 1]] == s;
    }
  }

  /** Every formatted date reads back as itself. */
  lemma IsoRoundTrip(d: Date)
    requires ValidDate(d)
    ensures ParseIso(FormatIso(d)) == Some(d)
  {
    var y, m, dd := Pad(d.year, 4), Pad(d.month, 2), Pad(d.day, 2);
    assert Pow10(4) == 10000 && Pow10(2) == 100;
    PadValue(d.year, 4, Pow10(4));
    PadValue(d.month, 2, Pow10(2));
    PadValue(d.day, 2, Pow10(2));
    ParseIsoFields(y, m, dd);
  }

  /** Reading back text assembled from three digit fields of widths 4, 2 and 2. */
  lemma ParseIsoFields(y: string, m: string, dd: string)
    requires |y| == 4 && |m| == 2 && |dd| == 2
    requires AllDigits(y) && AllDigits(m) && AllDigits(dd)
    ensures ParseIso(y + "-" + m + "-" + dd) ==
      var d := Date(DigitsValue(y), DigitsValue(m), DigitsValue(dd));
      if ValidDate(d) then Some(d) else None
  {
    var s := y + "-" + m + "-" + dd;
    assert s[..4] == y && s[5..7] == m && s[8..] == dd;
  }

  /**
   * The converted text denotes the same calendar day as the input, and the
   * conversion fails exactly when `strptime` does.
   */
  lemma ReformatMeaning(s: string)
    ensures Reformat(s).None? <==> ParseDayMonthYear(s).None?
    ensures Reformat(s).Some? ==> ParseIso(Reformat(s).value) == ParseDayMonthYear(s)
  {
    if ParseDayMonthYear(s).Some? {
      IsoRoundTrip(ParseDayMonthYear(s).value);
    }
  }

  /** A date of three slash-free fields splits into exactly those fields. */
  lemma SplitDate(a: string, b: string, c: string)
    requires '/' !in a && '/' !in b && '/' !in c
    ensures Split(a + "/" + b + "/" + c, "/") == [a, b, c]
  {
    NotContainsWithoutChar(a, "/", 0);
    NotContainsWithoutChar(b, "/", 0);
    NotContainsWithoutChar(c, "/", 0);
    SplitWithout(a, "/");
    SplitWithout(b, "/");
    SplitWithout(c, "/");
    SplitAppend(a, "/", b);
    SplitAppend(a + "/" + b, "/", c);
  }

  lemma NoSlashInDigits(s: string)
    requires AllDigits(s)
    ensures '/' !in s
  {
  }

  /** The value of a two-digit string, written out. */
  lemma TwoDigitsValue(s: string)
    requires |s| == 2 && AllDigits(s)
    ensures DigitsValue(s) == 10 * DigitValue(s[0]) + DigitValue(s[1])
  {
    assert s[..1][..0] == [];
  }

  /** The value of a four-digit string, written out. */
  lemma FourDigitsValue(s: string)
    requires |s| == 4 && AllDigits(s)
    ensures DigitsValue(s) ==
      1000 * DigitValue(s[0]) + 100 * DigitValue(s[1]) + 10 * DigitValue(s[2]) + DigitValue(s[3])
  {
    var a, b, c := s[..1], s[..2], s[..3];
    assert a[..0] == [] && b[..1] == a && c[..2] == b && s[..3] == c;
    assert DigitsValue(a) == DigitValue(s[0]);
    assert DigitsValue(b) == 10 * DigitValue(s[0]) + DigitValue(s[1]);
  }

  /**
   * The canonical form `DD/MM/YYYY`: it converts exactly when it names a
   * valid calendar date, and the conversion moves the year to the front and
   * the day to the end, keeping every digit as written.
   */
  lemma ReformatCanonical(s: string)
    requires |s| == 10 && s[2] == '/' && s[5] == '/'
    requires AllDigits(s[..2]) && AllDigits(s[3..5]) && AllDigits(s[6..])
    ensures Reformat(s).Some? <==>
      ValidDate(Date(DigitsValue(s[6..]), DigitsValue(s[3..5]), DigitsValue(s[..2])))
    ensures Reformat(s).Some? ==> Reformat(s).value == s[6..] + "-" + s[3..5] + "-" + s[..2]
  {
    var dd, mm, yyyy := s[..2], s[3..5], s[6..];
    NoSlashInDigits(dd);
    NoSlashInDigits(mm);
    NoSlashInDigits(yyyy);
    assert s == dd + "/" + mm + "/" + yyyy;
    SplitDate(dd, mm, yyyy);
    assert Pow10(4) == 10000;
    PadDigits(dd);
    PadDigits(mm);
    PadDigits(yyyy);
  }

  /** A date written `DD/MM/YYYY`, spelled by the given digit strings and naming `d`. */
  predicate SpelledAs(s: string, dd: string, mm: string, yyyy: string, d: Date)
  {
    |dd| == 2 && |mm| == 2 && |yyyy| == 4 &&
    AllDigits(dd) && AllDigits(mm) && AllDigits(yyyy) &&
    s == dd + "/" + mm + "/" + yyyy &&
    d == Date(DigitsValue(yyyy), DigitsValue(mm), DigitsValue(dd))
  }

  /** ReformatCanonical restated for a date given by its three digit strings. */
  lemma ReformatSpelled(s: string, dd: string, mm: string, yyyy: string, d: Date)
    requires SpelledAs(s, dd, mm, yyyy, d)
    ensures Reformat(s) == if ValidDate(d) then Some(yyyy + "-" + mm + "-" + dd) else None
  {
    assert s[..2] == dd && s[3..5] == mm && s[6..] == yyyy;
    ReformatCanonical(s);
  }

  // The examples below take their literal texts as parameters pinned by
  // their preconditions, and check each literal against the digit strings
  // it is made of, rather than writing one long literal equality: the
  // solver then compares a few characters at a time.

  /** 5 March 2024 in the canonical form. */
  lemma ReformatExample(s: string, dd: string, mm: string, yyyy: string)
    requires s == "05/03/2024" && dd == "05" && mm == "03" && yyyy == "2024"
    ensures Reformat(s) == Some("2024-03-05")
  {
    TwoDigitsValue(dd);
    TwoDigitsValue(mm);
    FourDigitsValue(yyyy);
    SameText(s, dd + "/" + mm + "/" + yyyy);
    ReformatSpelled(s, dd, mm, yyyy, Date(2024, 3, 5));
    SameText(yyyy + "-" + mm + "-" + dd, "2024-03-05");
  }

  /** The 29th of February exists in 2024. */
  lemma ReformatLeapDayExample(s: string, dd: string, mm: string, yyyy: string)
    requires s == "29/02/2024" && dd == "29" && mm == "02" && yyyy == "2024"
    ensures Reformat(s) == Some("2024-02-29")
  {
    TwoDigitsValue(dd);
    TwoDigitsValue(mm);
    FourDigitsValue(yyyy);
    SameText(s, dd + "/" + mm + "/" + yyyy);
    ReformatSpelled(s, dd, mm, yyyy, Date(2024, 2, 29));
    SameText(yyyy + "-" + mm + "-" + dd, "2024-02-29");
  }

  /** The 29th of February does not exist in 2023: the conversion fails. */
  lemma ReformatCommonYearExample(s: string, dd: string, mm: string, yyyy: string)
    requires s == "29/02/2023" && dd == "29" && mm == "02" && yyyy == "2023"
    ensures Reformat(s).None?
  {
    TwoDigitsValue(dd);
    TwoDigitsValue(mm);
    FourDigitsValue(yyyy);
    SameText(s, dd + "/" + mm + "/" + yyyy);
    ReformatSpelled(s, dd, mm, yyyy, Date(2023, 2, 29));
  }

  /**
   * Any accepted spelling of the three fields converts to the ISO text of the
   * date they name, provided that date is valid.
   */
  lemma ReformatFields(day: string, month: string, year: string, d: Date)
    requires '/' !in day && '/' !in month && '/' !in year
    requires DayField(day) == Some(d.day) && MonthField(month) == Some(d.month)
    requires YearField(year) == Some(d.year) && ValidDate(d)
    ensures Reformat(day + "/" + month + "/" + year) == Some(FormatIso(d))
  {
    SplitDate(day, month, year);
  }

  /** `strptime` also takes one-digit days and months. */
  lemma ReformatShortFieldsExample(s: string, day: string, month: string, year: string)
    requires day == "5" && month == "3" && year == "2024" && s == day + "/" + month + "/" + year
    ensures Reformat(s) == Some("2024-03-05")
  {
    ShortFields(day, month, year);
    ReformatFields(day, month, year, Date(2024, 3, 5));
    IsoExampleText(Date(2024, 3, 5), "2024", "03", "05");
  }

  /** The fields "5", "3" and "2024" read as 5 March 2024. */
  lemma ShortFields(day: string, month: string, year: string)
    requires day == "5" && month == "3" && year == "2024"
    ensures '/' !in day && '/' !in month && '/' !in year
    ensures DayField(day) == Some(5) && MonthField(month) == Some(3) && YearField(year) == Some(2024)
  {
    FourDigitsValue(year);
  }

  /** `strptime` also takes a space before a one-digit day. */
  lemma ReformatSpacedDayExample(s: string, day: string, month: string, year: string)
    requires day == " 5" && month == "03" && year == "2024" && s == day + "/" + month + "/" + year
    ensures Reformat(s) == Some("2024-03-05")
  {
    SpacedFields(day, month, year);
    ReformatFields(day, month, year, Date(2024, 3, 5));
    IsoExampleText(Date(2024, 3, 5), "2024", "03", "05");
  }

  /** The fields " 5", "03" and "2024" read as 5 March 2024. */
  lemma SpacedFields(day: string, month: string, year: string)
    requires day == " 5" && month == "03" && year == "2024"
    ensures '/' !in day && '/' !in month && '/' !in year
    ensures DayField(day) == Some(5) && MonthField(month) == Some(3) && YearField(year) == Some(2024)
  {
    FourDigitsValue(year);
    TwoDigitsValue(month);
  }

  /** `FormatIso` spelled by digit strings that read as the date's year, month and day. */
  lemma FormatIsoFrom(d: Date, y: string, m: string, dd: string)
    requires ValidDate(d)
    requires |y| == 4 && AllDigits(y) && DigitsValue(y) == d.year
    requires |m| == 2 && AllDigits(m) && DigitsValue(m) == d.month
    requires |dd| == 2 && AllDigits(dd) && DigitsValue(dd) == d.day
    ensures FormatIso(d) == y + "-" + m + "-" + dd
  {
    PadDigits(y);
    PadDigits(m);
    PadDigits(dd);
  }

  /** The digit strings of 5 March 2024 and their values. */
  lemma ExampleDigits(y: string, m: string, dd: string)
    requires y == "2024" && m == "03" && dd == "05"
    ensures |y| == 4 && AllDigits(y) && DigitsValue(y) == 2024
    ensures |m| == 2 && AllDigits(m) && DigitsValue(m) == 3
    ensures |dd| == 2 && AllDigits(dd) && DigitsValue(dd) == 5
    ensures y + "-" + m + "-" + dd == "2024-03-05"
  {
    FourDigitsValue(y);
    TwoDigitsValue(m);
    TwoDigitsValue(dd);
    var x, z := y + "-" + m + "-" + dd, "2024-03-05";
    assert |x| == |z|;
    forall i | 0 <= i < |x| ensures x[i] == z[i] { }
  }

  /** The ISO text of 5 March 2024. */
  lemma IsoExampleText(d: Date, y: string, m: string, dd: string)
    requires d == Date(2024, 3, 5) && y == "2024" && m == "03" && dd == "05"
    ensures ValidDate(d) && FormatIso(d) == "2024-03-05"
  {
    ExampleDigits(y, m, dd);
    FormatIsoFrom(d, y, m, dd);
  }
}
