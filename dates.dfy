/**
 * The part of java.time.LocalDate the application relies on: a valid proleptic Gregorian
 * date, its chronological order, Period.between(...).years, and the ISO-8601 text form
 * written by toString() and read back by LocalDate.parse().
 */
module Dates {
  import opened Wrappers
  import opened Text
  import opened Decimal

  datatype Date = Date(year: int, month: int, day: int)

  predicate IsLeapYear(year: int)
  {
    year % 4 == 0 && (year % 100 != 0 || year % 400 == 0)
  }

  function LengthOfMonth(year: int, month: int): (n: int)
    requires 1 <= month <= 12
    ensures 28 <= n <= 31
  {
    if month == 2 then (if IsLeapYear(year) then 29 else 28)
    else if month == 4 || month == 6 || month == 9 || month == 11 then 30
    else 31
  }

  /** The year range of java.time.LocalDate (Year.MIN_VALUE to Year.MAX_VALUE). */
  const MinYear: int := -999_999_999
  const MaxYear: int := 999_999_999

  predicate IsValid(d: Date)
  {
    && MinYear <= d.year <= MaxYear
    && 1 <= d.month <= 12 && 1 <= d.day <= LengthOfMonth(d.year, d.month)
  }

  /** A LocalDate is always a valid calendar date. */
  type LocalDate = d: Date | IsValid(d) witness Date(2000, 1, 1)

  /** LocalDate.isBefore: chronological order, by year, then month, then day. */
  predicate IsBefore(a: Date, b: Date)
  {
    a.year < b.year || (a.year == b.year && MonthDayBefore(a, b))
  }

  /** The day of the year of `a` comes strictly before that of `b`, years aside. */
  predicate MonthDayBefore(a: Date, b: Date)
  {
    a.month < b.month || (a.month == b.month && a.day < b.day)
  }

  function ProlepticMonth(d: Date): int
  {
    d.year * 12 + d.month - 1
  }

  /** Java's long division, which truncates toward zero. */
  function TruncDiv(a: int, b: int): int
    requires b > 0
  {
    if a >= 0 then a / b else -((-a) / b)
  }

  /** The years component of Period.between(start, end), as LocalDate.until computes it. */
  function PeriodYears(start: LocalDate, end: LocalDate): int
  {
    var totalMonths := ProlepticMonth(end) - ProlepticMonth(start);
    var days := end.day - start.day;
    var adjusted :=
      if totalMonths > 0 && days < 0 then totalMonths - 1
      else if totalMonths < 0 && days > 0 then totalMonths + 1
      else totalMonths;
    TruncDiv(adjusted, 12)
  }

  lemma DivTwelve(q: int, r: int)
    requires 0 <= r < 12
    ensures (12 * q + r) / 12 == q
  {
  }

  /**
   * From a date to a later (or the same) date, Period.between counts the whole calendar
   * years: the difference of the years, less one when the end falls earlier in its year
   * than the start does in its own.
   */
  lemma PeriodYearsCountsWholeYears(start: LocalDate, end: LocalDate)
    requires !IsBefore(end, start)
    ensures PeriodYears(start, end) == end.year - start.year - (if MonthDayBefore(end, start) then 1 else 0)
  {
    var k, m := end.year - start.year, end.month - start.month;
    var totalMonths := ProlepticMonth(end) - ProlepticMonth(start);
    assert totalMonths == 12 * k + m;
    var days := end.day - start.day;
    var c := if MonthDayBefore(end, start) then 1 else 0;
    var adjusted :=
      if totalMonths > 0 && days < 0 then totalMonths - 1
      else if totalMonths < 0 && days > 0 then totalMonths + 1
      else totalMonths;
    var r := adjusted - 12 * (k - c);
    assert 0 <= r < 12;
    DivTwelve(k - c, r);
  }

  /** Before the start date the years component is never positive. */
  lemma PeriodYearsBeforeStart(start: LocalDate, end: LocalDate)
    requires IsBefore(end, start)
    ensures PeriodYears(start, end) <= 0
  {
  }

  // ---- ISO-8601 text form (LocalDate.toString / LocalDate.parse) ----

  function Abs(n: int): nat
  {
    if n < 0 then -n else n
  }

  /**
   * The year as LocalDate.toString writes it: at least four digits, zero-padded, with a
   * '-' for negative years and a '+' for years beyond 9999.
   */
  function YearText(year: int): string
  {
    (if year > 9999 then "+" else if year < 0 then "-" else "") + PadLeft(Dec(Abs(year)), 4)
  }

  /** Two zero-padded digits, as toString writes months and days. */
  function TwoDigits(n: nat): string
  {
    PadLeft(Dec(n), 2)
  }

  /** LocalDate.toString: `YYYY-MM-DD` (extended years aside). */
  function ToIsoString(d: LocalDate): string
  {
    YearText(d.year) + "-" + TwoDigits(d.month) + "-" + TwoDigits(d.day)
  }

  /**
   * LocalDate.parse with ISO_LOCAL_DATE, strict resolution, for an unsigned four-digit
   * year: `YYYY-MM-DD` naming an existing date; anything else fails.
   */
  function ParseIsoDate(s: string): Option<LocalDate>
  {
    if |s| == 10 && s[4] == '-' && s[7] == '-'
       && AllDigits(s[..4]) && AllDigits(s[5..7]) && AllDigits(s[8..])
    then
      var d := Date(DigitsValue(s[..4]), DigitsValue(s[5..7]), DigitsValue(s[8..]));
      if IsValid(d) then Some(d) else None
    else None
  }

  lemma TwoDigitsLength(n: nat)
    requires n < 100
    ensures |TwoDigits(n)| == 2
  {
    DecLength(n, 2);
  }

  lemma FourDigitYear(year: int)
    requires 0 <= year <= 9999
    ensures YearText(year) == PadLeft(Dec(year), 4) && |YearText(year)| == 4
  {
    DecLength(year, 4);
  }

  /** Where the three parts of an ISO date text sit. */
  lemma IsoParts(y: string, m: string, d: string)
    requires |m| == 2 && |d| == 2
    ensures var s := y + "-" + m + "-" + d;
      |s| == |y| + 6 && s[..|y|] == y && s[|y|] == '-' && s[|y| + 1..|y| + 3] == m
      && s[|y| + 3] == '-' && s[|y| + 4..] == d
  {
  }

  /** Reading back what toString wrote gives the same date, for four-digit years. */
  lemma ParseToIsoString(d: LocalDate)
    requires 0 <= d.year <= 9999
    ensures ParseIsoDate(ToIsoString(d)) == Some(d)
  {
    var y, m, dd := YearText(d.year), TwoDigits(d.month), TwoDigits(d.day);
    FourDigitYear(d.year);
    TwoDigitsLength(d.month);
    TwoDigitsLength(d.day);
    IsoParts(y, m, dd);
    var s := ToIsoString(d);
    assert s[..4] == y && s[5..7] == m && s[8..] == dd;
    PadLeftDecValue(d.year, 4);
    PadLeftDecValue(d.month, 2);
    PadLeftDecValue(d.day, 2);
  }

  /** Whatever text parses is exactly the text toString writes for the parsed date. */
  lemma ToIsoStringOfParse(s: string)
    requires ParseIsoDate(s).Some?
    ensures ToIsoString(ParseIsoDate(s).value) == s
  {
    var d := ParseIsoDate(s).value;
    DigitsValueBound(s[..4]);
    PadLeftDecOfValue(s[..4]);
    PadLeftDecOfValue(s[5..7]);
    PadLeftDecOfValue(s[8..]);
    FourDigitYear(d.year);
    assert s == s[..4] + "-" + s[5..7] + "-" + s[8..];
  }

  lemma YearTextInjective(a: int, b: int)
    requires YearText(a) == YearText(b)
    ensures a == b
  {
    var pa := if a > 9999 then "+" else if a < 0 then "-" else "";
    var pb := if b > 9999 then "+" else if b < 0 then "-" else "";
    var da, db := PadLeft(Dec(Abs(a)), 4), PadLeft(Dec(Abs(b)), 4);
    assert YearText(a) == pa + da && YearText(b) == pb + db;
    assert IsAsciiDigit(da[0]) && IsAsciiDigit(db[0]);
    assert YearText(a)[0] == if pa == [] then da[0] else pa[0];
    assert YearText(b)[0] == if pb == [] then db[0] else pb[0];
    assert |pa| == |pb|;
    assert da == YearText(a)[|pa|..] && db == YearText(b)[|pb|..];
    PadLeftDecInjective(Abs(a), Abs(b), 4);
  }

  /** Two dates have the same text form only when they are the same date. */
  lemma ToIsoStringInjective(a: LocalDate, b: LocalDate)
    requires ToIsoString(a) == ToIsoString(b)
    ensures a == b
  {
    TwoDigitsLength(a.month);
    TwoDigitsLength(a.day);
    TwoDigitsLength(b.month);
    TwoDigitsLength(b.day);
    var ya, yb := YearText(a.year), YearText(b.year);
    IsoParts(ya, TwoDigits(a.month), TwoDigits(a.day));
    IsoParts(yb, TwoDigits(b.month), TwoDigits(b.day));
    assert |ya| == |yb|;
    YearTextInjective(a.year, b.year);
    PadLeftDecInjective(a.month, b.month, 2);
    PadLeftDecInjective(a.day, b.day, 2);
  }
}
