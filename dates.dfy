/**
 * The parts of .NET's `DateTime` and `TimeOnly` the views compute with.
 *
 * A date is a day number: day 0 is 0001-01-01, which is a Monday, and consecutive
 * days have consecutive numbers (`AddDays` is addition). The Gregorian calendar is
 * extended to every integer. A time of day is a number of minutes since midnight.
 */
module Dates {
  import opened Wrappers
  import opened Strings

  type Date = int

  /** A `TimeOnly` with minute precision. */
  type Minute = m: int | 0 <= m < 1440

  predicate IsLeapYear(y: int) {
    y % 4 == 0 && (y % 100 != 0 || y % 400 == 0)
  }

  function YearLength(y: int): int {
    if IsLeapYear(y) then 366 else 365
  }

  /** Day number of January 1st of year `y`. */
  function DaysBeforeYear(y: int): int {
    var n := y - 1;
    365 * n + n / 4 - n / 100 + n / 400
  }

  lemma DaysBeforeYearStep(y: int)
    ensures DaysBeforeYear(y + 1) == DaysBeforeYear(y) + YearLength(y)
  {
    assert y / 4 - (y - 1) / 4 == if y % 4 == 0 then 1 else 0;
    assert y / 100 - (y - 1) / 100 == if y % 100 == 0 then 1 else 0;
    assert y / 400 - (y - 1) / 400 == if y % 400 == 0 then 1 else 0;
  }

  /** Later years start later: at least 365 days per year in between. */
  lemma {:induction false} DaysBeforeYearMonotone(y: int, y': int)
    requires y <= y'
    ensures DaysBeforeYear(y) + 365 * (y' - y) <= DaysBeforeYear(y')
    decreases y' - y
  {
    if y < y' {
      DaysBeforeYearMonotone(y, y' - 1);
      DaysBeforeYearStep(y' - 1);
    }
  }

  type MonthNumber = m: int | 1 <= m <= 12 witness 1

  function DaysInMonth(y: int, m: MonthNumber): int {
    if m == 2 then (if IsLeapYear(y) then 29 else 28)
    else if m == 4 || m == 6 || m == 9 || m == 11 then 30
    else 31
  }

  /** Days of year `y` before the 1st of month `m`. */
  function DaysBeforeMonth(y: int, m: MonthNumber): int {
    [0, 31, 59, 90, 120, 151, 181, 212, 243, 273, 304, 334][m - 1]
      + (if m > 2 && IsLeapYear(y) then 1 else 0)
  }

  lemma DaysBeforeMonthStep(y: int, m: MonthNumber)
    ensures m < 12 ==> DaysBeforeMonth(y, m + 1) == DaysBeforeMonth(y, m) + DaysInMonth(y, m)
    ensures m == 12 ==> DaysBeforeMonth(y, m) + DaysInMonth(y, m) == YearLength(y)
  {
  }

  /** A month of a year; `_month` in the calendar (always the 1st of a month) is one of these. */
  datatype YearMonth = YearMonth(year: int, month: MonthNumber)

  /** Day number of the 1st of the month. */
  function FirstDay(ym: YearMonth): Date {
    DaysBeforeYear(ym.year) + DaysBeforeMonth(ym.year, ym.month)
  }

  function DaysIn(ym: YearMonth): int {
    DaysInMonth(ym.year, ym.month)
  }

  /** `d.Year == ym.year && d.Month == ym.month`, stated on day numbers. */
  predicate InMonth(ym: YearMonth, d: Date) {
    FirstDay(ym) <= d < FirstDay(ym) + DaysIn(ym)
  }

  function YearUp(d: Date, y: int): (r: int)
    requires DaysBeforeYear(y) <= d
    ensures DaysBeforeYear(r) <= d < DaysBeforeYear(r + 1)
    decreases d - DaysBeforeYear(y)
  {
    DaysBeforeYearStep(y);
    if d < DaysBeforeYear(y + 1) then y else YearUp(d, y + 1)
  }

  function YearDown(d: Date, y: int): (r: int)
    requires d < DaysBeforeYear(y + 1)
    ensures DaysBeforeYear(r) <= d < DaysBeforeYear(r + 1)
    decreases DaysBeforeYear(y + 1) - d
  {
    DaysBeforeYearStep(y);
    if DaysBeforeYear(y) <= d then y else YearDown(d, y - 1)
  }

  /** `d.Year`. */
  function YearOf(d: Date): (y: int)
    ensures DaysBeforeYear(y) <= d < DaysBeforeYear(y + 1)
  {
    if d >= 0 then YearUp(d, 1) else YearDown(d, 0)
  }

  function MonthSearch(y: int, dayOfYear: int, m: MonthNumber): (r: MonthNumber)
    requires 0 <= dayOfYear < DaysBeforeMonth(y, m) + DaysInMonth(y, m)
    ensures DaysBeforeMonth(y, r) <= dayOfYear < DaysBeforeMonth(y, r) + DaysInMonth(y, r)
  {
    if DaysBeforeMonth(y, m) <= dayOfYear || m == 1 then m
    else
      DaysBeforeMonthStep(y, m - 1);
      MonthSearch(y, dayOfYear, m - 1)
  }

  /** The month `d` lies in: `new DateTime(d.Year, d.Month, 1)`. */
  function MonthOf(d: Date): (ym: YearMonth)
    ensures InMonth(ym, d)
  {
    var y := YearOf(d);
    DaysBeforeYearStep(y);
    DaysBeforeMonthStep(y, 12);
    YearMonth(y, MonthSearch(y, d - DaysBeforeYear(y), 12))
  }

  /** Each day lies in exactly one month: the month `MonthOf` finds. */
  lemma MonthOfUnique(ym: YearMonth, d: Date)
    requires InMonth(ym, d)
    ensures MonthOf(d) == ym
  {
    var other := MonthOf(d);
    var y := ym.year;
    DaysBeforeYearStep(y);
    MonthEndsInYear(y, ym.month);
    YearUnique(y, other.year, d);
    MonthUniqueInYear(y, ym.month, other.month, d - DaysBeforeYear(y));
  }

  lemma MonthEndsInYear(y: int, m: MonthNumber)
    ensures DaysBeforeMonth(y, m) + DaysInMonth(y, m) <= YearLength(y)
  {
  }

  lemma YearUnique(y: int, y': int, d: Date)
    requires DaysBeforeYear(y) <= d < DaysBeforeYear(y + 1)
    requires DaysBeforeYear(y') <= d < DaysBeforeYear(y' + 1)
    ensures y == y'
  {
    if y < y' {
      DaysBeforeYearMonotone(y + 1, y');
    } else if y' < y {
      DaysBeforeYearMonotone(y' + 1, y);
    }
  }

  lemma MonthUniqueInYear(y: int, m: MonthNumber, m': MonthNumber, dayOfYear: int)
    requires DaysBeforeMonth(y, m) <= dayOfYear < DaysBeforeMonth(y, m) + DaysInMonth(y, m)
    requires DaysBeforeMonth(y, m') <= dayOfYear < DaysBeforeMonth(y, m') + DaysInMonth(y, m')
    ensures m == m'
  {
  }

  /** `d.Day`. */
  function DayOfMonth(d: Date): (r: int)
    ensures 1 <= r <= DaysIn(MonthOf(d)) && r <= 31
  {
    d - FirstDay(MonthOf(d)) + 1
  }

  /** `new DateTime(y, m, day)` for a valid day of that month. */
  function DateOf(y: int, m: MonthNumber, day: int): Date
    requires 1 <= day <= DaysInMonth(y, m)
  {
    FirstDay(YearMonth(y, m)) + day - 1
  }

  /** `AddMonths(1)` on the 1st of a month. */
  function NextMonth(ym: YearMonth): YearMonth {
    if ym.month == 12 then YearMonth(ym.year + 1, 1) else YearMonth(ym.year, ym.month + 1)
  }

  /** `AddMonths(-1)` on the 1st of a month. */
  function PrevMonth(ym: YearMonth): YearMonth {
    if ym.month == 1 then YearMonth(ym.year - 1, 12) else YearMonth(ym.year, ym.month - 1)
  }

  /** Months tile the day line: the next month starts the day after this one ends. */
  lemma NextMonthFollows(ym: YearMonth)
    ensures FirstDay(NextMonth(ym)) == FirstDay(ym) + DaysIn(ym)
    ensures PrevMonth(NextMonth(ym)) == ym && NextMonth(PrevMonth(ym)) == ym
  {
    DaysBeforeMonthStep(ym.year, ym.month);
    DaysBeforeYearStep(ym.year);
  }

  /** `(int)d.DayOfWeek`: Sunday = 0 .. Saturday = 6. */
  function DayOfWeek(d: Date): int {
    (d + 1) % 7
  }

  /** `((int)d.DayOfWeek + 6) % 7`: Monday = 0 .. Sunday = 6. */
  function MondayIndex(d: Date): (r: int)
    ensures 0 <= r < 7
  {
    (DayOfWeek(d) + 6) % 7
  }

  /** On day numbers the Monday-first index is the remainder modulo 7. */
  lemma MondayIndexIsMod(d: Date)
    ensures MondayIndex(d) == d % 7
  {
  }

  /** The day `r` days into the week that starts on day `7 * q` has remainder `r`. */
  lemma ModOfWeekStart(q: int, r: int)
    requires 0 <= r < 7
    ensures (7 * q + r) % 7 == r
  {
  }

  predicate IsMonday(d: Date) {
    DayOfWeek(d) == 1
  }

  /** `d.AddDays(-(((int)d.DayOfWeek + 6) % 7))`: the Monday on or before `d`. */
  function MondayOf(d: Date): Date {
    d - MondayIndex(d)
  }

  lemma MondayOfIsMonday(d: Date)
    ensures IsMonday(MondayOf(d))
    ensures MondayOf(d) <= d < MondayOf(d) + 7
  {
    MondayIndexIsMod(d);
  }

  /** `t.ToString("HH:mm")`. */
  function FormatTime(m: Minute): string {
    TwoDigits(m / 60) + ":" + TwoDigits(m % 60)
  }

  /** `yyyy` for a year of the DateTime range; other years are written the same way with a sign. */
  function FormatYear(y: int): string {
    if y >= 0 then PadLeftZeros(NatToString(y), 4) else "-" + PadLeftZeros(NatToString(-y), 4)
  }

  function PadLeftZeros(s: string, width: nat): string {
    if |s| >= width then s else Zeros(width - |s|) + s
  }

  /** `d.ToString("yyyy-MM-dd")`. */
  function FormatIsoDate(d: Date): string {
    var ym := MonthOf(d);
    FormatYear(ym.year) + "-" + TwoDigits(ym.month) + "-" + TwoDigits(DayOfMonth(d))
  }

  /** A year of the DateTime range is written as exactly four digits with the year's value. */
  lemma FormatYearDigits(y: int)
    requires 1 <= y <= 9999
    ensures |FormatYear(y)| == 4 && AllDigits(FormatYear(y)) && DigitsValue(FormatYear(y)) == y
  {
    var n := NatToString(y);
    NatToStringValue(y);
    LeadingZerosValue(4 - |n|, n);
  }

  /**
   * `DateTime.TryParse` on the text the editor writes, `yyyy-MM-dd`: a valid calendar date
   * of years 1 to 9999 parses to that day; anything else does not parse.
   */
  function ParseIsoDate(s: string): Option<Date> {
    if |s| == 10 && s[4] == '-' && s[7] == '-' && AllDigits(s[..4]) && AllDigits(s[5..7]) && AllDigits(s[8..]) then
      var y := DigitsValue(s[..4]);
      var m := DigitsValue(s[5..7]);
      var day := DigitsValue(s[8..]);
      if 1 <= y && 1 <= m <= 12 && 1 <= day <= DaysInMonth(y, m) then Some(DateOf(y, m, day)) else None
    else None
  }

  /** A date of the DateTime range survives `ToString("yyyy-MM-dd")` and parsing back. */
  lemma FormatThenParseDate(d: Date)
    requires 1 <= MonthOf(d).year <= 9999
    ensures ParseIsoDate(FormatIsoDate(d)) == Some(d)
  {
    var ym := MonthOf(d);
    var s := FormatIsoDate(d);
    FormatYearDigits(ym.year);
    TwoDigitsValue(ym.month);
    TwoDigitsValue(DayOfMonth(d));
    assert s[..4] == FormatYear(ym.year);
    assert s[5..7] == TwoDigits(ym.month);
    assert s[8..] == TwoDigits(DayOfMonth(d));
  }

  /** Whatever parses is exactly the text `ToString("yyyy-MM-dd")` writes for the result. */
  lemma ParseThenFormatDate(s: string)
    requires ParseIsoDate(s).Some?
    ensures FormatIsoDate(ParseIsoDate(s).value) == s
    ensures 1 <= MonthOf(ParseIsoDate(s).value).year <= 9999
  {
    var y := DigitsValue(s[..4]);
    var m := DigitsValue(s[5..7]);
    var day := DigitsValue(s[8..]);
    var d := DateOf(y, m, day);
    DigitsValueBound(s[..4]);
    assert Pow10(4) == 10000;
    MonthOfUnique(YearMonth(y, m), d);
    assert DayOfMonth(d) == day;
    FormatYearDigits(y);
    TwoDigitsValue(m);
    TwoDigitsValue(day);
    DigitsInjective(FormatYear(y), s[..4]);
    DigitsInjective(TwoDigits(m), s[5..7]);
    DigitsInjective(TwoDigits(day), s[8..]);
    assert s == s[..4] + "-" + s[5..7] + "-" + s[8..];
  }

  /**
   * `TimeOnly.TryParseExact(s, "HH:mm", InvariantCulture)`: two-digit hours 00-23, a colon,
   * two-digit minutes 00-59, nothing else.
   */
  function ParseTime(s: string): Option<Minute> {
    if |s| == 5 && s[2] == ':' && AllDigits(s[..2]) && AllDigits(s[3..]) then
      var h := DigitsValue(s[..2]);
      var m := DigitsValue(s[3..]);
      if h < 24 && m < 60 then Some(h * 60 + m) else None
    else None
  }

  /** `HH:mm` formatting and exact parsing are inverse: each time has exactly one text. */
  lemma ParseTimeIffFormat(s: string, m: Minute)
    ensures ParseTime(s) == Some(m) <==> s == FormatTime(m)
  {
    TwoDigitsValue(m / 60);
    TwoDigitsValue(m % 60);
    var f := FormatTime(m);
    assert f[..2] == TwoDigits(m / 60) && f[3..] == TwoDigits(m % 60);
    if ParseTime(s) == Some(m) {
      var h := DigitsValue(s[..2]);
      var mm := DigitsValue(s[3..]);
      assert h == m / 60 && mm == m % 60;
      DigitsInjective(TwoDigits(m / 60), s[..2]);
      DigitsInjective(TwoDigits(m % 60), s[3..]);
      assert s == s[..2] + ":" + s[3..];
    }
  }
}
