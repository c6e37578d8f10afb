/** Calendar dates as the codec handles them: the sheet's `DD/MM/YYYY` text,
    the form's `YYYY-MM-DD` text, and the millisecond timestamp that
    `moment(...).valueOf()` gives a date and that the expense sort compares. */
module Dates {
  import opened JsRuntime

  datatype Date = Date(day: nat, month: nat, year: nat)

  predicate IsLeapYear(y: nat) {
    y % 4 == 0 && (y % 100 != 0 || y % 400 == 0)
  }

  function DaysInMonth(m: nat, y: nat): nat {
    if m == 2 then (if IsLeapYear(y) then 29 else 28)
    else if m == 4 || m == 6 || m == 9 || m == 11 then 30
    else 31
  }

  /** A day of the proleptic Gregorian calendar with a four-digit year. */
  predicate ValidDate(d: Date) {
    1 <= d.month <= 12 && 1 <= d.day <= DaysInMonth(d.month, d.year) && d.year <= 9999
  }

  /** A date that names a real day: what a successful parse yields. */
  type Day = d: Date | ValidDate(d) witness Date(1, 1, 1970)

  /** `a` is an earlier day than `b`: years first, then months, then days. */
  predicate Before(a: Date, b: Date) {
    a.year < b.year
    || (a.year == b.year && a.month < b.month)
    || (a.year == b.year && a.month == b.month && a.day < b.day)
  }

  function CharValue(c: char): int {
    c as int - '0' as int
  }

  predicate DigitsAt(s: string, lo: nat, hi: nat)
    requires lo <= hi <= |s|
  {
    forall k :: lo <= k < hi ==> IsDecimalDigit(s[k])
  }

  /** The value of the two digits at `s[i]`, `s[i + 1]`. */
  function Number2(s: string, i: nat): int
    requires i + 2 <= |s|
  {
    10 * CharValue(s[i]) + CharValue(s[i + 1])
  }

  /** The value of the four digits starting at `s[i]`. */
  function Number4(s: string, i: nat): int
    requires i + 4 <= |s|
  {
    1000 * CharValue(s[i]) + 100 * CharValue(s[i + 1]) + 10 * CharValue(s[i + 2]) + CharValue(s[i + 3])
  }

  /** `moment(s, "DD/MM/YYYY")` on the strict shape: two digits, a slash, two
      digits, a slash, four digits, naming a real day. Anything else is an
      invalid date (`None`). */
  function ParseDmy(s: string): (r: Option<Date>)
    ensures r.Some? ==> ValidDate(r.value)
  {
    if |s| == 10 && s[2] == '/' && s[5] == '/'
       && DigitsAt(s, 0, 2) && DigitsAt(s, 3, 5) && DigitsAt(s, 6, 10)
    then
      var d := Date(Number2(s, 0), Number2(s, 3), Number4(s, 6));
      if ValidDate(d) then Some(d) else None
    else None
  }

  /** `moment(s, "YYYY-MM-DD")` on the strict shape the form's date input
      produces: four digits, a dash, two digits, a dash, two digits. */
  function ParseIso(s: string): (r: Option<Date>)
    ensures r.Some? ==> ValidDate(r.value)
  {
    if |s| == 10 && s[4] == '-' && s[7] == '-'
       && DigitsAt(s, 0, 4) && DigitsAt(s, 5, 7) && DigitsAt(s, 8, 10)
    then
      var d := Date(Number2(s, 8), Number2(s, 5), Number4(s, 0));
      if ValidDate(d) then Some(d) else None
    else None
  }

  function Pad2(n: nat): (s: string)
    requires n < 100
    ensures |s| == 2 && DigitsAt(s, 0, 2) && Number2(s, 0) == n
  {
    [DigitChar(n / 10), DigitChar(n % 10)]
  }

  function Pad4(n: nat): (s: string)
    requires n < 10000
    ensures |s| == 4 && DigitsAt(s, 0, 4) && Number4(s, 0) == n
  {
    Pad2(n / 100) + Pad2(n % 100)
  }

  /** `.format("DD/MM/YYYY")` of a valid date. */
  function FormatDmy(d: Date): (s: string)
    requires ValidDate(d)
    ensures |s| == 10 && s[2] == '/' && s[5] == '/'
  {
    Pad2(d.day) + "/" + Pad2(d.month) + "/" + Pad4(d.year)
  }

  /** Reading back a formatted date gives the same day. */
  lemma ParseFormatDmy(d: Date)
    requires ValidDate(d)
    ensures ParseDmy(FormatDmy(d)) == Some(d)
  {
    var s := FormatDmy(d);
    assert s[0..2] == Pad2(d.day) && s[3..5] == Pad2(d.month) && s[6..10] == Pad4(d.year);
    assert Number2(s, 0) == Number2(Pad2(d.day), 0);
    assert Number2(s, 3) == Number2(Pad2(d.month), 0);
    assert Number4(s, 6) == Number4(Pad4(d.year), 0);
  }

  lemma Pad2OfDigits(s: string, i: nat)
    requires i + 2 <= |s| && DigitsAt(s, i, i + 2)
    ensures 0 <= Number2(s, i) < 100 && Pad2(Number2(s, i)) == s[i..i + 2]
  {
    var a, b := CharValue(s[i]), CharValue(s[i + 1]);
    var n := 10 * a + b;
    assert n / 10 == a && n % 10 == b;
  }

  lemma Pad4OfDigits(s: string, i: nat)
    requires i + 4 <= |s| && DigitsAt(s, i, i + 4)
    ensures 0 <= Number4(s, i) < 10000 && Pad4(Number4(s, i)) == s[i..i + 4]
  {
    Pad2OfDigits(s, i);
    Pad2OfDigits(s, i + 2);
    var hi, lo := Number2(s, i), Number2(s, i + 2);
    var n := Number4(s, i);
    assert n == 100 * hi + lo;
    assert n / 100 == hi && n % 100 == lo;
    assert s[i..i + 4] == s[i..i + 2] + s[i + 2..i + 4];
  }

  /** Rewriting a form date as the sheet's text keeps the characters of the
      day, the month and the year and only reorders them around slashes. */
  lemma FormatOfParsedIso(s: string)
    requires ParseIso(s).Some?
    ensures FormatDmy(ParseIso(s).value) == s[8..10] + "/" + s[5..7] + "/" + s[0..4]
  {
    Pad2OfDigits(s, 8);
    Pad2OfDigits(s, 5);
    Pad4OfDigits(s, 0);
  }

  function YearLength(y: nat): nat {
    if IsLeapYear(y) then 366 else 365
  }

  /** Days from 1 January of year 0 to 1 January of year `y`. */
  function DaysBeforeYear(y: nat): nat {
    if y == 0 then 0 else DaysBeforeYear(y - 1) + YearLength(y - 1)
  }

  /** Days from 1 January to the first of month `m` (1 to 13) of year `y`. */
  function DaysBeforeMonth(m: nat, y: nat): nat
    requires 1 <= m <= 13
  {
    var leap := if IsLeapYear(y) then 1 else 0;
    if m == 1 then 0
    else if m == 2 then 31
    else if m == 3 then 59 + leap
    else if m == 4 then 90 + leap
    else if m == 5 then 120 + leap
    else if m == 6 then 151 + leap
    else if m == 7 then 181 + leap
    else if m == 8 then 212 + leap
    else if m == 9 then 243 + leap
    else if m == 10 then 273 + leap
    else if m == 11 then 304 + leap
    else if m == 12 then 334 + leap
    else 365 + leap
  }

  /** Days since 1 January 1970. */
  function EpochDay(d: Date): int
    requires ValidDate(d)
  {
    DaysBeforeYear(d.year) - DaysBeforeYear(1970) + DaysBeforeMonth(d.month, d.year) + d.day - 1
  }

  const MillisPerDay: int := 86400000

  /** `moment(...).valueOf()`: the milliseconds since the epoch at midnight
      starting the day. */
  function Timestamp(d: Date): (t: int)
    requires ValidDate(d)
    ensures t % MillisPerDay == 0
  {
    EpochDay(d) * MillisPerDay
  }

  lemma DayOfYearBound(d: Date)
    requires ValidDate(d)
    ensures DaysBeforeMonth(d.month, d.year) + d.day <= DaysBeforeMonth(d.month + 1, d.year)
    ensures DaysBeforeMonth(d.month + 1, d.year) <= YearLength(d.year)
  {
  }

  lemma {:induction false} DaysBeforeYearGrows(y1: nat, y2: nat)
    requires y1 < y2
    ensures DaysBeforeYear(y1) + YearLength(y1) <= DaysBeforeYear(y2)
    decreases y2 - y1
  {
    if y1 + 1 < y2 {
      DaysBeforeYearGrows(y1, y2 - 1);
    }
  }

  /** Between valid dates the timestamp order is the calendar order, so a sort
      by timestamp is a sort by date and equal timestamps mean the same day. */
  lemma TimestampOrder(a: Date, b: Date)
    requires ValidDate(a) && ValidDate(b)
    ensures Timestamp(a) < Timestamp(b) <==> Before(a, b)
    ensures Timestamp(a) == Timestamp(b) <==> a == b
  {
    if Before(a, b) {
      EpochDayIncreases(a, b);
    } else if Before(b, a) {
      EpochDayIncreases(b, a);
    }
  }

  lemma EpochDayIncreases(a: Date, b: Date)
    requires ValidDate(a) && ValidDate(b) && Before(a, b)
    ensures EpochDay(a) < EpochDay(b)
  {
    DayOfYearBound(a);
    if a.year < b.year {
      DaysBeforeYearGrows(a.year, b.year);
    }
  }
}
