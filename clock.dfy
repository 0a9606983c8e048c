/** Calendar dates, the Go layout "2006-01-02", weekdays and wall-clock instants. */
module Clock {
  import opened Wrappers
  import opened Text

  datatype Date = Date(year: int, month: int, day: int)

  /** Proleptic Gregorian leap years (year 0 is a leap year, as in Go). */
  predicate IsLeap(y: int) {
    y % 4 == 0 && (y % 100 != 0 || y % 400 == 0)
  }

  function DaysIn(month: int, year: int): int {
    if month == 2 then (if IsLeap(year) then 29 else 28)
    else if month == 4 || month == 6 || month == 9 || month == 11 then 30
    else 31
  }

  predicate ValidDate(d: Date) {
    1 <= d.month <= 12 && 1 <= d.day <= DaysIn(d.month, d.year)
  }

  /** A date that the layout "2006-01-02" can write. */
  predicate Printable(d: Date) {
    ValidDate(d) && 0 <= d.year <= 9999
  }

  function Num2(a: char, b: char): nat
    requires IsDigit(a) && IsDigit(b)
  {
    DigitVal(a) * 10 + DigitVal(b)
  }

  /** Go's `time.Parse("2006-01-02", s)`: four year digits, '-', two month
      digits naming 1..12, '-', two day digits within the month, nothing else. */
  function ParseDate(s: string): (r: Option<Date>)
    ensures r.Some? ==> Printable(r.value)
  {
    if |s| == 10 && IsDigit(s[0]) && IsDigit(s[1]) && IsDigit(s[2]) && IsDigit(s[3])
       && s[4] == '-' && IsDigit(s[5]) && IsDigit(s[6]) && s[7] == '-'
       && IsDigit(s[8]) && IsDigit(s[9])
    then
      var d := Date(Num2(s[0], s[1]) * 100 + Num2(s[2], s[3]), Num2(s[5], s[6]), Num2(s[8], s[9]));
      if ValidDate(d) then Some(d) else None
    else None
  }

  /** `Format("2006-01-02")`. */
  function FormatDate(d: Date): (r: string)
    requires Printable(d)
    ensures |r| == 10
  {
    TwoDigits(d.year / 100) + TwoDigits(d.year % 100) + "-" + TwoDigits(d.month) + "-" + TwoDigits(d.day)
  }

  /** Formatting then parsing gives the date back. */
  lemma ParseFormat(d: Date)
    requires Printable(d)
    ensures ParseDate(FormatDate(d)) == Some(d)
  {
    var s := FormatDate(d);
    assert Num2(s[0], s[1]) * 100 + Num2(s[2], s[3]) == d.year;
  }

  /** A parsed text is the canonical rendering of its date, so no other text
      names the same date. */
  lemma FormatParse(s: string)
    requires ParseDate(s).Some?
    ensures FormatDate(ParseDate(s).value) == s
  {
    var d := ParseDate(s).value;
    var t := FormatDate(d);
    assert DigitVal(t[0]) == DigitVal(s[0]) && DigitVal(t[1]) == DigitVal(s[1]);
    assert DigitVal(t[2]) == DigitVal(s[2]) && DigitVal(t[3]) == DigitVal(s[3]);
    assert forall i :: 0 <= i < 10 ==> t[i] == s[i];
  }

  /** Days of the week in Go's `time.Weekday` order. */
  datatype Weekday = Sunday | Monday | Tuesday | Wednesday | Thursday | Friday | Saturday

  /** `Weekday.String()`. */
  function WeekdayName(w: Weekday): string {
    match w
    case Sunday => "Sunday"
    case Monday => "Monday"
    case Tuesday => "Tuesday"
    case Wednesday => "Wednesday"
    case Thursday => "Thursday"
    case Friday => "Friday"
    case Saturday => "Saturday"
  }

  function WeekdayFromIndex(n: int): Weekday
    requires 0 <= n < 7
  {
    [Sunday, Monday, Tuesday, Wednesday, Thursday, Friday, Saturday][n]
  }

  /** Day of the week of a valid Gregorian date (Sakamoto's method). */
  function WeekdayOf(d: Date): Weekday
    requires ValidDate(d)
  {
    var t := [0, 3, 2, 5, 0, 3, 5, 1, 4, 6, 2, 4];
    var y := if d.month < 3 then d.year - 1 else d.year;
    WeekdayFromIndex((y + y / 4 - y / 100 + y / 400 + t[d.month - 1] + d.day) % 7)
  }

  /** A local wall-clock reading: a date and the seconds since its midnight. */
  datatype Instant = Instant(date: Date, secs: int)

  predicate ValidInstant(t: Instant) {
    ValidDate(t.date) && 0 <= t.secs < 86400
  }

  /** Chronological order of instants. */
  predicate NotAfter(a: Instant, b: Instant) {
    a.date.year < b.date.year
    || (a.date.year == b.date.year && (a.date.month < b.date.month
    || (a.date.month == b.date.month && (a.date.day < b.date.day
    || (a.date.day == b.date.day && a.secs <= b.secs)))))
  }

  lemma NotAfterTotal(a: Instant, b: Instant)
    ensures NotAfter(a, b) || NotAfter(b, a)
  {
  }

  lemma NotAfterTrans(a: Instant, b: Instant, c: Instant)
    requires NotAfter(a, b) && NotAfter(b, c)
    ensures NotAfter(a, c)
  {
  }
}
