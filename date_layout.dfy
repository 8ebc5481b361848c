/**
 * The calendar-date text layout "2006-01-02" (four-digit year, two-digit month,
 * two-digit day, separated by '-'), as the store formats "today" and as the
 * month filter parses stored dates. This follows the behaviour of Go's time
 * package for this one layout; the time package itself is not part of this model.
 */
module DateLayout {
  import opened Options
  import opened Decimal

  datatype CalendarDate = CalendarDate(year: int, month: int, day: int)

  predicate IsLeap(year: int) {
    year % 4 == 0 && (year % 100 != 0 || year % 400 == 0)
  }

  function DaysIn(month: int, year: int): (n: int)
    requires 1 <= month <= 12
    ensures 28 <= n <= 31
    ensures n == 29 <==> month == 2 && IsLeap(year)
  {
    if month == 2 then (if IsLeap(year) then 29 else 28)
    else if month == 4 || month == 6 || month == 9 || month == 11 then 30
    else 31
  }

  /** A real calendar date whose year fits the layout's four digits. */
  predicate IsValid(d: CalendarDate) {
    0 <= d.year <= 9999 && 1 <= d.month <= 12 && 1 <= d.day <= DaysIn(d.month, d.year)
  }

  /** The shape of the layout: four digits, '-', two digits, '-', two digits. */
  predicate IsDateText(s: string) {
    && |s| == 10
    && IsDigit(s[0]) && IsDigit(s[1]) && IsDigit(s[2]) && IsDigit(s[3])
    && s[4] == '-'
    && IsDigit(s[5]) && IsDigit(s[6])
    && s[7] == '-'
    && IsDigit(s[8]) && IsDigit(s[9])
  }

  /** Reads a date in the layout; None for anything else: a wrong length or
      separator, a non-digit, a month outside 1..12, or a day the month lacks. */
  function Parse(s: string): (r: Option<CalendarDate>)
    ensures r.Some? ==> IsValid(r.value) && IsDateText(s)
  {
    if IsDateText(s) then
      var year := 1000 * DigitValue(s[0]) + 100 * DigitValue(s[1]) + 10 * DigitValue(s[2]) + DigitValue(s[3]);
      var month := 10 * DigitValue(s[5]) + DigitValue(s[6]);
      var day := 10 * DigitValue(s[8]) + DigitValue(s[9]);
      if 1 <= month <= 12 && 1 <= day <= DaysIn(month, year) then Some(CalendarDate(year, month, day)) else None
    else
      None
  }

  /** Prints a date in the layout, each field zero-padded to its width. */
  function Format(d: CalendarDate): (s: string)
    requires IsValid(d)
    ensures IsDateText(s)
  {
    [ DigitChar(d.year / 10 / 10 / 10), DigitChar(d.year / 10 / 10 % 10), DigitChar(d.year / 10 % 10), DigitChar(d.year % 10),
      '-', DigitChar(d.month / 10), DigitChar(d.month % 10),
      '-', DigitChar(d.day / 10), DigitChar(d.day % 10) ]
  }

  /** Every date the store prints reads back as the same date. */
  lemma ParseOfFormat(d: CalendarDate)
    requires IsValid(d)
    ensures Parse(Format(d)) == Some(d)
  {
    var y := d.year;
    assert y == 1000 * (y / 10 / 10 / 10) + 100 * (y / 10 / 10 % 10) + 10 * (y / 10 % 10) + y % 10;
    assert d.month == 10 * (d.month / 10) + d.month % 10;
    assert d.day == 10 * (d.day / 10) + d.day % 10;
  }

  /** Every text the layout accepts is exactly the printed form of its date. */
  lemma FormatOfParse(s: string)
    requires Parse(s).Some?
    ensures Format(Parse(s).value) == s
  {
    var d := Parse(s).value;
    var a, b, c, e := DigitValue(s[0]), DigitValue(s[1]), DigitValue(s[2]), DigitValue(s[3]);
    assert d.year == 10 * (100 * a + 10 * b + c) + e;
    assert d.year / 10 == 100 * a + 10 * b + c && d.year % 10 == e;
    assert d.year / 10 / 10 == 10 * a + b && d.year / 10 % 10 == c;
    assert d.year / 10 / 10 / 10 == a && d.year / 10 / 10 % 10 == b;
    assert d.month / 10 == DigitValue(s[5]) && d.month % 10 == DigitValue(s[6]);
    assert d.day / 10 == DigitValue(s[8]) && d.day % 10 == DigitValue(s[9]);
    var f := Format(d);
    forall i | 0 <= i < 10
      ensures f[i] == s[i]
    {
    }
  }

}
