/** Calendar dates and their ISO 8601 text `YYYY-MM-DD`: the form of
    `date.isoformat()` and of SQLite's CURRENT_DATE, which the pipeline stores
    and compares as text. */
module Dates {
  import opened Common

  datatype CalendarDate = CalendarDate(year: int, month: int, day: int)

  /** A Python `datetime.date` (years 1 to 9999). */
  type Date = d: CalendarDate | 1 <= d.year <= 9999 && 1 <= d.month <= 12 && 1 <= d.day <= 31
    witness CalendarDate(1970, 1, 1)

  predicate IsDigit(c: char) {
    '0' <= c <= '9'
  }

  function DigitChar(n: int): (c: char)
    requires 0 <= n <= 9
    ensures IsDigit(c) && DigitValue(c) == n
  {
    ('0' as int + n) as char
  }

  function DigitValue(c: char): int {
    c as int - '0' as int
  }

  function Pad2(n: int): (s: string)
    requires 0 <= n <= 99
  {
    [DigitChar(n / 10), DigitChar(n % 10)]
  }

  function Pad4(n: int): (s: string)
    requires 0 <= n <= 9999
  {
    [DigitChar(n / 1000), DigitChar(n / 100 % 10), DigitChar(n / 10 % 10), DigitChar(n % 10)]
  }

  /** `date.isoformat()`: four-digit year, two-digit month and day, dash separated. */
  function IsoFormat(d: Date): (s: string)
    ensures |s| == 10 && s[4] == '-' && s[7] == '-'
    ensures forall k :: 0 <= k < 10 && k != 4 && k != 7 ==> IsDigit(s[k])
  {
    Pad4(d.year) + "-" + Pad2(d.month) + "-" + Pad2(d.day)
  }

  /** Reads `YYYY-MM-DD` back; None for any other text. */
  function ParseIso(s: string): (r: Option<Date>)
    ensures r.Some? ==> |s| == 10
  {
    if |s| == 10 && s[4] == '-' && s[7] == '-'
       && (forall k :: 0 <= k < 10 && k != 4 && k != 7 ==> IsDigit(s[k]))
    then
      var y := 1000 * DigitValue(s[0]) + 100 * DigitValue(s[1]) + 10 * DigitValue(s[2]) + DigitValue(s[3]);
      var m := 10 * DigitValue(s[5]) + DigitValue(s[6]);
      var d := 10 * DigitValue(s[8]) + DigitValue(s[9]);
      if 1 <= y <= 9999 && 1 <= m <= 12 && 1 <= d <= 31 then Some(CalendarDate(y, m, d)) else None
    else None
  }

  /** The four decimal digits of n give n back. */
  lemma FourDigits(n: int)
    requires 0 <= n <= 9999
    ensures 1000 * (n / 1000) + 100 * (n / 100 % 10) + 10 * (n / 10 % 10) + n % 10 == n
  {
    var q1 := n / 10;
    var q2 := q1 / 10;
    var q3 := q2 / 10;
    assert n == 10 * q1 + n % 10;
    assert q1 == 10 * q2 + q1 % 10;
    assert q2 == 10 * q3 + q2 % 10;
    assert q2 == n / 100;
    assert q3 == n / 1000;
  }

  /** Reading the ISO text of a date gives the date back. */
  lemma IsoRoundTrip(d: Date)
    ensures ParseIso(IsoFormat(d)) == Some(d)
  {
    var s := IsoFormat(d);
    assert s[0] == DigitChar(d.year / 1000) && s[1] == DigitChar(d.year / 100 % 10);
    assert s[2] == DigitChar(d.year / 10 % 10) && s[3] == DigitChar(d.year % 10);
    assert s[5] == DigitChar(d.month / 10) && s[6] == DigitChar(d.month % 10);
    assert s[8] == DigitChar(d.day / 10) && s[9] == DigitChar(d.day % 10);
    FourDigits(d.year);
    assert 10 * (d.month / 10) + d.month % 10 == d.month;
    assert 10 * (d.day / 10) + d.day % 10 == d.day;
  }

  /** Two dates have the same ISO text exactly when they are the same date, so
      SQL's text comparison `date(date_added) = ?` is date equality. */
  lemma IsoFormatInjective(a: Date, b: Date)
    ensures IsoFormat(a) == IsoFormat(b) <==> a == b
  {
    IsoRoundTrip(a);
    IsoRoundTrip(b);
  }
}
