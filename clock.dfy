/** Civil dates and the two `strftime` formats the handler uses:
    "%Y-%m-%d" for today's date and "%Y-%m-%d %H:%M:%S" for a row's
    timestamp. */
module Clock {
  import opened Text
  import opened Wrappers

  datatype CivilDate = CivilDate(year: int, month: int, day: int)
  datatype CivilDateTime = CivilDateTime(date: CivilDate, hour: int, minute: int, second: int)

  predicate IsLeapYear(y: int) {
    y % 4 == 0 && (y % 100 != 0 || y % 400 == 0)
  }

  function DaysInMonth(y: int, m: int): int
    requires 1 <= m <= 12
  {
    if m == 2 then (if IsLeapYear(y) then 29 else 28)
    else if m == 4 || m == 6 || m == 9 || m == 11 then 30
    else 31
  }

  /** A date Python's `date` can hold, restricted to four-digit years. */
  predicate ValidDate(d: CivilDate) {
    && 1000 <= d.year <= 9999
    && 1 <= d.month <= 12
    && 1 <= d.day <= DaysInMonth(d.year, d.month)
  }

  type Date = d: CivilDate | ValidDate(d) witness CivilDate(2000, 1, 1)

  predicate ValidDateTime(t: CivilDateTime) {
    && ValidDate(t.date)
    && 0 <= t.hour < 24 && 0 <= t.minute < 60 && 0 <= t.second < 60
  }

  type DateTime = t: CivilDateTime | ValidDateTime(t) witness CivilDateTime(CivilDate(2000, 1, 1), 0, 0, 0)

  function Digit(n: int): (c: char)
    requires 0 <= n <= 9
    ensures '0' <= c <= '9' && DigitValue(c) == n
  {
    ('0' as int + n) as char
  }

  function DigitValue(c: char): int {
    c as int - '0' as int
  }

  predicate IsDigit(c: char) {
    '0' <= c <= '9'
  }

  /** A number in zero-padded decimal of the given width, as `%m` and `%Y` print it. */
  function Padded(n: int, width: nat): (s: string)
    requires 0 <= n
    ensures |s| == width
    ensures forall i :: 0 <= i < |s| ==> IsDigit(s[i])
    decreases width
  {
    if width == 0 then [] else Padded(n / 10, width - 1) + [Digit(n % 10)]
  }

  /** The value of a string of decimal digits (the inverse of Padded). */
  function DecimalValue(s: string): int {
    if s == [] then 0 else 10 * DecimalValue(s[..|s| - 1]) + DigitValue(s[|s| - 1])
  }

  function Power10(k: nat): (p: nat)
    ensures p >= 1
  {
    if k == 0 then 1 else 10 * Power10(k - 1)
  }

  /** Any number below 10^width survives printing and reading back. */
  lemma {:induction false} DecimalValuePadded(n: int, width: nat)
    requires 0 <= n < Power10(width)
    ensures DecimalValue(Padded(n, width)) == n
    decreases width
  {
    if width > 0 {
      var s := Padded(n, width);
      assert s[..|s| - 1] == Padded(n / 10, width - 1);
      DecimalValuePadded(n / 10, width - 1);
    }
  }

  /** `date.strftime("%Y-%m-%d")`. */
  function FormatDate(d: Date): (s: string)
    ensures |s| == 10 && s[4] == '-' && s[7] == '-'
  {
    Padded(d.year, 4) + "-" + Padded(d.month, 2) + "-" + Padded(d.day, 2)
  }

  /** `datetime.strftime("%Y-%m-%d %H:%M:%S")`: today's date string followed
      by a space and the time of day. */
  function FormatDateTime(t: DateTime): (s: string)
    ensures |s| == 19
    ensures StartsWith(s, FormatDate(t.date))
  {
    FormatDate(t.date) + " " + Padded(t.hour, 2) + ":" + Padded(t.minute, 2) + ":" + Padded(t.second, 2)
  }

  /** Reads a "YYYY-MM-DD" string back into a date; None when the string does
      not have that shape or names no valid date. */
  function ParseDate(s: string): (r: Option<Date>)
    ensures r.Some? ==> |s| == 10
  {
    if |s| == 10 && s[4] == '-' && s[7] == '-' then
      var d := CivilDate(DecimalValue(s[..4]), DecimalValue(s[5..7]), DecimalValue(s[8..]));
      if ValidDate(d) then Some(d) else None
    else None
  }

  /** Reading back what `%Y-%m-%d` printed gives the date itself. */
  lemma ParseFormatDate(d: Date)
    ensures ParseDate(FormatDate(d)) == Some(d)
  {
    var s := FormatDate(d);
    assert s[..4] == Padded(d.year, 4);
    assert s[5..7] == Padded(d.month, 2);
    assert s[8..] == Padded(d.day, 2);
    DecimalValuePadded(d.year, 4);
    DecimalValuePadded(d.month, 2);
    DecimalValuePadded(d.day, 2);
  }

  /** Two dates print alike only if they are the same date. */
  lemma FormatDateInjective(d1: Date, d2: Date)
    ensures FormatDate(d1) == FormatDate(d2) ==> d1 == d2
  {
    ParseFormatDate(d1);
    ParseFormatDate(d2);
  }

  /** The prefix test of the duplicate check is exact: a formatted timestamp
      starts with a date's "%Y-%m-%d" string exactly when it was taken on that
      date. */
  lemma StampOnDay(t: DateTime, d: Date)
    ensures StartsWith(FormatDateTime(t), FormatDate(d)) <==> t.date == d
  {
    var s := FormatDateTime(t);
    if StartsWith(s, FormatDate(d)) {
      assert FormatDate(d) == s[..10] == FormatDate(t.date);
      FormatDateInjective(d, t.date);
    }
  }
}
