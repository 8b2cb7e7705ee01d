/**
 * Calendar days and the "YYYY-MM-DD" strings a date input produces, which
 * `new Date(date)` reads as the start of that day.
 */
module Calendar {
  import opened Wrappers

  datatype Day = Day(year: int, month: int, day: int)

  /** `a` is an earlier calendar day than `b`. */
  predicate Before(a: Day, b: Day)
  {
    || a.year < b.year
    || (a.year == b.year && a.month < b.month)
    || (a.year == b.year && a.month == b.month && a.day < b.day)
  }

  /** A day that a four-digit "YYYY-MM-DD" string can denote. */
  predicate IsIsoDay(d: Day)
  {
    0 <= d.year <= 9999 && 1 <= d.month <= 12 && 1 <= d.day <= 31
  }

  predicate IsDigit(c: char)
  {
    '0' <= c <= '9'
  }

  function DigitValue(c: char): (n: nat)
    requires IsDigit(c)
    ensures n < 10
  {
    c as int - '0' as int
  }

  function DigitChar(n: nat): (c: char)
    requires n < 10
    ensures IsDigit(c) && DigitValue(c) == n
  {
    ('0' as int + n) as char
  }

  /** The value of the two decimal digits `s[i]` and `s[i + 1]`. */
  function TwoDigits(s: string, i: nat): (n: nat)
    requires i + 1 < |s| && IsDigit(s[i]) && IsDigit(s[i + 1])
    ensures n < 100
  {
    DigitValue(s[i]) * 10 + DigitValue(s[i + 1])
  }

  predicate HasIsoShape(s: string)
  {
    && |s| == 10 && s[4] == '-' && s[7] == '-'
    && IsDigit(s[0]) && IsDigit(s[1]) && IsDigit(s[2]) && IsDigit(s[3])
    && IsDigit(s[5]) && IsDigit(s[6]) && IsDigit(s[8]) && IsDigit(s[9])
  }

  /**
   * The day `new Date(s)` denotes for a date-only ISO string, or `None` when
   * the string is not one (the Date is then invalid and compares false with
   * every time).
   */
  function ParseIsoDate(s: string): (r: Option<Day>)
    ensures r.Some? ==> IsIsoDay(r.value)
  {
    if HasIsoShape(s) then
      var d := Day(TwoDigits(s, 0) * 100 + TwoDigits(s, 2), TwoDigits(s, 5), TwoDigits(s, 8));
      if IsIsoDay(d) then Some(d) else None
    else None
  }

  /** The two-digit spelling of `n`, with a leading zero below ten. */
  function PadTwo(n: nat): (s: string)
    requires n < 100
    ensures |s| == 2 && IsDigit(s[0]) && IsDigit(s[1]) && TwoDigits(s, 0) == n
  {
    [DigitChar(n / 10), DigitChar(n % 10)]
  }

  /** The "YYYY-MM-DD" spelling of `d`. */
  function FormatIsoDate(d: Day): (s: string)
    requires IsIsoDay(d)
    ensures HasIsoShape(s)
  {
    PadTwo(d.year / 100) + PadTwo(d.year % 100) + "-" + PadTwo(d.month) + "-" + PadTwo(d.day)
  }

  /** Reading back a formatted day gives that day. */
  lemma ParseFormat(d: Day)
    requires IsIsoDay(d)
    ensures ParseIsoDate(FormatIsoDate(d)) == Some(d)
  {
  }

  lemma SplitHundreds(hi: nat, lo: nat)
    requires lo < 100
    ensures (hi * 100 + lo) / 100 == hi && (hi * 100 + lo) % 100 == lo
  {
  }

  /** The two-digit spelling of the value of two digits is those digits. */
  lemma PadTwoDigits(s: string, i: nat)
    requires i + 1 < |s| && IsDigit(s[i]) && IsDigit(s[i + 1])
    ensures PadTwo(TwoDigits(s, i)) == s[i..i + 2]
  {
  }

  /** Every string that parses is the spelling of the day it denotes. */
  lemma FormatParse(s: string)
    requires ParseIsoDate(s).Some?
    ensures FormatIsoDate(ParseIsoDate(s).value) == s
  {
    var d := ParseIsoDate(s).value;
    SplitHundreds(TwoDigits(s, 0), TwoDigits(s, 2));
    PadTwoDigits(s, 0);
    PadTwoDigits(s, 2);
    PadTwoDigits(s, 5);
    PadTwoDigits(s, 8);
    assert s == s[0..2] + s[2..4] + "-" + s[5..7] + "-" + s[8..10];
  }
}
