/** Calendar dates as the application stores them (the `date` column of the
    `event` table) and their rendering in the YYYY-MM-DD layout, the complete
    representation in extended format of section 4.1.2.2 of ISO 8601:2004. */
module Dates {

  import opened Results

  /** A year, a month and a day, not yet known to name a real day. */
  datatype YearMonthDay = YMD(year: int, month: int, day: int)

  predicate IsLeapYear(y: int) {
    y % 4 == 0 && (y % 100 != 0 || y % 400 == 0)
  }

  function DaysInMonth(y: int, m: int): (n: int)
    requires 1 <= m <= 12
    ensures 28 <= n <= 31
    ensures m == 2 ==> (n == 29 <==> IsLeapYear(y))
  {
    if m == 2 then (if IsLeapYear(y) then 29 else 28)
    else if m == 4 || m == 6 || m == 9 || m == 11 then 30
    else 31
  }

  predicate IsValid(d: YearMonthDay) {
    && 1 <= d.year <= 9999
    && 1 <= d.month <= 12
    && 1 <= d.day <= DaysInMonth(d.year, d.month)
  }

  /** A day of the proleptic Gregorian calendar in the years 1 to 9999,
      which is the range of the dates the application can store. */
  type Date = d: YearMonthDay | IsValid(d) witness YMD(1, 1, 1)

  /** Chronological order: by year, then month, then day. */
  predicate NotAfter(a: Date, b: Date) {
    || a.year < b.year
    || (a.year == b.year && a.month < b.month)
    || (a.year == b.year && a.month == b.month && a.day <= b.day)
  }

  /** An integer key that orders dates as the database orders its `date` column. */
  function DateKey(d: Date): int {
    d.year * 10000 + d.month * 100 + d.day
  }

  lemma DateKeyOrder(a: Date, b: Date)
    ensures DateKey(a) <= DateKey(b) <==> NotAfter(a, b)
  {
  }

  // ---------------------------------------------------------------------------
  // Decimal digits

  predicate IsDigit(c: char) {
    '0' <= c <= '9'
  }

  predicate AllDigits(s: string) {
    forall i :: 0 <= i < |s| ==> IsDigit(s[i])
  }

  function DigitChar(n: int): (c: char)
    requires 0 <= n <= 9
    ensures IsDigit(c) && c as int - '0' as int == n
  {
    ('0' as int + n) as char
  }

  function DigitValue(c: char): (n: int)
    requires IsDigit(c)
    ensures 0 <= n <= 9 && DigitChar(n) == c
  {
    c as int - '0' as int
  }

  function Pow10(n: nat): (p: nat)
    ensures p >= 1
  {
    if n == 0 then 1 else 10 * Pow10(n - 1)
  }

  /** The number a string of decimal digits denotes, most significant first. */
  function DigitsValue(s: string): (n: int)
    requires AllDigits(s)
    ensures 0 <= n < Pow10(|s|)
  {
    if s == [] then 0 else DigitsValue(s[..|s| - 1]) * 10 + DigitValue(s[|s| - 1])
  }

  /** `n` written with exactly `width` decimal digits, zero-padded on the left
      (the `%Y`, `%m` and `%d` directives of strftime). */
  function PadDigits(n: int, width: nat): (s: string)
    requires 0 <= n < Pow10(width)
    ensures |s| == width && AllDigits(s) && DigitsValue(s) == n
  {
    if width == 0 then []
    else
      var s := PadDigits(n / 10, width - 1) + [DigitChar(n % 10)];
      assert s[..width - 1] == PadDigits(n / 10, width - 1);
      s
  }

  /** Writing the value of a digit string back with the same width gives the string. */
  lemma {:induction false} PadDigitsOfValue(s: string)
    requires AllDigits(s)
    ensures PadDigits(DigitsValue(s), |s|) == s
  {
    if s != [] {
      var init := s[..|s| - 1];
      PadDigitsOfValue(init);
      var n := DigitsValue(s);
      assert n / 10 == DigitsValue(init) && n % 10 == DigitValue(s[|s| - 1]);
      assert s == init + [s[|s| - 1]];
    }
  }

  // ---------------------------------------------------------------------------
  // The YYYY-MM-DD layout

  /** The date as `strftime('%Y-%m-%d')` writes it. */
  function FormatIsoDate(d: Date): (s: string)
    ensures |s| == 10 && s[4] == '-' && s[7] == '-'
    ensures AllDigits(s[..4]) && DigitsValue(s[..4]) == d.year
    ensures AllDigits(s[5..7]) && DigitsValue(s[5..7]) == d.month
    ensures AllDigits(s[8..]) && DigitsValue(s[8..]) == d.day
  {
    var y, m, dd := PadDigits(d.year, 4), PadDigits(d.month, 2), PadDigits(d.day, 2);
    var s := y + "-" + m + "-" + dd;
    assert s[..4] == y && s[5..7] == m && s[8..] == dd;
    s
  }

  /** The strict reading of the YYYY-MM-DD layout: exactly ten characters,
      digits and dashes in place, naming a real day. */
  function ParseIsoDate(s: string): Option<Date> {
    if |s| == 10 && s[4] == '-' && s[7] == '-'
       && AllDigits(s[..4]) && AllDigits(s[5..7]) && AllDigits(s[8..])
    then
      var d := YMD(DigitsValue(s[..4]), DigitsValue(s[5..7]), DigitsValue(s[8..]));
      if IsValid(d) then Some(d) else None
    else None
  }

  /** Reading back what the formatter wrote gives the date back. */
  lemma FormatThenParse(d: Date)
    ensures ParseIsoDate(FormatIsoDate(d)) == Some(d)
  {
  }

  /** A string the strict reading accepts is the formatter's output for the date
      it denotes: no two strings denote the same date. */
  lemma ParseThenFormat(s: string)
    requires ParseIsoDate(s).Some?
    ensures FormatIsoDate(ParseIsoDate(s).value) == s
  {
    var d := ParseIsoDate(s).value;
    PadDigitsOfValue(s[..4]);
    PadDigitsOfValue(s[5..7]);
    PadDigitsOfValue(s[8..]);
    var t := FormatIsoDate(d);
    assert t[..4] == s[..4] && t[5..7] == s[5..7] && t[8..] == s[8..];
    assert forall i :: 0 <= i < 10 ==> t[i] == s[i] by {
      forall i | 0 <= i < 10 ensures t[i] == s[i] {
        if i < 4 { assert t[i] == t[..4][i]; }
        else if 5 <= i < 7 { assert t[i] == t[5..7][i - 5]; }
        else if 8 <= i { assert t[i] == t[8..][i - 8]; }
      }
    }
  }
}
