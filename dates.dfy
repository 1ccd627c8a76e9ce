/** Calendar dates as explicit (year, month, day) values, with the two
    conversions the application relies on: reading an ISO `YYYY-MM-DD`
    string (what `new Date(s)` accepts from a date input) and printing the
    date part of `toISOString()`; and the one piece of date arithmetic it
    performs, `setFullYear(getFullYear() + 1)`. Time of day and time zones
    are not part of this model. */
module Dates {
  import opened Wrappers
  import opened Builtins

  datatype Date = Date(year: nat, month: nat, day: nat)

  predicate IsLeapYear(y: nat) {
    y % 4 == 0 && (y % 100 != 0 || y % 400 == 0)
  }

  function DaysInMonth(y: nat, m: nat): (r: nat)
    requires 1 <= m <= 12
    ensures 28 <= r <= 31
  {
    if m == 2 then (if IsLeapYear(y) then 29 else 28)
    else if m == 4 || m == 6 || m == 9 || m == 11 then 30
    else 31
  }

  predicate IsValid(d: Date) {
    1 <= d.month <= 12 && 1 <= d.day <= DaysInMonth(d.year, d.month)
  }

  /** Reads `YYYY-MM-DD`: exactly four year digits, two month digits and two
      day digits separated by '-', naming a real calendar day. Anything else
      is an invalid date. */
  function ParseIso(s: string): (r: Option<Date>)
    ensures r.Some? ==> IsValid(r.value) && r.value.year <= 9999
  {
    if |s| == 10 && s[4] == '-' && s[7] == '-'
       && IsDigitString(s[..4]) && IsDigitString(s[5..7]) && IsDigitString(s[8..])
    then
      DigitsValueBound(s[..4]);
      var d := Date(DigitsValue(s[..4]), DigitsValue(s[5..7]), DigitsValue(s[8..]));
      if IsValid(d) then Some(d) else None
    else None
  }

  /** The year as `toISOString` prints it: four digits up to 9999, and a
      sign with six digits beyond that. */
  function IsoYear(y: nat): string {
    if y <= 9999 then PadStart(NatToString(y), 4, '0')
    else "+" + PadStart(NatToString(y), 6, '0')
  }

  /** `date.toISOString().split('T')[0]`. */
  function FormatIso(d: Date): string {
    IsoYear(d.year) + "-" + PadStart(NatToString(d.month), 2, '0')
    + "-" + PadStart(NatToString(d.day), 2, '0')
  }

  /** Zero-padding `String(n)` to `k` places gives exactly `k` digits that
      denote `n`, when `n` has at most `k` digits. */
  lemma PaddedDigits(n: nat, k: nat)
    requires 1 <= k && n < Pow10(k)
    ensures |PadStart(NatToString(n), k, '0')| == k
    ensures IsDigitString(PadStart(NatToString(n), k, '0'))
    ensures DigitsValue(PadStart(NatToString(n), k, '0')) == n
  {
    NatToStringLength(n, k);
    PaddedValue(n, k);
  }

  /** The pieces of `YYYY-MM-DD` sit at fixed positions. */
  lemma IsoLayout(y: string, m: string, d: string)
    requires |y| == 4 && |m| == 2 && |d| == 2
    ensures var s := y + "-" + m + "-" + d;
            && |s| == 10 && s[4] == '-' && s[7] == '-'
            && s[..4] == y && s[5..7] == m && s[8..] == d
  {
    var s := y + "-" + m + "-" + d;
    assert s[..4] == y;
    assert s[5..7] == m;
    assert s[8..] == d;
  }

  /** Printing a date and reading it back gives the same date. */
  lemma FormatThenParse(d: Date)
    requires IsValid(d) && d.year <= 9999
    ensures ParseIso(FormatIso(d)) == Some(d)
  {
    var y := PadStart(NatToString(d.year), 4, '0');
    var m := PadStart(NatToString(d.month), 2, '0');
    var dd := PadStart(NatToString(d.day), 2, '0');
    PaddedDigits(d.year, 4);
    PaddedDigits(d.month, 2);
    PaddedDigits(d.day, 2);
    IsoLayout(y, m, dd);
    assert FormatIso(d) == y + "-" + m + "-" + dd;
  }

  /** An accepted ISO string is the canonical printing of its date, so
      reading then printing gives the same string back. */
  lemma ParseThenFormat(s: string)
    requires ParseIso(s).Some?
    ensures FormatIso(ParseIso(s).value) == s
  {
    var d := ParseIso(s).value;
    var ys, ms, ds := s[..4], s[5..7], s[8..];
    FixedDigitsOfValue(ys);
    FixedDigitsOfValue(ms);
    FixedDigitsOfValue(ds);
    DigitsValueBound(ys);
    DigitsValueBound(ms);
    DigitsValueBound(ds);
    PadStartIsFixedDigits(d.year, 4);
    PadStartIsFixedDigits(d.month, 2);
    PadStartIsFixedDigits(d.day, 2);
    assert s == ys + "-" + ms + "-" + ds;
  }

  /** `setFullYear(getFullYear() + 1)`: the same month and day one year
      later; a day that does not exist in that month of the new year rolls
      over into the next month, as the JavaScript date arithmetic does. */
  function NextYear(d: Date): (r: Date)
    requires IsValid(d)
    ensures IsValid(r) && r.year == d.year + 1
  {
    var dim := DaysInMonth(d.year + 1, d.month);
    if d.day <= dim then Date(d.year + 1, d.month, d.day)
    else Date(d.year + 1, d.month + 1, d.day - dim)
  }

  /** Every day other than 29 February keeps its month and day. */
  lemma NextYearKeepsMonthAndDay(d: Date)
    requires IsValid(d) && !(d.month == 2 && d.day == 29)
    ensures NextYear(d) == Date(d.year + 1, d.month, d.day)
  {
  }

  /** The year after a leap year is a common year. */
  lemma FollowsLeapYear(y: nat)
    requires IsLeapYear(y)
    ensures !IsLeapYear(y + 1)
  {
    var q := y / 4;
    assert y == 4 * q;
    assert y + 1 == 4 * q + 1;
  }

  /** 29 February becomes 1 March, because the year after a leap year is
      never a leap year. */
  lemma NextYearOfLeapDay(d: Date)
    requires IsValid(d) && d.month == 2 && d.day == 29
    ensures NextYear(d) == Date(d.year + 1, 3, 1)
  {
    assert IsLeapYear(d.year);
    FollowsLeapYear(d.year);
  }
}
