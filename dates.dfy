/**
 * Calendar dates and their rendering with the `%d-%m-%Y` format used for the
 * "Last Updated" column (app.py:64 and app.py:195).
 */
module Dates {

  datatype Date = Date(day: nat, month: nat, year: nat)

  predicate IsLeapYear(year: nat) {
    year % 4 == 0 && (year % 100 != 0 || year % 400 == 0)
  }

  function DaysInMonth(month: nat, year: nat): nat {
    if month == 2 then (if IsLeapYear(year) then 29 else 28)
    else if month == 4 || month == 6 || month == 9 || month == 11 then 30
    else 31
  }

  /** A day of the Gregorian calendar whose year `%Y` renders with four digits. */
  predicate IsCalendarDate(d: Date) {
    && 1 <= d.month <= 12
    && 1 <= d.day <= DaysInMonth(d.month, d.year)
    && 1000 <= d.year <= 9999
  }

  type CalendarDate = d: Date | IsCalendarDate(d) witness Date(1, 1, 2000)

  predicate IsDigit(c: char) {
    '0' <= c <= '9'
  }

  function Digit(n: nat): (c: char)
    requires n < 10
    ensures IsDigit(c) && c as int - '0' as int == n
  {
    ('0' as int + n) as char
  }

  /** The number a string of decimal digits denotes. */
  function Decimal(s: string): int {
    if s == [] then 0 else 10 * Decimal(s[..|s| - 1]) + (s[|s| - 1] as int - '0' as int)
  }

  /** `n` with a leading zero, as `%d` and `%m` print it. */
  function TwoDigits(n: nat): (s: string)
    requires n < 100
  {
    [Digit(n / 10), Digit(n % 10)]
  }

  function FourDigits(n: nat): (s: string)
    requires n < 10000
  {
    TwoDigits(n / 100) + TwoDigits(n % 100)
  }

  lemma TwoDigitsDenote(n: nat)
    requires n < 100
    ensures |TwoDigits(n)| == 2 && IsDigit(TwoDigits(n)[0]) && IsDigit(TwoDigits(n)[1])
    ensures Decimal(TwoDigits(n)) == n
  {
    var s := TwoDigits(n);
    assert s[..1] == [Digit(n / 10)];
    assert s[..1][..0] == [];
    assert Decimal(s[..1]) == n / 10;
    assert Decimal(s) == 10 * (n / 10) + n % 10;
  }

  lemma FourDigitsDenote(n: nat)
    requires n < 10000
    ensures |FourDigits(n)| == 4 && forall k :: 0 <= k < 4 ==> IsDigit(FourDigits(n)[k])
    ensures Decimal(FourDigits(n)) == n
  {
    var hi, lo := TwoDigits(n / 100), TwoDigits(n % 100);
    TwoDigitsDenote(n / 100);
    TwoDigitsDenote(n % 100);
    var s := hi + lo;
    assert s[..3] == hi + [lo[0]];
    assert s[..3][..2] == hi;
    calc {
      Decimal(s);
      10 * Decimal(s[..3]) + (lo[1] as int - '0' as int);
      10 * (10 * Decimal(hi) + (lo[0] as int - '0' as int)) + (lo[1] as int - '0' as int);
      100 * Decimal(hi) + Decimal(lo);
    }
  }

  /** `strftime("%d-%m-%Y")`: day and month with a leading zero, four-digit year, dashes between. */
  function Format(d: CalendarDate): (s: string)
    ensures |s| == 10 && s[2] == '-' && s[5] == '-'
    ensures forall k :: 0 <= k < 10 && k != 2 && k != 5 ==> IsDigit(s[k])
    ensures Decimal(s[0..2]) == d.day && Decimal(s[3..5]) == d.month && Decimal(s[6..10]) == d.year
  {
    TwoDigitsDenote(d.day);
    TwoDigitsDenote(d.month);
    FourDigitsDenote(d.year);
    var s := TwoDigits(d.day) + "-" + TwoDigits(d.month) + "-" + FourDigits(d.year);
    assert s[0..2] == TwoDigits(d.day);
    assert s[3..5] == TwoDigits(d.month);
    assert s[6..10] == FourDigits(d.year);
    s
  }

  /** Two different days never receive the same "Last Updated" stamp. */
  lemma FormatInjective(a: CalendarDate, b: CalendarDate)
    requires Format(a) == Format(b)
    ensures a == b
  {
  }
}
