/**
 * Calendar dates, and the `%Y-%m-%d` parser the summary endpoint applies to
 * its `date` query parameter.
 *
 * The parser follows the pattern Python's `strptime` builds for that format:
 * exactly four digits for the year, then `-`, then a month of one or two
 * digits (`1[0-2]|0[1-9]|[1-9]`), then `-`, then a day written as one of
 * `3[01]`, `[12]\d`, `0[1-9]`, `[1-9]` or a space and `[1-9]`; the first
 * alternative that matches must consume the rest of the text. The matched
 * numbers must then form a real Gregorian date in years 1 to 9999.
 */
module Dates {
  import opened Outcomes

  datatype Date = Date(year: int, month: int, day: int)

  predicate IsLeapYear(year: int) {
    year % 4 == 0 && (year % 100 != 0 || year % 400 == 0)
  }

  function DaysInMonth(year: int, month: int): int
    requires 1 <= month <= 12
  {
    if month == 2 then (if IsLeapYear(year) then 29 else 28)
    else if month == 4 || month == 6 || month == 9 || month == 11 then 30
    else 31
  }

  predicate ValidDate(d: Date) {
    1 <= d.year <= 9999 && 1 <= d.month <= 12 && 1 <= d.day <= DaysInMonth(d.year, d.month)
  }

  predicate IsDigit(c: char) {
    '0' <= c <= '9'
  }

  predicate AllDigits(s: string) {
    forall i | 0 <= i < |s| :: IsDigit(s[i])
  }

  function DigitValue(c: char): int
    requires IsDigit(c)
  {
    c as int - '0' as int
  }

  function DigitChar(n: int): (c: char)
    requires 0 <= n <= 9
    ensures IsDigit(c) && DigitValue(c) == n
  {
    ('0' as int + n) as char
  }

  /** The number a string of decimal digits denotes. */
  function DigitsValue(s: string): nat
    requires AllDigits(s)
    decreases |s|
  {
    if s == [] then 0 else DigitsValue(s[..|s| - 1]) * 10 + DigitValue(s[|s| - 1])
  }

  /** What `1[0-2]|0[1-9]|[1-9]` accepts. */
  predicate MonthToken(t: string) {
    || (|t| == 1 && '1' <= t[0] <= '9')
    || (|t| == 2 && t[0] == '1' && '0' <= t[1] <= '2')
    || (|t| == 2 && t[0] == '0' && '1' <= t[1] <= '9')
  }

  /** The texts `3[01]|[12]\d|0[1-9]|[1-9]| [1-9]` matches in full. */
  predicate DayToken(t: string) {
    || (|t| == 1 && '1' <= t[0] <= '9')
    || (|t| == 2 && t[0] == '3' && '0' <= t[1] <= '1')
    || (|t| == 2 && '1' <= t[0] <= '2' && IsDigit(t[1]))
    || (|t| == 2 && t[0] == '0' && '1' <= t[1] <= '9')
    || (|t| == 2 && t[0] == ' ' && '1' <= t[1] <= '9')
  }

  function DayTokenValue(t: string): int
    requires DayToken(t)
  {
    if t[0] == ' ' then DigitValue(t[1]) else DigitsValue(t)
  }

  /** `datetime.strptime(s, "%Y-%m-%d").date()`, failing with MalformedDate. */
  function ParseDate(s: string): (r: Result<Date>)
    ensures r.Ok? ==> ValidDate(r.value)
    ensures r.Err? ==> r.error == MalformedDate
  {
    if |s| < 5 || !AllDigits(s[..4]) || s[4] != '-' then Err(MalformedDate)
    else
      var rest := s[5..];
      var monthLength := if |rest| >= 2 && rest[1] == '-' then 1
                         else if |rest| >= 3 && rest[2] == '-' then 2
                         else 0;
      if monthLength == 0 || !MonthToken(rest[..monthLength]) then Err(MalformedDate)
      else
        var dayText := rest[monthLength + 1..];
        if !DayToken(dayText) then Err(MalformedDate)
        else
          var d := Date(DigitsValue(s[..4]), DigitsValue(rest[..monthLength]), DayTokenValue(dayText));
          if ValidDate(d) then Ok(d) else Err(MalformedDate)
  }

  /**
   * `t` is a month token of `k` characters, then `-`, then a day token,
   * spelling month `d.month` and day `d.day`.
   */
  predicate SpellsMonthDay(t: string, k: nat, d: Date) {
    && k < |t| && t[k] == '-'
    && MonthToken(t[..k]) && AllDigits(t[..k]) && DigitsValue(t[..k]) == d.month
    && DayToken(t[k + 1..]) && DayTokenValue(t[k + 1..]) == d.day
  }

  /** `s` matches `%Y-%m-%d` in full, and its three fields spell `d`. */
  predicate Spells(s: string, d: Date) {
    && |s| >= 5 && AllDigits(s[..4]) && DigitsValue(s[..4]) == d.year && s[4] == '-'
    && (SpellsMonthDay(s[5..], 1, d) || SpellsMonthDay(s[5..], 2, d))
  }

  /** The parser accepts exactly the texts that spell a valid date, and returns that date. */
  lemma ParseDateSpells(s: string, d: Date)
    ensures ParseDate(s) == Ok(d) <==> Spells(s, d) && ValidDate(d)
  {
    if Spells(s, d) && SpellsMonthDay(s[5..], 2, d) {
      assert '0' <= s[5..][1] <= '9';
    }
  }

  function Pad2(n: int): (s: string)
    requires 0 <= n < 100
  {
    [DigitChar(n / 10), DigitChar(n % 10)]
  }

  function Pad4(n: int): (s: string)
    requires 0 <= n < 10000
  {
    Pad2(n / 100) + Pad2(n % 100)
  }

  /** `date.isoformat()`: the form in which dates are written out. */
  function FormatDate(d: Date): (s: string)
    requires ValidDate(d)
  {
    Pad4(d.year) + "-" + Pad2(d.month) + "-" + Pad2(d.day)
  }

  lemma Pad2Value(n: int)
    requires 0 <= n < 100
    ensures AllDigits(Pad2(n)) && DigitsValue(Pad2(n)) == n
  {
    var s := Pad2(n);
    assert s[..1] == [s[0]];
    assert DigitsValue(s[..1]) == DigitsValue([]) * 10 + DigitValue(s[0]);
  }

  lemma Pad4Value(n: int)
    requires 0 <= n < 10000
    ensures AllDigits(Pad4(n)) && DigitsValue(Pad4(n)) == n
  {
    var s := Pad4(n);
    Pad2Value(n / 100);
    Pad2Value(n % 100);
    assert s[..3][..2] == s[..2] == Pad2(n / 100);
    assert DigitsValue(s[..3]) == DigitsValue(Pad2(n / 100)) * 10 + DigitValue(s[2]);
    assert s[..4] == s;
    assert DigitValue(s[2]) == n % 100 / 10 && DigitValue(s[3]) == n % 100 % 10;
  }

  /** Every date the summary endpoint writes out is read back as the same date. */
  lemma {:induction false} ParseFormatRoundTrip(d: Date)
    requires ValidDate(d)
    ensures ParseDate(FormatDate(d)) == Ok(d)
  {
    var s := FormatDate(d);
    Pad4Value(d.year);
    Pad2Value(d.month);
    Pad2Value(d.day);
    assert s[..4] == Pad4(d.year);
    var rest := s[5..];
    assert rest == Pad2(d.month) + "-" + Pad2(d.day);
    assert rest[..2] == Pad2(d.month);
    assert rest[3..] == Pad2(d.day);
  }

  /** The day-first form used by many locales is refused, as is free text. */
  lemma ParseRejectsNonIsoText()
    ensures ParseDate("31-07-2023") == Err(MalformedDate)
    ensures ParseDate("invalid_date") == Err(MalformedDate)
  {
    assert !IsDigit("31-07-2023"[2]);
    assert !IsDigit("invalid_date"[0]);
  }

  /** Month and day need not be zero-padded, and a space may pad the day. */
  lemma ParseAcceptsUnpaddedFields()
    ensures ParseDate("2023-7-31") == Ok(Date(2023, 7, 31))
    ensures ParseDate("2023-07- 5") == Ok(Date(2023, 7, 5))
  {
    var s := "2023-7-31";
    assert s[..4] == "2023" && AllDigits("2023");
    assert DigitsValue("2023") == 2023 by {
      assert "2023"[..3] == "202" && "202"[..2] == "20" && "20"[..1] == "2" && "2"[..0] == [];
    }
    assert s[5..][..1] == "7" && s[5..][2..] == "31";
    assert DigitsValue("7") == 7 by { assert "7"[..0] == []; }
    assert DigitsValue("31") == 31 by { assert "31"[..1] == "3" && "3"[..0] == []; }
    var t := "2023-07- 5";
    assert t[..4] == "2023";
    assert t[5..][..2] == "07" && t[5..][3..] == " 5";
    assert DigitsValue("07") == 7 by { assert "07"[..1] == "0" && "0"[..0] == []; }
  }

  /** The calendar is checked after the pattern: 29 February only in leap years. */
  lemma ParseChecksCalendar()
    ensures ParseDate("2023-02-29") == Err(MalformedDate)
    ensures ParseDate("2024-02-29") == Ok(Date(2024, 2, 29))
  {
    var s := "2023-02-29";
    assert s[..4] == "2023" && s[5..][..2] == "02" && s[5..][3..] == "29";
    assert DigitsValue("2023") == 2023 by {
      assert "2023"[..3] == "202" && "202"[..2] == "20" && "20"[..1] == "2" && "2"[..0] == [];
    }
    assert DigitsValue("02") == 2 by { assert "02"[..1] == "0" && "0"[..0] == []; }
    assert DigitsValue("29") == 29 by { assert "29"[..1] == "2" && "2"[..0] == []; }
    var t := "2024-02-29";
    assert t[..4] == "2024" && t[5..][..2] == "02" && t[5..][3..] == "29";
    assert DigitsValue("2024") == 2024 by {
      assert "2024"[..3] == "202" && "202"[..2] == "20" && "20"[..1] == "2" && "2"[..0] == [];
    }
  }
}
