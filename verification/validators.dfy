/**
 * The input checks the scheduling forms apply before anything reaches the
 * store: a clock time read as `%H:%M`, a calendar date read as `%Y-%m-%d`
 * within the range of Python's `date` (years 1 to 9999, Gregorian month
 * lengths), a surgery duration in minutes and an entity name. Each check
 * answers with a verdict and the message shown when it fails. The date check
 * accepts every "YYYY-MM-DD" naming a real day, and also the one-digit and
 * space-padded month and day fields `%m` and `%d` allow.
 */
module Validators {
  import opened Wrappers
  import opened TimeOfDay

  const TimeFormatMessage: string := "Invalid time format. Use HH:MM (e.g., 09:00)"
  const DateFormatMessage: string := "Invalid date format. Use YYYY-MM-DD (e.g., 2025-01-15)"
  const TooShortMessage: string := "Duration too short. Minimum 30 minutes"
  const TooLongMessage: string := "Duration too long. Maximum 10 hours (600 minutes)"
  const EmptyNameMessage: string := "Name cannot be empty"
  const LongNameMessage: string := "Name too long. Maximum 100 characters"

  /** Shortest and longest accepted durations, in minutes, and the longest accepted name. */
  const MinDuration: int := 30
  const MaxDuration: int := 600
  const MaxNameLength: int := 100

  // ------------------------------------------------------------- numbers

  /** The value of a string of decimal digits. */
  function Decimal(f: string): nat
    requires AllDigits(f)
    decreases |f|
  {
    if f == [] then 0 else 10 * Decimal(f[..|f| - 1]) + DigitValue(f[|f| - 1])
  }

  /** One or two digits whose value lies in [lo, hi]. */
  predicate InRange(f: string, lo: nat, hi: nat) {
    (|f| == 1 || |f| == 2) && AllDigits(f) && lo <= Decimal(f) <= hi
  }

  // ---------------------------------------------------------------- time

  /** Reference reading of "HH:MM": hour 0..23 and minute 0..59, one or two digits each, around one colon. */
  predicate IsClockTime(s: string) {
    exists i | 0 <= i < |s| :: s[i] == ':' && InRange(s[..i], 0, 23) && InRange(s[i + 1..], 0, 59)
  }

  function ValidateTimeFormat(s: string): (r: (bool, string))
    ensures r.0 <==> IsClockTime(s)
    ensures r.1 == if r.0 then "" else TimeFormatMessage
  {
    ClockTimeIffParses(s);
    if ParseHourMinute(s).Some? then (true, "") else (false, TimeFormatMessage)
  }

  // ---------------------------------------------------------------- date

  datatype Date = Date(year: nat, month: nat, day: nat)

  /** The Gregorian leap-year rule. */
  predicate IsLeapYear(y: int) {
    y % 4 == 0 && (y % 100 != 0 || y % 400 == 0)
  }

  function DaysInMonth(y: int, m: int): (n: int)
    requires 1 <= m <= 12
    ensures 28 <= n <= 31
  {
    if m == 2 then (if IsLeapYear(y) then 29 else 28)
    else if m == 4 || m == 6 || m == 9 || m == 11 then 30
    else 31
  }

  /** "%Y": exactly four digits. */
  function YearField(s: string): Option<nat> {
    if |s| == 4 && AllDigits(s) then Some(Decimal(s)) else None
  }

  /** "%d": one or two digits 1..31, or a space and one digit 1..9. */
  function DayField(s: string): Option<nat> {
    if |s| == 2 && s[0] == ' ' && IsDigit(s[1]) && DigitValue(s[1]) >= 1 then Some(DigitValue(s[1]))
    else Field(s, 1, 31)
  }

  /**
   * "%Y-%m-%d" as strptime reads it: the three fields around two hyphens,
   * and then the year, month and day must name a real day (year 1 onwards).
   */
  function ParseDate(s: string): (r: Option<Date>)
    ensures r.Some? ==> 1 <= r.value.year <= 9999 && 1 <= r.value.month <= 12
                        && 1 <= r.value.day <= DaysInMonth(r.value.year, r.value.month)
  {
    var parts := Split(s, '-');
    if |parts| != 3 then None
    else
      match (YearField(parts[0]), Field(parts[1], 1, 12), DayField(parts[2]))
      case (Some(y), Some(m), Some(d)) =>
        FourDigitBound(parts[0]);
        if 1 <= y && d <= DaysInMonth(y, m) then Some(Date(y, m, d)) else None
      case _ => None
  }

  function ValidateDateFormat(s: string): (r: (bool, string))
    ensures r.0 ==> ParseDate(s).Some?
    ensures !r.0 ==> ParseDate(s).None? && r.1 == DateFormatMessage
    ensures r.0 ==> r.1 == ""
  {
    if ParseDate(s).Some? then (true, "") else (false, DateFormatMessage)
  }

  /** A date as strftime("%Y-%m-%d") writes it, e.g. "2025-01-15". */
  function FormatDate(y: nat, m: nat, d: nat): string
    requires y < 10000 && m < 100 && d < 100
  {
    TwoDigits(y / 100) + TwoDigits(y % 100) + "-" + TwoDigits(m) + "-" + TwoDigits(d)
  }

  // ------------------------------------------------------ duration, name

  function ValidateDuration(duration: int): (r: (bool, string))
    ensures r.0 <==> MinDuration <= duration <= MaxDuration
    ensures duration < MinDuration ==> r.1 == TooShortMessage
    ensures duration > MaxDuration ==> r.1 == TooLongMessage
    ensures r.0 ==> r.1 == ""
  {
    if duration < MinDuration then (false, TooShortMessage)
    else if duration > MaxDuration then (false, TooLongMessage)
    else (true, "")
  }

  function ValidateName(name: string): (r: (bool, string))
    ensures r.0 <==> !AllSpaces(name) && |name| <= MaxNameLength
    ensures AllSpaces(name) ==> r.1 == EmptyNameMessage
    ensures !AllSpaces(name) && |name| > MaxNameLength ==> r.1 == LongNameMessage
    ensures r.0 ==> r.1 == ""
  {
    StripBlank(name);
    if name == [] || |Strip(name)| == 0 then (false, EmptyNameMessage)
    else if |name| > MaxNameLength then (false, LongNameMessage)
    else (true, "")
  }

  // -------------------------------------------------------------- lemmas

  lemma DecimalOne(f: string)
    requires |f| == 1 && AllDigits(f)
    ensures Decimal(f) == DigitValue(f[0])
  {
    assert f[..0] == [];
  }

  lemma DecimalTwo(f: string)
    requires |f| == 2 && AllDigits(f)
    ensures Decimal(f) == 10 * DigitValue(f[0]) + DigitValue(f[1])
  {
    DecimalOne(f[..1]);
  }

  lemma DecimalFour(f: string)
    requires |f| == 4 && AllDigits(f)
    ensures Decimal(f) == 100 * Decimal(f[..2]) + 10 * DigitValue(f[2]) + DigitValue(f[3])
  {
    assert f[..3][..2] == f[..2];
  }

  lemma FourDigitBound(s: string)
    requires |s| == 4 && AllDigits(s)
    ensures Decimal(s) <= 9999
  {
    DecimalFour(s);
    DecimalTwo(s[..2]);
  }

  /** A field is accepted exactly when it is one or two digits in range. */
  lemma FieldInRange(f: string, lo: nat, hi: nat)
    ensures Field(f, lo, hi).Some? <==> InRange(f, lo, hi)
    ensures Field(f, lo, hi).Some? ==> Field(f, lo, hi).value == Decimal(f)
  {
    if |f| == 2 && AllDigits(f) {
      DecimalTwo(f);
    } else if |f| == 1 && AllDigits(f) {
      DecimalOne(f);
    }
  }

  /** Stripping leaves nothing exactly when the string is all white space. */
  lemma {:induction false} StripBlank(s: string)
    ensures Strip(s) == [] <==> AllSpaces(s)
  {
    StripLeftTrims(s);
    var l := StripLeft(s);
    StripRightTrims(l);
    if l != [] {
      assert !IsSpace(l[0]);
      assert !IsSpace(s[|s| - |l|]);
    } else {
      assert s[..|s|] == s;
    }
  }

  /** "%H:%M" parsing succeeds exactly on the reference reading of a clock time. */
  lemma ClockTimeIffParses(s: string)
    ensures ParseHourMinute(s).Some? <==> IsClockTime(s)
  {
    if ParseHourMinute(s).Some? {
      ParsedIsClockTime(s);
    }
    if IsClockTime(s) {
      ClockTimeParses(s);
    }
  }

  lemma ParsedIsClockTime(s: string)
    requires ParseHourMinute(s).Some?
    ensures IsClockTime(s)
  {
    var parts := Split(s, ':');
    assert ':' in s;
    var i := IndexOf(s, ':');
    assert parts == [s[..i]] + Split(s[i + 1..], ':');
    assert ':' !in s[i + 1..];
    SplitNoSeparator(s[i + 1..], ':');
    FieldInRange(parts[0], 0, 23);
    FieldInRange(parts[1], 0, 59);
    assert s[i] == ':' && InRange(s[..i], 0, 23) && InRange(s[i + 1..], 0, 59);
  }

  lemma ClockTimeParses(s: string)
    requires IsClockTime(s)
    ensures ParseHourMinute(s).Some?
  {
    var i :| 0 <= i < |s| && s[i] == ':' && InRange(s[..i], 0, 23) && InRange(s[i + 1..], 0, 59);
    assert ':' !in s[..i];
    assert ':' !in s[i + 1..];
    assert s == s[..i] + [':'] + s[i + 1..];
    SplitAtFirst(s[..i], s[i + 1..], ':');
    SplitNoSeparator(s[i + 1..], ':');
    FieldInRange(s[..i], 0, 23);
    FieldInRange(s[i + 1..], 0, 59);
  }

  /** Every time strftime("%H:%M") writes passes the check. */
  lemma AcceptsEveryRenderedTime(h: nat, m: nat)
    requires h < 24 && m < 60
    ensures ValidateTimeFormat(FormatHourMinute(h, m)) == (true, "")
  {
    ParseFormattedHourMinute(h, m);
    ClockTimeIffParses(FormatHourMinute(h, m));
  }

  /**
   * A time the check accepts is one the conflict detector reads, with the
   * same value: there is no white space for it to strip.
   */
  lemma AcceptedTimeIsRead(s: string)
    requires ValidateTimeFormat(s).0
    ensures ParseTime(s).Some? && ParseTime(s) == ParseHourMinute(s)
  {
    var i :| 0 <= i < |s| && s[i] == ':' && InRange(s[..i], 0, 23) && InRange(s[i + 1..], 0, 59);
    assert s[0] == s[..i][0];
    assert s[|s| - 1] == s[i + 1..][|s| - i - 2];
    StripUnchanged(s);
  }

  /** The value of two rendered digits. */
  lemma TwoDigitsValue(n: nat)
    requires n < 100
    ensures Decimal(TwoDigits(n)) == n
  {
    DecimalTwo(TwoDigits(n));
  }

  /** The value of four rendered digits. */
  lemma FourDigitsValue(y: nat)
    requires y < 10000
    ensures |TwoDigits(y / 100) + TwoDigits(y % 100)| == 4
    ensures AllDigits(TwoDigits(y / 100) + TwoDigits(y % 100))
    ensures Decimal(TwoDigits(y / 100) + TwoDigits(y % 100)) == y
  {
    var s := TwoDigits(y / 100) + TwoDigits(y % 100);
    TwoDigitsValue(y / 100);
    TwoDigitsValue(y % 100);
    assert s[..2] == TwoDigits(y / 100);
    DecimalFour(s);
    DecimalTwo(TwoDigits(y % 100));
  }

  /**
   * A rendered date is accepted exactly when it names a real day: a month
   * 1..12, a day within that month's length (29 in February of a leap year),
   * and a year from 1 on; when accepted it reads back as that date.
   */
  lemma {:induction false} ParseFormattedDate(y: nat, m: nat, d: nat)
    requires y < 10000 && m < 100 && d < 100
    ensures ParseDate(FormatDate(y, m, d))
         == if 1 <= y && 1 <= m <= 12 && 1 <= d <= DaysInMonth(y, m) then Some(Date(y, m, d)) else None
  {
    var yy := TwoDigits(y / 100) + TwoDigits(y % 100);
    var mm, dd := TwoDigits(m), TwoDigits(d);
    FourDigitsValue(y);
    TwoDigitsHasNo(y / 100, '-');
    TwoDigitsHasNo(y % 100, '-');
    TwoDigitsHasNo(m, '-');
    TwoDigitsHasNo(d, '-');
    var s := FormatDate(y, m, d);
    assert s == yy + ['-'] + (mm + ['-'] + dd);
    SplitAtFirst(yy, mm + ['-'] + dd, '-');
    SplitAtFirst(mm, dd, '-');
    SplitNoSeparator(dd, '-');
    assert Split(s, '-') == [yy, mm, dd];
    FieldOfTwoDigits(m, 1, 12);
    FieldOfTwoDigits(d, 1, 31);
    assert DayField(dd) == Field(dd, 1, 31);
  }

  /** February 29 is accepted exactly in leap years. */
  lemma LeapDay(y: nat)
    requires 1 <= y < 10000
    ensures ValidateDateFormat(FormatDate(y, 2, 29)).0 <==> IsLeapYear(y)
  {
    ParseFormattedDate(y, 2, 29);
  }

  /** Two hyphens cut a date into its three fields. */
  lemma DateSplit(a: string, b: string, c: string)
    requires '-' !in a && '-' !in b && '-' !in c
    ensures Split(a + ['-'] + b + ['-'] + c, '-') == [a, b, c]
  {
    var rest := b + ['-'] + c;
    assert Split(rest, '-') == [b, c] by {
      SplitAtFirst(b, c, '-');
      SplitNoSeparator(c, '-');
    }
    assert a + ['-'] + b + ['-'] + c == a + ['-'] + rest;
    SplitAtFirst(a, rest, '-');
  }

  /**
   * The date check is looser than "YYYY-MM-DD": a one-digit month and a
   * one-digit day are read as well.
   */
  lemma OneDigitMonthAndDay(y: nat, m: nat, d: nat)
    requires 1 <= y < 10000 && 1 <= m <= 9 && 1 <= d <= 9
    ensures ParseDate(TwoDigits(y / 100) + TwoDigits(y % 100) + ['-', Digit(m), '-', Digit(d)])
         == Some(Date(y, m, d))
  {
    var yy := TwoDigits(y / 100) + TwoDigits(y % 100);
    FourDigitsValue(y);
    TwoDigitsHasNo(y / 100, '-');
    TwoDigitsHasNo(y % 100, '-');
    DateSplit(yy, [Digit(m)], [Digit(d)]);
    assert yy + ['-', Digit(m), '-', Digit(d)] == yy + ['-'] + [Digit(m)] + ['-'] + [Digit(d)];
  }

  /** A blank before a one-digit day is read as that day. */
  lemma BlankPaddedDay(y: nat, m: nat, d: nat)
    requires 1 <= y < 10000 && 1 <= m <= 12 && 1 <= d <= 9
    ensures ParseDate(TwoDigits(y / 100) + TwoDigits(y % 100) + ['-'] + TwoDigits(m) + ['-', ' ', Digit(d)])
         == Some(Date(y, m, d))
  {
    var yy := TwoDigits(y / 100) + TwoDigits(y % 100);
    FourDigitsValue(y);
    TwoDigitsHasNo(y / 100, '-');
    TwoDigitsHasNo(y % 100, '-');
    TwoDigitsHasNo(m, '-');
    DateSplit(yy, TwoDigits(m), [' ', Digit(d)]);
    assert yy + ['-'] + TwoDigits(m) + ['-', ' ', Digit(d)] == yy + ['-'] + TwoDigits(m) + ['-'] + [' ', Digit(d)];
    FieldOfTwoDigits(m, 1, 12);
  }
}
