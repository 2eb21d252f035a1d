/**
 * Time-of-day parsing and interval overlap, as the conflict detector performs them
 * with Python's `datetime.strptime`: a string is stripped of surrounding white space
 * and tried against "%H:%M", "%H:%M:%S" and "%I:%M %p" in that order; a string that
 * matches none of them parses to nothing, and an interval with an unparsable end
 * never overlaps anything.
 */
module TimeOfDay {
  import opened Wrappers

  /** A time of day as seconds since midnight. Python's `datetime.time` values
      order exactly as these numbers do. */
  type Seconds = s: int | 0 <= s < 86400

  /** The characters Python's `str.isspace()` accepts; `\s` in a str pattern and
      `str.strip()` use the same set. */
  predicate IsSpace(c: char) {
    || ('\t' <= c <= '\r')
    || ('\U{1C}' <= c <= ' ')
    || c == '\U{85}' || c == '\U{A0}' || c == '\U{1680}'
    || ('\U{2000}' <= c <= '\U{200A}')
    || c == '\U{2028}' || c == '\U{2029}' || c == '\U{202F}' || c == '\U{205F}' || c == '\U{3000}'
  }

  predicate IsDigit(c: char) { '0' <= c <= '9' }

  predicate AllDigits(s: string) { forall i | 0 <= i < |s| :: IsDigit(s[i]) }

  predicate AllSpaces(s: string) { forall i | 0 <= i < |s| :: IsSpace(s[i]) }

  function DigitValue(c: char): (d: nat)
    requires IsDigit(c)
    ensures d < 10
  {
    (c as int) - ('0' as int)
  }

  /** One or two ASCII digits whose value lies in [lo, hi]. Once the whole string
      must be consumed, this is exactly what the strptime patterns for %H (0..23),
      %M (0..59), %I and %m (1..12) accept. */
  function Field(s: string, lo: nat, hi: nat): (r: Option<nat>)
    ensures r.Some? ==> lo <= r.value <= hi
    ensures r.Some? ==> 1 <= |s| <= 2 && AllDigits(s)
  {
    if |s| == 1 && IsDigit(s[0]) && lo <= DigitValue(s[0]) <= hi then
      Some(DigitValue(s[0]))
    else if |s| == 2 && IsDigit(s[0]) && IsDigit(s[1])
            && lo <= 10 * DigitValue(s[0]) + DigitValue(s[1]) <= hi then
      Some(10 * DigitValue(s[0]) + DigitValue(s[1]))
    else
      None
  }

  /** The number of leading ASCII digits of `s`. */
  function LeadingDigits(s: string): (n: nat)
    ensures n <= |s| && AllDigits(s[..n])
    ensures n < |s| ==> !IsDigit(s[n])
  {
    if s != [] && IsDigit(s[0]) then
      var n := 1 + LeadingDigits(s[1..]);
      assert s[..n] == [s[0]] + s[1..][..n - 1];
      n
    else
      0
  }

  /** The position of the first `c` in `s`. */
  function IndexOf(s: string, c: char): (i: nat)
    requires c in s
    ensures i < |s| && s[i] == c && c !in s[..i]
  {
    if s[0] == c then 0
    else
      var i := 1 + IndexOf(s[1..], c);
      assert s[..i] == [s[0]] + s[1..][..i - 1];
      i
  }

  /** The pieces of `s` between occurrences of `sep`, like Python's `str.split(sep)`. */
  function Split(s: string, sep: char): (parts: seq<string>)
    ensures |parts| >= 1
    ensures forall k | 0 <= k < |parts| :: sep !in parts[k]
    decreases |s|
  {
    if sep !in s then [s]
    else
      var i := IndexOf(s, sep);
      [s[..i]] + Split(s[i + 1..], sep)
  }

  function StripLeft(s: string): (r: string)
    ensures |r| <= |s|
  {
    if s != [] && IsSpace(s[0]) then StripLeft(s[1..]) else s
  }

  function StripRight(s: string): (r: string)
    ensures |r| <= |s|
  {
    if s != [] && IsSpace(s[|s| - 1]) then StripRight(s[..|s| - 1]) else s
  }

  /** Python's `str.strip()` with no argument: the white space at both ends removed. */
  function Strip(s: string): string {
    StripRight(StripLeft(s))
  }

  /** "%H:%M": hour 0..23 and minute 0..59, each one or two digits. */
  function ParseHourMinute(u: string): (r: Option<Seconds>)
    ensures r.Some? ==> r.value % 60 == 0
  {
    var parts := Split(u, ':');
    if |parts| != 2 then None
    else
      match (Field(parts[0], 0, 23), Field(parts[1], 0, 59))
      case (Some(h), Some(m)) => Some(h * 3600 + m * 60)
      case _ => None
  }

  /** "%H:%M:%S". The %S pattern admits 60 and 61, but building the `datetime`
      then fails with ValueError, which the caller treats as "no match". */
  function ParseHourMinuteSecond(u: string): (r: Option<Seconds>)
  {
    var parts := Split(u, ':');
    if |parts| != 3 then None
    else
      match (Field(parts[0], 0, 23), Field(parts[1], 0, 59), Field(parts[2], 0, 59))
      case (Some(h), Some(m), Some(s)) => Some(h * 3600 + m * 60 + s)
      case _ => None
  }

  /** The %p field in the C locale, compared case-insensitively: Some(false) for AM,
      Some(true) for PM. */
  function Meridiem(s: string): Option<bool> {
    if |s| == 2 && (s[1] == 'm' || s[1] == 'M') then
      if s[0] == 'a' || s[0] == 'A' then Some(false)
      else if s[0] == 'p' || s[0] == 'P' then Some(true)
      else None
    else None
  }

  /** The hour of the day named by a 12-hour clock hour and a meridiem, as strptime
      converts it: 12 AM is hour 0 and 12 PM is hour 12. */
  function Hour24(hour12: nat, pm: bool): (h: nat)
    requires 1 <= hour12 <= 12
    ensures h < 24
  {
    if pm then (if hour12 == 12 then 12 else hour12 + 12)
    else (if hour12 == 12 then 0 else hour12)
  }

  /** "%I:%M %p": the space in the format matches one or more white-space characters. */
  function ParseTwelveHour(u: string): (r: Option<Seconds>)
  {
    var parts := Split(u, ':');
    if |parts| != 2 then None
    else
      var rest := parts[1];
      var k := LeadingDigits(rest);
      var tail := rest[k..];
      if |tail| < 3 || !AllSpaces(tail[..|tail| - 2]) then None
      else
        match (Field(parts[0], 1, 12), Field(rest[..k], 0, 59), Meridiem(tail[|tail| - 2..]))
        case (Some(h), Some(m), Some(pm)) => Some(Hour24(h, pm) * 3600 + m * 60)
        case _ => None
  }

  /** `parse_time`: the stripped string against the three formats, in order. */
  function ParseTime(t: string): Option<Seconds> {
    var u := Strip(t);
    var hm := ParseHourMinute(u);
    if hm.Some? then hm
    else
      var hms := ParseHourMinuteSecond(u);
      if hms.Some? then hms else ParseTwelveHour(u)
  }

  /** `_times_overlap`: half-open overlap of two same-day intervals; an interval
      with an unparsable end overlaps nothing. */
  function TimesOverlap(start1: string, end1: string, start2: string, end2: string): bool {
    match (ParseTime(start1), ParseTime(end1), ParseTime(start2), ParseTime(end2))
    case (Some(s1), Some(e1), Some(s2), Some(e2)) => s1 < e2 && s2 < e1
    case _ => false
  }

  // ----- Canonical renderings, the partners of the parsers -----

  function Digit(d: nat): (c: char)
    requires d < 10
    ensures IsDigit(c) && DigitValue(c) == d
  {
    (('0' as int) + d) as char
  }

  function TwoDigits(n: nat): (s: string)
    requires n < 100
    ensures |s| == 2 && AllDigits(s)
  {
    [Digit(n / 10), Digit(n % 10)]
  }

  /** A time of day as strftime("%H:%M") writes it, e.g. "09:05". */
  function FormatHourMinute(h: nat, m: nat): string
    requires h < 24 && m < 60
  {
    TwoDigits(h) + ":" + TwoDigits(m)
  }

  /** A time of day as strftime("%H:%M:%S") writes it. */
  function FormatHourMinuteSecond(h: nat, m: nat, s: nat): string
    requires h < 24 && m < 60 && s < 60
  {
    TwoDigits(h) + ":" + TwoDigits(m) + ":" + TwoDigits(s)
  }

  /** The 12-hour clock hour of an hour of the day: 0 and 12 are both 12. */
  function Hour12(h: nat): (r: nat)
    requires h < 24
    ensures 1 <= r <= 12
  {
    if h % 12 == 0 then 12 else h % 12
  }

  function MeridiemText(h: nat): string {
    if h < 12 then "AM" else "PM"
  }

  /** A time of day as strftime("%I:%M %p") writes it in the C locale, e.g. "02:30 PM". */
  function FormatTwelveHour(h: nat, m: nat): string
    requires h < 24 && m < 60
  {
    TwoDigits(Hour12(h)) + ":" + TwoDigits(m) + " " + MeridiemText(h)
  }

  // ----- Lemmas -----

  lemma FieldOfTwoDigits(n: nat, lo: nat, hi: nat)
    requires n < 100
    ensures Field(TwoDigits(n), lo, hi) == if lo <= n <= hi then Some(n) else None
  {
  }

  lemma {:induction false} SplitAtFirst(a: string, b: string, sep: char)
    requires sep !in a
    ensures Split(a + [sep] + b, sep) == [a] + Split(b, sep)
  {
    var s := a + [sep] + b;
    assert s[|a|] == sep;
    var i := IndexOf(s, sep);
    assert forall k | 0 <= k < |a| :: s[k] == a[k] && s[k] != sep;
    assert i >= |a|;
    assert forall k | 0 <= k < i :: s[..i][k] == s[k] && s[k] != sep;
    assert i == |a|;
    assert s[..i] == a;
    assert s[i + 1..] == b;
  }

  lemma SplitNoSeparator(s: string, sep: char)
    requires sep !in s
    ensures Split(s, sep) == [s]
  {
  }

  lemma TwoDigitsHasNo(n: nat, c: char)
    requires n < 100 && !IsDigit(c)
    ensures c !in TwoDigits(n)
  {
  }

  lemma StripUnchanged(s: string)
    requires s != [] && !IsSpace(s[0]) && !IsSpace(s[|s| - 1])
    ensures Strip(s) == s
  {
  }

  lemma {:induction false} StripLeftTrims(s: string)
    ensures var r := StripLeft(s);
      r == s[|s| - |r|..] && (r == [] || !IsSpace(r[0])) && AllSpaces(s[..|s| - |r|])
  {
    if s != [] && IsSpace(s[0]) {
      StripLeftTrims(s[1..]);
      var r := StripLeft(s);
      assert s[..|s| - |r|] == [s[0]] + s[1..][..|s| - 1 - |r|];
    }
  }

  lemma {:induction false} StripRightTrims(s: string)
    ensures var r := StripRight(s);
      r == s[..|r|] && (r == [] || !IsSpace(r[|r| - 1])) && AllSpaces(s[|r|..])
  {
    if s != [] && IsSpace(s[|s| - 1]) {
      StripRightTrims(s[..|s| - 1]);
      var r := StripRight(s);
      assert s[|r|..] == s[..|s| - 1][|r|..] + [s[|s| - 1]];
    }
  }

  /** `Strip` removes only white space, and only from the two ends: what is left is a
      slice of the input that neither starts nor ends with white space. */
  lemma StripTrims(s: string)
    ensures var r := Strip(s);
      && (r == [] || (!IsSpace(r[0]) && !IsSpace(r[|r| - 1])))
      && exists i | 0 <= i <= |s| - |r| :: r == s[i..i + |r|] && AllSpaces(s[..i]) && AllSpaces(s[i + |r|..])
  {
    var l := StripLeft(s);
    var r := StripRight(l);
    StripLeftTrims(s);
    StripRightTrims(l);
    var i := |s| - |l|;
    assert r == s[i..i + |r|];
    assert s[i + |r|..] == l[|r|..];
  }

  /** Every "%H:%M" rendering parses back to the time it renders. */
  lemma {:induction false} ParseFormattedHourMinute(h: nat, m: nat)
    requires h < 24 && m < 60
    ensures ParseHourMinute(FormatHourMinute(h, m)) == Some(h * 3600 + m * 60)
    ensures ParseTime(FormatHourMinute(h, m)) == Some(h * 3600 + m * 60)
  {
    var hh, mm := TwoDigits(h), TwoDigits(m);
    TwoDigitsHasNo(h, ':');
    TwoDigitsHasNo(m, ':');
    assert FormatHourMinute(h, m) == hh + [':'] + mm;
    SplitAtFirst(hh, mm, ':');
    SplitNoSeparator(mm, ':');
    FieldOfTwoDigits(h, 0, 23);
    FieldOfTwoDigits(m, 0, 59);
    StripUnchanged(FormatHourMinute(h, m));
  }

  /** Every "%H:%M:%S" rendering parses back to the time it renders. */
  lemma {:induction false} ParseFormattedHourMinuteSecond(h: nat, m: nat, s: nat)
    requires h < 24 && m < 60 && s < 60
    ensures ParseTime(FormatHourMinuteSecond(h, m, s)) == Some(h * 3600 + m * 60 + s)
  {
    var hh, mm, ss := TwoDigits(h), TwoDigits(m), TwoDigits(s);
    var u := FormatHourMinuteSecond(h, m, s);
    SecondsSplit(h, m, s);
    FieldOfTwoDigits(h, 0, 23);
    FieldOfTwoDigits(m, 0, 59);
    FieldOfTwoDigits(s, 0, 59);
    StripUnchanged(u);
    ParseSecondsPieces(u, hh, mm, ss, h, m, s);
  }

  /** A "%H:%M:%S" rendering splits at its two colons into its three fields. */
  lemma {:induction false} SecondsSplit(h: nat, m: nat, s: nat)
    requires h < 24 && m < 60 && s < 60
    ensures Split(FormatHourMinuteSecond(h, m, s), ':') == [TwoDigits(h), TwoDigits(m), TwoDigits(s)]
  {
    var hh, mm, ss := TwoDigits(h), TwoDigits(m), TwoDigits(s);
    TwoDigitsHasNo(h, ':');
    TwoDigitsHasNo(m, ':');
    TwoDigitsHasNo(s, ':');
    assert FormatHourMinuteSecond(h, m, s) == hh + [':'] + (mm + [':'] + ss);
    SplitAtFirst(hh, mm + [':'] + ss, ':');
    SplitAtFirst(mm, ss, ':');
    SplitNoSeparator(ss, ':');
  }

  /** A stripped string of three in-range colon-separated fields parses as "%H:%M:%S". */
  lemma {:induction false} ParseSecondsPieces(u: string, hh: string, mm: string, ss: string, h: nat, m: nat, s: nat)
    requires Strip(u) == u && Split(u, ':') == [hh, mm, ss]
    requires Field(hh, 0, 23) == Some(h) && Field(mm, 0, 59) == Some(m) && Field(ss, 0, 59) == Some(s)
    ensures ParseTime(u) == Some(h * 3600 + m * 60 + s)
  {
  }

  /** A 12-hour rendering splits at its one colon into the hour and the rest. */
  lemma {:induction false} TwelveHourSplit(hh: string, mm: string, mer: string)
    requires |hh| == 2 && AllDigits(hh) && |mm| == 2 && AllDigits(mm)
    requires mer == "AM" || mer == "PM"
    ensures Split(hh + ":" + mm + " " + mer, ':') == [hh, mm + " " + mer]
  {
    var rest := mm + " " + mer;
    assert ':' !in hh;
    assert ':' !in rest;
    assert hh + ":" + mm + " " + mer == hh + [':'] + rest;
    SplitAtFirst(hh, rest, ':');
    SplitNoSeparator(rest, ':');
  }

  lemma {:induction false} TwelveHourStrip(hh: string, mm: string, mer: string)
    requires |hh| == 2 && AllDigits(hh) && |mm| == 2 && AllDigits(mm)
    requires mer == "AM" || mer == "PM"
    ensures Strip(hh + ":" + mm + " " + mer) == hh + ":" + mm + " " + mer
  {
    StripUnchanged(hh + ":" + mm + " " + mer);
  }

  lemma {:induction false} TwelveHourRest(mm: string, mer: string)
    requires |mm| == 2 && AllDigits(mm)
    requires mer == "AM" || mer == "PM"
    ensures LeadingDigits(mm + " " + mer) == 2
    ensures (mm + " " + mer)[..2] == mm && (mm + " " + mer)[2..] == " " + mer
  {
    var rest := mm + " " + mer;
    assert !IsDigit(rest[2]);
    assert rest[1..][1..] == rest[2..];
    assert LeadingDigits(rest[2..]) == 0;
  }

  lemma {:induction false} TwelveHourOnly(u: string, hh: string, rest: string)
    requires Split(u, ':') == [hh, rest] && |rest| > 2
    ensures ParseHourMinute(u) == None && ParseHourMinuteSecond(u) == None
  {
  }

  lemma {:induction false} TwelveHourValue(u: string, hh: string, mm: string, mer: string, h12: nat, m: nat)
    requires Split(u, ':') == [hh, mm + " " + mer]
    requires |mm| == 2 && AllDigits(mm) && (mer == "AM" || mer == "PM")
    requires Field(hh, 1, 12) == Some(h12) && Field(mm, 0, 59) == Some(m)
    ensures ParseTwelveHour(u) == Some(Hour24(h12, mer == "PM") * 3600 + m * 60)
  {
    var rest := mm + " " + mer;
    TwelveHourRest(mm, mer);
    var tail := rest[2..];
    assert tail[..|tail| - 2] == " ";
    assert tail[|tail| - 2..] == mer;
    assert Meridiem(mer) == Some(mer == "PM");
  }

  lemma {:induction false} ParseTimeFallsThrough(u: string)
    requires Strip(u) == u && ParseHourMinute(u) == None && ParseHourMinuteSecond(u) == None
    ensures ParseTime(u) == ParseTwelveHour(u)
  {
  }

  lemma {:induction false} ParseTwelveHourPieces(u: string, hh: string, mm: string, mer: string, h12: nat, m: nat)
    requires Split(u, ':') == [hh, mm + " " + mer] && Strip(u) == u
    requires |mm| == 2 && AllDigits(mm) && (mer == "AM" || mer == "PM")
    requires Field(hh, 1, 12) == Some(h12) && Field(mm, 0, 59) == Some(m)
    ensures ParseTime(u) == Some(Hour24(h12, mer == "PM") * 3600 + m * 60)
  {
    TwelveHourOnly(u, hh, mm + " " + mer);
    TwelveHourValue(u, hh, mm, mer, h12, m);
    ParseTimeFallsThrough(u);
  }

  lemma {:induction false} ParseTwelveHourRendering(h12: nat, m: nat, mer: string, u: string)
    requires 1 <= h12 <= 12 && m < 60 && (mer == "AM" || mer == "PM")
    requires u == TwoDigits(h12) + ":" + TwoDigits(m) + " " + mer
    ensures ParseTime(u) == Some(Hour24(h12, mer == "PM") * 3600 + m * 60)
  {
    var hh, mm := TwoDigits(h12), TwoDigits(m);
    FieldOfTwoDigits(h12, 1, 12);
    FieldOfTwoDigits(m, 0, 59);
    TwelveHourSplit(hh, mm, mer);
    TwelveHourStrip(hh, mm, mer);
    ParseTwelveHourPieces(u, hh, mm, mer, h12, m);
  }

  /** Every "%I:%M %p" rendering parses back to the time it renders, including
      the 12 AM (midnight) and 12 PM (noon) hours. */
  lemma {:induction false} ParseFormattedTwelveHour(h: nat, m: nat)
    requires h < 24 && m < 60
    ensures ParseTime(FormatTwelveHour(h, m)) == Some(h * 3600 + m * 60)
  {
    ParseTwelveHourRendering(Hour12(h), m, MeridiemText(h), FormatTwelveHour(h, m));
    Hour24OfHour12(h);
  }

  /** The 12-hour clock hour and meridiem of an hour of the day lead back to it. */
  lemma Hour24OfHour12(h: nat)
    requires h < 24
    ensures Hour24(Hour12(h), MeridiemText(h) == "PM") == h
  {
  }

  /** The detector's overlap on well-formed "%H:%M" times is exactly the half-open
      interval test: start1 < end2 and start2 < end1, compared in minutes. */
  lemma OverlapIsHalfOpen(h1: nat, m1: nat, h2: nat, m2: nat, h3: nat, m3: nat, h4: nat, m4: nat)
    requires h1 < 24 && m1 < 60 && h2 < 24 && m2 < 60
    requires h3 < 24 && m3 < 60 && h4 < 24 && m4 < 60
    ensures TimesOverlap(FormatHourMinute(h1, m1), FormatHourMinute(h2, m2),
                         FormatHourMinute(h3, m3), FormatHourMinute(h4, m4))
            <==> (h1 * 60 + m1 < h4 * 60 + m4 && h3 * 60 + m3 < h2 * 60 + m2)
  {
    ParseFormattedHourMinute(h1, m1);
    ParseFormattedHourMinute(h2, m2);
    ParseFormattedHourMinute(h3, m3);
    ParseFormattedHourMinute(h4, m4);
  }

  /** Swapping the two intervals never changes the answer. */
  lemma OverlapSymmetric(start1: string, end1: string, start2: string, end2: string)
    ensures TimesOverlap(start1, end1, start2, end2) == TimesOverlap(start2, end2, start1, end1)
  {
  }

  /** An interval is never reported against anything when one of the four strings
      matches none of the formats. */
  lemma UnparsableNeverOverlaps(start1: string, end1: string, start2: string, end2: string)
    requires ParseTime(start1) == None || ParseTime(end1) == None
          || ParseTime(start2) == None || ParseTime(end2) == None
    ensures !TimesOverlap(start1, end1, start2, end2)
  {
  }

  /** Slots that only touch do not overlap: 09:00-10:00 against 10:00-11:00. */
  lemma TouchingSlotsDoNotOverlap()
    ensures !TimesOverlap("09:00", "10:00", "10:00", "11:00")
  {
    assert FormatHourMinute(9, 0) == "09:00";
    assert FormatHourMinute(10, 0) == "10:00";
    assert FormatHourMinute(11, 0) == "11:00";
    OverlapIsHalfOpen(9, 0, 10, 0, 10, 0, 11, 0);
  }

  /** 08:00-10:30 against 10:00-12:30 overlaps. */
  lemma OverlappingSlotsOverlap()
    ensures TimesOverlap("08:00", "10:30", "10:00", "12:30")
  {
    assert FormatHourMinute(8, 0) == "08:00";
    assert FormatHourMinute(10, 30) == "10:30";
    assert FormatHourMinute(10, 0) == "10:00";
    assert FormatHourMinute(12, 30) == "12:30";
    OverlapIsHalfOpen(8, 0, 10, 30, 10, 0, 12, 30);
  }

  /** "14:30" and "14:30:00" name the same time of day. */
  lemma {:induction false} SecondsRenderingAgrees(h: nat, m: nat)
    requires h < 24 && m < 60
    ensures ParseTime(FormatHourMinute(h, m)) == ParseTime(FormatHourMinuteSecond(h, m, 0))
  {
    ParseFormattedHourMinute(h, m);
    ParseFormattedHourMinuteSecond(h, m, 0);
  }

  /** "14:30" and "02:30 PM" name the same time of day, and so do "00:15" and "12:15 AM". */
  lemma {:induction false} TwelveHourRenderingAgrees(h: nat, m: nat)
    requires h < 24 && m < 60
    ensures ParseTime(FormatTwelveHour(h, m)) == ParseTime(FormatHourMinute(h, m))
  {
    ParseFormattedHourMinute(h, m);
    ParseFormattedTwelveHour(h, m);
  }

  /** An overnight slot such as 22:45-01:15 is compared as same-day clock values,
      so it does not overlap 23:00-23:30. */
  lemma OvernightSlotIsSameDay()
    ensures !TimesOverlap("22:45", "01:15", "23:00", "23:30")
  {
    assert FormatHourMinute(22, 45) == "22:45";
    assert FormatHourMinute(1, 15) == "01:15";
    assert FormatHourMinute(23, 0) == "23:00";
    assert FormatHourMinute(23, 30) == "23:30";
    OverlapIsHalfOpen(22, 45, 1, 15, 23, 0, 23, 30);
  }
}
