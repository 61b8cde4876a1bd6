/**
 * Instants as text: the MANSCDP form with its parser (src/client.rs, src/manscdp.rs) and the
 * GB 35114 Date header with its parser (src/security35114/integrity.rs).
 */
module TimeText {
  import opened Results
  import opened Text
  import opened Calendar

  const U64_VALUES := 0x1_0000_0000_0000_0000

  /** `{:0width}` of a signed integer: the sign counts towards the width. */
  function Pad(n: int, width: nat): string {
    if n >= 0 then Padded(n, width) else "-" + Padded(-n, Max(width - 1, 0))
  }

  /** Days and seconds as `YYYY-MM-DDTHH:MM:SS`. */
  function Naive(days: int, rem: int): string {
    var c := CivilFromDays(days);
    Pad(c.year, 4) + "-" + Pad(c.month, 2) + "-" + Pad(c.day, 2) + "T" +
    Pad(rem / 3600, 2) + ":" + Pad(rem % 3600 / 60, 2) + ":" + Pad(rem % 60, 2)
  }

  /** The instant in local time; what lies before the local epoch is shown as the epoch. */
  function FormatGbTimeMs(ms: nat, offset: int): string {
    var secs := Max(ms / 1000 + offset, 0);
    Naive(secs / 86_400, secs % 86_400)
  }

  /** Minutes east of UTC: none for `Z`, the local ones without a tail, else what the tail says. */
  function OffsetMinutes(tail: string, offset: int): Option<int> {
    if tail == "Z" then Some(0)
    else if tail == "" then Some(TruncDiv(offset, 60))
    else
      var sign := if tail[0] == '-' then -1 else 1;
      var digits := TrimSigns(tail);
      if |digits| != 5 || digits[2] != ':' then None
      else
        match (ParseSigned(digits[0..2]), ParseSigned(digits[3..5]))
        case (Some(hh), Some(mm)) => Some(sign * (hh * 60 + mm))
        case _ => None
  }

  function TrimSigns(s: string): string {
    if s != "" && (s[0] == '+' || s[0] == '-') then TrimSigns(s[1..]) else s
  }

  function ParseGbTimeMs(text: string, offset: int): Option<nat> {
    var s := Trim(text);
    if |s| < 19 then None
    else
      match (ParseSigned(s[0..4]), ParseSigned(s[5..7]), ParseSigned(s[8..10]),
             ParseSigned(s[11..13]), ParseSigned(s[14..16]), ParseSigned(s[17..19]), OffsetMinutes(s[19..], offset))
      case (Some(year), Some(month), Some(day), Some(hour), Some(minute), Some(second), Some(east)) =>
        (match DaysFromCivil(year, month, day)
         case None => None
         case Some(days) =>
           var secs := days * 86_400 + hour * 3600 + minute * 60 + second - east * 60;
           Some(secs % U64_VALUES * 1000 % U64_VALUES))
      case _ => None
  }

  // --- The characters of a printed instant ---

  /** The nineteen characters, when every field fits its width. */
  function Printed(y: nat, m: nat, d: nat, h: nat, mi: nat, se: nat): string {
    Padded(y, 4) + "-" + Padded(m, 2) + "-" + Padded(d, 2) + "T" +
    Padded(h, 2) + ":" + Padded(mi, 2) + ":" + Padded(se, 2)
  }

  predicate Fits(y: nat, m: nat, d: nat, h: nat, mi: nat, se: nat) {
    y < 10_000 && m < 100 && d < 100 && h < 100 && mi < 100 && se < 100
  }

  lemma Widths()
    ensures Pow10(4) == 10_000 && Pow10(3) == 1000 && Pow10(2) == 100
  {
    assert Pow10(2) == 100;
    assert Pow10(3) == 1000;
  }

  lemma PrintedFields(y: nat, m: nat, d: nat, h: nat, mi: nat, se: nat)
    requires Fits(y, m, d, h, mi, se)
    ensures
      var s := Printed(y, m, d, h, mi, se);
      && |s| == 19
      && s[0..4] == Padded(y, 4) && s[4] == '-' && s[5..7] == Padded(m, 2) && s[7] == '-'
      && s[8..10] == Padded(d, 2) && s[10] == 'T' && s[11..13] == Padded(h, 2) && s[13] == ':'
      && s[14..16] == Padded(mi, 2) && s[16] == ':' && s[17..19] == Padded(se, 2)
      && IsDigit(s[0]) && IsDigit(s[18])
  {
    Widths();
    PaddedRoundTrip(y, 4);
    PaddedRoundTrip(m, 2);
    PaddedRoundTrip(d, 2);
    PaddedRoundTrip(h, 2);
    PaddedRoundTrip(mi, 2);
    PaddedRoundTrip(se, 2);
    Layout(Padded(y, 4), Padded(m, 2), Padded(d, 2), Padded(h, 2), Padded(mi, 2), Padded(se, 2));
    assert IsDigit(Padded(y, 4)[0]) && IsDigit(Padded(se, 2)[1]);
  }

  lemma Layout(y: string, m: string, d: string, h: string, mi: string, se: string)
    requires |y| == 4 && |m| == |d| == |h| == |mi| == |se| == 2
    ensures
      var s := y + "-" + m + "-" + d + "T" + h + ":" + mi + ":" + se;
      && |s| == 19
      && s[0..4] == y && s[4] == '-' && s[5..7] == m && s[7] == '-' && s[8..10] == d && s[10] == 'T'
      && s[11..13] == h && s[13] == ':' && s[14..16] == mi && s[16] == ':' && s[17..19] == se
      && s[0] == y[0] && s[18] == se[1]
  {
  }

  /** Parsing a printed instant without a tail. */
  lemma ParsePrintedTime(y: nat, m: nat, d: nat, h: nat, mi: nat, se: nat, offset: int)
    requires Fits(y, m, d, h, mi, se) && 1 <= m <= 12 && 1 <= d <= 31
    ensures
      var secs := Counted(y, m, d) * 86_400 + h * 3600 + mi * 60 + se - TruncDiv(offset, 60) * 60;
      ParseGbTimeMs(Printed(y, m, d, h, mi, se), offset) == Some(secs % U64_VALUES * 1000 % U64_VALUES)
  {
    hide Padded, DaysFromCivil, Counted, ParseSigned, CivilFromDays, SipDays, NoteDays;
    var s := Printed(y, m, d, h, mi, se);
    PrintedFields(y, m, d, h, mi, se);
    TrimTrimmed(s);
    assert s[19..] == "";
    Widths();
    ParsePadded(y, 4);
    ParsePadded(m, 2);
    ParsePadded(d, 2);
    ParsePadded(h, 2);
    ParsePadded(mi, 2);
    ParsePadded(se, 2);
    FormulasCount(y, m, d);
  }

  // --- Days that print with a four-digit year ---

  /** 10000-01-01. */
  const DAYS_10000 := 2_932_897

  lemma YearInRange(days: int)
    requires 0 <= days < DAYS_10000
    ensures 1970 <= CivilFromDays(days).year < 10_000
    ensures
      var c := CivilFromDays(days);
      ValidDate(c.year, c.month, c.day) && c.day <= 31 && Counted(c.year, c.month, c.day) == days
  {
    hide CivilFromDays, DaysToMonth, ClosedForm, MonthLength, LengthOfMonth, DaysFromCivil, SipDays, NoteDays;
    var c := CivilFromDays(days);
    CivilCounts(days);
    AtMost31(c.year, c.month);
    FormulasAgree(c.year, c.month, c.day);
    FormulasCount(c.year, c.month, c.day);
    MonthNumber(c.year, c.month);
    var n := 12 * (c.year - 1970) + c.month - 1;
    if n < 0 {
      CountGrows(n, 0);
      FirstMonth();
    } else if c.year >= 10_000 {
      CountGrows(12 * 8030, n);
      FirstMonthOf10000();
    }
  }

  lemma FirstMonth()
    ensures DaysToMonth(0) == 0
  {
  }

  lemma FirstMonthOf10000()
    ensures DaysToMonth(12 * 8030) == DAYS_10000
  {
    hide DaysToMonth, ClosedForm;
    ClosedFormCounts(12 * 8030);
    NewYear10000();
  }

  lemma NewYear10000()
    ensures ClosedForm(10_000, 1, 1) == DAYS_10000
  {
  }

  lemma SplitOfDay(rem: int)
    requires 0 <= rem < 86_400
    ensures
      && 0 <= rem / 3600 < 24 && 0 <= rem % 3600 / 60 < 60 && 0 <= rem % 60 < 60
      && rem / 3600 * 3600 + rem % 3600 / 60 * 60 + rem % 60 == rem
  {
    var s := rem % 3600;
    assert rem == 3600 * (rem / 3600) + s;
    assert s == 60 * (s / 60) + s % 60;
    assert rem == 60 * (60 * (rem / 3600) + s / 60) + s % 60;
  }

  /** Through year 9999 every local second is printed in nineteen characters that parse. */
  lemma NaiveIsPrinted(days: int, rem: int)
    requires 0 <= days < DAYS_10000 && 0 <= rem < 86_400
    ensures
      var c := CivilFromDays(days);
      && c.year >= 0 && c.month >= 0 && c.day >= 0
      && Fits(c.year, c.month, c.day, rem / 3600, rem % 3600 / 60, rem % 60)
      && Naive(days, rem) == Printed(c.year, c.month, c.day, rem / 3600, rem % 3600 / 60, rem % 60)
  {
    hide CivilFromDays, MonthLength, Padded, Counted;
    YearInRange(days);
    SplitOfDay(rem);
  }

  lemma ParseNaive(days: int, rem: int, offset: int)
    requires 0 <= days < DAYS_10000 && 0 <= rem < 86_400
    ensures
      var secs := days * 86_400 + rem - TruncDiv(offset, 60) * 60;
      ParseGbTimeMs(Naive(days, rem), offset) == Some(secs % U64_VALUES * 1000 % U64_VALUES)
  {
    hide CivilFromDays, ParseGbTimeMs, Naive, Printed, Counted, MonthLength;
    var c := CivilFromDays(days);
    NaiveIsPrinted(days, rem);
    YearInRange(days);
    SplitOfDay(rem);
    ParsePrintedTime(c.year, c.month, c.day, rem / 3600, rem % 3600 / 60, rem % 60, offset);
  }

  // --- Years beyond 9999 ---

  /** What is printed behind the year. */
  predicate BehindYear(r: string) {
    && |r| == 15 && r[0] == '-' && r[3] == '-' && r[6] == 'T' && r[9] == ':' && r[12] == ':'
    && IsDigit(r[1]) && IsDigit(r[2]) && IsDigit(r[4]) && IsDigit(r[5]) && IsDigit(r[7]) && IsDigit(r[8])
    && IsDigit(r[10]) && IsDigit(r[11]) && IsDigit(r[13]) && IsDigit(r[14])
  }

  predicate IsSign(c: char) {
    c == '+' || c == '-'
  }

  /** No text of a digit and a sign is a number. */
  lemma DigitSignIsNoNumber(s: string)
    requires |s| == 2 && IsDigit(s[0]) && IsSign(s[1])
    ensures ParseSigned(s) == None
  {
    assert !AllDigits(s);
  }

  lemma SignDigitIsNoMonth(s: string)
    requires |s| == 2 && s[0] == '-' && IsDigit(s[1])
    ensures ParseSigned(s).Some? ==> ParseSigned(s).value <= 0
  {
  }

  lemma TailLength(t: string)
    requires t != "" && !(|t| >= 2 && IsSign(t[0]) && IsSign(t[1]))
    ensures |TrimSigns(t)| == if IsSign(t[0]) then |t| - 1 else |t|
  {
  }

  /** The tail behind nineteen characters is never an offset. */
  lemma LongTail(y: string, r: string, offset: int)
    requires AllDigits(y) && (|y| == 7 || |y| == 8 || |y| >= 10) && BehindYear(r)
    ensures OffsetMinutes((y + r)[19..], offset) == None
  {
    var s := y + r;
    var t := s[19..];
    assert forall i :: 0 <= i < |t| ==> t[i] == (if 19 + i < |y| then y[19 + i] else r[19 + i - |y|]);
    assert t[|t| - 1] == r[14];
    assert |y| == 10 ==> t[0] == ':';
    TailLength(t);
    hide ParseSigned, TrimSigns;
  }

  lemma LongYearIsRefused(y: string, r: string, offset: int)
    requires AllDigits(y) && |y| >= 5 && BehindYear(r)
    ensures ParseGbTimeMs(y + r, offset) == None
  {
    var s := y + r;
    assert s[0] == y[0] && s[|s| - 1] == r[14];
    TrimTrimmed(s);
    hide Trim, ParseSigned, DaysFromCivil, OffsetMinutes;
    if |y| == 5 {
      assert s[5..7] == [r[0], r[1]];
      SignDigitIsNoMonth(s[5..7]);
      NoMonth();
    } else if |y| == 6 {
      assert s[5..7] == [y[5], r[0]];
      DigitSignIsNoNumber(s[5..7]);
    } else if |y| == 9 {
      assert s[8..10] == [y[8], r[0]];
      DigitSignIsNoNumber(s[8..10]);
    } else {
      LongTail(y, r, offset);
    }
  }

  lemma NoMonth()
    ensures forall y, m, d :: m <= 0 ==> DaysFromCivil(y, m, d) == None
  {
  }

  lemma {:induction false} MoreDigits(y: nat, k: nat)
    requires y >= Pow10(k)
    ensures |Decimal(y)| > k
  {
    if k > 0 {
      MoreDigits(y / 10, k - 1);
    }
  }

  lemma FiveDigits(y: nat)
    requires y >= 10_000
    ensures |Decimal(y)| >= 5 && Padded(y, 4) == Decimal(y)
  {
    Widths();
    MoreDigits(y, 4);
    assert Zeros(4 - |Decimal(y)|) == "";
  }

  lemma LateYear(days: int)
    requires days >= DAYS_10000
    ensures CivilFromDays(days).year >= 10_000
    ensures var c := CivilFromDays(days); 1 <= c.month <= 12 && 1 <= c.day <= 31
  {
    hide CivilFromDays, DaysToMonth, ClosedForm, MonthLength, LengthOfMonth, DaysFromCivil, SipDays, NoteDays;
    var c := CivilFromDays(days);
    CivilCounts(days);
    AtMost31(c.year, c.month);
    FormulasAgree(c.year, c.month, c.day);
    FormulasCount(c.year, c.month, c.day);
    MonthNumber(c.year, c.month);
    var n := 12 * (c.year - 1970) + c.month - 1;
    if c.year < 10_000 {
      assert n + 1 <= 12 * 8030;
      NextMonth(n);
      CountGrows(n + 1, 12 * 8030);
      FirstMonthOf10000();
    }
  }

  lemma NextMonth(n: int)
    ensures DaysToMonth(n + 1) == DaysToMonth(n) + LengthOfMonth(n)
  {
    hide LengthOfMonth;
  }

  lemma TwoDigits(n: nat)
    requires n < 100
    ensures |Padded(n, 2)| == 2 && IsDigit(Padded(n, 2)[0]) && IsDigit(Padded(n, 2)[1])
  {
    Widths();
    PaddedRoundTrip(n, 2);
  }

  /** From year 10000 on the year takes more than four digits. */
  lemma LateNaive(days: int, rem: int) returns (r: string)
    requires days >= DAYS_10000 && 0 <= rem < 86_400
    ensures BehindYear(r)
    ensures
      var y := CivilFromDays(days).year;
      y >= 10_000 && |Decimal(y)| >= 5 && Naive(days, rem) == Decimal(y) + r
  {
    hide CivilFromDays, Padded, Decimal;
    LateYear(days);
    SplitOfDay(rem);
    var c := CivilFromDays(days);
    FiveDigits(c.year);
    TwoDigits(c.month);
    TwoDigits(c.day);
    TwoDigits(rem / 3600);
    TwoDigits(rem % 3600 / 60);
    TwoDigits(rem % 60);
    r := Behind(
      Padded(c.month, 2), Padded(c.day, 2), Padded(rem / 3600, 2), Padded(rem % 3600 / 60, 2), Padded(rem % 60, 2));
    assert Naive(days, rem) == Decimal(c.year) + r;
  }

  predicate IsPair(s: string) {
    |s| == 2 && IsDigit(s[0]) && IsDigit(s[1])
  }

  function Behind(m: string, d: string, h: string, mi: string, se: string): (r: string)
    requires IsPair(m) && IsPair(d) && IsPair(h) && IsPair(mi) && IsPair(se)
    ensures BehindYear(r)
  {
    "-" + m + "-" + d + "T" + h + ":" + mi + ":" + se
  }

  lemma ParseLateNaive(days: int, rem: int, offset: int)
    requires days >= DAYS_10000 && 0 <= rem < 86_400
    ensures ParseGbTimeMs(Naive(days, rem), offset) == None
  {
    hide ParseGbTimeMs, Naive, CivilFromDays, Decimal;
    var r := LateNaive(days, rem);
    LongYearIsRefused(Decimal(CivilFromDays(days).year), r, offset);
  }

  // --- Round trips ---

  lemma TruncDivBounds(offset: int)
    ensures offset >= 0 ==> offset - 60 < TruncDiv(offset, 60) * 60 <= offset
    ensures offset <= 0 ==> offset <= TruncDiv(offset, 60) * 60 < offset + 60
    ensures offset == TruncDiv(offset, 60) * 60 <==> offset % 60 == 0
  {
  }

  /**
   * Formatting an instant and parsing it back, both in the same zone, gives the instant floored to
   * the second - exactly through year 9999 and when the zone's offset is in whole minutes, for
   * instants not before the local epoch. Before it, where formatting shows the epoch, only by
   * coincidence. From year 10000 on the text is refused.
   */
  lemma FormatThenParse(ms: nat, offset: int)
    requires -0x8000_0000 <= offset <= 0x7FFF_FFFF
    ensures
      ParseGbTimeMs(FormatGbTimeMs(ms, offset), offset) == Some(ms / 1000 * 1000) <==>
      && ms / 1000 + offset < DAYS_10000 * 86_400
      && if ms / 1000 + offset >= 0 then offset % 60 == 0 else ms / 1000 == -(TruncDiv(offset, 60) * 60)
  {
    hide ParseGbTimeMs, Naive, TruncDiv;
    var local := Max(ms / 1000 + offset, 0);
    if local / 86_400 >= DAYS_10000 {
      ParseLateNaive(local / 86_400, local % 86_400, offset);
      return;
    }
    ParseNaive(local / 86_400, local % 86_400, offset);
    TruncDivBounds(offset);
    var secs := local - TruncDiv(offset, 60) * 60;
    assert local / 86_400 * 86_400 + local % 86_400 == local;
    SmallSeconds(secs);
  }

  lemma SmallSeconds(secs: int)
    requires 0 <= secs < 0x100_0000_0000
    ensures secs % U64_VALUES * 1000 % U64_VALUES == secs * 1000
  {
  }

  /** In a whole-minute zone, parsing a valid naive string and formatting gives the string back. */
  lemma ParseThenFormat(y: nat, m: nat, d: nat, h: nat, mi: nat, se: nat, offset: int)
    requires ValidDate(y, m, d) && 1970 <= y < 10_000 && h < 24 && mi < 60 && se < 60
    requires -0x8000_0000 <= offset <= 0x7FFF_FFFF && offset % 60 == 0
    requires Counted(y, m, d) * 86_400 + h * 3600 + mi * 60 + se >= offset
    ensures
      var s := Printed(y, m, d, h, mi, se);
      var ms := ParseGbTimeMs(s, offset);
      ms.Some? && FormatGbTimeMs(ms.value, offset) == s
  {
    hide ParseGbTimeMs, Printed, Padded, CivilFromDays, Counted, MonthLength, Leap, DaysToMonth, TruncDiv;
    var days := Counted(y, m, d);
    var rem := h * 3600 + mi * 60 + se;
    AtMost31(y, m);
    ParsePrintedTime(y, m, d, h, mi, se, offset);
    DaysInRange(y, m, d);
    TruncDivBounds(offset);
    var local := days * 86_400 + rem;
    SmallSeconds(local - offset);
    assert local / 86_400 == days && local % 86_400 == rem;
    CivilInvertsCount(y, m, d);
    NaiveIsPrinted(days, rem);
    HourMinuteSecond(h, mi, se);
    assert (local - offset) * 1000 / 1000 + offset == local;
  }

  lemma HourMinuteSecond(h: nat, mi: nat, se: nat)
    requires mi < 60 && se < 60
    ensures
      var rem := h * 3600 + mi * 60 + se;
      rem / 3600 == h && rem % 3600 / 60 == mi && rem % 60 == se
  {
    var rem := h * 3600 + mi * 60 + se;
    assert rem / 3600 == h && rem % 3600 == mi * 60 + se;
    assert rem == 60 * (60 * h + mi) + se;
  }

  lemma DaysInRange(y: nat, m: nat, d: nat)
    requires ValidDate(y, m, d) && 1970 <= y < 10_000
    ensures 0 <= Counted(y, m, d) < DAYS_10000
  {
    hide DaysToMonth, MonthLength, LengthOfMonth;
    MonthNumber(y, m);
    var n := 12 * (y - 1970) + m - 1;
    CountGrows(0, n);
    CountGrows(n, 12 * 8030);
    FirstMonth();
    FirstMonthOf10000();
  }

  // --- The Date header ---

  function FormatDate(ms: nat): string {
    var secs := ms / 1000;
    Naive(secs / 86_400, secs % 86_400) + "." + Padded(ms % 1000, 3)
  }

  function ParseNoteDate(s: string): Option<nat> {
    if |s| != 23 || s[4] != '-' || s[7] != '-' || s[10] != 'T' || s[13] != ':' || s[16] != ':' || s[19] != '.' then
      None
    else
      match (ParseSigned(s[0..4]), ParseSigned(s[5..7]), ParseSigned(s[8..10]), ParseSigned(s[11..13]),
             ParseSigned(s[14..16]), ParseSigned(s[17..19]), ParseSigned(s[20..23]))
      case (Some(year), Some(month), Some(day), Some(hour), Some(minute), Some(second), Some(millis)) =>
        if !(1 <= month <= 12) || !(1 <= day <= 31) || hour > 23 || minute > 59 || second > 59 then None
        else
          var secs := NoteDays(year, month, day) * 86_400 + hour * 3600 + minute * 60 + second;
          Some(Max(secs * 1000 + millis, 0))
      case _ => None
  }

  lemma ParsePrintedDate(y: nat, m: nat, d: nat, h: nat, mi: nat, se: nat, millis: nat)
    requires Fits(y, m, d, h, mi, se) && 1 <= m <= 12 && 1 <= d <= 31 && h < 24 && mi < 60 && se < 60 && millis < 1000
    ensures
      ParseNoteDate(Printed(y, m, d, h, mi, se) + "." + Padded(millis, 3)) ==
      Some(Max((Counted(y, m, d) * 86_400 + h * 3600 + mi * 60 + se) * 1000 + millis, 0))
  {
    hide Padded, Printed, DaysFromCivil, Counted, ParseSigned, SipDays, NoteDays;
    var p := Printed(y, m, d, h, mi, se);
    var s := p + "." + Padded(millis, 3);
    PrintedFields(y, m, d, h, mi, se);
    Widths();
    PaddedRoundTrip(millis, 3);
    assert s[20..23] == Padded(millis, 3);
    assert s[0..4] == p[0..4] && s[5..7] == p[5..7] && s[8..10] == p[8..10];
    assert s[11..13] == p[11..13] && s[14..16] == p[14..16] && s[17..19] == p[17..19];
    ParsePadded(y, 4);
    ParsePadded(m, 2);
    ParsePadded(d, 2);
    ParsePadded(h, 2);
    ParsePadded(mi, 2);
    ParsePadded(se, 2);
    ParsePadded(millis, 3);
    FormulasCount(y, m, d);
  }

  lemma LateDateIsRefused(days: int, rem: int, millis: nat)
    requires days >= DAYS_10000 && 0 <= rem < 86_400 && millis < 1000
    ensures ParseNoteDate(Naive(days, rem) + "." + Padded(millis, 3)) == None
  {
    hide Naive, CivilFromDays, Decimal, Padded;
    var r := LateNaive(days, rem);
    Widths();
    PaddedRoundTrip(millis, 3);
  }

  /** A Date header carries its instant to the millisecond, exactly through year 9999. */
  lemma DateHeaderRoundTrip(ms: nat)
    ensures ParseNoteDate(FormatDate(ms)) == Some(ms) <==> ms / 1000 < DAYS_10000 * 86_400
  {
    hide ParseNoteDate, Naive, Printed, Padded, CivilFromDays, Counted, MonthLength, Leap;
    var secs := ms / 1000;
    var days, rem := secs / 86_400, secs % 86_400;
    if days >= DAYS_10000 {
      LateDateIsRefused(days, rem, ms % 1000);
      return;
    }
    NaiveIsPrinted(days, rem);
    YearInRange(days);
    SplitOfDay(rem);
    var c := CivilFromDays(days);
    ParsePrintedDate(c.year, c.month, c.day, rem / 3600, rem % 3600 / 60, rem % 60, ms % 1000);
  }

  // --- What the texts say ---

  function Seconds(y: int, m: int, d: int, h: int, mi: int, se: int): int {
    Counted(y, m, d) * 86_400 + h * 3600 + mi * 60 + se
  }

  /** The fields of a text by their places in it, and the marks between them. */
  predicate Reads(s: string, y: nat, m: nat, d: nat, h: nat, mi: nat, se: nat) {
    && |s| >= 19 && AllDigits(s[0..4]) && AllDigits(s[5..7]) && AllDigits(s[8..10])
    && AllDigits(s[11..13]) && AllDigits(s[14..16]) && AllDigits(s[17..19])
    && s[4] == '-' && s[7] == '-' && s[10] == 'T' && s[13] == ':' && s[16] == ':'
    && DecimalValue(s[0..4]) == y && DecimalValue(s[5..7]) == m && DecimalValue(s[8..10]) == d
    && DecimalValue(s[11..13]) == h && DecimalValue(s[14..16]) == mi && DecimalValue(s[17..19]) == se
  }

  lemma PrintedReads(y: nat, m: nat, d: nat, h: nat, mi: nat, se: nat)
    requires Fits(y, m, d, h, mi, se)
    ensures |Printed(y, m, d, h, mi, se)| == 19 && Reads(Printed(y, m, d, h, mi, se), y, m, d, h, mi, se)
  {
    PrintedFields(y, m, d, h, mi, se);
    Widths();
    PaddedRoundTrip(y, 4);
    PaddedRoundTrip(m, 2);
    PaddedRoundTrip(d, 2);
    PaddedRoundTrip(h, 2);
    PaddedRoundTrip(mi, 2);
    PaddedRoundTrip(se, 2);
    hide Printed, Padded, DecimalValue, AllDigits;
  }

  /** A printed instant is the valid date and the time of day that count to its local seconds. */
  lemma PrintedTimeCounts(ms: nat, offset: int) returns (y: nat, m: nat, d: nat, h: nat, mi: nat, se: nat)
    requires ms / 1000 + offset < 2_932_897 * 86_400
    ensures |FormatGbTimeMs(ms, offset)| == 19 && Reads(FormatGbTimeMs(ms, offset), y, m, d, h, mi, se)
    ensures ValidDate(y, m, d) && h < 24 && mi < 60 && se < 60
    ensures Seconds(y, m, d, h, mi, se) == if ms / 1000 + offset < 0 then 0 else ms / 1000 + offset
  {
    hide Naive, Printed, CivilFromDays, Counted, MonthLength, Leap, Reads;
    var local := Max(ms / 1000 + offset, 0);
    var days, rem := local / 86_400, local % 86_400;
    NaiveIsPrinted(days, rem);
    YearInRange(days);
    SplitOfDay(rem);
    var c := CivilFromDays(days);
    y, m, d, h, mi, se := c.year, c.month, c.day, rem / 3600, rem % 3600 / 60, rem % 60;
    PrintedReads(y, m, d, h, mi, se);
    assert days * 86_400 + rem == local;
  }

  /** Parsing a printed instant with a tail. */
  lemma ParseWithTail(
    y: nat, m: nat, d: nat, h: nat, mi: nat, se: nat, tail: string, offset: int, east: int)
    requires Fits(y, m, d, h, mi, se) && 1 <= m <= 12 && 1 <= d <= 31
    requires EndsPlain(tail) && OffsetMinutes(tail, offset) == Some(east)
    ensures
      ParseGbTimeMs(Printed(y, m, d, h, mi, se) + tail, offset)
      == Some((Seconds(y, m, d, h, mi, se) - east * 60) % U64_VALUES * 1000 % U64_VALUES)
  {
    hide Padded, DaysFromCivil, Counted, ParseSigned, CivilFromDays, SipDays, NoteDays, OffsetMinutes;
    var p := Printed(y, m, d, h, mi, se);
    var s := p + tail;
    PrintedFields(y, m, d, h, mi, se);
    assert s[0] == p[0] && s[|s| - 1] == (if tail == "" then p[18] else tail[|tail| - 1]);
    TrimTrimmed(s);
    assert s[19..] == tail && s[..19] == p;
    SameFront(s, p);
    Widths();
    ParsePadded(y, 4);
    ParsePadded(m, 2);
    ParsePadded(d, 2);
    ParsePadded(h, 2);
    ParsePadded(mi, 2);
    ParsePadded(se, 2);
    hide Trim, Printed;
    FormulasCount(y, m, d);
  }

  lemma SameFront(s: string, p: string)
    requires |p| == 19 && |s| >= 19 && s[..19] == p
    ensures s[0..4] == p[0..4] && s[5..7] == p[5..7] && s[8..10] == p[8..10]
    ensures s[11..13] == p[11..13] && s[14..16] == p[14..16] && s[17..19] == p[17..19]
  {
    assert forall i :: 0 <= i < 19 ==> s[i] == s[..19][i];
  }

  /** The tail of a text `+hh:mm` or `-hh:mm`. */
  function Zone(east: bool, hh: nat, mm: nat): string {
    (if east then "+" else "-") + Padded(hh, 2) + ":" + Padded(mm, 2)
  }

  lemma ZoneIsRead(east: bool, hh: nat, mm: nat, offset: int)
    requires hh < 100 && mm < 100
    ensures EndsPlain(Zone(east, hh, mm))
    ensures OffsetMinutes(Zone(east, hh, mm), offset) == Some(if east then hh * 60 + mm else -(hh * 60 + mm))
  {
    Widths();
    PaddedRoundTrip(hh, 2);
    PaddedRoundTrip(mm, 2);
    ParsePadded(hh, 2);
    ParsePadded(mm, 2);
    hide Padded, ParseSigned, DecimalValue;
    var (tail, digits) := (Zone(east, hh, mm), Padded(hh, 2) + ":" + Padded(mm, 2));
    assert tail == (if east then "+" else "-") + digits;
    DigitsOfZone(Padded(hh, 2), Padded(mm, 2), east);
    hide Zone, TrimSigns;
  }

  lemma DigitsOfZone(hh: string, mm: string, east: bool)
    requires |hh| == |mm| == 2 && AllDigits(hh) && AllDigits(mm)
    ensures
      var digits := hh + ":" + mm;
      var tail := (if east then "+" else "-") + digits;
      && |tail| == 6 && tail[0] == (if east then '+' else '-') && EndsPlain(tail) && TrimSigns(tail) == digits
      && |digits| == 5 && digits[2] == ':' && digits[0..2] == hh && digits[3..5] == mm
  {
    var digits := hh + ":" + mm;
    var tail := (if east then "+" else "-") + digits;
    assert tail[1..] == digits;
    assert IsDigit(digits[0]) && IsDigit(tail[5]);
  }

  /**
   * A text with tail `Z` is UTC wherever it is read, one with `+hh:mm` lies that much earlier, one with `-hh:mm` that
   * much later, and one without a tail is local, the zone's offset cut to whole minutes.
   */
  lemma TailsAreRead(y: nat, m: nat, d: nat, h: nat, mi: nat, se: nat, hh: nat, mm: nat, offset: int)
    requires Fits(y, m, d, h, mi, se) && 1 <= m <= 12 && 1 <= d <= 31 && hh < 100 && mm < 100
    ensures
      var (s, utc) := (Printed(y, m, d, h, mi, se), Seconds(y, m, d, h, mi, se));
      && ParseGbTimeMs(s + "Z", offset) == Some(utc % U64_VALUES * 1000 % U64_VALUES)
      && ParseGbTimeMs(s + Zone(true, hh, mm), offset)
         == Some((utc - (hh * 3600 + mm * 60)) % U64_VALUES * 1000 % U64_VALUES)
      && ParseGbTimeMs(s + Zone(false, hh, mm), offset)
         == Some((utc + (hh * 3600 + mm * 60)) % U64_VALUES * 1000 % U64_VALUES)
      && (offset >= 0 ==>
            ParseGbTimeMs(s, offset) == Some((utc - (offset - offset % 60)) % U64_VALUES * 1000 % U64_VALUES))
      && (offset < 0 ==>
            ParseGbTimeMs(s, offset) == Some((utc + (-offset - -offset % 60)) % U64_VALUES * 1000 % U64_VALUES))
  {
    hide ParseGbTimeMs, Printed, Zone, Seconds;
    ParseWithTail(y, m, d, h, mi, se, "Z", offset, 0);
    ZoneIsRead(true, hh, mm, offset);
    ZoneIsRead(false, hh, mm, offset);
    hide OffsetMinutes;
    ParseWithTail(y, m, d, h, mi, se, Zone(true, hh, mm), offset, hh * 60 + mm);
    ParseWithTail(y, m, d, h, mi, se, Zone(false, hh, mm), offset, -(hh * 60 + mm));
    assert OffsetMinutes("", offset) == Some(TruncDiv(offset, 60)) by { NoTail(offset); }
    ParseWithTail(y, m, d, h, mi, se, "", offset, TruncDiv(offset, 60));
    WholeMinutes(offset);
    assert Printed(y, m, d, h, mi, se) + "" == Printed(y, m, d, h, mi, se);
  }

  lemma NoTail(offset: int)
    ensures OffsetMinutes("", offset) == Some(TruncDiv(offset, 60))
  {
  }

  lemma WholeMinutes(offset: int)
    ensures offset >= 0 ==> TruncDiv(offset, 60) * 60 == offset - offset % 60
    ensures offset < 0 ==> TruncDiv(offset, 60) * 60 == -(-offset - -offset % 60)
  {
  }

  /** A Date header is refused exactly if its month, day, hour, minute or second is none of the calendar's. */
  lemma DatesAreChecked(y: nat, m: nat, d: nat, h: nat, mi: nat, se: nat, millis: nat)
    requires Fits(y, m, d, h, mi, se) && millis < 1000
    ensures
      ParseNoteDate(Printed(y, m, d, h, mi, se) + "." + Padded(millis, 3)) == None <==>
      m < 1 || m > 12 || d < 1 || d > 31 || h > 23 || mi > 59 || se > 59
  {
    if 1 <= m <= 12 && 1 <= d <= 31 && h < 24 && mi < 60 && se < 60 {
      hide Printed, Fits, ParseNoteDate, Padded, Counted;
      ParsePrintedDate(y, m, d, h, mi, se, millis);
    } else {
      OutOfCalendar(y, m, d, h, mi, se, millis);
    }
  }

  lemma OutOfCalendar(y: nat, m: nat, d: nat, h: nat, mi: nat, se: nat, millis: nat)
    requires Fits(y, m, d, h, mi, se) && millis < 1000
    requires !(1 <= m <= 12) || !(1 <= d <= 31) || h > 23 || mi > 59 || se > 59
    ensures ParseNoteDate(Printed(y, m, d, h, mi, se) + "." + Padded(millis, 3)) == None
  {
    hide Padded, Printed, ParseSigned, NoteDays;
    var (front, s) := (Printed(y, m, d, h, mi, se), Printed(y, m, d, h, mi, se) + "." + Padded(millis, 3));
    PrintedFields(y, m, d, h, mi, se);
    ParsePadded(m, 2);
    ParsePadded(d, 2);
    ParsePadded(h, 2);
    ParsePadded(mi, 2);
    ParsePadded(se, 2);
    assert s[..19] == front;
    assert s[5..7] == front[5..7] && s[8..10] == front[8..10] && s[11..13] == front[11..13];
    assert s[14..16] == front[14..16] && s[17..19] == front[17..19];
  }
}
