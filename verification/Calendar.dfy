/**
 * Days since 1970-01-01 for a civil date and back: the three closed forms of src/manscdp.rs,
 * src/sip.rs and src/security35114/integrity.rs, and the inverse shared by src/client.rs and
 * src/security35114/integrity.rs, against a calendar counted month by month.
 */
module Calendar {
  import opened Results

  // --- The calendar itself ---

  predicate Leap(y: int) {
    y % 4 == 0 && (y % 100 != 0 || y % 400 == 0)
  }

  function MonthLength(y: int, m: int): int {
    if m == 2 then if Leap(y) then 29 else 28
    else if m == 4 || m == 6 || m == 9 || m == 11 then 30
    else 31
  }

  predicate ValidDate(y: int, m: int, d: int) {
    1 <= m <= 12 && 1 <= d <= MonthLength(y, m)
  }

  /** Months are numbered from January 1970; n may be negative. */
  function LengthOfMonth(n: int): int {
    MonthLength(1970 + n / 12, n % 12 + 1)
  }

  /** Days from 1970-01-01 to the first of month n, counted one month at a time. */
  function DaysToMonth(n: int): int
    decreases if n >= 0 then n else -n
  {
    if n == 0 then 0
    else if n > 0 then DaysToMonth(n - 1) + LengthOfMonth(n - 1)
    else DaysToMonth(n + 1) - LengthOfMonth(n)
  }

  function Counted(y: int, m: int, d: int): int {
    DaysToMonth(12 * (y - 1970) + m - 1) + d - 1
  }

  // --- The closed forms ---

  /** Division of signed integers in Rust: towards zero. */
  function TruncDiv(a: int, b: int): int
    requires b > 0
  {
    if a >= 0 then a / b else -((-a) / b)
  }

  /** src/manscdp.rs: Euclidean era, months from March by `(m + 9) % 12`. */
  function DaysFromCivil(y: int, m: int, d: int): Option<int> {
    if !(1 <= m <= 12) || !(1 <= d <= 31) then None
    else
      var y := if m <= 2 then y - 1 else y;
      var era := y / 400;
      var yoe := y - era * 400;
      var mp := (m + 9) % 12;
      var doy := (153 * mp + 2) / 5 + d - 1;
      var doe := yoe * 365 + yoe / 4 - yoe / 100 + doy;
      Some(era * 146_097 + doe - 719_468)
  }

  /** src/sip.rs: the era by truncating division with a correction for negative years. */
  function SipDays(y: int, m: int, d: int): int {
    var y := y - if m <= 2 then 1 else 0;
    var era := TruncDiv(if y >= 0 then y else y - 399, 400);
    var yoe := y - era * 400;
    var mp := (m + 9) % 12;
    var doy := TruncDiv(153 * mp + 2, 5) + d - 1;
    var doe := yoe * 365 + TruncDiv(yoe, 4) - TruncDiv(yoe, 100) + doy;
    era * 146_097 + doe - 719_468
  }

  /** src/security35114/integrity.rs: Euclidean quotient and remainder, months from March by cases. */
  function NoteDays(y: int, m: int, d: int): int {
    var y := if m <= 2 then y - 1 else y;
    var era := y / 400;
    var yoe := y % 400;
    var mp := if m > 2 then m - 3 else m + 9;
    var doy := (153 * mp + 2) / 5 + d - 1;
    var doe := yoe * 365 + yoe / 4 - yoe / 100 + doy;
    era * 146_097 + doe - 719_468
  }

  /** Days before the first of March of year y, counted from the first of March of year 0. */
  function MarchDays(y: int): int {
    365 * y + y / 4 - y / 100 + y / 400
  }

  /** Days before the month mp of a year that starts in March. */
  function DaysBefore(mp: nat): int {
    (153 * mp + 2) / 5
  }

  function ClosedForm(y: int, m: int, d: int): int {
    MarchDays(if m <= 2 then y - 1 else y) + DaysBefore((m + 9) % 12) + d - 1 - 719_468
  }

  lemma EraForm(y: int)
    ensures
      var era := y / 400;
      var yoe := y - era * 400;
      && 0 <= yoe < 400 && yoe == y % 400
      && era * 146_097 + yoe * 365 + yoe / 4 - yoe / 100 == MarchDays(y)
      && TruncDiv(if y >= 0 then y else y - 399, 400) == era
  {
    var era := y / 400;
    var yoe := y - era * 400;
    assert y / 4 == era * 100 + yoe / 4;
    assert y / 100 == era * 4 + yoe / 100;
  }

  /** The three formulas agree for every year, positive or not, every month and every day number. */
  lemma FormulasAgree(y: int, m: int, d: int)
    requires 1 <= m <= 12 && 1 <= d <= 31
    ensures DaysFromCivil(y, m, d) == Some(SipDays(y, m, d))
    ensures SipDays(y, m, d) == NoteDays(y, m, d) == ClosedForm(y, m, d)
  {
    CivilIsClosed(y, m, d);
    SipIsClosed(y, m, d);
    NoteIsClosed(y, m, d);
    hide DaysFromCivil, SipDays, NoteDays, ClosedForm;
  }

  lemma CivilIsClosed(y: int, m: int, d: int)
    requires 1 <= m <= 12 && 1 <= d <= 31
    ensures DaysFromCivil(y, m, d) == Some(ClosedForm(y, m, d))
  {
    EraForm(if m <= 2 then y - 1 else y);
    hide MarchDays, TruncDiv;
  }

  lemma SipIsClosed(y: int, m: int, d: int)
    requires 1 <= m <= 12 && 1 <= d <= 31
    ensures SipDays(y, m, d) == ClosedForm(y, m, d)
  {
    EraForm(if m <= 2 then y - 1 else y);
    hide MarchDays;
  }

  lemma NoteIsClosed(y: int, m: int, d: int)
    requires 1 <= m <= 12 && 1 <= d <= 31
    ensures NoteDays(y, m, d) == ClosedForm(y, m, d)
  {
    EraForm(if m <= 2 then y - 1 else y);
    assert (m + 9) % 12 == if m > 2 then m - 3 else m + 9;
    hide MarchDays, TruncDiv;
  }

  lemma MarchDaysStep(y: int)
    ensures MarchDays(y + 1) == MarchDays(y) + if Leap(y + 1) then 366 else 365
  {
    Quotient(y, 4);
    Quotient(y, 100);
    Quotient(y, 400);
  }

  lemma Quotient(y: int, b: int)
    requires b == 4 || b == 100 || b == 400
    ensures (y + 1) / b == y / b + if (y + 1) % b == 0 then 1 else 0
  {
  }

  /** From the first of one month to the first of the next the closed form advances by its length. */
  lemma ClosedFormStep(y: int, m: int)
    requires 1 <= m <= 12
    ensures
      var (nextY, nextM) := if m == 12 then (y + 1, 1) else (y, m + 1);
      ClosedForm(nextY, nextM, 1) == ClosedForm(y, m, 1) + MonthLength(y, m)
  {
    MonthsFromMarch();
    hide MarchDays, Leap, DaysBefore;
    if m == 2 {
      MarchDaysStep(y - 1);
    }
  }

  lemma MonthsFromMarch()
    ensures DaysBefore(0) == 0 && DaysBefore(1) == 31 && DaysBefore(2) == 61 && DaysBefore(3) == 92
    ensures DaysBefore(4) == 122 && DaysBefore(5) == 153 && DaysBefore(6) == 184 && DaysBefore(7) == 214
    ensures DaysBefore(8) == 245 && DaysBefore(9) == 275 && DaysBefore(10) == 306 && DaysBefore(11) == 337
  {
  }

  lemma NextMonth(n: int)
    ensures
      if n % 12 == 11 then (n + 1) / 12 == n / 12 + 1 && (n + 1) % 12 == 0
      else (n + 1) / 12 == n / 12 && (n + 1) % 12 == n % 12 + 1
  {
  }

  lemma EpochIsDayZero()
    ensures ClosedForm(1970, 1, 1) == 0
  {
  }

  lemma {:induction false} ClosedFormCounts(n: int)
    ensures ClosedForm(1970 + n / 12, n % 12 + 1, 1) == DaysToMonth(n)
    decreases if n >= 0 then n else -n
  {
    hide ClosedForm, MonthLength;
    EpochIsDayZero();
    if n > 0 {
      ClosedFormCounts(n - 1);
      NextMonth(n - 1);
      ClosedFormStep(1970 + (n - 1) / 12, (n - 1) % 12 + 1);
    } else if n < 0 {
      ClosedFormCounts(n + 1);
      NextMonth(n);
      ClosedFormStep(1970 + n / 12, n % 12 + 1);
    }
  }

  /** They count days as the calendar does, back to and beyond year 0. */
  lemma FormulasCount(y: int, m: int, d: int)
    requires 1 <= m <= 12 && 1 <= d <= 31
    ensures DaysFromCivil(y, m, d) == Some(Counted(y, m, d))
    ensures SipDays(y, m, d) == NoteDays(y, m, d) == Counted(y, m, d)
  {
    FormulasAgree(y, m, d);
    var n := 12 * (y - 1970) + m - 1;
    assert n / 12 == y - 1970 && n % 12 == m - 1;
    ClosedFormCounts(n);
  }

  // --- The inverse ---

  datatype Civil = Civil(year: int, month: int, day: int)

  function CivilFromDays(days: int): Civil {
    var z := days + 719_468;
    var era := z / 146_097;
    var doe := z % 146_097;
    var yoe := YearOfEra(doe);
    var doy := doe - (365 * yoe + yoe / 4 - yoe / 100);
    var mp := (5 * doy + 2) / 153;
    var d := doy - (153 * mp + 2) / 5 + 1;
    var month := if mp < 10 then mp + 3 else mp - 9;
    Civil(yoe + era * 400 + (if month <= 2 then 1 else 0), month, d)
  }

  function YearOfEra(doe: int): int {
    (doe - doe / 1460 + doe / 36_524 - doe / 146_096) / 365
  }

  /** A day of an era, given its century, its four-year cycle, its year in that and its day in that. */
  lemma YearOfEraIs(c: int, q: int, r: int, t: int)
    requires 0 <= c < 4 && 0 <= q < 25 && 0 <= r < 4
    requires 0 <= t < if r == 3 && (q < 24 || c == 3) then 366 else 365
    ensures YearOfEra(36_524 * c + 1461 * q + 365 * r + t) == 100 * c + 4 * q + r
  {
    var doe := 36_524 * c + 1461 * q + 365 * r + t;
    var rest := 24 * c + q + 365 * r + t;
    assert doe == 1460 * (25 * c + q) + rest;
    assert rest < 2 * 1460;
    if doe == 146_096 {
      assert c == 3 && q == 24 && r == 3 && t == 365;
    } else {
      assert doe < 146_096;
      assert 1461 * q + 365 * r + t < 36_524;
      assert doe / 36_524 == c;
    }
  }

  /** A year that starts in March ends with the February of the next. */
  predicate YearIsLong(yoe: int) {
    Leap(yoe + 1)
  }

  /** The days of an era laid out in centuries, four-year cycles and years. */
  lemma LayOut(doe: int) returns (c: int, q: int, r: int, t: int)
    requires 0 <= doe < 146_097
    ensures 0 <= c < 4 && 0 <= q < 25 && 0 <= r < 4
    ensures 0 <= t < if r == 3 && (q < 24 || c == 3) then 366 else 365
    ensures doe == 36_524 * c + 1461 * q + 365 * r + t
  {
    c := Min(doe / 36_524, 3);
    var k := doe - 36_524 * c;
    q := Min(k / 1461, 24);
    var u := k - 1461 * q;
    r := Min(u / 365, 3);
    t := u - 365 * r;
  }

  lemma YearParts(c: int, q: int, r: int)
    requires 0 <= c < 4 && 0 <= q < 25 && 0 <= r < 4
    ensures
      var yoe := 100 * c + 4 * q + r;
      && yoe / 4 == 25 * c + q && yoe / 100 == c
      && (YearIsLong(yoe) <==> r == 3 && (q < 24 || c == 3))
  {
    var yoe := 100 * c + 4 * q + r;
    assert (yoe + 1) % 4 == 0 <==> r == 3;
    assert (yoe + 1) % 100 == 0 <==> r == 3 && q == 24;
    assert (yoe + 1) % 400 == 0 <==> r == 3 && q == 24 && c == 3;
  }

  /** Every day of an era falls in exactly the year the formula names. */
  lemma DayOfEra(doe: int)
    requires 0 <= doe < 146_097
    ensures
      var yoe := YearOfEra(doe);
      var doy := doe - (365 * yoe + yoe / 4 - yoe / 100);
      0 <= yoe < 400 && 0 <= doy < if YearIsLong(yoe) then 366 else 365
  {
    hide YearOfEra, YearIsLong;
    var c, q, r, t := LayOut(doe);
    YearOfEraIs(c, q, r, t);
    YearParts(c, q, r);
  }

  lemma MonthOfDay(doy: int)
    requires 0 <= doy <= 365
    ensures
      var mp := (5 * doy + 2) / 153;
      0 <= mp < 12 && DaysBefore(mp) <= doy && (mp < 11 ==> doy < DaysBefore(mp + 1))
  {
    var mp := (5 * doy + 2) / 153;
    assert 153 * mp <= 5 * doy + 2 < 153 * (mp + 1);
  }

  lemma Mod4(y: int, k: int)
    ensures (y + 4 * k) % 4 == y % 4
  {
  }

  lemma Mod100(y: int, k: int)
    ensures (y + 100 * k) % 100 == y % 100
  {
  }

  lemma Mod400(y: int, k: int)
    ensures (y + 400 * k) % 400 == y % 400 && (0 <= y < 400 ==> (y + 400 * k) / 400 == k)
  {
  }

  lemma LeapAcrossEras(y: int, era: int)
    ensures Leap(y + 400 * era) <==> Leap(y)
  {
    Mod4(y, 100 * era);
    Mod100(y, 4 * era);
    Mod400(y, era);
  }

  /** The month and day the formula names for a day of a year that starts in March. */
  lemma MonthAndDay(doy: int, year: int)
    requires 0 <= doy < if Leap(year + 1) then 366 else 365
    ensures
      var mp := (5 * doy + 2) / 153;
      var month := if mp < 10 then mp + 3 else mp - 9;
      var day := doy - DaysBefore(mp) + 1;
      && 0 <= mp < 12 && (month + 9) % 12 == mp
      && ValidDate(if month <= 2 then year + 1 else year, month, day)
  {
    MonthOfDay(doy);
  }

  /** Every day number, before or after the epoch, becomes a date of the calendar that counts to it. */
  lemma CivilCounts(days: int)
    ensures
      var c := CivilFromDays(days);
      ValidDate(c.year, c.month, c.day) && ClosedForm(c.year, c.month, c.day) == days
  {
    hide YearOfEra, MarchDays, DaysBefore, Leap, MonthLength, ValidDate;
    var z := days + 719_468;
    var era := z / 146_097;
    var doe := z % 146_097;
    DayOfEra(doe);
    var yoe := YearOfEra(doe);
    var doy := doe - (365 * yoe + yoe / 4 - yoe / 100);
    LeapAcrossEras(yoe + 1, era);
    EraOfYear(yoe, era);
    DateOfMarchYear(yoe + era * 400, doy);
    assert CivilFromDays(days) == MarchDate(yoe + era * 400, doy);
  }

  /** The date of a day in a year that starts in March. */
  function MarchDate(year: int, doy: int): Civil {
    var mp := (5 * doy + 2) / 153;
    var month := if mp < 10 then mp + 3 else mp - 9;
    Civil(year + (if month <= 2 then 1 else 0), month, doy - (153 * mp + 2) / 5 + 1)
  }

  lemma DateOfMarchYear(year: int, doy: int)
    requires 0 <= doy < if Leap(year + 1) then 366 else 365
    ensures
      var c := MarchDate(year, doy);
      && ValidDate(c.year, c.month, c.day)
      && ClosedForm(c.year, c.month, c.day) == MarchDays(year) + doy - 719_468
  {
    hide MarchDays, Leap, MonthLength;
    MonthAndDay(doy, year);
  }

  lemma EraOfYear(yoe: int, era: int)
    requires 0 <= yoe < 400
    ensures MarchDays(yoe + era * 400) == era * 146_097 + yoe * 365 + yoe / 4 - yoe / 100
  {
    Mod400(yoe, era);
    EraForm(yoe + era * 400);
  }

  lemma {:induction false} CountGrows(n: int, later: int)
    requires n <= later
    ensures DaysToMonth(n) <= DaysToMonth(later)
    ensures n < later ==> DaysToMonth(n) + LengthOfMonth(n) <= DaysToMonth(later)
    decreases later - n
  {
    if n < later {
      CountGrows(n + 1, later);
    }
  }

  /** A date of the calendar comes back from its day number. */
  lemma CivilInvertsCount(y: int, m: int, d: int)
    requires ValidDate(y, m, d)
    ensures CivilFromDays(Counted(y, m, d)) == Civil(y, m, d)
  {
    hide CivilFromDays, ClosedForm, SipDays, NoteDays, DaysFromCivil, DaysToMonth, MonthLength, Leap;
    var days := Counted(y, m, d);
    var c := CivilFromDays(days);
    CivilCounts(days);
    AtMost31(c.year, c.month);
    FormulasCount(c.year, c.month, c.day);
    FormulasAgree(c.year, c.month, c.day);
    SameCountSameDate(y, m, d, c.year, c.month, c.day);
  }

  lemma AtMost31(y: int, m: int)
    ensures MonthLength(y, m) <= 31
  {
  }

  lemma MonthNumber(y: int, m: int)
    requires 1 <= m <= 12
    ensures
      var n := 12 * (y - 1970) + m - 1;
      n / 12 == y - 1970 && n % 12 == m - 1 && LengthOfMonth(n) == MonthLength(y, m)
  {
    var n := 12 * (y - 1970) + m - 1;
    assert n / 12 == y - 1970 && n % 12 == m - 1;
  }

  lemma SameCountSameDate(y: int, m: int, d: int, y': int, m': int, d': int)
    requires ValidDate(y, m, d) && ValidDate(y', m', d') && Counted(y, m, d) == Counted(y', m', d')
    ensures y == y' && m == m' && d == d'
  {
    hide DaysToMonth, MonthLength, LengthOfMonth;
    var n := 12 * (y - 1970) + m - 1;
    var n' := 12 * (y' - 1970) + m' - 1;
    MonthNumber(y, m);
    MonthNumber(y', m');
    if n < n' {
      CountGrows(n, n');
    } else if n' < n {
      CountGrows(n', n);
    }
  }

  /** The month must be 1 to 12 and the day 1 to 31; any other date is refused, a thirtieth of February is not. */
  lemma ImpossibleDates(y: int, m: int, d: int)
    ensures DaysFromCivil(y, m, d) == None <==> m < 1 || m > 12 || d < 1 || d > 31
  {
  }
}
