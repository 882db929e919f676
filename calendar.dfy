/** Calendar days as the application handles them. A `YYYY-MM-DD` string is
    split into a year, month and day, which the `Date` constructor turns into
    a day of the proleptic Gregorian calendar at local midnight: a two-digit
    year is read as 19xx and a day past the month's end rolls into the next
    month. Only a day's weekday and its day-level ordering matter. */
module Calendar {
  import opened Common

  type Month = m: int | 1 <= m <= 12 witness 1
  type DayOfMonth = d: int | 1 <= d <= 31 witness 1

  /** The three numbers `date.split('-').map(n => parseInt(n, 10))` yields. */
  datatype Ymd = Ymd(year: nat, month: Month, day: DayOfMonth)

  predicate LeapYear(y: int) {
    (y % 4 == 0 && y % 100 != 0) || y % 400 == 0
  }

  function DaysIn(y: int, m: Month): (n: int)
    ensures 28 <= n <= 31
    ensures m == 2 ==> (n == 29 <==> LeapYear(y))
  {
    if m == 2 then (if LeapYear(y) then 29 else 28)
    else if m == 4 || m == 6 || m == 9 || m == 11 then 30
    else 31
  }

  /** A triple that names a real calendar day with a year the `Date`
      constructor keeps as it is. */
  predicate IsCalendarDay(d: Ymd) {
    d.year >= 100 && d.day <= DaysIn(d.year, d.month)
  }

  /** A calendar day, as the DATEONLY column stores it. */
  type Date = d: Ymd | IsCalendarDay(d) witness Ymd(2024, 1, 1)

  /** `new Date(year, month - 1, day)`: years 0..99 are read as 1900..1999,
      and a day past the end of the month counts on into the next one. */
  function Normalize(r: Ymd): (d: Date)
    ensures IsCalendarDay(r) ==> d == r
    ensures d == AddDays(Ymd(FullYear(r.year), r.month, 1), r.day - 1)
  {
    var y := FullYear(r.year);
    var dim := DaysIn(y, r.month);
    if r.day <= dim then
      AddDaysInMonth(Ymd(y, r.month, 1), r.day - 1);
      Ymd(y, r.month, r.day)
    else
      // December has 31 days, so only an earlier month can run over.
      AddDaysInMonth(Ymd(y, r.month, 1), dim - 1);
      AddDaysSplit(Ymd(y, r.month, 1), dim - 1, r.day - dim);
      AddDaysInMonth(Ymd(y, r.month + 1, 1), r.day - dim - 1);
      Ymd(y, r.month + 1, r.day - dim)
  }

  /** The `Date` constructor's reading of a year: 0..99 stand for 1900..1999. */
  function FullYear(year: nat): (y: nat)
    ensures y >= 100
  {
    if year < 100 then year + 1900 else year
  }

  /** The calendar day after `d`. */
  function NextDay(d: Date): (e: Date)
    ensures DateBefore(d, e)
  {
    if d.day < DaysIn(d.year, d.month) then Ymd(d.year, d.month, d.day + 1)
    else if d.month < 12 then Ymd(d.year, d.month + 1, 1)
    else Ymd(d.year + 1, 1, 1)
  }

  /** The day `n` days after `d`, counted one day at a time. */
  function AddDays(d: Date, n: nat): Date
    decreases n
  {
    if n == 0 then d else AddDays(NextDay(d), n - 1)
  }

  /** Counting on within a month only raises the day. */
  lemma {:induction false} AddDaysInMonth(d: Date, n: nat)
    requires d.day + n <= DaysIn(d.year, d.month)
    ensures AddDays(d, n) == Ymd(d.year, d.month, d.day + n)
    decreases n
  {
    if n > 0 {
      AddDaysInMonth(NextDay(d), n - 1);
    }
  }

  /** Counting `a + b` days is counting `a` days and then `b` more. */
  lemma {:induction false} AddDaysSplit(d: Date, a: nat, b: nat)
    ensures AddDays(d, a + b) == AddDays(AddDays(d, a), b)
    decreases a
  {
    if a > 0 {
      AddDaysSplit(NextDay(d), a - 1, b);
    }
  }

  /** A day already normalised stays as it is. */
  lemma NormalizeIdempotent(r: Ymd)
    ensures Normalize(Normalize(r)) == Normalize(r)
  {
  }

  /** Two days that the constructor moves: the 30th of February 2024 is the
      1st of March, and year 24 is 1924. */
  lemma NormalizeExamples()
    ensures Normalize(Ymd(2024, 2, 30)) == Ymd(2024, 3, 1)
    ensures Normalize(Ymd(2023, 2, 29)) == Ymd(2023, 3, 1)
    ensures Normalize(Ymd(2025, 4, 31)) == Ymd(2025, 5, 1)
    ensures Normalize(Ymd(24, 1, 1)) == Ymd(1924, 1, 1)
  {
  }

  function MonthOffset(m: Month): int {
    [0, 3, 2, 5, 0, 3, 5, 1, 4, 6, 2, 4][m - 1]
  }

  /** `Date.prototype.getDay`, 0 = Sunday, by Sakamoto's rule. */
  function DayOfWeek(d: Date): (w: int)
    ensures 0 <= w < 7
  {
    (YearMonthTerm(d.year, d.month) + d.day) % 7
  }

  /** The part of Sakamoto's sum that does not depend on the day. */
  function YearMonthTerm(year: int, month: Month): int {
    var y := if month < 3 then year - 1 else year;
    y + y / 4 - y / 100 + y / 400 + MonthOffset(month)
  }

  /** Sundays, Wednesdays and Saturdays: no tutoring is held. */
  predicate BlockedWeekday(w: int) {
    w == 0 || w == 3 || w == 6
  }

  /** A few days whose weekday is known: they fix 0 as Sunday. */
  lemma KnownWeekdays()
    ensures DayOfWeek(Ymd(2024, 1, 1)) == 1
    ensures DayOfWeek(Ymd(2024, 2, 29)) == 4
    ensures DayOfWeek(Ymd(2025, 10, 15)) == 3
    ensures DayOfWeek(Ymd(2000, 1, 1)) == 6
    ensures DayOfWeek(Ymd(2023, 12, 31)) == 0
  {
  }

  /** Consecutive days of one month have consecutive weekdays. */
  lemma NextDayNextWeekday(d: Date)
    requires d.day < DaysIn(d.year, d.month)
    ensures DayOfWeek(Ymd(d.year, d.month, d.day + 1)) == (DayOfWeek(d) + 1) % 7
  {
    var n := YearMonthTerm(d.year, d.month) + d.day;
    ShiftMod7(n + 1, n, 0);
  }

  /** The first of a month follows the last day of the month before: with
      the days within a month and one known weekday, this ties the rule to
      the whole calendar. */
  lemma NextMonthNextWeekday(y: int, m: Month)
    requires y >= 100 && m < 12
    ensures DayOfWeek(Ymd(y, m + 1, 1)) == (DayOfWeek(Ymd(y, m, DaysIn(y, m))) + 1) % 7
  {
    var last := YearMonthTerm(y, m) + DaysIn(y, m);
    var first := YearMonthTerm(y, m + 1) + 1;
    if m == 2 {
      StepDivs(y);
      LeapSteps(y);
      assert first == last + 1 + 7 * (-4);
      ShiftMod7(first, last, -4);
    } else {
      var k := (MonthOffset(m + 1) + 1 - MonthOffset(m) - DaysIn(y, m) - 1) / 7;
      assert first == last + 1 + 7 * k;
      ShiftMod7(first, last, k);
    }
  }

  /** The first of January follows the 31st of December. */
  lemma NextYearNextWeekday(y: int)
    requires y >= 100
    ensures DayOfWeek(Ymd(y + 1, 1, 1)) == (DayOfWeek(Ymd(y, 12, 31)) + 1) % 7
  {
    var last := YearMonthTerm(y, 12) + 31;
    ShiftMod7(YearMonthTerm(y + 1, 1) + 1, last, -5);
  }

  /** Every next day, within a month, across a month or across a year, is the next weekday. */
  lemma NextDayWeekday(d: Date)
    ensures DayOfWeek(NextDay(d)) == (DayOfWeek(d) + 1) % 7
  {
    if d.day < DaysIn(d.year, d.month) {
      NextDayNextWeekday(d);
    } else if d.month < 12 {
      NextMonthNextWeekday(d.year, d.month);
    } else {
      NextYearNextWeekday(d.year);
    }
  }

  lemma ShiftMod7(a: int, b: int, k: int)
    requires a == b + 1 + 7 * k
    ensures a % 7 == (b % 7 + 1) % 7
  {
    var q := b / 7;
    var r := b % 7;
    assert b == 7 * q + r;
    if r == 6 {
      assert a == 7 * (q + k + 1);
    } else {
      assert a == 7 * (q + k) + (r + 1);
    }
  }

  /** Going from `y - 1` to `y` raises `y / k` by one exactly when `k` divides `y`. */
  lemma StepDivs(y: int)
    ensures y / 4 - (y - 1) / 4 == if y % 4 == 0 then 1 else 0
    ensures y / 100 - (y - 1) / 100 == if y % 100 == 0 then 1 else 0
    ensures y / 400 - (y - 1) / 400 == if y % 400 == 0 then 1 else 0
  {
  }

  /** The three divisibility steps add up to one in a leap year and to none otherwise. */
  lemma LeapSteps(y: int)
    ensures (if y % 4 == 0 then 1 else 0) - (if y % 100 == 0 then 1 else 0) + (if y % 400 == 0 then 1 else 0)
         == if LeapYear(y) then 1 else 0
  {
    if y % 400 == 0 {
      var q := y / 400;
      assert y == 100 * (4 * q);
      assert y == 4 * (100 * q);
    } else if y % 100 == 0 {
      var q := y / 100;
      assert y == 4 * (25 * q);
    }
  }

  /** Day-level chronological order. */
  predicate DateBefore(a: Date, b: Date) {
    a.year < b.year ||
    (a.year == b.year && (a.month < b.month || (a.month == b.month && a.day < b.day)))
  }

  /** A local point in time: a day and the milliseconds elapsed since its midnight. */
  datatype Instant = Instant(date: Date, millis: nat)

  predicate InstantBefore(a: Instant, b: Instant) {
    DateBefore(a.date, b.date) || (a.date == b.date && a.millis < b.millis)
  }

  /** `new Date(year, month - 1, day)` */
  function Midnight(d: Date): Instant {
    Instant(d, 0)
  }

  /** The day part `YYYY-MM-DD` of `toISOString()`; a year past 9999 takes a
      sign and six digits. */
  function IsoDay(d: Date): (s: string)
    ensures d.year <= 9999 ==> |s| == 10 && s[4] == '-' && s[7] == '-'
    ensures d.year > 9999 ==> |s| >= 13 && s[0] == '+'
  {
    DigitsFit(d.year);
    DigitsFit(d.month);
    DigitsFit(d.day);
    var year :=
      if d.year <= 9999 then PadZero(Digits(d.year), 4)
      else "+" + PadZero(Digits(d.year), 6);
    year + "-" + PadZero(Digits(d.month), 2) + "-" + PadZero(Digits(d.day), 2)
  }

  /** The server's reading of a well-formed `YYYY-MM-DD` string: split at the
      dashes and each field read as a decimal number. */
  function ParseDay(s: string): (r: Option<Ymd>)
    ensures r.Some? ==> |s| == 10 && s[4] == '-' && s[7] == '-'
  {
    if |s| == 10 && s[4] == '-' && s[7] == '-' && AllDigits(s[..4]) && AllDigits(s[5..7]) && AllDigits(s[8..]) then
      var month := DigitValue(s[5..7]);
      var day := DigitValue(s[8..]);
      if 1 <= month <= 12 && 1 <= day <= 31 then Some(Ymd(DigitValue(s[..4]), month, day)) else None
    else None
  }

  /** What the client sends is what the server reads back: the day string of
      any day up to the year 9999 parses to that day. */
  lemma IsoDayRoundTrip(d: Date)
    requires d.year <= 9999
    ensures ParseDay(IsoDay(d)) == Some(d)
  {
    var s := IsoDay(d);
    var y := PadZero(Digits(d.year), 4);
    var m := PadZero(Digits(d.month), 2);
    var dd := PadZero(Digits(d.day), 2);
    assert s == y + "-" + m + "-" + dd;
    assert s[..4] == y && s[5..7] == m && s[8..] == dd;
    PaddedDigitsValue(d.year, 4);
    PaddedDigitsValue(d.month, 2);
    PaddedDigitsValue(d.day, 2);
  }
}
