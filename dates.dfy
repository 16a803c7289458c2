/**
 * Proleptic Gregorian calendar arithmetic: the part of date-fns that the
 * calendar grid relies on (startOfMonth, endOfMonth, startOfWeek, endOfWeek,
 * eachDayOfInterval, addMonths, subMonths and the `yyyy-MM-dd` format),
 * written out over unbounded integer years.
 *
 * Every valid date has an ordinal, the number of days since 0001-01-01;
 * successor and predecessor move it by one, and the ordinal determines the
 * date, so the day of the week and every day range follow from it.
 */
module Dates {
  import opened Optional

  datatype Date = Date(year: int, month: int, day: int)

  predicate IsLeapYear(y: int) {
    (y % 4 == 0 && y % 100 != 0) || y % 400 == 0
  }

  function DaysInMonth(y: int, m: int): (n: int)
    requires 1 <= m <= 12
    ensures 28 <= n <= 31
    ensures m == 2 ==> (n == 29 <==> IsLeapYear(y))
    ensures m != 2 ==> n >= 30
  {
    if m == 2 then (if IsLeapYear(y) then 29 else 28)
    else if m == 4 || m == 6 || m == 9 || m == 11 then 30
    else 31
  }

  predicate ValidDate(d: Date) {
    1 <= d.month <= 12 && 1 <= d.day <= DaysInMonth(d.year, d.month)
  }

  /** Days from 0001-01-01 to the first day of year `y` (negative before it). */
  function DaysBeforeYear(y: int): int {
    var p := y - 1;
    365 * p + p / 4 - p / 100 + p / 400
  }

  /** Days from the first of January of year `y` to the first day of month `m`. */
  function DaysBeforeMonth(y: int, m: int): int
    requires 1 <= m <= 12
  {
    var common :=
      if m == 1 then 0 else if m == 2 then 31 else if m == 3 then 59
      else if m == 4 then 90 else if m == 5 then 120 else if m == 6 then 151
      else if m == 7 then 181 else if m == 8 then 212 else if m == 9 then 243
      else if m == 10 then 273 else if m == 11 then 304 else 334;
    common + (if m > 2 && IsLeapYear(y) then 1 else 0)
  }

  /** The day number of a date: 0 for 0001-01-01, counted up and down from there. */
  function Ordinal(d: Date): int
    requires ValidDate(d)
  {
    DaysBeforeYear(d.year) + DaysBeforeMonth(d.year, d.month) + d.day - 1
  }

  lemma DivStep4(y: int)
    ensures y / 4 == (y - 1) / 4 + (if y % 4 == 0 then 1 else 0)
  {
  }

  lemma DivStep100(y: int)
    ensures y / 100 == (y - 1) / 100 + (if y % 100 == 0 then 1 else 0)
  {
  }

  lemma DivStep400(y: int)
    ensures y / 400 == (y - 1) / 400 + (if y % 400 == 0 then 1 else 0)
  {
  }

  lemma LeapDivisors(y: int)
    ensures y % 400 == 0 ==> y % 100 == 0
    ensures y % 100 == 0 ==> y % 4 == 0
  {
    Multiple400(y);
    Multiple100(y);
  }

  lemma Multiple400(y: int)
    ensures y % 400 == 0 ==> y % 100 == 0
  {
    if y % 400 == 0 {
      assert y == 100 * (4 * (y / 400));
    }
  }

  lemma Multiple100(y: int)
    ensures y % 100 == 0 ==> y % 4 == 0
  {
    if y % 100 == 0 {
      assert y == 4 * (25 * (y / 100));
    }
  }

  /** A year has 366 days exactly when it is a leap year, and 365 otherwise. */
  lemma YearLength(y: int)
    ensures DaysBeforeYear(y + 1) == DaysBeforeYear(y) + (if IsLeapYear(y) then 366 else 365)
  {
    DivStep4(y);
    DivStep100(y);
    DivStep400(y);
    LeapDivisors(y);
  }

  /** Every date of year `y` lies between the first days of `y` and `y + 1`. */
  lemma OrdinalWithinYear(d: Date)
    requires ValidDate(d)
    ensures DaysBeforeYear(d.year) <= Ordinal(d) < DaysBeforeYear(d.year + 1)
  {
    YearLength(d.year);
  }

  lemma {:induction false} DaysBeforeYearMonotone(a: int, b: int)
    requires a <= b
    ensures DaysBeforeYear(a) + 365 * (b - a) <= DaysBeforeYear(b)
    decreases b - a
  {
    if a < b {
      YearLength(a);
      DaysBeforeYearMonotone(a + 1, b);
    }
  }

  /** Month m + 1 starts where month m ends. */
  lemma MonthStep(y: int, m: int)
    requires 1 <= m < 12
    ensures DaysBeforeMonth(y, m + 1) == DaysBeforeMonth(y, m) + DaysInMonth(y, m)
  {
  }

  /** Every day of an earlier month comes before the first day of a later one. */
  lemma {:induction false} MonthsOrdered(y: int, m1: int, m2: int)
    requires 1 <= m1 < m2 <= 12
    ensures DaysBeforeMonth(y, m1) + DaysInMonth(y, m1) <= DaysBeforeMonth(y, m2)
    decreases m2 - m1
  {
    MonthStep(y, m1);
    if m1 + 1 < m2 {
      MonthsOrdered(y, m1 + 1, m2);
    }
  }

  /** Within one year, month and day are determined by the day count. */
  lemma MonthDayInjective(d1: Date, d2: Date)
    requires ValidDate(d1) && ValidDate(d2) && d1.year == d2.year
    requires DaysBeforeMonth(d1.year, d1.month) + d1.day == DaysBeforeMonth(d2.year, d2.month) + d2.day
    ensures d1 == d2
  {
    if d1.month < d2.month {
      MonthsOrdered(d1.year, d1.month, d2.month);
    } else if d2.month < d1.month {
      MonthsOrdered(d1.year, d2.month, d1.month);
    }
  }

  /** A day number lies in exactly one year. */
  lemma YearOfDayNumber(o: int, a: int, b: int)
    requires DaysBeforeYear(a) <= o < DaysBeforeYear(a + 1)
    requires DaysBeforeYear(b) <= o < DaysBeforeYear(b + 1)
    ensures a == b
  {
    if a < b {
      DaysBeforeYearMonotone(a + 1, b);
    } else if b < a {
      DaysBeforeYearMonotone(b + 1, a);
    }
  }

  /** The ordinal determines the date: no two valid dates share a day number. */
  lemma OrdinalInjective(d1: Date, d2: Date)
    requires ValidDate(d1) && ValidDate(d2)
    requires Ordinal(d1) == Ordinal(d2)
    ensures d1 == d2
  {
    OrdinalWithinYear(d1);
    OrdinalWithinYear(d2);
    YearOfDayNumber(Ordinal(d1), d1.year, d2.year);
    MonthDayInjective(d1, d2);
  }

  function NextDay(d: Date): (r: Date)
    requires ValidDate(d)
    ensures ValidDate(r) && Ordinal(r) == Ordinal(d) + 1
  {
    if d.day < DaysInMonth(d.year, d.month) then Date(d.year, d.month, d.day + 1)
    else if d.month < 12 then MonthStep(d.year, d.month); Date(d.year, d.month + 1, 1)
    else YearLength(d.year); Date(d.year + 1, 1, 1)
  }

  /** Day of the week, 0 = Sunday ... 6 = Saturday (0001-01-01 was a Monday). */
  function DayOfWeek(d: Date): (w: int)
    requires ValidDate(d)
    ensures 0 <= w < 7
  {
    (Ordinal(d) + 1) % 7
  }

  /** The weekday advances by one, cyclically, from each day to the next. */
  lemma NextDayOfWeek(d: Date)
    requires ValidDate(d)
    ensures DayOfWeek(NextDay(d)) == (DayOfWeek(d) + 1) % 7
  {
    WeekStep(Ordinal(d) + 1);
  }

  lemma WeekStep(o: int)
    ensures (o + 1) % 7 == (o % 7 + 1) % 7
  {
  }

  lemma KnownWeekdays()
    ensures DayOfWeek(Date(2026, 1, 1)) == 4  // a Thursday
    ensures DayOfWeek(Date(2026, 2, 1)) == 0  // a Sunday
    ensures DayOfWeek(Date(2000, 1, 1)) == 6  // a Saturday
  {
  }

  // ---------------------------------------------------------------------
  // Months and weeks

  /**
   * isSameMonth: the same month of the same year. For valid dates, `b` is in
   * the month of `a` exactly when its day number falls within that month.
   */
  predicate SameMonth(a: Date, b: Date): (r: bool)
    ensures ValidDate(a) && ValidDate(b) ==>
      (r <==> Ordinal(Date(a.year, a.month, 1)) <= Ordinal(b) < Ordinal(Date(a.year, a.month, 1)) + DaysInMonth(a.year, a.month))
  {
    if ValidDate(a) && ValidDate(b) then
      MonthSpan(a, b);
      a.year == b.year && a.month == b.month
    else a.year == b.year && a.month == b.month
  }

  /** A valid date is in the month of another exactly when its day number lies within that month. */
  lemma MonthSpan(a: Date, b: Date)
    requires ValidDate(a) && ValidDate(b)
    ensures (a.year == b.year && a.month == b.month) <==>
      Ordinal(Date(a.year, a.month, 1)) <= Ordinal(b) < Ordinal(Date(a.year, a.month, 1)) + DaysInMonth(a.year, a.month)
  {
    var first := Date(a.year, a.month, 1);
    if Ordinal(first) <= Ordinal(b) < Ordinal(first) + DaysInMonth(a.year, a.month) {
      DateInMonth(a.year, a.month, b);
    }
  }

  function StartOfMonth(d: Date): (r: Date)
    requires ValidDate(d)
    ensures ValidDate(r) && SameMonth(r, d) && r.day == 1
  {
    Date(d.year, d.month, 1)
  }

  function EndOfMonth(d: Date): (r: Date)
    requires ValidDate(d)
    ensures ValidDate(r) && SameMonth(r, d) && NextDay(r).day == 1
  {
    Date(d.year, d.month, DaysInMonth(d.year, d.month))
  }

  /**
   * The Sunday on or before `d` (date-fns startOfWeek with weeks starting
   * on Sunday): `d` itself moved back by its weekday, into the previous month
   * when the day of the month is not large enough.
   */
  function StartOfWeek(d: Date): (r: Date)
    requires ValidDate(d)
    ensures ValidDate(r) && DayOfWeek(r) == 0
    ensures Ordinal(r) == Ordinal(d) - DayOfWeek(d)
  {
    var w := DayOfWeek(d);
    var r := if w < d.day then Date(d.year, d.month, d.day - w) else BackIntoPreviousMonth(d, w);
    WeekdayShift(d, r, -w);
    r
  }

  /**
   * The Saturday on or after `d` (date-fns endOfWeek with weeks starting on
   * Sunday): `d` moved forward to weekday 6, into the next month when the
   * month ends first.
   */
  function EndOfWeek(d: Date): (r: Date)
    requires ValidDate(d)
    ensures ValidDate(r) && DayOfWeek(r) == 6
    ensures Ordinal(r) == Ordinal(d) + 6 - DayOfWeek(d)
  {
    var k := 6 - DayOfWeek(d);
    var r := if d.day + k <= DaysInMonth(d.year, d.month) then Date(d.year, d.month, d.day + k) else ForwardIntoNextMonth(d, k);
    WeekdayShift(d, r, k);
    r
  }

  /** The date `w` days before `d`, when that falls in the previous month. */
  function BackIntoPreviousMonth(d: Date, w: int): (r: Date)
    requires ValidDate(d) && d.day <= w < 7
    ensures ValidDate(r) && Ordinal(r) == Ordinal(d) - w
  {
    var (py, pm) := PrevMonthOf(d.year, d.month);
    MonthStartStep(py, pm);
    assert NextMonthOf(py, pm) == (d.year, d.month);
    Date(py, pm, DaysInMonth(py, pm) + d.day - w)
  }

  /** The date `k` days after `d`, when that falls in the next month. */
  function ForwardIntoNextMonth(d: Date, k: int): (r: Date)
    requires ValidDate(d) && 0 <= k < 7 && DaysInMonth(d.year, d.month) < d.day + k
    ensures ValidDate(r) && Ordinal(r) == Ordinal(d) + k
  {
    var (ny, nm) := NextMonthOf(d.year, d.month);
    MonthStartStep(d.year, d.month);
    Date(ny, nm, d.day + k - DaysInMonth(d.year, d.month))
  }

  /** Moving `k` days moves the day of the week by `k`, modulo 7. */
  lemma WeekdayShift(d: Date, r: Date, k: int)
    requires ValidDate(d) && ValidDate(r) && Ordinal(r) == Ordinal(d) + k
    ensures DayOfWeek(r) == (DayOfWeek(d) + k) % 7
  {
    ShiftMod7(Ordinal(d) + 1, k);
  }

  /** In a run of days starting on a Sunday, the day i places on falls on weekday i mod 7. */
  lemma WeekdayInRun(start: Date, x: Date, i: int)
    requires ValidDate(start) && ValidDate(x) && DayOfWeek(start) == 0
    requires Ordinal(x) == Ordinal(start) + i
    ensures DayOfWeek(x) == i % 7
  {
    WeekdayShift(start, x, i);
  }

  lemma ShiftMod7(a: int, k: int)
    ensures (a + k) % 7 == (a % 7 + k) % 7
  {
  }

  /** The `n` days starting at `start`. */
  function DaysFrom(start: Date, n: nat): (r: seq<Date>)
    requires ValidDate(start)
    ensures |r| == n
    ensures forall i | 0 <= i < n :: ValidDate(r[i]) && Ordinal(r[i]) == Ordinal(start) + i
    decreases n
  {
    if n == 0 then [] else [start] + DaysFrom(NextDay(start), n - 1)
  }

  /** Every day from `start` to `end`, both included, in order. */
  function EachDayOfInterval(start: Date, end: Date): (r: seq<Date>)
    requires ValidDate(start) && ValidDate(end) && Ordinal(start) <= Ordinal(end)
    ensures |r| == Ordinal(end) - Ordinal(start) + 1
    ensures forall i | 0 <= i < |r| :: ValidDate(r[i]) && Ordinal(r[i]) == Ordinal(start) + i
  {
    DaysFrom(start, Ordinal(end) - Ordinal(start) + 1)
  }

  /** Cell i of an interval is the date i days after its start. */
  lemma IntervalAt(start: Date, end: Date, i: int, x: Date)
    requires ValidDate(start) && ValidDate(end) && Ordinal(start) <= Ordinal(end)
    requires ValidDate(x) && Ordinal(x) == Ordinal(start) + i && 0 <= i <= Ordinal(end) - Ordinal(start)
    ensures EachDayOfInterval(start, end)[i] == x
  {
    OrdinalInjective(EachDayOfInterval(start, end)[i], x);
  }

  /** Consecutive cells of an interval are consecutive days. */
  lemma EachDayConsecutive(start: Date, end: Date, i: nat)
    requires ValidDate(start) && ValidDate(end) && Ordinal(start) <= Ordinal(end)
    requires i + 1 < |EachDayOfInterval(start, end)|
    ensures EachDayOfInterval(start, end)[i + 1] == NextDay(EachDayOfInterval(start, end)[i])
  {
    var r := EachDayOfInterval(start, end);
    OrdinalInjective(r[i + 1], NextDay(r[i]));
  }

  function PrevMonthOf(y: int, m: int): (int, int)
    requires 1 <= m <= 12
  {
    if m == 1 then (y - 1, 12) else (y, m - 1)
  }

  function NextMonthOf(y: int, m: int): (int, int)
    requires 1 <= m <= 12
  {
    if m == 12 then (y + 1, 1) else (y, m + 1)
  }

  /**
   * date-fns addMonths: move the month by `n` (negative for subMonths) and
   * clamp the day of the month to the length of the target month.
   */
  function AddMonths(d: Date, n: int): (r: Date)
    requires ValidDate(d)
    ensures ValidDate(r)
    ensures r.year * 12 + r.month == d.year * 12 + d.month + n
    ensures r.day == if d.day <= DaysInMonth(r.year, r.month) then d.day else DaysInMonth(r.year, r.month)
  {
    var total := d.year * 12 + (d.month - 1) + n;
    var y, m := total / 12, total % 12 + 1;
    Date(y, m, if d.day <= DaysInMonth(y, m) then d.day else DaysInMonth(y, m))
  }

  /** Moving forward one month and back again restores a first-of-month anchor. */
  lemma AddMonthsRoundTrip(d: Date, n: int)
    requires ValidDate(d) && d.day == 1
    ensures AddMonths(d, n).day == 1
    ensures AddMonths(AddMonths(d, n), -n) == d
  {
  }

  lemma AddOneMonth(d: Date)
    requires ValidDate(d) && d.day == 1
    ensures AddMonths(d, 1) == Date(NextMonthOf(d.year, d.month).0, NextMonthOf(d.year, d.month).1, 1)
    ensures AddMonths(d, -1) == Date(PrevMonthOf(d.year, d.month).0, PrevMonthOf(d.year, d.month).1, 1)
  {
  }

  /** The first of the next month comes the length of this month after the first of this one. */
  lemma MonthStartStep(y: int, m: int)
    requires 1 <= m <= 12
    ensures ValidDate(Date(NextMonthOf(y, m).0, NextMonthOf(y, m).1, 1))
    ensures Ordinal(Date(NextMonthOf(y, m).0, NextMonthOf(y, m).1, 1)) == Ordinal(Date(y, m, 1)) + DaysInMonth(y, m)
  {
    if m < 12 {
      MonthStep(y, m);
    } else {
      YearLength(y);
    }
  }

  /** A date k days before the first of a month (k up to four weeks) is day dim - k + 1 of the previous month. */
  lemma InPreviousMonth(first: Date, x: Date, k: int)
    requires ValidDate(first) && first.day == 1 && ValidDate(x)
    requires Ordinal(x) == Ordinal(first) + k && -28 <= k < 0
    ensures var (py, pm) := PrevMonthOf(first.year, first.month);
      x == Date(py, pm, DaysInMonth(py, pm) + k + 1)
  {
    var (py, pm) := PrevMonthOf(first.year, first.month);
    MonthStartStep(py, pm);
    assert Date(NextMonthOf(py, pm).0, NextMonthOf(py, pm).1, 1) == first;
    DateInMonth(py, pm, x);
  }

  /** A date k days after the first of a month, past its end by up to four weeks, lies in the next month. */
  lemma InNextMonth(first: Date, x: Date, k: int)
    requires ValidDate(first) && first.day == 1 && ValidDate(x)
    requires Ordinal(x) == Ordinal(first) + k
    requires DaysInMonth(first.year, first.month) <= k < DaysInMonth(first.year, first.month) + 28
    ensures var (ny, nm) := NextMonthOf(first.year, first.month);
      x == Date(ny, nm, k - DaysInMonth(first.year, first.month) + 1)
  {
    var (ny, nm) := NextMonthOf(first.year, first.month);
    MonthStartStep(first.year, first.month);
    DateInMonth(ny, nm, x);
  }

  /**
   * Where a date k days after the first of a month falls, for k within four
   * weeks either side: in the previous month, on day k + 1 of this one, or
   * in the next month.
   */
  lemma PlaceAroundMonth(first: Date, x: Date, k: int)
    requires ValidDate(first) && first.day == 1 && ValidDate(x)
    requires Ordinal(x) == Ordinal(first) + k
    requires -28 <= k < DaysInMonth(first.year, first.month) + 28
    ensures SameMonth(x, first) <==> 0 <= k < DaysInMonth(first.year, first.month)
    ensures 0 <= k < DaysInMonth(first.year, first.month) ==> x == Date(first.year, first.month, k + 1)
    ensures k < 0 ==> var (py, pm) := PrevMonthOf(first.year, first.month);
      x == Date(py, pm, DaysInMonth(py, pm) + k + 1)
    ensures DaysInMonth(first.year, first.month) <= k ==> var (ny, nm) := NextMonthOf(first.year, first.month);
      x == Date(ny, nm, k - DaysInMonth(first.year, first.month) + 1)
  {
    if k < 0 {
      InPreviousMonth(first, x, k);
    } else if k < DaysInMonth(first.year, first.month) {
      DateInMonth(first.year, first.month, x);
    } else {
      InNextMonth(first, x, k);
    }
  }

  /** A valid date whose ordinal lies within month (y, m) is that month's date of the matching day. */
  lemma DateInMonth(y: int, m: int, x: Date)
    requires 1 <= m <= 12 && ValidDate(x)
    requires Ordinal(Date(y, m, 1)) <= Ordinal(x) < Ordinal(Date(y, m, 1)) + DaysInMonth(y, m)
    ensures x == Date(y, m, Ordinal(x) - Ordinal(Date(y, m, 1)) + 1)
  {
    var k := Ordinal(x) - Ordinal(Date(y, m, 1));
    assert Ordinal(Date(y, m, k + 1)) == Ordinal(x);
    OrdinalInjective(x, Date(y, m, k + 1));
  }

  // ---------------------------------------------------------------------
  // The `yyyy-MM-dd` format

  predicate IsDigit(c: char) {
    '0' <= c <= '9'
  }

  function DigitChar(n: int): (c: char)
    requires 0 <= n < 10
    ensures IsDigit(c) && DigitValue(c) == n
  {
    ('0' as int + n) as char
  }

  function DigitValue(c: char): int {
    c as int - '0' as int
  }

  /** Decimal digits of `n`, most significant first, without leading zeros. */
  function NatToDigits(n: nat): (s: string)
    ensures 1 <= |s|
    ensures forall c | c in s :: IsDigit(c)
    ensures n < 10 ==> |s| == 1
    ensures 10 <= n < 100 ==> |s| == 2
    ensures 100 <= n < 1000 ==> |s| == 3
    ensures 1000 <= n < 10000 ==> |s| == 4
    ensures n > 0 ==> s[0] != '0'
  {
    if n < 10 then [DigitChar(n)] else NatToDigits(n / 10) + [DigitChar(n % 10)]
  }

  /** The number a string of decimal digits denotes, most significant first. */
  function DigitsValue(s: string): int
    requires forall c | c in s :: IsDigit(c)
    decreases |s|
  {
    if |s| == 0 then 0
    else
      assert forall c | c in s[..|s| - 1] :: c in s;
      DigitsValue(s[..|s| - 1]) * 10 + DigitValue(s[|s| - 1])
  }

  /** The digits of `n` denote `n`. */
  lemma {:induction false} DigitsDenote(n: nat)
    ensures DigitsValue(NatToDigits(n)) == n
    decreases n
  {
    var s := NatToDigits(n);
    if n < 10 {
      assert s[..0] == [];
    } else {
      DigitsDenote(n / 10);
      assert s[..|s| - 1] == NatToDigits(n / 10);
    }
  }

  /** Left-pad `s` with '0' up to `width` characters; longer strings are kept whole. */
  function PadStart(s: string, width: nat): (r: string)
    ensures |r| == if |s| < width then width else |s|
    ensures r[|r| - |s|..] == s
    ensures forall i | 0 <= i < |r| - |s| :: r[i] == '0'
  {
    if |s| < width then seq(width - |s|, _ => '0') + s else s
  }

  /** The year of the era that date-fns prints for `yyyy`: year 0 is 1 BC, and so on. */
  function EraYear(y: int): (e: nat)
    ensures e >= 1
  {
    if y > 0 then y else 1 - y
  }

  /** date-fns format(d, 'yyyy-MM-dd'). */
  function Format(d: Date): (s: string)
    requires ValidDate(d)
    ensures |s| >= 10
    // it ends in "-MM-dd": the month and the day, two digits each
    ensures s[|s| - 6] == '-' && s[|s| - 3] == '-'
    ensures DigitValue(s[|s| - 5]) * 10 + DigitValue(s[|s| - 4]) == d.month
    ensures DigitValue(s[|s| - 2]) * 10 + DigitValue(s[|s| - 1]) == d.day
  {
    Pad2(d.month);
    Pad2(d.day);
    var year := PadStart(NatToDigits(EraYear(d.year)), 4);
    DashedTail(year, TwoDigits(d.month), TwoDigits(d.day));
    year + "-" + TwoDigits(d.month) + "-" + TwoDigits(d.day)
  }

  /** The last six characters of `y-mm-dd` when `mm` and `dd` have two characters each. */
  lemma DashedTail(y: string, mm: string, dd: string)
    requires |mm| == 2 && |dd| == 2
    ensures var s := y + "-" + mm + "-" + dd;
      s[|s| - 6] == '-' && s[|s| - 5] == mm[0] && s[|s| - 4] == mm[1] &&
      s[|s| - 3] == '-' && s[|s| - 2] == dd[0] && s[|s| - 1] == dd[1]
  {
  }

  /**
   * A reference reading of `yyyy-MM-dd` text: exactly ten characters, four,
   * two and two digits separated by '-', naming a valid date in years 1..9999.
   */
  function ParseIsoDate(s: string): (r: Option<Date>)
    ensures r.Some? ==> ValidDate(r.value) && 1 <= r.value.year <= 9999
  {
    if |s| == 10 && s[4] == '-' && s[7] == '-'
       && IsDigit(s[0]) && IsDigit(s[1]) && IsDigit(s[2]) && IsDigit(s[3])
       && IsDigit(s[5]) && IsDigit(s[6]) && IsDigit(s[8]) && IsDigit(s[9])
    then
      var y := DigitValue(s[0]) * 1000 + DigitValue(s[1]) * 100 + DigitValue(s[2]) * 10 + DigitValue(s[3]);
      var m := DigitValue(s[5]) * 10 + DigitValue(s[6]);
      var dd := DigitValue(s[8]) * 10 + DigitValue(s[9]);
      var d := Date(y, m, dd);
      if 1 <= y && ValidDate(d) then Some(d) else None
    else None
  }

  /** Exactly two decimal digits of `n`. */
  function TwoDigits(n: nat): string
    requires n < 100
  {
    [DigitChar(n / 10), DigitChar(n % 10)]
  }

  /** Exactly four decimal digits of `n`. */
  function FourDigits(n: nat): string
    requires n < 10000
  {
    [DigitChar(n / 10 / 10 / 10), DigitChar(n / 10 / 10 % 10), DigitChar(n / 10 % 10), DigitChar(n % 10)]
  }

  lemma Pad2(n: nat)
    requires n < 100
    ensures PadStart(NatToDigits(n), 2) == TwoDigits(n)
  {
    if n >= 10 {
      assert NatToDigits(n / 10) == [DigitChar(n / 10)];
    }
  }

  lemma Pad4(n: nat)
    requires n < 10000
    ensures PadStart(NatToDigits(n), 4) == FourDigits(n)
  {
    if n >= 1000 {
      Pad4Full(n);
    } else if n >= 100 {
      Pad4Three(n);
    } else if n >= 10 {
      assert NatToDigits(n) == [DigitChar(n / 10), DigitChar(n % 10)];
    }
  }

  lemma Pad4Full(n: nat)
    requires 1000 <= n < 10000
    ensures PadStart(NatToDigits(n), 4) == FourDigits(n)
  {
    var q := n / 10;
    var qq := q / 10;
    assert NatToDigits(qq) == [DigitChar(qq / 10), DigitChar(qq % 10)];
    assert NatToDigits(q) == [DigitChar(qq / 10), DigitChar(qq % 10), DigitChar(q % 10)];
  }

  lemma Pad4Three(n: nat)
    requires 100 <= n < 1000
    ensures PadStart(NatToDigits(n), 4) == FourDigits(n)
  {
    var q := n / 10;
    var qq := q / 10;
    assert NatToDigits(q) == [DigitChar(qq), DigitChar(q % 10)];
  }

  /** The ten characters `yyyy-MM-dd` of a date of years 1..9999. */
  function Layout(d: Date): (s: string)
    requires ValidDate(d) && 1 <= d.year <= 9999
  {
    FourDigits(d.year) + "-" + TwoDigits(d.month) + "-" + TwoDigits(d.day)
  }

  lemma FormatShape(d: Date)
    requires ValidDate(d) && 1 <= d.year <= 9999
    ensures Format(d) == Layout(d)
  {
    Pad4(d.year);
    Pad2(d.month);
    Pad2(d.day);
  }

  /** Division by ten splits off the last decimal digit, and only that. */
  lemma DivMod10(x: int, q: int, r: int)
    requires 0 <= r < 10 && x == 10 * q + r
    ensures x / 10 == q && x % 10 == r
  {
  }

  lemma Decompose4(y: int)
    requires 0 <= y < 10000
    ensures y == ((y / 10 / 10 / 10) * 10 + y / 10 / 10 % 10) * 100 + (y / 10 % 10) * 10 + y % 10
  {
  }

  lemma ParseLayout(d: Date)
    requires ValidDate(d) && 1 <= d.year <= 9999
    ensures ParseIsoDate(Layout(d)) == Some(d)
  {
    var s := Layout(d);
    Decompose4(d.year);
    assert DigitValue(s[0]) == d.year / 10 / 10 / 10 && DigitValue(s[1]) == d.year / 10 / 10 % 10;
    assert DigitValue(s[2]) == d.year / 10 % 10 && DigitValue(s[3]) == d.year % 10;
    assert DigitValue(s[5]) == d.month / 10 && DigitValue(s[6]) == d.month % 10;
    assert DigitValue(s[8]) == d.day / 10 && DigitValue(s[9]) == d.day % 10;
  }

  /** Formatting a date of years 1..9999 and reading it back gives the same date. */
  lemma ParseFormat(d: Date)
    requires ValidDate(d) && 1 <= d.year <= 9999
    ensures |Format(d)| == 10
    ensures ParseIsoDate(Format(d)) == Some(d)
  {
    FormatShape(d);
    ParseLayout(d);
  }

  lemma DigitRoundTrip(c: char)
    requires IsDigit(c)
    ensures 0 <= DigitValue(c) < 10 && DigitChar(DigitValue(c)) == c
  {
  }

  lemma LayoutParse(s: string)
    requires ParseIsoDate(s).Some?
    ensures Layout(ParseIsoDate(s).value) == s
  {
    var y := DigitValue(s[0]) * 1000 + DigitValue(s[1]) * 100 + DigitValue(s[2]) * 10 + DigitValue(s[3]);
    var m := DigitValue(s[5]) * 10 + DigitValue(s[6]);
    var dd := DigitValue(s[8]) * 10 + DigitValue(s[9]);
    var d := Date(y, m, dd);
    assert ParseIsoDate(s) == Some(d);
    DigitRoundTrip(s[0]);
    DigitRoundTrip(s[1]);
    DigitRoundTrip(s[2]);
    DigitRoundTrip(s[3]);
    DigitRoundTrip(s[5]);
    DigitRoundTrip(s[6]);
    DigitRoundTrip(s[8]);
    DigitRoundTrip(s[9]);
    var a, b, c, e := DigitValue(s[0]), DigitValue(s[1]), DigitValue(s[2]), DigitValue(s[3]);
    DivMod10(y, a * 100 + b * 10 + c, e);
    DivMod10(a * 100 + b * 10 + c, a * 10 + b, c);
    DivMod10(a * 10 + b, a, b);
    DivMod10(m, DigitValue(s[5]), DigitValue(s[6]));
    DivMod10(dd, DigitValue(s[8]), DigitValue(s[9]));
    assert a / 10 == 0 && a % 10 == a;
    assert Layout(d) == [s[0], s[1], s[2], s[3], s[4], s[5], s[6], s[7], s[8], s[9]];
  }

  /** Text that reads as a date is exactly that date's zero-padded format. */
  lemma FormatParse(s: string)
    requires ParseIsoDate(s).Some?
    ensures Format(ParseIsoDate(s).value) == s
  {
    LayoutParse(s);
    FormatShape(ParseIsoDate(s).value);
  }

  /** On years 1..9999 the format is injective, so matching by text is matching by date. */
  lemma FormatInjective(d1: Date, d2: Date)
    requires ValidDate(d1) && 1 <= d1.year <= 9999
    requires ValidDate(d2) && 1 <= d2.year <= 9999
    requires Format(d1) == Format(d2)
    ensures d1 == d2
  {
    ParseFormat(d1);
    ParseFormat(d2);
  }
}
