/**
 * The part of JavaScript's `Date` the application relies on, as calendar
 * values in one frame (no time zones): proleptic Gregorian dates, a
 * millisecond time of day, the absolute ordering `a < b` through day
 * numbers, and `setMonth`, which normalises an overflowing day of month
 * into the following month.
 */
module Calendar {

  type Month = m: int | 1 <= m <= 12 witness 1

  type DayOfMonth = d: int | 1 <= d <= 31 witness 1

  const MsPerDay: nat := 86400000

  type TimeOfDay = t: int | 0 <= t < MsPerDay

  datatype Date = Date(year: nat, month: Month, day: DayOfMonth)

  /** A point in time: a calendar date and the milliseconds since its midnight. */
  datatype Instant = Instant(date: Date, ms: TimeOfDay)

  predicate IsLeapYear(y: nat) {
    y % 4 == 0 && (y % 100 != 0 || y % 400 == 0)
  }

  function DaysInMonth(y: nat, m: Month): (n: int)
    ensures 28 <= n <= 31
    ensures m == 2 ==> (n == 29 <==> IsLeapYear(y))
    ensures m != 2 ==> n >= 30
  {
    if m == 2 then (if IsLeapYear(y) then 29 else 28)
    else if m == 4 || m == 6 || m == 9 || m == 11 then 30
    else 31
  }

  /** A date that exists in the calendar. */
  predicate ValidDate(d: Date) {
    d.day <= DaysInMonth(d.year, d.month)
  }

  function DaysInYear(y: nat): nat {
    if IsLeapYear(y) then 366 else 365
  }

  /** Days from 1 January of year 0 to 1 January of year `y`. */
  function DaysBeforeYear(y: nat): nat {
    if y == 0 then 0 else DaysBeforeYear(y - 1) + DaysInYear(y - 1)
  }

  /** Days from 1 January to the first day of month `m` in year `y`. */
  function DaysBeforeMonth(y: nat, m: Month): nat {
    var cumulative := [0, 31, 59, 90, 120, 151, 181, 212, 243, 273, 304, 334];
    cumulative[m - 1] + (if m > 2 && IsLeapYear(y) then 1 else 0)
  }

  /** The day number of a date: days elapsed since 1 January of year 0. */
  function DayIndex(d: Date): nat {
    DaysBeforeYear(d.year) + DaysBeforeMonth(d.year, d.month) + d.day - 1
  }

  /** The time value of an instant, the number `a < b` compares in JavaScript. */
  function TimeValue(t: Instant): nat {
    DayIndex(t.date) * MsPerDay + t.ms
  }

  /** `a < b` on two `Date` objects; on one day it compares the times of day. */
  predicate Before(a: Instant, b: Instant): (earlier: bool)
    ensures a.date == b.date ==> (earlier <==> a.ms < b.ms)
  {
    TimeValue(a) < TimeValue(b)
  }

  /** Calendar (lexicographic) order on dates. */
  predicate DateLess(a: Date, b: Date) {
    a.year < b.year
    || (a.year == b.year && a.month < b.month)
    || (a.year == b.year && a.month == b.month && a.day < b.day)
  }

  /** Months elapsed since January of year 0. */
  function MonthOrdinal(y: nat, m: Month): nat {
    y * 12 + m - 1
  }

  /** The first day of the month with the given ordinal. */
  function MonthStart(ordinal: nat): (d: Date)
    ensures MonthOrdinal(d.year, d.month) == ordinal && d.day == 1
  {
    Date(ordinal / 12, ordinal % 12 + 1, 1)
  }

  /**
   * `date.setMonth(date.getMonth() + i)`: the month field is advanced by
   * `i` with the year carried, and a day that the target month does not
   * have runs on into the following month (31 January + 1 month is
   * 2 or 3 March).
   */
  function AddMonths(d: Date, i: nat): (r: Date)
    ensures ValidDate(r)
  {
    var monthIndex := d.month - 1 + i;
    var y := d.year + monthIndex / 12;
    var m: Month := monthIndex % 12 + 1;
    var length := DaysInMonth(y, m);
    if d.day <= length then Date(y, m, d.day) else Date(y, m + 1, d.day - length)
  }

  /**
   * `setMonth` is ECMAScript's MakeDay: the result is the day number of the
   * first of the target month plus the day of month minus one, whatever
   * month that day number falls in.
   */
  lemma AddMonthsIsMakeDay(d: Date, i: nat)
    ensures DayIndex(AddMonths(d, i)) == DayIndex(MonthStart(MonthOrdinal(d.year, d.month) + i)) + d.day - 1
  {
    var t := MonthStart(MonthOrdinal(d.year, d.month) + i);
    AddMonthsTarget(d, i);
    if d.day <= DaysInMonth(t.year, t.month) {
      assert AddMonths(d, i) == t.(day := d.day);
    } else {
      MakeDayRollover(t.year, t.month, d.day);
      assert AddMonths(d, i) == Date(t.year, t.month + 1, d.day - DaysInMonth(t.year, t.month));
    }
  }

  /** A day past the end of a month is that many days into the next one. */
  lemma MakeDayRollover(y: nat, m: Month, day: DayOfMonth)
    requires day > DaysInMonth(y, m)
    ensures m < 12 && DayIndex(Date(y, m + 1, day - DaysInMonth(y, m))) == DayIndex(Date(y, m, 1)) + day - 1
  {
    DaysBeforeNextMonth(y, m);
  }

  /** The first day of the month `i` months after `d`'s, with the year carried. */
  lemma AddMonthsTarget(d: Date, i: nat)
    ensures MonthStart(MonthOrdinal(d.year, d.month) + i)
      == Date(d.year + (d.month - 1 + i) / 12, (d.month - 1 + i) % 12 + 1, 1)
  {
    var b := d.month - 1 + i;
    assert MonthOrdinal(d.year, d.month) + i == d.year * 12 + b;
    CarryDivMod(d.year, b);
  }

  /** Carrying whole years out of a month count. */
  lemma CarryDivMod(a: nat, b: nat)
    ensures (a * 12 + b) / 12 == a + b / 12 && (a * 12 + b) % 12 == b % 12
  {
    var q, r := b / 12, b % 12;
    assert a * 12 + b == (a + q) * 12 + r;
  }

  lemma DaysBeforeNextMonth(y: nat, m: Month)
    requires m < 12
    ensures DaysBeforeMonth(y, m + 1) == DaysBeforeMonth(y, m) + DaysInMonth(y, m)
  {
  }

  lemma DaysBeforeYearEnd(y: nat)
    ensures DaysBeforeMonth(y, 12) + DaysInMonth(y, 12) == DaysInYear(y)
  {
  }

  /** Later years start later: the days of year `a` all come before year `b`. */
  lemma {:induction false} DaysBeforeYearGrows(a: nat, b: nat)
    requires a < b
    ensures DaysBeforeYear(a) + DaysInYear(a) <= DaysBeforeYear(b)
    decreases b - a
  {
    if a + 1 < b {
      DaysBeforeYearGrows(a + 1, b);
    }
  }

  /** Later months of one year start later, each after the whole of the earlier one. */
  lemma DaysBeforeMonthGrows(y: nat, m1: Month, m2: Month)
    requires m1 < m2
    ensures DaysBeforeMonth(y, m1) + DaysInMonth(y, m1) <= DaysBeforeMonth(y, m2)
  {
  }

  /** A valid date lies inside its year. */
  lemma DayIndexWithinYear(d: Date)
    requires ValidDate(d)
    ensures DaysBeforeYear(d.year) <= DayIndex(d) < DaysBeforeYear(d.year) + DaysInYear(d.year)
  {
    if d.month < 12 {
      DaysBeforeMonthGrows(d.year, d.month, 12);
    }
    DaysBeforeYearEnd(d.year);
  }

  lemma DateLessIndex(a: Date, b: Date)
    requires ValidDate(a) && ValidDate(b) && DateLess(a, b)
    ensures DayIndex(a) < DayIndex(b)
  {
    if a.year < b.year {
      DayIndexWithinYear(a);
      DayIndexWithinYear(b);
      DaysBeforeYearGrows(a.year, b.year);
    } else if a.month < b.month {
      DaysBeforeMonthGrows(a.year, a.month, b.month);
    }
  }

  /** Day numbers order valid dates exactly as the calendar does, and name each one once. */
  lemma DayIndexOrder(a: Date, b: Date)
    requires ValidDate(a) && ValidDate(b)
    ensures DayIndex(a) < DayIndex(b) <==> DateLess(a, b)
    ensures DayIndex(a) == DayIndex(b) <==> a == b
  {
    if DateLess(a, b) {
      DateLessIndex(a, b);
    } else if DateLess(b, a) {
      DateLessIndex(b, a);
    }
  }

  /**
   * Comparing two `Date` objects with `<` is chronological order: an
   * earlier calendar day, or the same day and an earlier time of day.
   */
  lemma BeforeIsChronological(a: Instant, b: Instant)
    requires ValidDate(a.date) && ValidDate(b.date)
    ensures Before(a, b) <==> DateLess(a.date, b.date) || (a.date == b.date && a.ms < b.ms)
  {
    DayIndexOrder(a.date, b.date);
    var x, y := DayIndex(a.date), DayIndex(b.date);
    if x < y {
      assert (x + 1) * MsPerDay <= y * MsPerDay by {
        assert x + 1 <= y;
      }
    } else if y < x {
      assert (y + 1) * MsPerDay <= x * MsPerDay by {
        assert y + 1 <= x;
      }
    }
  }

  /** Adding no months leaves a valid date as it is. */
  lemma AddMonthsZero(d: Date)
    requires ValidDate(d)
    ensures AddMonths(d, 0) == d
  {
  }

  /**
   * When the day exists in the target month, `setMonth` moves exactly `i`
   * months and keeps the day; otherwise it lands in the month after,
   * on the day by which the target month was overrun.
   */
  lemma AddMonthsMonths(d: Date, i: nat)
    ensures var target := MonthStart(MonthOrdinal(d.year, d.month) + i);
            var r := AddMonths(d, i);
            if d.day <= DaysInMonth(target.year, target.month)
            then MonthOrdinal(r.year, r.month) == MonthOrdinal(d.year, d.month) + i && r.day == d.day
            else MonthOrdinal(r.year, r.month) == MonthOrdinal(d.year, d.month) + i + 1
                 && r.day == d.day - DaysInMonth(target.year, target.month)
  {
    AddMonthsTarget(d, i);
  }

  /** A day that every month has (1 to 28) is always kept. */
  lemma AddMonthsKeepsEarlyDay(d: Date, i: nat)
    requires d.day <= 28
    ensures AddMonths(d, i) == MonthStart(MonthOrdinal(d.year, d.month) + i).(day := d.day)
  {
    var target := MonthStart(MonthOrdinal(d.year, d.month) + i);
    AddMonthsMonths(d, i);
    var r := AddMonths(d, i);
    assert r.year == target.year && r.month == target.month;
  }

  lemma AddMonthsExamples()
    ensures AddMonths(Date(2024, 1, 31), 1) == Date(2024, 3, 2)
    ensures AddMonths(Date(2025, 1, 31), 1) == Date(2025, 3, 3)
    ensures AddMonths(Date(2025, 11, 15), 3) == Date(2026, 2, 15)
    ensures AddMonths(Date(2024, 3, 31), 1) == Date(2024, 5, 1)
  {
  }
}
