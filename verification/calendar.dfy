// Day arithmetic as JavaScript's Date does it (section 21.4.1 of ECMA-262):
// days are counted from 1 January 1970, and `new Date(y, m, d)` normalises a
// month outside 0..11 into the year and a day outside the month into the
// neighbouring months.

module Calendar {
  const MsPerDay: int := 86400000

  predicate IsLeapYear(y: int) {
    (y % 4 == 0 && y % 100 != 0) || y % 400 == 0
  }

  /** `DayFromYear`: the day number of 1 January of `y`. */
  function DayFromYear(y: int): int {
    365 * (y - 1970) + (y - 1969) / 4 - (y - 1901) / 100 + (y - 1601) / 400
  }

  function DaysInMonth(month: int, leap: bool): (n: int)
    requires 1 <= month <= 12
    ensures 28 <= n <= 31
  {
    if month == 2 then (if leap then 29 else 28)
    else if month in {4, 6, 9, 11} then 30
    else 31
  }

  /** Days in the first `months` months of a year. */
  function DaysBeforeMonth(months: int, leap: bool): (n: int)
    requires 0 <= months <= 12
    ensures n >= 0
  {
    if months == 0 then 0 else DaysBeforeMonth(months - 1, leap) + DaysInMonth(months, leap)
  }

  /** The twelve months fill a year: 366 days in a leap year and 365 otherwise. */
  lemma DaysInYear(leap: bool)
    ensures DaysBeforeMonth(12, leap) == if leap then 366 else 365
  {
    var feb := if leap then 29 else 28;
    assert DaysBeforeMonth(1, leap) == 31;
    assert DaysBeforeMonth(2, leap) == 31 + feb;
    assert DaysBeforeMonth(3, leap) == 62 + feb;
    assert DaysBeforeMonth(4, leap) == 92 + feb;
    assert DaysBeforeMonth(5, leap) == 123 + feb;
    assert DaysBeforeMonth(6, leap) == 153 + feb;
    assert DaysBeforeMonth(7, leap) == 184 + feb;
    assert DaysBeforeMonth(8, leap) == 215 + feb;
    assert DaysBeforeMonth(9, leap) == 245 + feb;
    assert DaysBeforeMonth(10, leap) == 276 + feb;
    assert DaysBeforeMonth(11, leap) == 306 + feb;
  }

  /** `DayFromYear` spaces consecutive years by the length of the earlier one. */
  lemma YearLength(y: int)
    ensures DayFromYear(y + 1) - DayFromYear(y) == DaysBeforeMonth(12, IsLeapYear(y))
  {
    DaysInYear(IsLeapYear(y));
    assert (y - 1968) / 4 - (y - 1969) / 4 == if y % 4 == 0 then 1 else 0;
    assert (y - 1900) / 100 - (y - 1901) / 100 == if y % 100 == 0 then 1 else 0;
    assert (y - 1600) / 400 - (y - 1601) / 400 == if y % 400 == 0 then 1 else 0;
  }

  /** A later month starts after every day of an earlier one. */
  lemma {:induction false} DaysBeforeMonthGrows(i: int, j: int, leap: bool)
    requires 0 <= i < j <= 12
    ensures DaysBeforeMonth(j, leap) >= DaysBeforeMonth(i, leap) + DaysInMonth(i + 1, leap)
    decreases j - i
  {
    if j > i + 1 {
      DaysBeforeMonthGrows(i, j - 1, leap);
    }
  }

  /** `MakeDay(year, month, date)`: months spill into years, days into months. */
  function MakeDay(year: int, month: int, date: int): int {
    var ym := year + month / 12;
    var mn := month % 12;
    DayFromYear(ym) + DaysBeforeMonth(mn, IsLeapYear(ym)) + date - 1
  }

  /** `new Date(year, month, date)` reads a year in 0..99 as 1900 + year. */
  function LocalDay(year: int, month: int, date: int): int {
    MakeDay(if 0 <= year <= 99 then 1900 + year else year, month, date)
  }

  /** A calendar date with a 1-based month. */
  datatype Date = Date(year: int, month: int, day: int) {
    predicate Valid() {
      1 <= month <= 12 && 1 <= day <= DaysInMonth(month, IsLeapYear(year))
    }
  }

  /** The current local time: a date and the milliseconds since its midnight. */
  datatype Moment = Moment(date: Date, msOfDay: int) {
    predicate Valid() {
      date.Valid() && 0 <= msOfDay < MsPerDay
    }
  }

  function DayNumber(d: Date): int {
    MakeDay(d.year, d.month - 1, d.day)
  }

  /** The time value of local midnight starting a day. */
  function Midnight(day: int): int {
    86400000 * day
  }

  /** The time value of a moment, as `Date` compares them. */
  function TimeValue(m: Moment): int {
    Midnight(DayNumber(m.date)) + m.msOfDay
  }

  /** A moment is before local midnight of a day iff its own day comes first. */
  lemma BeforeMidnight(m: Moment, day: int)
    requires m.Valid()
    ensures TimeValue(m) < Midnight(day) <==> DayNumber(m.date) < day
  {
  }

  /** Days since 1 January of the date's own year. */
  function DayOfYear(d: Date): int
    requires d.Valid()
  {
    DaysBeforeMonth(d.month - 1, IsLeapYear(d.year)) + d.day - 1
  }

  /** A valid date's month does not spill into another year. */
  lemma DayNumberSplit(d: Date)
    requires d.Valid()
    ensures DayNumber(d) == DayFromYear(d.year) + DayOfYear(d)
  {
    assert (d.month - 1) / 12 == 0 && (d.month - 1) % 12 == d.month - 1;
  }

  /** Dates of one year are ordered by their day of the year as (month, day) pairs are. */
  lemma DayOfYearOrder(a: Date, b: Date)
    requires a.Valid() && b.Valid() && a.year == b.year
    ensures DayOfYear(a) < DayOfYear(b) <==> a.month < b.month || (a.month == b.month && a.day < b.day)
  {
    var leap := IsLeapYear(a.year);
    if a.month < b.month {
      DaysBeforeMonthGrows(a.month - 1, b.month - 1, leap);
      assert DayOfYear(a) < DayOfYear(b);
    } else if b.month < a.month {
      DaysBeforeMonthGrows(b.month - 1, a.month - 1, leap);
      assert DayOfYear(b) < DayOfYear(a);
    }
  }

  /** Within one year, day numbers are ordered as (month, day) pairs are. */
  lemma DayNumberOrder(a: Date, b: Date)
    requires a.Valid() && b.Valid() && a.year == b.year
    ensures DayNumber(a) < DayNumber(b) <==> a.month < b.month || (a.month == b.month && a.day < b.day)
  {
    DayNumberSplit(a);
    DayNumberSplit(b);
    DayOfYearOrder(a, b);
  }
}
