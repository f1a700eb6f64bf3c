/**
 * Calendar arithmetic behind the month, "today" and "upcoming" windows. Instants are
 * milliseconds since 1970-01-01T00:00Z on the proleptic Gregorian calendar, as in a
 * JavaScript `Date`; days are counted from 1 January of year 0.
 */
module Dates {

  const MsPerDay: int := 86400000

  predicate IsLeap(y: int) {
    y % 4 == 0 && (y % 100 != 0 || y % 400 == 0)
  }

  function YearLength(y: int): int {
    if IsLeap(y) then 366 else 365
  }

  /** Days from 1 January of year 0 to 1 January of year `y` (negative before year 0). */
  function DaysBeforeYear(y: int): int {
    365 * y + (y + 3) / 4 - (y + 99) / 100 + (y + 399) / 400
  }

  /** `(y + d) / d` steps up from `(y + d - 1) / d` exactly when `d` divides `y`. */
  lemma DivStep4(y: int)
    ensures (y + 4) / 4 == (y + 3) / 4 + (if y % 4 == 0 then 1 else 0)
  {
  }

  lemma DivStep100(y: int)
    ensures (y + 100) / 100 == (y + 99) / 100 + (if y % 100 == 0 then 1 else 0)
  {
  }

  lemma DivStep400(y: int)
    ensures (y + 400) / 400 == (y + 399) / 400 + (if y % 400 == 0 then 1 else 0)
  {
  }

  /** A multiple of 400 is a multiple of 100, and a multiple of 100 a multiple of 4. */
  lemma DivisorsNest(y: int)
    ensures y % 400 == 0 ==> y % 100 == 0
    ensures y % 100 == 0 ==> y % 4 == 0
  {
    if y % 400 == 0 {
      var k := y / 400;
      assert y == 100 * (4 * k);
    }
    if y % 100 == 0 {
      var k := y / 100;
      assert y == 4 * (25 * k);
    }
  }

  lemma YearStep(y: int)
    ensures DaysBeforeYear(y + 1) == DaysBeforeYear(y) + YearLength(y)
  {
    DivStep4(y);
    DivStep100(y);
    DivStep400(y);
    DivisorsNest(y);
  }

  /** Number of days in month `m` (0 = January) of year `y`. */
  function MonthLength(y: int, m: int): (r: int)
    requires 0 <= m < 12
    ensures 28 <= r <= 31
  {
    if m == 1 then (if IsLeap(y) then 29 else 28)
    else if m == 3 || m == 5 || m == 8 || m == 10 then 30
    else 31
  }

  /** Days from 1 January to the first day of month `m` (0 = January) of year `y`. */
  function DaysBeforeMonth(y: int, m: int): (r: int)
    requires 0 <= m < 12
  {
    [0, 31, 59, 90, 120, 151, 181, 212, 243, 273, 304, 334][m] + (if m >= 2 && IsLeap(y) then 1 else 0)
  }

  lemma MonthsFillYear(y: int, m: int)
    requires 0 <= m < 12
    ensures m < 11 ==> DaysBeforeMonth(y, m + 1) == DaysBeforeMonth(y, m) + MonthLength(y, m)
    ensures m == 11 ==> DaysBeforeMonth(y, m) + MonthLength(y, m) == YearLength(y)
  {
  }

  /**
   * Day number of the first day of month index `m0` of year `y`, where an index outside
   * 0..11 carries into the year as the `Date` constructor does (13 is February of `y + 1`,
   * -1 is December of `y - 1`).
   */
  function MonthStartDay(y: int, m0: int): int {
    var yy := y + m0 / 12;
    DaysBeforeYear(yy) + DaysBeforeMonth(yy, m0 % 12)
  }

  /** The month after index `m0` starts exactly one month length later. */
  lemma {:induction false} MonthStep(y: int, m0: int)
    ensures MonthStartDay(y, m0 + 1) == MonthStartDay(y, m0) + MonthLength(y + m0 / 12, m0 % 12)
  {
    var yy := y + m0 / 12;
    MonthsFillYear(yy, m0 % 12);
    if m0 % 12 == 11 {
      assert (m0 + 1) / 12 == m0 / 12 + 1 && (m0 + 1) % 12 == 0;
      YearStep(yy);
    } else {
      assert (m0 + 1) / 12 == m0 / 12 && (m0 + 1) % 12 == m0 % 12 + 1;
    }
  }

  /** Day number of 1970-01-01. */
  const EpochDay: int := 719528

  /** `new Date(y, …)` reads a year from 0 to 99 as 1900 + y. */
  function FullYear(y: int): int {
    if 0 <= y <= 99 then 1900 + y else y
  }

  /** The instant of `new Date(year, monthIndex, day)` at 00:00 (UTC), with month and day carrying over. */
  function DateInstant(year: int, monthIndex: int, day: int): int {
    (MonthStartDay(FullYear(year), monthIndex) + day - 1 - EpochDay) * MsPerDay
  }

  /** A half-open interval of instants `[start, end)`. */
  datatype Window = Window(start: int, end: int)

  /**
   * The window of a calendar month given as (year, month) with month 1 = January:
   * from the first instant of the month to the first instant of the next one.
   */
  function MonthWindow(year: int, month: int): Window {
    Window(DateInstant(year, month - 1, 1), DateInstant(year, month, 1))
  }

  /** A month window is non-empty and lasts between 28 and 31 whole days. */
  lemma MonthWindowLength(year: int, month: int)
    ensures var w := MonthWindow(year, month);
      exists n :: 28 <= n <= 31 && w.end - w.start == n * MsPerDay
  {
    var y := FullYear(year);
    MonthStep(y, month - 1);
    var n := MonthLength(y + (month - 1) / 12, (month - 1) % 12);
    var w := MonthWindow(year, month);
    assert w.end - w.start == n * MsPerDay;
  }

  /** December's window ends where January of the following year begins. */
  lemma DecemberRollover(year: int)
    requires FullYear(year + 1) == FullYear(year) + 1
    ensures MonthWindow(year, 12).end == MonthWindow(year + 1, 1).start
  {
  }

  /** Consecutive months tile the time line: each window ends where the next one starts. */
  lemma MonthWindowsAdjacent(year: int, month: int)
    ensures MonthWindow(year, month).end == MonthWindow(year, month + 1).start
  {
  }

  /** Midnight at the start of the day containing `now` (`setHours(0, 0, 0, 0)`, UTC). */
  function StartOfDay(now: int): (r: int)
    ensures r <= now < r + MsPerDay
    ensures r % MsPerDay == 0
  {
    now - now % MsPerDay
  }

  /** `[today 00:00, tomorrow 00:00)`. */
  function DayWindow(now: int): (w: Window)
    ensures w.start <= now < w.end && w.end - w.start == MsPerDay
  {
    var today := StartOfDay(now);
    Window(today, today + MsPerDay)
  }

  /** Spot checks against the calendar: the instants of four dates in 2024 (UTC). */
  lemma Instants2024()
    ensures DateInstant(2024, 1, 20) == 1708387200000  // 2024-02-20
    ensures DateInstant(2024, 2, 1) == 1709251200000   // 2024-03-01
    ensures DateInstant(2024, 2, 5) == 1709596800000   // 2024-03-05
    ensures DateInstant(2024, 3, 1) == 1711929600000   // 2024-04-01
  {
    assert FullYear(2024) == 2024 && IsLeap(2024);
    assert DaysBeforeYear(2024) == 739251;
    assert MonthStartDay(2024, 1) == 739282;
    assert MonthStartDay(2024, 2) == 739311;
    assert MonthStartDay(2024, 3) == 739342;
  }
}
