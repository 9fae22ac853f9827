/** Proleptic Gregorian calendar arithmetic: the leap rule, month lengths and
    the day of the week (0 = Sunday .. 6 = Saturday). The calendar views obtain
    these from JavaScript `Date` objects; here they are integer arithmetic. */
module Gregorian {

  predicate IsLeapYear(y: int)
  {
    y % 4 == 0 && (y % 100 != 0 || y % 400 == 0)
  }

  /** The number of days of month `m` (1..12) of year `y`. */
  function DaysInMonth(y: int, m: int): (n: int)
    requires 1 <= m <= 12
    ensures 28 <= n <= 31
  {
    if m == 2 then (if IsLeapYear(y) then 29 else 28)
    else if m == 4 || m == 6 || m == 9 || m == 11 then 30
    else 31
  }

  /** The number of days of year `y`. */
  function DaysInYear(y: int): int
  {
    if IsLeapYear(y) then 366 else 365
  }

  /** Days of year `y` before the first of month `m`; m == 13 gives the whole year. */
  function DaysBeforeMonth(y: int, m: int): (n: int)
    requires 1 <= m <= 13
    ensures 0 <= n <= 366
  {
    [0, 31, 59, 90, 120, 151, 181, 212, 243, 273, 304, 334, 365][m - 1]
      + (if m > 2 && IsLeapYear(y) then 1 else 0)
  }

  /** Days before 1 January of year `y`, counted from 1 January of year 1
      (negative for years before 1). Floor division is Dafny's `/` here. */
  function DaysBeforeYear(y: int): int
  {
    var x := y - 1;
    365 * x + x / 4 - x / 100 + x / 400
  }

  /** Serial day number; 1 January of year 1 is day 1. */
  function DayNumber(y: int, m: int, d: int): int
    requires 1 <= m <= 12
  {
    DaysBeforeYear(y) + DaysBeforeMonth(y, m) + d
  }

  /** Day of the week, 0 = Sunday; 1 January of year 1 (proleptic) was a Monday. */
  function Weekday(y: int, m: int, d: int): (w: int)
    requires 1 <= m <= 12
    ensures 0 <= w < 7
  {
    DayNumber(y, m, d) % 7
  }

  /** Weekday of the first of the month, the number of leading blanks in a grid. */
  function FirstWeekday(y: int, m: int): (w: nat)
    requires 1 <= m <= 12
    ensures w < 7
  {
    Weekday(y, m, 1)
  }

  // ---------------------------------------------------------------------------
  // Properties
  // ---------------------------------------------------------------------------

  /** The month lengths follow the leap rule: February has 29 days exactly in
      leap years, April, June, September and November have 30, the rest 31. */
  lemma DaysInMonthCases(y: int, m: int)
    requires 1 <= m <= 12
    ensures DaysInMonth(y, m) == 29 <==> m == 2 && IsLeapYear(y)
    ensures DaysInMonth(y, m) == 28 <==> m == 2 && !IsLeapYear(y)
    ensures DaysInMonth(y, m) == 30 <==> m in {4, 6, 9, 11}
    ensures DaysInMonth(y, m) == 31 <==> m in {1, 3, 5, 7, 8, 10, 12}
  {
  }

  /** The cumulative table agrees with the month lengths. */
  lemma DaysBeforeNextMonth(y: int, m: int)
    requires 1 <= m <= 12
    ensures DaysBeforeMonth(y, m + 1) == DaysBeforeMonth(y, m) + DaysInMonth(y, m)
  {
  }

  lemma DaysBeforeMonthIsYear(y: int)
    ensures DaysBeforeMonth(y, 13) == DaysInYear(y)
  {
  }

  /** Stepping x to x + 1 raises floor(x / d) by one exactly at multiples of d. */
  lemma FloorDivStep(x: int)
    ensures (x + 1) / 4 - x / 4 == if (x + 1) % 4 == 0 then 1 else 0
    ensures (x + 1) / 100 - x / 100 == if (x + 1) % 100 == 0 then 1 else 0
    ensures (x + 1) / 400 - x / 400 == if (x + 1) % 400 == 0 then 1 else 0
  {
  }

  lemma ModSevenShift(a: int, b: int)
    ensures (a + b) % 7 == (a % 7 + b) % 7
  {
    var q := a / 7;
    assert a == 7 * q + a % 7;
    assert a + b == 7 * q + (a % 7 + b);
  }

  /** Consecutive years start DaysInYear apart. */
  lemma {:induction false} YearLength(y: int)
    ensures DaysBeforeYear(y + 1) == DaysBeforeYear(y) + DaysInYear(y)
  {
    var x := y - 1;
    FloorDivStep(x);
    assert (x + 1) % 100 == 0 ==> (x + 1) % 4 == 0;
    assert (x + 1) % 400 == 0 ==> (x + 1) % 100 == 0;
  }

  /** The first of the following month falls DaysInMonth weekdays later; this
      ties the leading blanks of consecutive month grids together. */
  lemma {:induction false} FirstWeekdayOfNextMonth(y: int, m: int)
    requires 1 <= m <= 12
    ensures var (ny, nm) := if m == 12 then (y + 1, 1) else (y, m + 1);
            FirstWeekday(ny, nm) == (FirstWeekday(y, m) + DaysInMonth(y, m)) % 7
  {
    if m == 12 {
      YearLength(y);
      DaysBeforeMonthIsYear(y);
      assert DayNumber(y + 1, 1, 1) == DayNumber(y, 12, 1) + 31;
    } else {
      DaysBeforeNextMonth(y, m);
      assert DayNumber(y, m + 1, 1) == DayNumber(y, m, 1) + DaysInMonth(y, m);
    }
    ModSevenShift(DayNumber(y, m, 1), DaysInMonth(y, m));
  }

  /** Calendar anchors: 1970-01-01 was a Thursday, 2000-03-01 a Wednesday,
      2024-01-01 a Monday, 2025-01-01 a Wednesday. */
  lemma KnownWeekdays()
    ensures Weekday(1970, 1, 1) == 4
    ensures Weekday(2000, 3, 1) == 3
    ensures Weekday(2024, 1, 1) == 1
    ensures Weekday(2025, 1, 1) == 3
  {
  }

  /** The leap rule on its classic cases. */
  lemma LeapYearExamples()
    ensures DaysInMonth(2024, 2) == 29 && DaysInMonth(2023, 2) == 28
    ensures DaysInMonth(1900, 2) == 28 && DaysInMonth(2000, 2) == 29
  {
  }
}
