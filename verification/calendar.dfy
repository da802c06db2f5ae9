/**
 * A proleptic Gregorian calendar date, as a JavaScript `Date` presents it
 * through `getFullYear()`, `getMonth() + 1` and `getDate()`, with the day
 * arithmetic of `setDate` and the weekday of `getDay()`.
 */
module Calendar {

  datatype Date = Date(year: int, month: int, day: int)

  predicate IsLeapYear(y: int) {
    y % 4 == 0 && (y % 100 != 0 || y % 400 == 0)
  }

  function DaysInMonth(y: int, m: int): (n: int)
    requires 1 <= m <= 12
    ensures 28 <= n <= 31
  {
    if m == 2 then (if IsLeapYear(y) then 29 else 28)
    else if m == 4 || m == 6 || m == 9 || m == 11 then 30
    else 31
  }

  predicate ValidDate(d: Date) {
    1 <= d.month <= 12 && 1 <= d.day <= DaysInMonth(d.year, d.month)
  }

  function YearLength(y: int): int {
    if IsLeapYear(y) then 366 else 365
  }

  /** Days from 1 January of year 1 to 1 January of year `y` (negative before year 1). */
  function DaysBeforeYear(y: int): int {
    var p := y - 1;
    365 * p + p / 4 - p / 100 + p / 400
  }

  /** Days from 1 January to the first of month `m` of year `y`, from the cumulative month table. */
  function DaysBeforeMonth(y: int, m: int): int
    requires 1 <= m <= 12
  {
    var before :=
      if m == 1 then 0 else if m == 2 then 31 else if m == 3 then 59
      else if m == 4 then 90 else if m == 5 then 120 else if m == 6 then 151
      else if m == 7 then 181 else if m == 8 then 212 else if m == 9 then 243
      else if m == 10 then 273 else if m == 11 then 304 else 334;
    before + (if m > 2 && IsLeapYear(y) then 1 else 0)
  }

  /** The number of days since 1 January of year 1: a count every date maps onto. */
  function DayNumber(d: Date): int
    requires ValidDate(d)
  {
    DaysBeforeYear(d.year) + DaysBeforeMonth(d.year, d.month) + d.day - 1
  }

  /** A `getDay()` value: 0 is Sunday, 6 is Saturday. */
  type DayOfWeek = d: int | 0 <= d < 7

  /** `getDay()`: 0 is Sunday; 1 January of year 1 was a Monday. */
  function Weekday(d: Date): DayOfWeek
    requires ValidDate(d)
  {
    (DayNumber(d) + 1) % 7
  }

  /** The calendar day after `d`, rolling over month and year ends. */
  function NextDay(d: Date): (r: Date)
    requires ValidDate(d)
    ensures ValidDate(r)
    ensures DayNumber(r) == DayNumber(d) + 1
  {
    if d.day < DaysInMonth(d.year, d.month) then Date(d.year, d.month, d.day + 1)
    else if d.month < 12 then
      MonthTable(d.year, d.month);
      Date(d.year, d.month + 1, 1)
    else
      YearStep(d.year);
      Date(d.year + 1, 1, 1)
  }

  /**
   * `setDate(v)` on a date in month `m` of year `y`: a day-of-month beyond the
   * month's end carries over into the following months.
   */
  function Normalize(y: int, m: int, v: int): (r: Date)
    requires 1 <= m <= 12 && v >= 1
    ensures ValidDate(r)
    ensures DayNumber(r) == DaysBeforeYear(y) + DaysBeforeMonth(y, m) + v - 1
    decreases v
  {
    var n := DaysInMonth(y, m);
    if v <= n then Date(y, m, v)
    else if m < 12 then
      MonthTable(y, m);
      Normalize(y, m + 1, v - n)
    else
      YearStep(y);
      Normalize(y + 1, 1, v - n)
  }

  /** `d.setDate(d.getDate() + n)`: the date `n` days after `d`. */
  function AddDays(d: Date, n: nat): (r: Date)
    requires ValidDate(d)
    ensures ValidDate(r)
    ensures DayNumber(r) == DayNumber(d) + n
  {
    Normalize(d.year, d.month, d.day + n)
  }

  // ---------------------------------------------------------------------------
  // Arithmetic facts behind the day numbering

  lemma FloorStep4(y: int)
    ensures y / 4 - (y - 1) / 4 == if y % 4 == 0 then 1 else 0
  {
  }

  lemma FloorStep100(y: int)
    ensures y / 100 - (y - 1) / 100 == if y % 100 == 0 then 1 else 0
  {
  }

  lemma FloorStep400(y: int)
    ensures y / 400 - (y - 1) / 400 == if y % 400 == 0 then 1 else 0
  {
  }

  /** Every 400th year is a 100th year. */
  lemma Mod400Mod100(y: int)
    requires y % 400 == 0
    ensures y % 100 == 0
  {
    assert y == 100 * (4 * (y / 400));
  }

  /** Every 100th year is a 4th year. */
  lemma Mod100Mod4(y: int)
    requires y % 100 == 0
    ensures y % 4 == 0
  {
    assert y == 4 * (25 * (y / 100));
  }

  /** The Gregorian rule as a count: a 4th year adds a day, a 100th removes it, a 400th restores it. */
  lemma YearLengthByCounts(y: int)
    ensures YearLength(y)
         == 365 + (if y % 4 == 0 then 1 else 0) - (if y % 100 == 0 then 1 else 0) + (if y % 400 == 0 then 1 else 0)
  {
    if y % 400 == 0 {
      Mod400Mod100(y);
    }
    if y % 100 == 0 {
      Mod100Mod4(y);
    }
  }

  /** Consecutive years are one year length apart in the day numbering. */
  lemma YearStep(y: int)
    ensures DaysBeforeYear(y + 1) == DaysBeforeYear(y) + YearLength(y)
    ensures DaysBeforeMonth(y, 12) + DaysInMonth(y, 12) == YearLength(y)
  {
    FloorStep4(y);
    FloorStep100(y);
    FloorStep400(y);
    YearLengthByCounts(y);
    assert DaysBeforeYear(y + 1) == 365 * y + y / 4 - y / 100 + y / 400;
    assert DaysBeforeYear(y) == 365 * (y - 1) + (y - 1) / 4 - (y - 1) / 100 + (y - 1) / 400;
  }

  /** The cumulative month table agrees with the month lengths. */
  lemma MonthTable(y: int, m: int)
    requires 1 <= m < 12
    ensures DaysBeforeMonth(y, m + 1) == DaysBeforeMonth(y, m) + DaysInMonth(y, m)
  {
  }

  /** Years never shrink the day count: a later year starts after every day of an earlier one. */
  lemma {:induction false} DaysBeforeYearMonotone(y1: int, y2: int)
    requires y1 < y2
    ensures DaysBeforeYear(y1 + 1) <= DaysBeforeYear(y2)
    decreases y2 - y1
  {
    if y1 + 1 < y2 {
      DaysBeforeYearMonotone(y1 + 1, y2);
      YearStep(y1 + 1);
    }
  }

  lemma {:induction false} MonthsMonotone(y: int, m1: int, m2: int)
    requires 1 <= m1 < m2 <= 12
    ensures DaysBeforeMonth(y, m1) + DaysInMonth(y, m1) <= DaysBeforeMonth(y, m2)
    decreases m2 - m1
  {
    MonthTable(y, m1);
    if m1 + 1 < m2 {
      MonthsMonotone(y, m1 + 1, m2);
    }
  }

  /** A date's day number lies within its year's range. */
  lemma DayNumberInYear(d: Date)
    requires ValidDate(d)
    ensures DaysBeforeYear(d.year) <= DayNumber(d) < DaysBeforeYear(d.year + 1)
  {
    YearStep(d.year);
    if d.month < 12 {
      MonthsMonotone(d.year, d.month, 12);
    }
  }

  /** Distinct dates have distinct day numbers, so a day number names exactly one date. */
  lemma DayNumberInjective(a: Date, b: Date)
    requires ValidDate(a) && ValidDate(b)
    ensures DayNumber(a) == DayNumber(b) <==> a == b
  {
    if a != b {
      DayNumberInYear(a);
      DayNumberInYear(b);
      if a.year < b.year {
        DaysBeforeYearMonotone(a.year, b.year);
      } else if b.year < a.year {
        DaysBeforeYearMonotone(b.year, a.year);
      } else if a.month < b.month {
        MonthsMonotone(a.year, a.month, b.month);
      } else if b.month < a.month {
        MonthsMonotone(a.year, b.month, a.month);
      }
    }
  }

  /** Adding days through `setDate` agrees with stepping one calendar day at a time. */
  lemma AddDaysSteps(d: Date, n: nat)
    requires ValidDate(d)
    ensures AddDays(d, 0) == d
    ensures AddDays(d, n + 1) == NextDay(AddDays(d, n))
  {
    DayNumberInjective(AddDays(d, 0), d);
    DayNumberInjective(AddDays(d, n + 1), NextDay(AddDays(d, n)));
  }

  /** Each added day advances the weekday by one, modulo the week. */
  lemma WeekdayAddDays(d: Date, n: nat)
    requires ValidDate(d)
    ensures Weekday(AddDays(d, n)) == (Weekday(d) + n) % 7
  {
    var a := DayNumber(d) + 1;
    assert Weekday(AddDays(d, n)) == (a + n) % 7;
    ModAddSeven(a, n);
  }

  lemma ModAddSeven(a: int, n: int)
    ensures (a + n) % 7 == (a % 7 + n) % 7
  {
    var q := a / 7;
    assert a == 7 * q + a % 7;
    assert a + n == 7 * q + (a % 7 + n);
  }

  /** Month and year rollover, leap days included. */
  lemma RolloverExamples()
    ensures AddDays(Date(2023, 12, 30), 2) == Date(2024, 1, 1)
    ensures AddDays(Date(2024, 2, 28), 1) == Date(2024, 2, 29)
    ensures AddDays(Date(2023, 2, 28), 1) == Date(2023, 3, 1)
    ensures AddDays(Date(2100, 2, 28), 1) == Date(2100, 3, 1)
    ensures AddDays(Date(2000, 2, 28), 1) == Date(2000, 2, 29)
    ensures Weekday(Date(2023, 12, 30)) == 6
    ensures Weekday(Date(2024, 1, 1)) == 1
  {
  }
}
