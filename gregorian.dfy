/**
 * Proleptic Gregorian calendar dates and their day numbers, as PostgreSQL's
 * DATE type uses them: `DATE(y || '-' || m || '-' || d)` builds a date (and
 * fails on an impossible one) and `date - date` is a signed count of days.
 */
module Gregorian {
  import opened Wrappers

  datatype Date = Date(year: int, month: int, day: int)

  /** The Gregorian leap rule: every fourth year, except centuries not divisible by 400. */
  predicate IsLeapYear(y: int) {
    y % 4 == 0 && (y % 100 != 0 || y % 400 == 0)
  }

  function DaysInYear(y: int): (n: int)
    ensures n == 365 || n == 366
    ensures n == 366 <==> IsLeapYear(y)
  {
    if IsLeapYear(y) then 366 else 365
  }

  function DaysInMonth(y: int, m: int): (n: int)
    requires 1 <= m <= 12
    ensures 28 <= n <= 31
    ensures m == 2 ==> (n == 29 <==> IsLeapYear(y))
  {
    if m == 2 then (if IsLeapYear(y) then 29 else 28)
    else if m == 4 || m == 6 || m == 9 || m == 11 then 30
    else 31
  }

  /** A date PostgreSQL accepts (years before 1 AD are not modelled). */
  predicate IsValid(d: Date) {
    1 <= d.year && 1 <= d.month <= 12 && 1 <= d.day <= DaysInMonth(d.year, d.month)
  }

  /** Number of days in the years 1 .. y-1. */
  function DaysBeforeYear(y: int): int
    requires 1 <= y
  {
    var n := y - 1;
    365 * n + n / 4 - n / 100 + n / 400
  }

  /** Number of days in the months 1 .. m-1 of year y. */
  function DaysBeforeMonth(y: int, m: int): int
    requires 1 <= m <= 12
  {
    var common :=
      if m == 1 then 0 else if m == 2 then 31 else if m == 3 then 59
      else if m == 4 then 90 else if m == 5 then 120 else if m == 6 then 151
      else if m == 7 then 181 else if m == 8 then 212 else if m == 9 then 243
      else if m == 10 then 273 else if m == 11 then 304 else 334;
    if m > 2 && IsLeapYear(y) then common + 1 else common
  }

  /** Reference count of the days in the years 1 .. y-1, one year at a time. */
  function YearDaysSum(y: int): int
    requires 1 <= y
    decreases y
  {
    if y == 1 then 0 else YearDaysSum(y - 1) + DaysInYear(y - 1)
  }

  /** Days since 0001-01-01 (which is day 0). */
  function DayNumber(d: Date): int
    requires IsValid(d)
  {
    DaysBeforeYear(d.year) + DaysBeforeMonth(d.year, d.month) + d.day - 1
  }

  /** `DATE(y-m-d)`: the date when it exists, None where PostgreSQL raises an error. */
  function MakeDate(y: int, m: int, d: int): (r: Option<Date>)
    ensures r.Some? <==> IsValid(Date(y, m, d))
    ensures r.Some? ==> r.value == Date(y, m, d)
  {
    if 1 <= y && 1 <= m <= 12 && 1 <= d <= DaysInMonth(y, m) then Some(Date(y, m, d)) else None
  }

  /** The day after d. */
  function Succ(d: Date): Date
    requires IsValid(d)
  {
    if d.day < DaysInMonth(d.year, d.month) then Date(d.year, d.month, d.day + 1)
    else if d.month < 12 then Date(d.year, d.month + 1, 1)
    else Date(d.year + 1, 1, 1)
  }

  /** The date n days after d. */
  function AddDays(d: Date, n: nat): Date
    requires IsValid(d)
    decreases n
  {
    if n == 0 then d else AddDays(Succ(d), n - 1)
  }

  /** Calendar order: by year, then month, then day. */
  predicate Before(a: Date, b: Date) {
    a.year < b.year
    || (a.year == b.year && a.month < b.month)
    || (a.year == b.year && a.month == b.month && a.day < b.day)
  }

  // ---------------------------------------------------------------------
  // Arithmetic steps

  /** Division by a constant steps up by one exactly at multiples. */
  lemma DivSteps(n: int)
    requires 0 <= n
    ensures (n + 1) / 4 == n / 4 + (if (n + 1) % 4 == 0 then 1 else 0)
    ensures (n + 1) / 100 == n / 100 + (if (n + 1) % 100 == 0 then 1 else 0)
    ensures (n + 1) / 400 == n / 400 + (if (n + 1) % 400 == 0 then 1 else 0)
  {
  }

  lemma CenturyFacts(y: int)
    ensures y % 400 == 0 ==> y % 100 == 0
    ensures y % 100 == 0 ==> y % 4 == 0
  {
    if y % 400 == 0 {
      FourCenturies(y);
    }
    if y % 100 == 0 {
      OneCentury(y);
    }
  }

  lemma FourCenturies(y: int)
    requires y % 400 == 0
    ensures y % 100 == 0
  {
    var q := y / 400;
    assert y == 100 * (4 * q);
  }

  lemma OneCentury(y: int)
    requires y % 100 == 0
    ensures y % 4 == 0
  {
    var q := y / 100;
    assert y == 4 * (25 * q);
  }

  /** Consecutive year starts are exactly one year length apart. */
  lemma YearStep(y: int)
    requires 1 <= y
    ensures DaysBeforeYear(y + 1) == DaysBeforeYear(y) + DaysInYear(y)
  {
    var n := y - 1;
    DivSteps(n);
    CenturyFacts(y);
  }

  /** The closed form agrees with counting the years one by one. */
  lemma {:induction false} DaysBeforeYearIsSum(y: int)
    requires 1 <= y
    ensures DaysBeforeYear(y) == YearDaysSum(y)
    decreases y
  {
    if y > 1 {
      DaysBeforeYearIsSum(y - 1);
      YearStep(y - 1);
    }
  }

  lemma DaysBeforeYearMonotone(a: int, b: int)
    requires 1 <= a <= b
    ensures DaysBeforeYear(a) + 365 * (b - a) <= DaysBeforeYear(b)
    decreases b - a
  {
    if a < b {
      YearStep(a);
      DaysBeforeYearMonotone(a + 1, b);
    }
  }

  lemma MonthStep(y: int, m: int)
    requires 1 <= m < 12
    ensures DaysBeforeMonth(y, m + 1) == DaysBeforeMonth(y, m) + DaysInMonth(y, m)
  {
  }

  /** A valid date's offset within its year lies inside that year. */
  lemma {:induction false} DayOfYearBounds(d: Date)
    requires IsValid(d)
    ensures 0 <= DayNumber(d) - DaysBeforeYear(d.year) < DaysInYear(d.year)
  {
  }

  // ---------------------------------------------------------------------
  // Properties of the day number

  /** The day number counts days: the next day has the next number. */
  lemma SuccIsNextDay(d: Date)
    requires IsValid(d)
    ensures IsValid(Succ(d))
    ensures DayNumber(Succ(d)) == DayNumber(d) + 1
    ensures Before(d, Succ(d))
  {
    if d.day < DaysInMonth(d.year, d.month) {
    } else if d.month < 12 {
      MonthStep(d.year, d.month);
    } else {
      YearStep(d.year);
    }
  }

  /** Adding n days moves the day number by exactly n. */
  lemma {:induction false} AddDaysCounts(d: Date, n: nat)
    requires IsValid(d)
    ensures IsValid(AddDays(d, n))
    ensures DayNumber(AddDays(d, n)) == DayNumber(d) + n
    decreases n
  {
    if n > 0 {
      SuccIsNextDay(d);
      AddDaysCounts(Succ(d), n - 1);
    }
  }

  lemma MonthOrder(y: int, m1: int, d1: int, m2: int, d2: int)
    requires IsValid(Date(y, m1, d1)) && IsValid(Date(y, m2, d2)) && m1 < m2
    ensures DaysBeforeMonth(y, m1) + d1 < DaysBeforeMonth(y, m2) + d2
  {
  }

  /** The day number is strictly increasing in calendar order. */
  lemma DayNumberMonotone(a: Date, b: Date)
    requires IsValid(a) && IsValid(b) && Before(a, b)
    ensures DayNumber(a) < DayNumber(b)
  {
    if a.year < b.year {
      DayOfYearBounds(a);
      YearStep(a.year);
      DaysBeforeYearMonotone(a.year + 1, b.year);
    } else if a.month < b.month {
      MonthOrder(a.year, a.month, a.day, b.month, b.day);
    }
  }

  /** Distinct valid dates have distinct day numbers. */
  lemma DayNumberInjective(a: Date, b: Date)
    requires IsValid(a) && IsValid(b) && DayNumber(a) == DayNumber(b)
    ensures a == b
  {
    if Before(a, b) {
      DayNumberMonotone(a, b);
    } else if Before(b, a) {
      DayNumberMonotone(b, a);
    }
  }

  /** The signed day difference orders dates the way the calendar does. */
  lemma DifferenceSign(a: Date, b: Date)
    requires IsValid(a) && IsValid(b)
    ensures DayNumber(a) - DayNumber(b) < 0 <==> Before(a, b)
    ensures DayNumber(a) - DayNumber(b) == 0 <==> a == b
  {
    if Before(a, b) {
      DayNumberMonotone(a, b);
    } else if Before(b, a) {
      DayNumberMonotone(b, a);
    }
  }

  /** `t - today == n` exactly when t is the date n days after today. */
  lemma DifferenceIsDistance(today: Date, t: Date, n: nat)
    requires IsValid(today) && IsValid(t)
    ensures DayNumber(t) - DayNumber(today) == n <==> AddDays(today, n) == t
  {
    AddDaysCounts(today, n);
    if DayNumber(t) - DayNumber(today) == n {
      DayNumberInjective(AddDays(today, n), t);
    }
  }

  /** The twelve months fill the year exactly, whichever the leap rule says. */
  lemma MonthsMakeYear(y: int)
    ensures DaysInMonth(y, 1) + DaysInMonth(y, 2) + DaysInMonth(y, 3) + DaysInMonth(y, 4)
            + DaysInMonth(y, 5) + DaysInMonth(y, 6) + DaysInMonth(y, 7) + DaysInMonth(y, 8)
            + DaysInMonth(y, 9) + DaysInMonth(y, 10) + DaysInMonth(y, 11) + DaysInMonth(y, 12) == DaysInYear(y)
    ensures DaysBeforeMonth(y, 12) + DaysInMonth(y, 12) == DaysInYear(y)
  {
  }

  /** 1 January of the next year is the day after 31 December, and a year's length apart from 1 January. */
  lemma YearLength(y: int)
    requires 1 <= y
    ensures IsValid(Date(y, 12, 31)) && IsValid(Date(y + 1, 1, 1))
    ensures DayNumber(Date(y + 1, 1, 1)) == DayNumber(Date(y, 12, 31)) + 1
    ensures DayNumber(Date(y + 1, 1, 1)) == DayNumber(Date(y, 1, 1)) + DaysInYear(y)
  {
    YearStep(y);
  }

  /** `DATE(...)` accepts every date some number of days after a valid date, and denotes that date. */
  lemma MakeDateOfAddDays(d: Date, n: nat)
    requires IsValid(d)
    ensures var t := AddDays(d, n); MakeDate(t.year, t.month, t.day) == Some(t)
  {
    AddDaysCounts(d, n);
  }

  /** Re-dating a stored birth date into year y fails only for 29 February in a common year. */
  lemma MakeDateFailsOnlyOnLeapDay(b: Date, y: int)
    requires IsValid(b) && 1 <= y
    ensures MakeDate(y, b.month, b.day).None? <==> b.month == 2 && b.day == 29 && !IsLeapYear(y)
  {
  }

  /** Spot values: the leap rule's three cases, and 1970-01-01 as day 719162 (proleptic ordinal 719163 counted from 1). */
  lemma KnownValues()
    ensures IsLeapYear(2000) && IsLeapYear(2024) && !IsLeapYear(1900) && !IsLeapYear(2025)
    ensures DayNumber(Date(1970, 1, 1)) == 719162
    ensures DayNumber(Date(2000, 3, 1)) - DayNumber(Date(2000, 2, 28)) == 2
    ensures DayNumber(Date(1900, 3, 1)) - DayNumber(Date(1900, 2, 28)) == 1
  {
  }
}
