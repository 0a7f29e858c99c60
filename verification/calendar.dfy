/**
 Calendar arithmetic of the driver: the Gregorian leap-year rule, the length
 of a month, and Sakamoto's day-of-week formula for years 2000 + y.

 Next to the driver's own functions stands an independent reference: a count
 of the days elapsed since 1 January 2000 (a Saturday), built from month
 lengths. The day-of-week formula is proved to agree with that count.
 */
module Calendar {
  import opened CInt

  /** Days of each month of a common year, January first. */
  const NUM_DAY_IN_MONTH: seq<int> := [31, 28, 31, 30, 31, 30, 31, 31, 30, 31, 30, 31]

  /** Sakamoto's offset of each month, January first. */
  const MONTH_OFFSET: seq<int> := [0, 3, 2, 5, 0, 3, 5, 1, 4, 6, 2, 4]

  /** Weekday names, indexed by the value `DayOfWeek` returns. */
  const WEEKDAY_NAMES: seq<string> := ["SUN", "MON", "TUE", "WED", "THU", "FRI", "SAT"]

  const MONDAY := 1
  /** 1 January 2000, day 0 of the reference count, was a Saturday. */
  const SATURDAY := 6

  /** `isLeapYear`: divisible by 4, and either not by 100 or by 400 (C remainders). */
  function IsLeapYear(year: int): (leap: bool)
    ensures leap <==> year % 4 == 0 && (year % 100 != 0 || year % 400 == 0)
  {
    CRemZero(year, 4);
    CRemZero(year, 100);
    CRemZero(year, 400);
    CRem(year, 4) == 0 && (CRem(year, 100) != 0 || CRem(year, 400) == 0)
  }

  /** Reference month length: thirty days hath September, April, June and November. */
  function DaysInMonth(year: int, month: int): int
    requires 1 <= month <= 12
  {
    if month == 2 then (if IsLeapYear(year) then 29 else 28)
    else if month == 4 || month == 6 || month == 9 || month == 11 then 30
    else 31
  }

  /** `numDayInMonth`: the table entry, plus one for February of a leap year. */
  function NumDayInMonth(year: int, month: int): (days: int)
    requires 1 <= month <= 12
    ensures days == DaysInMonth(year, month)
    ensures 28 <= days <= 31
    ensures month == 2 ==> (days == 29 <==> IsLeapYear(year)) && (days == 28 <==> !IsLeapYear(year))
  {
    var leapYear := if IsLeapYear(year) then 1 else 0;
    if month == 2 then NUM_DAY_IN_MONTH[1] + leapYear else NUM_DAY_IN_MONTH[month - 1]
  }

  /**
   `dayofweek(d, m, y)`: Sakamoto's method on the year 2000 + y, where January
   and February count as months of the year before; 0 is Sunday. The month
   indexes the offset table, so it must lie in 1..12. The driver passes only
   unsigned bytes for the day and the year, so every operand of `/` and `%`
   is non-negative and C's truncating division agrees with Dafny's.
   */
  function DayOfWeek(d: nat, m: int, y: nat): (dow: nat)
    requires 1 <= m <= 12
    ensures dow <= 6
  {
    var fullYear := y + 2000;
    var year := fullYear - (if m < 3 then 1 else 0);
    (year + year / 4 - year / 100 + year / 400 + MONTH_OFFSET[m - 1] + d) % 7
  }

  // ---------------------------------------------------------------------
  // Reference: days elapsed since 1 January 2000

  function YearLength(year: int): int {
    if IsLeapYear(year) then 366 else 365
  }

  /** Days from 1 January 2000 to 1 January of the year 2000 + y. */
  function DaysBeforeYear(y: nat): nat {
    if y == 0 then 0 else DaysBeforeYear(y - 1) + YearLength(2000 + y - 1)
  }

  /** Days from 1 January to the first of month `m` of `year`. */
  function DaysBeforeMonth(year: int, m: int): nat
    requires 1 <= m <= 12
  {
    if m == 1 then 0 else DaysBeforeMonth(year, m - 1) + DaysInMonth(year, m - 1)
  }

  /** Days from 1 January 2000 to day `d` of month `m` of the year 2000 + y. */
  function DaysSinceEpoch(d: int, m: int, y: nat): int
    requires 1 <= m <= 12
  {
    DaysBeforeYear(y) + DaysBeforeMonth(2000 + y, m) + d - 1
  }

  // ---------------------------------------------------------------------
  // The formula agrees with the count

  /** The day-count part of Sakamoto's formula for a non-negative year. */
  function YearTerm(year: int): int {
    year + year / 4 - year / 100 + year / 400
  }

  /** Sakamoto's sum before the final remainder, for a non-negative shifted year. */
  function SakamotoSum(d: int, m: int, y: nat): int
    requires 1 <= m <= 12
  {
    YearTerm(y + 2000 - (if m < 3 then 1 else 0)) + MONTH_OFFSET[m - 1] + d
  }

  /** The quotient by 4, 100 or 400 grows by one exactly at the multiples. */
  lemma QuotientStep(n: int, k: int)
    requires k == 4 || k == 100 || k == 400
    ensures n / k - (n - 1) / k == (if n % k == 0 then 1 else 0)
  {
  }

  /** A multiple of 400 is one of 100, and a multiple of 100 is one of 4. */
  lemma DivisibilityChain(year: int)
    ensures year % 400 == 0 ==> year % 100 == 0
    ensures year % 100 == 0 ==> year % 4 == 0
  {
    if year % 400 == 0 {
      assert year == 100 * (4 * (year / 400));
      MultipleHasNoRemainder(100, 4 * (year / 400));
    }
    if year % 100 == 0 {
      assert year == 4 * (25 * (year / 100));
      MultipleHasNoRemainder(4, 25 * (year / 100));
    }
  }

  /** The year term grows by the length of the year, less 364 days. */
  lemma YearTermStep(year: int)
    requires 1 <= year
    ensures YearTerm(year) - YearTerm(year - 1) == YearLength(year) - 364
  {
    DivisibilityChain(year);
    QuotientStep(year, 4);
    QuotientStep(year, 100);
    QuotientStep(year, 400);
    var steps := (year / 4 - (year - 1) / 4) - (year / 100 - (year - 1) / 100) + (year / 400 - (year - 1) / 400);
    assert YearTerm(year) - YearTerm(year - 1) == 1 + steps;
    assert steps == (if IsLeapYear(year) then 1 else 0);
  }

  /** How far Sakamoto's sum runs ahead of the day count. */
  function Drift(d: int, m: int, y: nat): int
    requires 1 <= m <= 12
  {
    SakamotoSum(d, m, y) - DaysSinceEpoch(d, m, y)
  }

  /** From one month to the next the drift falls by four or five whole weeks. */
  lemma DriftMonthStep(d: int, m: int, y: nat)
    requires 2 <= m <= 12
    ensures Drift(d, m, y) == Drift(d, m - 1, y) - (if m == 5 || m == 8 || m == 11 then 35 else 28)
  {
    assert DaysBeforeMonth(2000 + y, m) == DaysBeforeMonth(2000 + y, m - 1) + DaysInMonth(2000 + y, m - 1);
    if m == 3 {
      YearTermStep(y + 2000);
    }
  }

  /** From one year to the next the drift falls by 52 whole weeks. */
  lemma DriftYearStep(d: int, y: nat)
    requires 1 <= y
    ensures Drift(d, 1, y) == Drift(d, 1, y - 1) - 364
  {
    YearTermStep(y + 1999);
  }

  /** Subtracting whole weeks keeps the residue modulo 7. */
  lemma WholeWeeks(a: int, b: int, weeks: int)
    requires a == b - 7 * weeks
    ensures a % 7 == b % 7
  {
    assert b == 7 * (b / 7) + b % 7;
    assert a == 7 * (b / 7 - weeks) + b % 7;
  }

  /** Sakamoto's sum and the day count differ by 6 modulo 7 on every date. */
  lemma {:induction false} DriftIsSix(d: int, m: int, y: nat)
    requires 1 <= m <= 12
    ensures Drift(d, m, y) % 7 == 6
    decreases y, m
  {
    if m > 1 {
      DriftIsSix(d, m - 1, y);
      DriftMonthStep(d, m, y);
      WholeWeeks(Drift(d, m, y), Drift(d, m - 1, y), if m == 5 || m == 8 || m == 11 then 5 else 4);
    } else if y > 0 {
      DriftIsSix(d, 1, y - 1);
      DriftYearStep(d, y);
      WholeWeeks(Drift(d, 1, y), Drift(d, 1, y - 1), 52);
    } else {
      assert Drift(d, 1, 0) == 2484;
    }
  }

  /**
   On every date from 2000 on, `DayOfWeek` is the weekday reached by counting
   days from Saturday 1 January 2000.
   */
  lemma DayOfWeekCountsDays(d: nat, m: int, y: nat)
    requires 1 <= m <= 12
    ensures DayOfWeek(d, m, y) == (SATURDAY + DaysSinceEpoch(d, m, y)) % 7
  {
    DriftIsSix(d, m, y);
    var g := Drift(d, m, y);
    WholeWeeks(SakamotoSum(d, m, y), SATURDAY + DaysSinceEpoch(d, m, y), -(g / 7));
  }

  /** Two dates a whole number of weeks apart fall on the same weekday. */
  lemma WeeksApartSameWeekday(d1: nat, m1: int, y1: nat, d2: nat, m2: int, y2: nat, weeks: int)
    requires 1 <= m1 <= 12
    requires 1 <= m2 <= 12
    requires DaysSinceEpoch(d2, m2, y2) == DaysSinceEpoch(d1, m1, y1) + 7 * weeks
    ensures DayOfWeek(d1, m1, y1) == DayOfWeek(d2, m2, y2)
  {
    DayOfWeekCountsDays(d1, m1, y1);
    DayOfWeekCountsDays(d2, m2, y2);
    var n1 := SATURDAY + DaysSinceEpoch(d1, m1, y1);
    WholeWeeks(n1, n1 + 7 * weeks, weeks);
  }

  /** The next date within a month is the next weekday. */
  lemma NextDayNextWeekday(d: nat, m: int, y: nat)
    requires 1 <= m <= 12
    ensures DayOfWeek(d + 1, m, y) == (DayOfWeek(d, m, y) + 1) % 7
  {
    var s := SakamotoSum(d, m, y);
    WholeWeeks(s + 1, s % 7 + 1, -(s / 7));
  }

  /** 15 April 2013 was a Monday. */
  lemma DayOfWeekExample()
    ensures DayOfWeek(15, 4, 13) == MONDAY
    ensures WEEKDAY_NAMES[DayOfWeek(15, 4, 13)] == "MON"
  {
  }

  /** The leap years of the Gregorian rule around the turn of the centuries. */
  lemma LeapYearExamples()
    ensures IsLeapYear(2000) && IsLeapYear(2400) && IsLeapYear(2024)
    ensures !IsLeapYear(1900) && !IsLeapYear(2100) && !IsLeapYear(2023)
  {
  }
}
