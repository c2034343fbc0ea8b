/**
 * The proleptic Gregorian calendar and the count of days since 1970-01-01,
 * the day part of "Seconds Since the Epoch" (POSIX.1-2017 Base Definitions,
 * section 4.16). Dates are what the `time` crate's `Date` holds.
 */
module Calendar {

  /** The `time` crate, built without its `large-dates` feature, accepts these years only. */
  const MinYear: int := -9999
  const MaxYear: int := 9999
  const SecondsPerDay: nat := 86400

  datatype Date = Date(year: int, month: int, day: int)

  predicate IsLeapYear(y: int) {
    y % 4 == 0 && (y % 100 != 0 || y % 400 == 0)
  }

  function DaysInMonth(y: int, m: int): (n: int)
    requires 1 <= m <= 12
    ensures 28 <= n <= 31
  {
    if m == 2 then (if IsLeapYear(y) then 29 else 28)
    else if m == 4 || m == 6 || m == 9 || m == 11 then 30
    else 31
  }

  predicate ValidDate(d: Date) {
    1 <= d.month <= 12 && 1 <= d.day <= DaysInMonth(d.year, d.month)
  }

  /** Days of year `y` before the first day of month `m`. */
  function DaysBeforeMonth(y: int, m: int): int
    requires 1 <= m <= 12
  {
    var common := [0, 31, 59, 90, 120, 151, 181, 212, 243, 273, 304, 334][m - 1];
    if m > 2 && IsLeapYear(y) then common + 1 else common
  }

  /**
   * Number of leap years before year `y`, counted from a fixed origin; only
   * differences of it are used. Dafny's `/` rounds towards negative infinity
   * for a positive divisor, so this holds for years before year 1 too.
   */
  function LeapYearsBefore(y: int): int {
    (y - 1) / 4 - (y - 1) / 100 + (y - 1) / 400
  }

  function DaysInYear(y: int): int {
    if IsLeapYear(y) then 366 else 365
  }

  /** Days from 1970-01-01 to 1 January of year `y`. */
  function YearStart(y: int): int {
    365 * (y - 1970) + (LeapYearsBefore(y) - LeapYearsBefore(1970))
  }

  /** Days from 1970-01-01 to `d`: negative before the epoch. A valid date falls within its own year. */
  function UnixDays(d: Date): (n: int)
    requires 1 <= d.month <= 12
    ensures ValidDate(d) ==> YearStart(d.year) <= n < YearStart(d.year) + DaysInYear(d.year)
  {
    YearStart(d.year) + DaysBeforeMonth(d.year, d.month) + (d.day - 1)
  }

  /** The calendar's successor of a valid date. */
  function NextDay(d: Date): (n: Date)
    requires ValidDate(d)
    ensures ValidDate(n)
  {
    if d.day < DaysInMonth(d.year, d.month) then d.(day := d.day + 1)
    else if d.month < 12 then Date(d.year, d.month + 1, 1)
    else Date(d.year + 1, 1, 1)
  }

  /** Stepping `y - 1` to `y` moves the quotient by `k` exactly when `k` divides `y`. */
  lemma DivStep4(y: int)
    ensures y / 4 - (y - 1) / 4 == if y % 4 == 0 then 1 else 0
  {
  }

  lemma DivStep100(y: int)
    ensures y / 100 - (y - 1) / 100 == if y % 100 == 0 then 1 else 0
  {
  }

  lemma DivStep400(y: int)
    ensures y / 400 - (y - 1) / 400 == if y % 400 == 0 then 1 else 0
  {
  }

  lemma DividesBy100(y: int)
    requires y % 400 == 0
    ensures y % 100 == 0
  {
    var q := y / 400;
    assert y == 100 * (4 * q);
  }

  lemma DividesBy4(y: int)
    requires y % 100 == 0
    ensures y % 4 == 0
  {
    var q := y / 100;
    assert y == 4 * (25 * q);
  }

  /** Year `y` adds one to the leap-year count exactly when it is a leap year. */
  lemma LeapYearsStep(y: int)
    ensures LeapYearsBefore(y + 1) - LeapYearsBefore(y) == if IsLeapYear(y) then 1 else 0
  {
    DivStep4(y);
    DivStep100(y);
    DivStep400(y);
    if y % 400 == 0 {
      DividesBy100(y);
      DividesBy4(y);
    } else if y % 100 == 0 {
      DividesBy4(y);
    }
  }

  lemma DaysBeforeMonthStep(y: int, m: int)
    requires 1 <= m < 12
    ensures DaysBeforeMonth(y, m + 1) == DaysBeforeMonth(y, m) + DaysInMonth(y, m)
  {
  }

  /** 1970-01-01 is day zero. */
  lemma UnixDaysEpoch()
    ensures UnixDays(Date(1970, 1, 1)) == 0
  {
  }

  /**
   * Consecutive calendar days are consecutive day numbers, across month and
   * year ends and leap days alike: with the epoch this pins `UnixDays` down.
   */
  lemma {:induction false} UnixDaysNextDay(d: Date)
    requires ValidDate(d)
    ensures UnixDays(NextDay(d)) == UnixDays(d) + 1
  {
    if d.day < DaysInMonth(d.year, d.month) {
    } else if d.month < 12 {
      DaysBeforeMonthStep(d.year, d.month);
    } else {
      LeapYearsStep(d.year);
    }
  }
}
