/**
 * The proleptic Gregorian calendar of Python's `date`, as far as the
 * financial reports need it: months, their lengths, and the day number that
 * the ledgers use as their date key (consecutive days have consecutive
 * numbers).
 */
module Calendar {
  datatype Date = Date(year: int, month: int, day: int)

  predicate IsLeap(y: int) {
    y % 4 == 0 && (y % 100 != 0 || y % 400 == 0)
  }

  function DaysInMonth(y: int, m: int): (n: int)
    requires 1 <= m <= 12
    ensures 28 <= n <= 31
  {
    if m == 2 then (if IsLeap(y) then 29 else 28)
    else if m == 4 || m == 6 || m == 9 || m == 11 then 30
    else 31
  }

  predicate ValidDate(d: Date) {
    1 <= d.month <= 12 && 1 <= d.day <= DaysInMonth(d.year, d.month)
  }

  /** Days in the months of `y` before month `m`. */
  function DaysBeforeMonth(y: int, m: int): int
    requires 1 <= m <= 12
  {
    var common :=
      if m == 1 then 0 else if m == 2 then 31 else if m == 3 then 59 else if m == 4 then 90
      else if m == 5 then 120 else if m == 6 then 151 else if m == 7 then 181 else if m == 8 then 212
      else if m == 9 then 243 else if m == 10 then 273 else if m == 11 then 304 else 334;
    common + (if m > 2 && IsLeap(y) then 1 else 0)
  }

  /** Each month starts where the one before it ends. */
  lemma MonthsAreContiguous(y: int, m: int)
    requires 1 <= m < 12
    ensures DaysBeforeMonth(y, m + 1) == DaysBeforeMonth(y, m) + DaysInMonth(y, m)
  {
  }

  /** Days in the years before `y`, counted from 1 January of year 1. */
  function DaysBeforeYear(y: int): int {
    var p := y - 1;
    365 * p + p / 4 - p / 100 + p / 400
  }

  /** The day number of a date; 1 January of year 1 is day 0. */
  function DayKey(d: Date): int
    requires 1 <= d.month <= 12
  {
    DaysBeforeYear(d.year) + DaysBeforeMonth(d.year, d.month) + d.day - 1
  }

  function FirstOfMonth(y: int, m: int): Date {
    Date(y, m, 1)
  }

  /** The first day of the month after (`y`, `m`); December rolls over to January of the next year. */
  function FirstOfNextMonth(y: int, m: int): (d: Date)
    requires 1 <= m <= 12
    ensures ValidDate(d) && d.day == 1
    ensures m < 12 ==> d.year == y && d.month == m + 1
    ensures m == 12 ==> d.year == y + 1 && d.month == 1
  {
    if m == 12 then Date(y + 1, 1, 1) else Date(y, m + 1, 1)
  }

  /**
   * The day key of the end of month (`y`, `m`), computed as the reports do:
   * the first of the next month minus one day. It is the key of the month's
   * last day.
   */
  function EndOfMonthKey(y: int, m: int): (k: int)
    requires 1 <= m <= 12
    ensures k == DayKey(Date(y, m, DaysInMonth(y, m)))
    ensures DayKey(FirstOfMonth(y, m)) <= k
  {
    EndOfMonthIsLastDay(y, m);
    DayKey(FirstOfNextMonth(y, m)) - 1
  }

  /** A year has 365 days, or 366 in a leap year. */
  lemma YearLength(y: int)
    ensures DaysBeforeYear(y + 1) - DaysBeforeYear(y) == if IsLeap(y) then 366 else 365
  {
    assert y / 4 - (y - 1) / 4 == if y % 4 == 0 then 1 else 0;
    assert y / 100 - (y - 1) / 100 == if y % 100 == 0 then 1 else 0;
    assert y / 400 - (y - 1) / 400 == if y % 400 == 0 then 1 else 0;
    assert y % 400 == 0 ==> y % 100 == 0;
    assert y % 100 == 0 ==> y % 4 == 0;
  }

  lemma EndOfMonthIsLastDay(y: int, m: int)
    requires 1 <= m <= 12
    ensures DayKey(FirstOfNextMonth(y, m)) - 1 == DayKey(Date(y, m, DaysInMonth(y, m)))
  {
    if m == 12 {
      YearLength(y);
    } else {
      MonthsAreContiguous(y, m);
    }
  }

  /** The month (`y`, `m`) as one number, counting months from January of year 0. */
  function MonthIndex(y: int, m: int): int {
    12 * y + m - 1
  }

  /** The month `i` months before (`y`, `m`), with the year adjusted as often as needed. */
  function MonthsBack(y: int, m: int, i: int): (r: (int, int))
    ensures 1 <= r.1 <= 12
    ensures MonthIndex(r.0, r.1) == MonthIndex(y, m) - i
  {
    var idx := MonthIndex(y, m) - i;
    (idx / 12, idx % 12 + 1)
  }

  /** A valid date falls inside its year. */
  lemma DateInItsYear(d: Date)
    requires ValidDate(d)
    ensures DaysBeforeYear(d.year) <= DayKey(d) < DaysBeforeYear(d.year + 1)
  {
    YearLength(d.year);
  }

  /** Within a year, a later month starts on or after the end of an earlier one. */
  lemma LaterMonthStartsLater(y: int, m1: int, m2: int)
    requires 1 <= m1 < m2 <= 12
    ensures DaysBeforeMonth(y, m1) + DaysInMonth(y, m1) <= DaysBeforeMonth(y, m2)
  {
  }

  /** A function that grows at every step grows over any distance. */
  lemma {:induction false} StepsIncrease(f: int -> int, a: int, b: int)
    requires forall i :: f(i) < f(i + 1)
    requires a < b
    ensures f(a) < f(b)
    decreases b - a
  {
    if a + 1 < b {
      StepsIncrease(f, a + 1, b);
    }
  }

  /** Later years start later. */
  lemma YearsIncrease(a: int, b: int)
    requires a < b
    ensures DaysBeforeYear(a) < DaysBeforeYear(b)
  {
    forall i ensures DaysBeforeYear(i) < DaysBeforeYear(i + 1) {
      YearLength(i);
    }
    StepsIncrease(DaysBeforeYear, a, b);
  }

  /**
   * The range from the first of month (`y`, `m`) to its end-of-month key
   * holds the valid dates of that month and no others.
   */
  lemma MonthRange(d: Date, y: int, m: int)
    requires ValidDate(d) && 1 <= m <= 12
    ensures DayKey(FirstOfMonth(y, m)) <= DayKey(d) <= EndOfMonthKey(y, m) <==> d.year == y && d.month == m
  {
    var start, end := DayKey(FirstOfMonth(y, m)), EndOfMonthKey(y, m);
    DateInItsYear(d);
    if d.year == y {
      if d.month < m {
        LaterMonthStartsLater(y, d.month, m);
      } else if d.month > m {
        LaterMonthStartsLater(y, m, d.month);
      }
    } else if d.year < y {
      if d.year + 1 < y {
        YearsIncrease(d.year + 1, y);
      }
    } else {
      DateInItsYear(Date(y, m, DaysInMonth(y, m)));
      if y + 1 < d.year {
        YearsIncrease(y + 1, d.year);
      }
    }
  }
}
