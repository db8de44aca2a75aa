/**
 * The proleptic Gregorian calendar of chrono's `NaiveDate`: leap years, month lengths,
 * month addition with end-of-month clamping, and the day count both rest on.
 */
module Dates {
  import opened Text

  const MIN_YEAR := -262143
  const MAX_YEAR := 262142

  datatype Date = Date(year: int, month: int, day: int)

  predicate IsLeap(y: int) {
    y % 4 == 0 && (y % 100 != 0 || y % 400 == 0)
  }

  function DaysInMonth(y: int, m: int): (n: int)
    requires 1 <= m <= 12
    ensures 28 <= n <= 31
  {
    if m == 2 then (if IsLeap(y) then 29 else 28)
    else if m == 4 || m == 6 || m == 9 || m == 11 then 30
    else 31
  }

  predicate Valid(d: Date) {
    && MIN_YEAR <= d.year <= MAX_YEAR
    && 1 <= d.month <= 12
    && 1 <= d.day <= DaysInMonth(d.year, d.month)
  }

  type Day = d: Date | Valid(d) witness Date(2000, 1, 1)

  /** `NaiveDate::MAX`. */
  const MAX: Day := Date(MAX_YEAR, 12, 31)

  predicate Before(a: Date, b: Date) {
    a.year < b.year || (a.year == b.year && (a.month < b.month || (a.month == b.month && a.day < b.day)))
  }

  predicate NotAfter(a: Date, b: Date) {
    a == b || Before(a, b)
  }

  function MinDay(a: Day, b: Day): Day {
    if Before(b, a) then b else a
  }

  // ---- day numbers: an independent reading of the calendar -----------------

  function DaysBeforeYear(y: int): int {
    365 * (y - 1) + (y - 1) / 4 - (y - 1) / 100 + (y - 1) / 400
  }

  function DaysBeforeMonth(y: int, m: int): (n: int)
    requires 1 <= m <= 13
    decreases m
  {
    if m == 1 then 0 else DaysBeforeMonth(y, m - 1) + DaysInMonth(y, m - 1)
  }

  /** Days since 31 December of year 0 (chrono's `num_days_from_ce`). */
  function DayNumber(d: Day): int {
    DaysBeforeYear(d.year) + DaysBeforeMonth(d.year, d.month) + d.day
  }

  function YearLength(y: int): int {
    if IsLeap(y) then 366 else 365
  }

  lemma YearStep(y: int)
    ensures DaysBeforeYear(y + 1) == DaysBeforeYear(y) + YearLength(y)
  {
    assert y / 4 - (y - 1) / 4 == if y % 4 == 0 then 1 else 0;
    assert y / 100 - (y - 1) / 100 == if y % 100 == 0 then 1 else 0;
    assert y / 400 - (y - 1) / 400 == if y % 400 == 0 then 1 else 0;
  }

  lemma {:induction false} YearsMonotone(y: int, z: int)
    requires y <= z
    ensures DaysBeforeYear(y) <= DaysBeforeYear(z)
    decreases z - y
  {
    if y < z {
      YearStep(y);
      YearsMonotone(y + 1, z);
    }
  }

  lemma MonthsFillYear(y: int)
    ensures DaysBeforeMonth(y, 13) == YearLength(y)
  {
    assert DaysBeforeMonth(y, 4) == DaysInMonth(y, 2) + 62;
    assert DaysBeforeMonth(y, 7) == DaysBeforeMonth(y, 4) + 91;
    assert DaysBeforeMonth(y, 10) == DaysBeforeMonth(y, 7) + 92;
    assert DaysBeforeMonth(y, 13) == DaysBeforeMonth(y, 10) + 92;
  }

  /** The table of month lengths; the years a century that 400 does not divide begins with have no leap day. */
  lemma MonthLengths(y: int, m: int)
    requires 1 <= m <= 12
    ensures DaysInMonth(y, m) == [31, 28, 31, 30, 31, 30, 31, 31, 30, 31, 30, 31][m - 1]
                                 + if m == 2 && y % 4 == 0 && (y % 100 == 0 ==> y % 400 == 0) then 1 else 0
  {
  }

  lemma {:induction false} MonthsMonotone(y: int, m: int, n: int)
    requires 1 <= m <= n <= 13
    ensures DaysBeforeMonth(y, m) <= DaysBeforeMonth(y, n)
    decreases n
  {
    if m < n {
      MonthsMonotone(y, m, n - 1);
    }
  }

  /** Calendar order is exactly day-number order. */
  lemma OrderIsDayOrder(a: Day, b: Day)
    ensures Before(a, b) <==> DayNumber(a) < DayNumber(b)
    ensures a == b <==> DayNumber(a) == DayNumber(b)
  {
    if Before(a, b) {
      BeforeIncreases(a, b);
    } else if Before(b, a) {
      BeforeIncreases(b, a);
    } else {
      assert a == b;
    }
  }

  lemma DayOfYearFits(y: int, m: int, d: int)
    requires 1 <= m <= 12 && 1 <= d <= DaysInMonth(y, m)
    ensures 1 <= DaysBeforeMonth(y, m) + d <= YearLength(y)
  {
    MonthsFillYear(y);
    MonthsMonotone(y, m + 1, 13);
    MonthsMonotone(y, 1, m);
  }

  lemma LaterYearStartsLater(y: int, z: int)
    requires y < z
    ensures DaysBeforeYear(y) + YearLength(y) <= DaysBeforeYear(z)
  {
    YearStep(y);
    YearsMonotone(y + 1, z);
  }

  lemma BeforeIncreases(a: Day, b: Day)
    requires Before(a, b)
    ensures DayNumber(a) < DayNumber(b)
  {
    if a.year < b.year {
      DayOfYearFits(a.year, a.month, a.day);
      DayOfYearFits(b.year, b.month, b.day);
      LaterYearStartsLater(a.year, b.year);
    } else if a.month < b.month {
      MonthsMonotone(a.year, a.month + 1, b.month);
    }
  }

  // ---- arithmetic ----------------------------------------------------------

  /** `pred_opt`: `None` only on the first representable day. */
  function Pred(d: Day): Option<Day> {
    if d.day > 1 then Some(Date(d.year, d.month, d.day - 1))
    else if d.month > 1 then Some(Date(d.year, d.month - 1, DaysInMonth(d.year, d.month - 1)))
    else if d.year > MIN_YEAR then Some(Date(d.year - 1, 12, 31))
    else None
  }

  lemma YearEndsBeforeNext(y: int)
    requires MIN_YEAR <= y < MAX_YEAR
    ensures DayNumber(Date(y, 12, 31)) == DayNumber(Date(y + 1, 1, 1)) - 1
  {
    MonthsFillYear(y);
    YearStep(y);
  }

  lemma MonthEndsBeforeNext(y: int, m: int)
    requires MIN_YEAR <= y <= MAX_YEAR && 1 <= m < 12
    ensures DayNumber(Date(y, m, DaysInMonth(y, m))) == DayNumber(Date(y, m + 1, 1)) - 1
  {
  }

  lemma PredExists(d: Day)
    ensures Pred(d).None? <==> d == Date(MIN_YEAR, 1, 1)
  {
  }

  lemma PredIsDayBefore(d: Day)
    ensures Pred(d).Some? ==> DayNumber(Pred(d).value) == DayNumber(d) - 1
    ensures Pred(d).None? <==> d == Date(MIN_YEAR, 1, 1)
  {
    PredExists(d);
    if d.day == 1 {
      if d.month > 1 {
        MonthEndsBeforeNext(d.year, d.month - 1);
      } else if d.year > MIN_YEAR {
        YearEndsBeforeNext(d.year - 1);
      }
    }
  }

  /** `d - Duration::days(n)`; `None` where chrono panics. */
  function MinusDays(d: Day, n: nat): Option<Day>
    decreases n
  {
    if n == 0 then Some(d)
    else match Pred(d) case None => None case Some(p) => MinusDays(p, n - 1)
  }

  /** Subtracting days inverts the day difference: from `to`, going back that far lands on `from`. */
  lemma {:induction false} MinusDaysInverse(from: Day, to: Day)
    requires NotAfter(from, to)
    ensures DayNumber(from) <= DayNumber(to)
    ensures MinusDays(to, DayNumber(to) - DayNumber(from)) == Some(from)
    decreases DayNumber(to) - DayNumber(from)
  {
    OrderIsDayOrder(from, to);
    if from != to {
      PredIsDayBefore(to);
      var p := Pred(to).value;
      OrderIsDayOrder(from, p);
      MinusDaysInverse(from, p);
    }
  }

  /** Months since year 0; months are consecutive integers on this scale. */
  function MonthIndex(d: Date): int {
    d.year * 12 + d.month - 1
  }

  /** `checked_add_months`: the day is clamped to the target month; `None` past the last year. */
  function AddMonths(d: Day, n: nat): Option<Day> {
    var i := MonthIndex(d) + n;
    if i / 12 > MAX_YEAR then None
    else
      var dim := DaysInMonth(i / 12, i % 12 + 1);
      Some(Date(i / 12, i % 12 + 1, if d.day < dim then d.day else dim))
  }

  /**
   * Adding months moves exactly that many months on, to the same day or, where the month is too short, to its last day.
   */
  lemma AddMonthsAdvances(d: Day, n: nat)
    requires n > 0
    ensures AddMonths(d, n).None? <==> MonthIndex(d) + n > MonthIndex(MAX)
    ensures AddMonths(d, n).Some? ==>
      var later := AddMonths(d, n).value;
      && Before(d, later) && MonthIndex(later) == MonthIndex(d) + n && later.day <= d.day
      && (later.day == d.day || later.day == DaysInMonth(later.year, later.month))
  {
  }
}
