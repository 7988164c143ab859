/** Proleptic Gregorian calendar dates in the manner of java.time.LocalDate: the comparisons
    isBefore/isAfter/isEqual and the additions plusDays, plusWeeks and plusMonths. */
module Dates {

  /** IsoChronology.isLeapYear (the remainder tests agree for negative years too). */
  predicate IsLeap(y: int)
  {
    y % 4 == 0 && (y % 100 != 0 || y % 400 == 0)
  }

  function DaysInMonth(y: int, m: int): (n: int)
    requires 1 <= m <= 12
    ensures 28 <= n <= 31
    ensures n == 29 <==> m == 2 && IsLeap(y)
  {
    if m == 2 then (if IsLeap(y) then 29 else 28)
    else if m == 4 || m == 6 || m == 9 || m == 11 then 30
    else 31
  }

  function DaysInYear(y: int): int
  {
    if IsLeap(y) then 366 else 365
  }

  datatype Date = Date(year: int, month: int, day: int)

  predicate ValidDate(d: Date)
  {
    1 <= d.month <= 12 && 1 <= d.day <= DaysInMonth(d.year, d.month)
  }

  /** A date that exists in the calendar, as every java.time.LocalDate does. */
  type LocalDate = d: Date | ValidDate(d) witness Date(1970, 1, 1)

  /** LocalDate.isBefore; `isAfter(a, b)` is `Before(b, a)`. compareTo orders by year, month, day. */
  predicate Before(a: Date, b: Date)
  {
    a.year < b.year || (a.year == b.year && (a.month < b.month || (a.month == b.month && a.day < b.day)))
  }

  /** Two dates are equal, or one of them is before the other. */
  lemma Trichotomy(a: Date, b: Date)
    ensures Before(a, b) || a == b || Before(b, a)
    ensures !(Before(a, b) && Before(b, a))
    ensures !(Before(a, b) && a == b)
  {
  }

  lemma BeforeTransitive(a: Date, b: Date, c: Date)
    requires Before(a, b) && Before(b, c)
    ensures Before(a, c)
  {
  }

  /** The day after `d`. */
  function NextDay(d: LocalDate): (r: LocalDate)
    ensures Before(d, r)
  {
    if d.day < DaysInMonth(d.year, d.month) then Date(d.year, d.month, d.day + 1)
    else if d.month < 12 then Date(d.year, d.month + 1, 1)
    else Date(d.year + 1, 1, 1)
  }

  /** LocalDate.plusDays for a non-negative count. */
  function PlusDays(d: LocalDate, k: nat): LocalDate
    decreases k
  {
    if k == 0 then d else PlusDays(NextDay(d), k - 1)
  }

  /** Adding a + b days is adding a days, then b. */
  lemma {:induction false} PlusDaysSplit(d: LocalDate, a: nat, b: nat)
    ensures PlusDays(d, a + b) == PlusDays(PlusDays(d, a), b)
    decreases a
  {
    if a > 0 {
      PlusDaysSplit(NextDay(d), a - 1, b);
    }
  }

  /** LocalDate.plusWeeks: seven days per week. */
  function PlusWeeks(d: LocalDate, w: nat): LocalDate
  {
    PlusDays(d, 7 * w)
  }

  function Min(a: int, b: int): int { if a <= b then a else b }

  /** Months since January of year 0 (LocalDate.getProlepticMonth). */
  function MonthIndex(d: Date): int
  {
    d.year * 12 + d.month - 1
  }

  /** LocalDate.plusMonths: the same day-of-month k months later, or the last day of that month
      when the day does not exist there. */
  function PlusMonths(d: LocalDate, k: nat): (r: LocalDate)
    ensures MonthIndex(r) == MonthIndex(d) + k
    ensures r.day <= d.day
    ensures r.day < d.day ==> r.day == DaysInMonth(r.year, r.month)
  {
    var total := MonthIndex(d) + k;
    var y, m := total / 12, total % 12 + 1;
    Date(y, m, Min(d.day, DaysInMonth(y, m)))
  }

  /** A later month is a later date. */
  lemma MonthIndexBefore(a: LocalDate, b: LocalDate)
    requires MonthIndex(a) < MonthIndex(b)
    ensures Before(a, b)
  {
  }

  // ----- Day ordinal (LocalDate.toEpochDay) -----

  /** Leap years in [0, y), counted negatively for y < 0. */
  function LeapYearsBefore(y: int): int
  {
    (y + 3) / 4 - (y + 99) / 100 + (y + 399) / 400
  }

  lemma LeapYearsStep(y: int)
    ensures LeapYearsBefore(y + 1) == LeapYearsBefore(y) + (if IsLeap(y) then 1 else 0)
  {
    MultiplesStep4(y);
    MultiplesStep100(y);
    MultiplesStep400(y);
    DivisibilityChain(y);
    assert LeapYearsBefore(y + 1) == (y + 4) / 4 - (y + 100) / 100 + (y + 400) / 400;
  }

  lemma DivisibilityChain(y: int)
    ensures y % 400 == 0 ==> y % 100 == 0
    ensures y % 100 == 0 ==> y % 4 == 0
  {
    if y % 400 == 0 {
      MultipleOf100(y, 4 * (y / 400));
    }
    if y % 100 == 0 {
      MultipleOf4(y, 25 * (y / 100));
    }
  }

  lemma MultipleOf100(y: int, j: int)
    requires y == 100 * j
    ensures y % 100 == 0
  {
  }

  lemma MultipleOf4(y: int, j: int)
    requires y == 4 * j
    ensures y % 4 == 0
  {
  }

  lemma MultiplesStep4(y: int)
    ensures (y + 4) / 4 - (y + 3) / 4 == if y % 4 == 0 then 1 else 0
  {
  }

  lemma MultiplesStep100(y: int)
    ensures (y + 100) / 100 - (y + 99) / 100 == if y % 100 == 0 then 1 else 0
  {
  }

  lemma MultiplesStep400(y: int)
    ensures (y + 400) / 400 - (y + 399) / 400 == if y % 400 == 0 then 1 else 0
  {
  }

  function DaysBeforeYear(y: int): int
  {
    365 * y + LeapYearsBefore(y)
  }

  function DaysBeforeMonth(y: int, m: int): int
    requires 1 <= m <= 12
  {
    var common :=
      if m == 1 then 0 else if m == 2 then 31 else if m == 3 then 59 else if m == 4 then 90
      else if m == 5 then 120 else if m == 6 then 151 else if m == 7 then 181 else if m == 8 then 212
      else if m == 9 then 243 else if m == 10 then 273 else if m == 11 then 304 else 334;
    common + (if m > 2 && IsLeap(y) then 1 else 0)
  }

  /** Days since 1970-01-01, as LocalDate.toEpochDay (719528 days separate 0000-01-01 from it). */
  function EpochDay(d: LocalDate): int
  {
    DaysBeforeYear(d.year) + DaysBeforeMonth(d.year, d.month) + d.day - 1 - 719528
  }

  /** Stepping one day advances the ordinal by one. */
  lemma EpochDayNext(d: LocalDate)
    ensures EpochDay(NextDay(d)) == EpochDay(d) + 1
  {
    if d.day == DaysInMonth(d.year, d.month) && d.month == 12 {
      LeapYearsStep(d.year);
    }
  }

  /** PlusDays agrees with Java's ofEpochDay(toEpochDay() + k). */
  lemma {:induction false} EpochDayPlusDays(d: LocalDate, k: nat)
    ensures EpochDay(PlusDays(d, k)) == EpochDay(d) + k
    decreases k
  {
    if k > 0 {
      EpochDayNext(d);
      EpochDayPlusDays(NextDay(d), k - 1);
    }
  }

  lemma {:induction false} DaysBeforeYearMonotone(y1: int, y2: int)
    requires y1 < y2
    ensures DaysBeforeYear(y1) + DaysInYear(y1) <= DaysBeforeYear(y2)
    decreases y2 - y1
  {
    LeapYearsStep(y1);
    if y1 + 1 < y2 {
      DaysBeforeYearMonotone(y1 + 1, y2);
    }
  }

  /** The position of a date inside its year is less than the length of the year. */
  lemma DayOfYearBound(d: LocalDate)
    ensures 0 <= DaysBeforeMonth(d.year, d.month) + d.day - 1 < DaysInYear(d.year)
  {
  }

  lemma MonthsOrdered(y: int, m1: int, m2: int)
    requires 1 <= m1 < m2 <= 12
    ensures DaysBeforeMonth(y, m1) + DaysInMonth(y, m1) <= DaysBeforeMonth(y, m2)
  {
  }

  /** The calendar order is the order of the day ordinals. */
  lemma BeforeIffEpochDay(a: LocalDate, b: LocalDate)
    ensures Before(a, b) <==> EpochDay(a) < EpochDay(b)
    ensures a == b <==> EpochDay(a) == EpochDay(b)
  {
    DayOfYearBound(a);
    DayOfYearBound(b);
    if a.year < b.year {
      DaysBeforeYearMonotone(a.year, b.year);
    } else if b.year < a.year {
      DaysBeforeYearMonotone(b.year, a.year);
    } else if a.month < b.month {
      MonthsOrdered(a.year, a.month, b.month);
    } else if b.month < a.month {
      MonthsOrdered(a.year, b.month, a.month);
    }
  }

  /** Adding more days gives a later date. */
  lemma PlusDaysIncreasing(d: LocalDate, i: nat, j: nat)
    requires i < j
    ensures Before(PlusDays(d, i), PlusDays(d, j))
  {
    EpochDayPlusDays(d, i);
    EpochDayPlusDays(d, j);
    BeforeIffEpochDay(PlusDays(d, i), PlusDays(d, j));
  }
}
