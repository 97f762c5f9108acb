/** The proleptic Gregorian calendar as Python's datetime module has it: which
    (year, month, day) triples are dates, and their day ordinals (toordinal()),
    on which the scheduler does its day arithmetic. */
module Calendar {

  datatype CivilDate = CivilDate(year: int, month: int, day: int)

  const MinYear: int := 1
  const MaxYear: int := 9999
  /** The ordinal of 9999-12-31, the last date datetime can represent. */
  const MaxOrdinal: int := 3652059

  predicate IsLeapYear(y: int) {
    y % 4 == 0 && (y % 100 != 0 || y % 400 == 0)
  }

  function DaysInMonth(y: int, m: int): (n: int)
    requires 1 <= m <= 12
    ensures 28 <= n <= 31
    ensures m == 2 ==> (n == 29 <==> IsLeapYear(y))
  {
    if m == 2 then (if IsLeapYear(y) then 29 else 28)
    else if m == 4 || m == 6 || m == 9 || m == 11 then 30
    else 31
  }

  function DaysInYear(y: int): int {
    if IsLeapYear(y) then 366 else 365
  }

  /** What datetime(year, month, day) accepts without raising ValueError. */
  predicate IsCalendarDate(d: CivilDate)
    ensures IsCalendarDate(d) ==> 1 <= d.day <= 31 && (d.month == 2 ==> d.day <= 29)
  {
    && MinYear <= d.year <= MaxYear
    && 1 <= d.month <= 12
    && 1 <= d.day <= DaysInMonth(d.year, d.month)
  }

  /** Chronological order, compared field by field from the year down. */
  predicate Before(a: CivilDate, b: CivilDate) {
    || a.year < b.year
    || (a.year == b.year && a.month < b.month)
    || (a.year == b.year && a.month == b.month && a.day < b.day)
  }

  function DaysBeforeYear(y: int): int
    requires y >= 1
  {
    var y1 := y - 1;
    y1 * 365 + y1 / 4 - y1 / 100 + y1 / 400
  }

  function DaysBeforeMonth(y: int, m: int): int
    requires 1 <= m <= 12
  {
    [0, 31, 59, 90, 120, 151, 181, 212, 243, 273, 304, 334][m - 1]
      + (if m > 2 && IsLeapYear(y) then 1 else 0)
  }

  /** date.toordinal(): 0001-01-01 is day 1, and each date's ordinal lies inside
      its own year's block of days. */
  function Ordinal(d: CivilDate): (n: int)
    requires IsCalendarDate(d)
    ensures DaysBeforeYear(d.year) < n <= DaysBeforeYear(d.year) + DaysInYear(d.year)
  {
    DaysBeforeYear(d.year) + DaysBeforeMonth(d.year, d.month) + d.day
  }

  lemma DaysBeforeYearStep(y: int)
    requires y >= 1
    ensures DaysBeforeYear(y + 1) == DaysBeforeYear(y) + DaysInYear(y)
  {
    var y1 := y - 1;
    assert y / 4 - y1 / 4 == (if y % 4 == 0 then 1 else 0);
    assert y / 100 - y1 / 100 == (if y % 100 == 0 then 1 else 0);
    assert y / 400 - y1 / 400 == (if y % 400 == 0 then 1 else 0);
  }

  lemma {:induction false} DaysBeforeYearGrows(y1: int, y2: int)
    requires 1 <= y1 < y2
    ensures DaysBeforeYear(y1) + DaysInYear(y1) <= DaysBeforeYear(y2)
    decreases y2 - y1
  {
    DaysBeforeYearStep(y1);
    if y1 + 1 < y2 {
      DaysBeforeYearGrows(y1 + 1, y2);
    }
  }

  lemma MonthsInOrder(y: int, m1: int, m2: int)
    requires 1 <= m1 < m2 <= 12
    ensures DaysBeforeMonth(y, m1) + DaysInMonth(y, m1) <= DaysBeforeMonth(y, m2)
  {
  }

  /** Ordinals number the calendar dates in chronological order. */
  lemma OrdinalMonotone(a: CivilDate, b: CivilDate)
    requires IsCalendarDate(a) && IsCalendarDate(b)
    ensures Before(a, b) <==> Ordinal(a) < Ordinal(b)
  {
    if a.year < b.year {
      DaysBeforeYearGrows(a.year, b.year);
    } else if b.year < a.year {
      DaysBeforeYearGrows(b.year, a.year);
    } else if a.month < b.month {
      MonthsInOrder(a.year, a.month, b.month);
    } else if b.month < a.month {
      MonthsInOrder(a.year, b.month, a.month);
    }
  }

  /** 0001-01-01, the first date, is day 1. */
  lemma FirstOrdinal()
    ensures IsCalendarDate(CivilDate(MinYear, 1, 1))
    ensures Ordinal(CivilDate(MinYear, 1, 1)) == 1
  {
  }

  /** 9999-12-31, the last date, is day MaxOrdinal. */
  lemma LastOrdinal()
    ensures IsCalendarDate(CivilDate(MaxYear, 12, 31))
    ensures Ordinal(CivilDate(MaxYear, 12, 31)) == MaxOrdinal
  {
  }

  /** Every calendar date has an ordinal between 1 and MaxOrdinal. */
  lemma OrdinalInRange(d: CivilDate)
    requires IsCalendarDate(d)
    ensures 1 <= Ordinal(d) <= MaxOrdinal
  {
    var last := CivilDate(MaxYear, 12, 31);
    LastOrdinal();
    if d != last {
      OrdinalMonotone(d, last);
    }
  }

  /** The calendar date after d: the next day of the month, else the first of the
      next month, else January 1 of the next year. */
  function NextDate(d: CivilDate): CivilDate
    requires IsCalendarDate(d)
  {
    if d.day < DaysInMonth(d.year, d.month) then CivilDate(d.year, d.month, d.day + 1)
    else if d.month < 12 then CivilDate(d.year, d.month + 1, 1)
    else CivilDate(d.year + 1, 1, 1)
  }

  /** Consecutive dates have consecutive ordinals, so adding or subtracting k days
      (timedelta) is adding or subtracting k on ordinals. */
  lemma NextDateOrdinal(d: CivilDate)
    requires IsCalendarDate(d) && d != CivilDate(MaxYear, 12, 31)
    ensures IsCalendarDate(NextDate(d))
    ensures Ordinal(NextDate(d)) == Ordinal(d) + 1
  {
    if d.day == DaysInMonth(d.year, d.month) && d.month == 12 {
      DaysBeforeYearStep(d.year);
    }
  }

  /** Every ordinal from 1 to MaxOrdinal is the ordinal of some calendar date. */
  lemma {:induction false} EveryOrdinalIsADate(n: int)
    requires 1 <= n <= MaxOrdinal
    ensures exists d :: IsCalendarDate(d) && Ordinal(d) == n
    decreases n
  {
    if n == 1 {
      FirstOrdinal();
    } else {
      EveryOrdinalIsADate(n - 1);
      var d :| IsCalendarDate(d) && Ordinal(d) == n - 1;
      LastOrdinal();
      NextDateOrdinal(d);
      assert Ordinal(NextDate(d)) == n;
    }
  }
}
