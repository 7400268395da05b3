/**
 * Calendar dates as Python's `datetime.date` sees them (proleptic Gregorian,
 * years 1 to 9999): `timetuple().tm_yday` and `toordinal()`, which the
 * backend uses to pick the day's question category and to subtract the dates
 * of two answers (`(today - last_date).days`). Dates reach the model already
 * parsed; `strptime` itself is not modelled.
 */
module Calendar {

  datatype Date = Date(year: int, month: int, day: int)

  predicate IsLeap(y: int) {
    y % 4 == 0 && (y % 100 != 0 || y % 400 == 0)
  }

  function YearLength(y: int): int {
    if IsLeap(y) then 366 else 365
  }

  function DaysInMonth(y: int, m: int): int {
    if m == 2 then (if IsLeap(y) then 29 else 28)
    else if m == 4 || m == 6 || m == 9 || m == 11 then 30
    else if 1 <= m <= 12 then 31
    else 0
  }

  /** A date `strptime(..., "%Y-%m-%d")` can produce. */
  predicate Valid(d: Date) {
    1 <= d.year <= 9999 && 1 <= d.month <= 12 && 1 <= d.day <= DaysInMonth(d.year, d.month)
  }

  /** Days in the months of year `y` before month `m`. */
  function DaysBeforeMonth(y: int, m: int): int
    requires 1 <= m <= 12
  {
    [0, 31, 59, 90, 120, 151, 181, 212, 243, 273, 304, 334][m - 1] + (if m > 2 && IsLeap(y) then 1 else 0)
  }

  /** `timetuple().tm_yday`: 1 on the first of January. */
  function DayOfYear(d: Date): (n: int)
    requires Valid(d)
    ensures 1 <= n <= YearLength(d.year)
  {
    DaysBeforeMonth(d.year, d.month) + d.day
  }

  /** Days in the years before year `y`. */
  function DaysBeforeYear(y: int): int {
    var p := y - 1;
    p * 365 + p / 4 - p / 100 + p / 400
  }

  /** `toordinal()`: 1 on 0001-01-01, one more for each following day. */
  function Ordinal(d: Date): int
    requires Valid(d)
  {
    DaysBeforeYear(d.year) + DayOfYear(d)
  }

  /** The calendar day after `d`. */
  function NextDay(d: Date): Date
    requires Valid(d)
  {
    if d.day < DaysInMonth(d.year, d.month) then d.(day := d.day + 1)
    else if d.month < 12 then Date(d.year, d.month + 1, 1)
    else Date(d.year + 1, 1, 1)
  }

  lemma DaysBeforeYearStep(y: int)
    requires y >= 1
    ensures DaysBeforeYear(y + 1) == DaysBeforeYear(y) + YearLength(y)
  {
    var p := y - 1;
    assert (p + 1) / 4 - p / 4 == (if y % 4 == 0 then 1 else 0);
    assert (p + 1) / 100 - p / 100 == (if y % 100 == 0 then 1 else 0);
    assert (p + 1) / 400 - p / 400 == (if y % 400 == 0 then 1 else 0);
  }

  lemma {:induction false} DaysBeforeYearIncreasing(y: int, z: int)
    requires 1 <= y < z
    ensures DaysBeforeYear(y) + YearLength(y) <= DaysBeforeYear(z)
    decreases z - y
  {
    DaysBeforeYearStep(y);
    if y + 1 < z {
      DaysBeforeYearIncreasing(y + 1, z);
    }
  }

  /** The ordinal of a date lies within its own year's range of ordinals. */
  lemma OrdinalInYear(d: Date)
    requires Valid(d)
    ensures DaysBeforeYear(d.year) < Ordinal(d) <= DaysBeforeYear(d.year) + YearLength(d.year)
  {
  }

  /** Different valid dates have different ordinals, so a day difference of 0 means the same date. */
  lemma OrdinalInjective(a: Date, b: Date)
    requires Valid(a) && Valid(b) && Ordinal(a) == Ordinal(b)
    ensures a == b
  {
    if a.year < b.year {
      DaysBeforeYearIncreasing(a.year, b.year);
      assert false;
    } else if b.year < a.year {
      DaysBeforeYearIncreasing(b.year, a.year);
      assert false;
    }
    assert DayOfYear(a) == DayOfYear(b);
  }

  /** The day after a date is a valid date one ordinal later (except after 9999-12-31). */
  lemma OrdinalNextDay(d: Date)
    requires Valid(d) && !(d.year == 9999 && d.month == 12 && d.day == 31)
    ensures Valid(NextDay(d)) && Ordinal(NextDay(d)) == Ordinal(d) + 1
  {
    if d.day == DaysInMonth(d.year, d.month) && d.month == 12 {
      OrdinalNewYear(d.year);
    } else {
      var n := NextDay(d);
      assert n.year == d.year;
      DayOfYearNextDay(d);
      assert Ordinal(n) == DaysBeforeYear(d.year) + DayOfYear(n);
    }
  }

  /** New Year's Day is one ordinal after the last day of the year before. */
  lemma OrdinalNewYear(y: int)
    requires 1 <= y < 9999
    ensures Ordinal(Date(y + 1, 1, 1)) == Ordinal(Date(y, 12, 31)) + 1
  {
    assert DayOfYear(Date(y, 12, 31)) == YearLength(y);
    DaysBeforeYearStep(y);
  }

  /** Within one year, the day after a date is one day further into the year. */
  lemma DayOfYearNextDay(d: Date)
    requires Valid(d) && NextDay(d).year == d.year
    ensures Valid(NextDay(d)) && DayOfYear(NextDay(d)) == DayOfYear(d) + 1
  {
    if d.day == DaysInMonth(d.year, d.month) {
      assert d.month < 12;
      assert DaysBeforeMonth(d.year, d.month + 1) == DaysBeforeMonth(d.year, d.month) + DaysInMonth(d.year, d.month);
    }
  }

  /** A day difference of exactly 1 means the later date is the calendar day after the earlier one. */
  lemma DifferenceOfOne(a: Date, b: Date)
    requires Valid(a) && Valid(b)
    ensures Ordinal(b) - Ordinal(a) == 1 <==> b == NextDay(a)
  {
    if a.year == 9999 && a.month == 12 && a.day == 31 {
      OrdinalInYear(b);
      assert Ordinal(a) == DaysBeforeYear(9999) + 365;
      if b.year < 9999 {
        DaysBeforeYearIncreasing(b.year, 9999);
      }
    } else {
      OrdinalNextDay(a);
      if Ordinal(b) - Ordinal(a) == 1 {
        OrdinalInjective(b, NextDay(a));
      }
    }
  }
}
