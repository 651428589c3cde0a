/**
 * The proleptic Gregorian calendar that Python's `datetime` uses, over day numbers
 * counted from 1970-01-01 (the Unix epoch; negative before it).
 */
module Calendar {

  predicate IsLeapYear(y: int) {
    y % 4 == 0 && (y % 100 != 0 || y % 400 == 0)
  }

  function DaysInYear(y: int): nat {
    if IsLeapYear(y) then 366 else 365
  }

  function DaysInMonth(y: int, m: int): nat
    requires 1 <= m <= 12
  {
    if m == 2 then (if IsLeapYear(y) then 29 else 28)
    else if m == 4 || m == 6 || m == 9 || m == 11 then 30
    else 31
  }

  /** Days in months 1 .. m-1 of year y. */
  function DaysBeforeMonth(y: int, m: int): nat
    requires 1 <= m <= 13
  {
    if m == 1 then 0 else DaysBeforeMonth(y, m - 1) + DaysInMonth(y, m - 1)
  }

  /** The twelve months add up to the year. */
  lemma DaysBeforeMonthTotal(y: int)
    ensures DaysBeforeMonth(y, 13) == DaysInYear(y)
  {
    assert DaysBeforeMonth(y, 2) == 31;
    assert DaysBeforeMonth(y, 3) == 31 + DaysInMonth(y, 2);
    assert DaysBeforeMonth(y, 4) == 62 + DaysInMonth(y, 2);
    assert DaysBeforeMonth(y, 5) == 92 + DaysInMonth(y, 2);
    assert DaysBeforeMonth(y, 6) == 123 + DaysInMonth(y, 2);
    assert DaysBeforeMonth(y, 7) == 153 + DaysInMonth(y, 2);
    assert DaysBeforeMonth(y, 8) == 184 + DaysInMonth(y, 2);
    assert DaysBeforeMonth(y, 9) == 215 + DaysInMonth(y, 2);
    assert DaysBeforeMonth(y, 10) == 245 + DaysInMonth(y, 2);
    assert DaysBeforeMonth(y, 11) == 276 + DaysInMonth(y, 2);
    assert DaysBeforeMonth(y, 12) == 306 + DaysInMonth(y, 2);
  }

  /** Day number of January 1 of year y. */
  function DaysBeforeYear(y: int): int
    decreases if y < 1970 then 1970 - y else y - 1970
  {
    if y == 1970 then 0
    else if y > 1970 then DaysBeforeYear(y - 1) + DaysInYear(y - 1)
    else DaysBeforeYear(y + 1) - DaysInYear(y)
  }

  /** Consecutive New Year's days are one year length apart, on either side of 1970. */
  lemma DaysBeforeYearStep(y: int)
    ensures DaysBeforeYear(y + 1) == DaysBeforeYear(y) + DaysInYear(y)
  {
  }

  /** A calendar date. */
  datatype Date = Date(year: int, month: int, day: int)

  predicate ValidDate(dt: Date) {
    1 <= dt.month <= 12 && 1 <= dt.day <= DaysInMonth(dt.year, dt.month)
  }

  /** Day number of a date. */
  function DaysFromCivil(dt: Date): int
    requires 1 <= dt.month <= 12
  {
    DaysBeforeYear(dt.year) + DaysBeforeMonth(dt.year, dt.month) + dt.day - 1
  }

  /** The year holding the day `rem` (>= 0) days after January 1 of `y`, and the day's offset in it. */
  function YearForward(y: int, rem: nat): (r: (int, nat))
    ensures r.1 < DaysInYear(r.0)
    ensures DaysBeforeYear(r.0) + r.1 == DaysBeforeYear(y) + rem
    decreases rem
  {
    if rem < DaysInYear(y) then (y, rem)
    else
      DaysBeforeYearStep(y);
      YearForward(y + 1, rem - DaysInYear(y))
  }

  /** The year holding the day `rem` (< 0) days after January 1 of `y`, and the day's offset in it. */
  function YearBackward(y: int, rem: int): (r: (int, nat))
    requires rem < 0
    ensures r.1 < DaysInYear(r.0)
    ensures DaysBeforeYear(r.0) + r.1 == DaysBeforeYear(y) + rem
    decreases -rem
  {
    DaysBeforeYearStep(y - 1);
    var back := rem + DaysInYear(y - 1);
    if back >= 0 then (y - 1, back) else YearBackward(y - 1, back)
  }

  /** Month and day of month for the day `rem` days after the first of month `m` in year `y`. */
  function MonthForward(y: int, m: int, rem: nat): (r: (int, int))
    requires 1 <= m <= 12
    requires DaysBeforeMonth(y, m) + rem < DaysBeforeMonth(y, 13)
    ensures m <= r.0 <= 12 && 1 <= r.1 <= DaysInMonth(y, r.0)
    ensures DaysBeforeMonth(y, r.0) + r.1 - 1 == DaysBeforeMonth(y, m) + rem
    decreases 12 - m
  {
    if rem < DaysInMonth(y, m) then (m, rem + 1)
    else
      MonthForward(y, m + 1, rem - DaysInMonth(y, m))
  }

  /** The date of day number `z`: a valid date whose day number is `z` again. */
  function CivilFromDays(z: int): (dt: Date)
    ensures ValidDate(dt)
    ensures DaysFromCivil(dt) == z
  {
    var yd := if z >= 0 then YearForward(1970, z) else YearBackward(1970, z);
    DaysBeforeMonthTotal(yd.0);
    var md := MonthForward(yd.0, 1, yd.1);
    Date(yd.0, md.0, md.1)
  }

  // ---------------------------------------------------------------- year range

  /** Leap years among 1 .. y-1 (negative below year 1), in the closed form Python's `_days_before_year` uses. */
  function LeapsBefore(y: int): int {
    (y - 1) / 4 - (y - 1) / 100 + (y - 1) / 400
  }

  /** Counting multiples of 4, 100 and 400 up to y picks up y exactly when it is one. */
  lemma MultiplesStep(y: int)
    ensures y / 4 == (y - 1) / 4 + (if y % 4 == 0 then 1 else 0)
    ensures y / 100 == (y - 1) / 100 + (if y % 100 == 0 then 1 else 0)
    ensures y / 400 == (y - 1) / 400 + (if y % 400 == 0 then 1 else 0)
    ensures y % 400 == 0 ==> y % 100 == 0
    ensures y % 100 == 0 ==> y % 4 == 0
  {
  }

  /** Moving one year on adds one leap year exactly when the year left behind is a leap year. */
  lemma LeapsStep(y: int)
    ensures LeapsBefore(y + 1) == LeapsBefore(y) + (if IsLeapYear(y) then 1 else 0)
  {
    MultiplesStep(y);
  }

  /** New Year's day number in closed form: 365 days a year plus the leap days in between. */
  lemma {:induction false} DaysBeforeYearClosed(y: int)
    ensures DaysBeforeYear(y) == 365 * (y - 1970) + LeapsBefore(y) - LeapsBefore(1970)
    decreases if y < 1970 then 1970 - y else y - 1970
  {
    if y > 1970 {
      DaysBeforeYearClosed(y - 1);
      LeapsStep(y - 1);
    } else if y < 1970 {
      DaysBeforeYearClosed(y + 1);
      LeapsStep(y);
    }
  }

  /** Later years start later. */
  lemma {:induction false} DaysBeforeYearMonotone(a: int, b: int)
    requires a <= b
    ensures DaysBeforeYear(a) <= DaysBeforeYear(b)
    decreases b - a
  {
    if a < b {
      DaysBeforeYearMonotone(a, b - 1);
      DaysBeforeYearStep(b - 1);
    }
  }

  /** The months before m never reach past the end of the year. */
  lemma {:induction false} DaysBeforeMonthBound(y: int, m: int)
    requires 1 <= m <= 12
    ensures DaysBeforeMonth(y, m) + DaysInMonth(y, m) <= DaysInYear(y)
    decreases 12 - m
  {
    if m == 12 {
      DaysBeforeMonthTotal(y);
    } else {
      DaysBeforeMonthBound(y, m + 1);
    }
  }

  /** Day `z` falls inside the year `CivilFromDays` gives it. */
  lemma DayInItsYear(z: int)
    ensures DaysBeforeYear(CivilFromDays(z).year) <= z < DaysBeforeYear(CivilFromDays(z).year + 1)
  {
    var dt := CivilFromDays(z);
    DaysBeforeMonthBound(dt.year, dt.month);
    DaysBeforeYearStep(dt.year);
  }

  /** Day -719162 is 0001-01-01, the first day `datetime` can represent. */
  lemma FirstYearStart()
    ensures DaysBeforeYear(1) == -719162
  {
    DaysBeforeYearClosed(1);
    DaysBeforeYearClosed(1970);
  }

  /** Day 2932897 is 10000-01-01, the day after the last one `datetime` can represent. */
  lemma PastLastYearStart()
    ensures DaysBeforeYear(10000) == 2932897
  {
    DaysBeforeYearClosed(10000);
  }

  /** Day z lies in year `bound` or later exactly when it is not before that year's first day. */
  lemma YearAtLeast(z: int, bound: int)
    ensures bound <= CivilFromDays(z).year <==> DaysBeforeYear(bound) <= z
  {
    var y := CivilFromDays(z).year;
    DayInItsYear(z);
    if bound <= y {
      DaysBeforeYearMonotone(bound, y);
    } else {
      DaysBeforeYearMonotone(y + 1, bound);
    }
  }

  /** The day numbers `datetime` can represent: 0001-01-01 is day -719162, 9999-12-31 day 2932896. */
  lemma DatetimeYearRange(z: int)
    ensures 1 <= CivilFromDays(z).year <==> -719162 <= z
    ensures CivilFromDays(z).year <= 9999 <==> z <= 2932896
  {
    YearAtLeast(z, 1);
    FirstYearStart();
    YearAtLeast(z, 10000);
    PastLastYearStart();
  }
}
