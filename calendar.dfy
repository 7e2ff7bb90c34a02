/**
 * `DateTime` in whole seconds: an instant counts seconds from 0001-01-01
 * 00:00, a day number counts days from 0001-01-01 (a Monday). The proleptic
 * Gregorian calendar converts day numbers to and from (year, month, day),
 * and `ToString("yyyy-MM-dd")` writes a date in fixed width.
 */
module Calendar {
  import opened Wrappers
  import opened Text

  const SecondsPerDay: int := 86400
  const SecondsPerHour: int := 3600
  const SecondsPerMinute: int := 60

  /** The day number of 9999-12-31, the last day `DateTime` can hold. */
  const MaxDay: int := 3652058

  /** The last second of 9999-12-31. */
  const MaxInstant: int := (MaxDay + 1) * SecondsPerDay - 1

  /** A `DateTime` to the second. */
  type Instant = t: int | 0 <= t <= MaxInstant

  /** A `DateTime.Date`: a day number. */
  type Day = n: int | 0 <= n <= MaxDay

  /** `t.Date`, as a day number. */
  function DayOf(t: Instant): (d: Day)
    ensures d * SecondsPerDay <= t < (d + 1) * SecondsPerDay
  {
    t / SecondsPerDay
  }

  /** `t.TimeOfDay`, in seconds. */
  function TimeOfDay(t: Instant): (s: int)
    ensures 0 <= s < SecondsPerDay
    ensures t == DayOf(t) * SecondsPerDay + s
  {
    t % SecondsPerDay
  }

  /** Midnight at the start of day `d`. */
  function Midnight(d: Day): (t: Instant)
    ensures DayOf(t) == d && TimeOfDay(t) == 0
  {
    d * SecondsPerDay
  }

  /** `date.AddDays(n)` on a day: nothing when the result would leave 0001-01-01..9999-12-31, where .NET throws. */
  function AddDays(d: Day, n: int): (r: Option<Day>)
    ensures r.Some? <==> 0 <= d + n <= MaxDay
    ensures r.Some? ==> r.value == d + n
  {
    if 0 <= d + n <= MaxDay then Some(d + n) else None
  }

  /** The instants of day `d` are exactly those in `[Midnight(d), Midnight(d) + 1 day)`. */
  lemma SameDayIffInWindow(t: Instant, d: Day)
    ensures DayOf(t) == d <==> Midnight(d) <= t < Midnight(d) + SecondsPerDay
  {
  }

  // ----- the Gregorian calendar -----

  datatype Date = Date(year: int, month: int, day: int)

  predicate IsLeapYear(y: int)
  {
    y % 4 == 0 && (y % 100 != 0 || y % 400 == 0)
  }

  /** `DateTime.DaysInMonth`. */
  function DaysInMonth(y: int, m: int): (n: int)
    requires 1 <= m <= 12
    ensures 28 <= n <= 31
  {
    if m == 2 then (if IsLeapYear(y) then 29 else 28)
    else if m == 4 || m == 6 || m == 9 || m == 11 then 30
    else 31
  }

  function DaysInYear(y: int): int
  {
    if IsLeapYear(y) then 366 else 365
  }

  predicate ValidDate(d: Date)
  {
    1 <= d.year <= 9999 && 1 <= d.month <= 12 && 1 <= d.day <= DaysInMonth(d.year, d.month)
  }

  /** Days from 0001-01-01 to the first day of year `y`. */
  function DaysBeforeYear(y: int): int
    requires y >= 1
  {
    var p := y - 1;
    p * 365 + p / 4 - p / 100 + p / 400
  }

  /** Days from the first of the year to the first of month `m` (13 stands for the next year). */
  function DaysBeforeMonth(y: int, m: int): int
    requires 1 <= m <= 13
  {
    var common := [0, 31, 59, 90, 120, 151, 181, 212, 243, 273, 304, 334, 365][m - 1];
    if IsLeapYear(y) && m > 2 then common + 1 else common
  }

  /** Division by a leap-rule period steps up by one exactly at its multiples. */
  lemma DivStep(y: int)
    requires y >= 1
    ensures y / 4 - (y - 1) / 4 == if y % 4 == 0 then 1 else 0
    ensures y / 100 - (y - 1) / 100 == if y % 100 == 0 then 1 else 0
    ensures y / 400 - (y - 1) / 400 == if y % 400 == 0 then 1 else 0
  {
  }

  lemma CenturyDivisibleByFour(y: int)
    requires y % 100 == 0
    ensures y % 4 == 0
  {
    var k := y / 100;
    assert y == 4 * (25 * k);
  }

  lemma QuadCenturyDivisibleByHundred(y: int)
    requires y % 400 == 0
    ensures y % 100 == 0
  {
    var k := y / 400;
    assert y == 100 * (4 * k);
  }

  /** A year is leap by the 4-year rule, less the 100-year rule, plus the 400-year rule. */
  lemma LeapCount(y: int)
    ensures (if IsLeapYear(y) then 1 else 0)
         == (if y % 4 == 0 then 1 else 0) - (if y % 100 == 0 then 1 else 0) + (if y % 400 == 0 then 1 else 0)
  {
    if y % 100 == 0 {
      CenturyDivisibleByFour(y);
    }
    if y % 400 == 0 {
      QuadCenturyDivisibleByHundred(y);
    }
  }

  /** Consecutive years are one year-length apart. */
  lemma DaysBeforeNextYear(y: int)
    requires y >= 1
    ensures DaysBeforeYear(y + 1) == DaysBeforeYear(y) + DaysInYear(y)
  {
    DivStep(y);
    LeapCount(y);
    var p := y - 1;
    assert DaysBeforeYear(y + 1) == y * 365 + y / 4 - y / 100 + y / 400;
    assert DaysBeforeYear(y) == p * 365 + p / 4 - p / 100 + p / 400;
  }

  lemma DaysBeforeNextMonth(y: int, m: int)
    requires 1 <= m <= 12
    ensures DaysBeforeMonth(y, m + 1) == DaysBeforeMonth(y, m) + DaysInMonth(y, m)
  {
  }

  lemma DaysBeforeMonthBounds(y: int, m: int)
    requires 1 <= m <= 12
    ensures 0 <= DaysBeforeMonth(y, m) < DaysBeforeMonth(y, 13) == DaysInYear(y)
  {
  }

  lemma {:induction false} DaysBeforeYearMonotone(a: int, b: int)
    requires 1 <= a <= b
    ensures DaysBeforeYear(a) <= DaysBeforeYear(b)
    ensures a < b ==> DaysBeforeYear(a + 1) <= DaysBeforeYear(b)
    decreases b - a
  {
    if a < b {
      DaysBeforeNextYear(a);
      DaysBeforeYearMonotone(a + 1, b);
    }
  }

  /** 9999-12-31 is the last day. */
  lemma CalendarEnd()
    ensures DaysBeforeYear(10000) == MaxDay + 1
  {
  }

  lemma DaysBeforeYearNonNegative(y: int)
    requires y >= 1
    ensures DaysBeforeYear(y) >= 0
  {
    var p := y - 1;
    assert p / 4 - p / 100 >= 0;
  }

  /** Every valid date lies between 0001-01-01 and 9999-12-31. */
  lemma DayNumberInRange(d: Date)
    requires ValidDate(d)
    ensures 0 <= DaysBeforeYear(d.year) + DaysBeforeMonth(d.year, d.month) + d.day - 1 <= MaxDay
  {
    DaysBeforeNextMonth(d.year, d.month);
    DaysBeforeMonthBounds(d.year, d.month);
    DaysBeforeNextYear(d.year);
    DaysBeforeYearMonotone(d.year + 1, 10000);
    DaysBeforeYearNonNegative(d.year);
    CalendarEnd();
  }

  /** The day number of a valid date (`new DateTime(y, m, d)`). */
  function DayNumber(d: Date): (n: Day)
    requires ValidDate(d)
  {
    DayNumberInRange(d);
    DaysBeforeYear(d.year) + DaysBeforeMonth(d.year, d.month) + d.day - 1
  }

  /** The year holding day `n`, searching upward from year `y`. */
  function YearFrom(n: int, y: int): (r: int)
    requires 1 <= y && DaysBeforeYear(y) <= n
    ensures y <= r && DaysBeforeYear(r) <= n < DaysBeforeYear(r + 1)
    decreases n - DaysBeforeYear(y)
  {
    DaysBeforeNextYear(y);
    if n < DaysBeforeYear(y + 1) then y else YearFrom(n, y + 1)
  }

  /** The month holding day `r` of year `y`, searching upward from month `m`. */
  function MonthFrom(y: int, r: int, m: int): (k: int)
    requires 1 <= m <= 12 && DaysBeforeMonth(y, m) <= r < DaysInYear(y)
    ensures m <= k <= 12 && DaysBeforeMonth(y, k) <= r < DaysBeforeMonth(y, k + 1)
    decreases 12 - m
  {
    if r < DaysBeforeMonth(y, m + 1) then m else MonthFrom(y, r, m + 1)
  }

  /** The date of day number `n` (`DateTime.Year`, `.Month` and `.Day`). */
  function DateOf(n: Day): (d: Date)
    ensures ValidDate(d) && DayNumber(d) == n
  {
    var y := YearFrom(n, 1);
    DaysBeforeNextYear(y);
    assert y < 10000 by {
      if y >= 10000 {
        DaysBeforeYearMonotone(10000, y);
      }
    }
    var r := n - DaysBeforeYear(y);
    var m := MonthFrom(y, r, 1);
    DaysBeforeNextMonth(y, m);
    Date(y, m, r - DaysBeforeMonth(y, m) + 1)
  }

  /** A date in an earlier year, or an earlier month of the same year, has a smaller day number. */
  lemma DayNumberOrdered(lo: Date, hi: Date)
    requires ValidDate(lo) && ValidDate(hi)
    requires lo.year < hi.year || (lo.year == hi.year && lo.month < hi.month)
    ensures DayNumber(lo) < DayNumber(hi)
  {
    DaysBeforeNextMonth(lo.year, lo.month);
    if lo.year < hi.year {
      DaysBeforeMonthBounds(lo.year, lo.month);
      DaysBeforeNextYear(lo.year);
      DaysBeforeYearMonotone(lo.year, hi.year);
      DaysBeforeMonthBounds(hi.year, hi.month);
    } else {
      MonthsMonotone(lo.year, lo.month + 1, hi.month);
    }
  }

  /** Distinct valid dates have distinct day numbers. */
  lemma DayNumberInjective(a: Date, b: Date)
    requires ValidDate(a) && ValidDate(b) && DayNumber(a) == DayNumber(b)
    ensures a == b
  {
    if a.year < b.year || (a.year == b.year && a.month < b.month) {
      DayNumberOrdered(a, b);
    } else if b.year < a.year || (a.year == b.year && b.month < a.month) {
      DayNumberOrdered(b, a);
    }
  }

  lemma {:induction false} MonthsMonotone(y: int, a: int, b: int)
    requires 1 <= a <= b <= 13
    ensures DaysBeforeMonth(y, a) <= DaysBeforeMonth(y, b)
    decreases b - a
  {
    if a < b {
      DaysBeforeNextMonth(y, a);
      MonthsMonotone(y, a + 1, b);
    }
  }

  /** Converting a valid date to its day number and back gives the date. */
  lemma DateRoundTrip(d: Date)
    requires ValidDate(d)
    ensures DateOf(DayNumber(d)) == d
  {
    DayNumberInjective(DateOf(DayNumber(d)), d);
  }

  /** `DayOfWeek`: 0 is Sunday, 6 is Saturday; day 0 (0001-01-01) is a Monday. */
  function DayOfWeek(n: Day): (w: int)
    ensures 0 <= w < 7
  {
    (n + 1) % 7
  }

  /** The next day is the next weekday, wrapping from Saturday to Sunday. */
  lemma DayOfWeekNext(n: Day)
    requires n < MaxDay
    ensures DayOfWeek(n + 1) == (DayOfWeek(n) + 1) % 7
  {
  }

  // ----- "yyyy-MM-dd" -----

  /** `ToString("yyyy-MM-dd")` of a valid date. */
  function DateString(d: Date): (s: string)
    requires ValidDate(d)
    ensures |s| == 10 && s[4] == '-' && s[7] == '-'
  {
    ZeroPad(d.year, 4) + "-" + ZeroPad(d.month, 2) + "-" + ZeroPad(d.day, 2)
  }

  /** The formatted date of a day number. */
  function DayString(n: Day): (s: string)
    ensures |s| == 10
  {
    DateString(DateOf(n))
  }

  /** Each field of a written date can be cut back out of it. */
  lemma DateStringFields(d: Date)
    requires ValidDate(d)
    ensures DateString(d)[..4] == ZeroPad(d.year, 4)
    ensures DateString(d)[5..7] == ZeroPad(d.month, 2)
    ensures DateString(d)[8..] == ZeroPad(d.day, 2)
  {
  }

  /** Different valid dates are written differently: the fixed-width fields read back. */
  lemma DateStringInjective(a: Date, b: Date)
    requires ValidDate(a) && ValidDate(b) && DateString(a) == DateString(b)
    ensures a == b
  {
    DateStringFields(a);
    DateStringFields(b);
    ZeroPadRoundTrip(a.year, 4);
    ZeroPadRoundTrip(b.year, 4);
    ZeroPadRoundTrip(a.month, 2);
    ZeroPadRoundTrip(b.month, 2);
    ZeroPadRoundTrip(a.day, 2);
    ZeroPadRoundTrip(b.day, 2);
  }

  /** Different days are written differently. */
  lemma DayStringInjective(m: Day, n: Day)
    requires DayString(m) == DayString(n)
    ensures m == n
  {
    DateStringInjective(DateOf(m), DateOf(n));
  }
}
