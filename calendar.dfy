/**
 * Proleptic-Gregorian calendar dates and their day numbers.
 *
 * A date is the triple (year, month, day); a valid date has month 1..12 and
 * a day within the month, February having 29 days in leap years only.  The
 * day number is the ordinal Python's `date.toordinal` uses: 0001-01-01 is
 * day 1.  Adding days to a date and subtracting two dates are stated through
 * it.
 */
module Calendar {

  datatype Date = Date(year: int, month: int, day: int)

  /** The first and last year Python's `datetime` can represent. */
  const MinYear := 1
  const MaxYear := 9999

  predicate IsLeapYear(y: int) {
    y % 4 == 0 && (y % 100 != 0 || y % 400 == 0)
  }

  function DaysInMonth(y: int, m: int): (n: int)
    requires 1 <= m <= 12
    ensures 28 <= n <= 31
    ensures n == 29 <==> m == 2 && IsLeapYear(y)
  {
    if m == 2 then (if IsLeapYear(y) then 29 else 28)
    else if m == 4 || m == 6 || m == 9 || m == 11 then 30
    else 31
  }

  function DaysInYear(y: int): int {
    if IsLeapYear(y) then 366 else 365
  }

  /** A calendar date of year 1 or later. */
  predicate IsValid(d: Date) {
    d.year >= MinYear && 1 <= d.month <= 12 && 1 <= d.day <= DaysInMonth(d.year, d.month)
  }

  /** A calendar date that Python's `datetime` can represent. */
  predicate InDatetimeRange(d: Date) {
    IsValid(d) && d.year <= MaxYear
  }

  /** Days in the years before year `y`. */
  function DaysBeforeYear(y: int): int
    requires y >= MinYear
  {
    var p := y - 1;
    p * 365 + p / 4 - p / 100 + p / 400
  }

  /** Days in year `y` before the first of month `m`. */
  function DaysBeforeMonth(y: int, m: int): int
    requires 1 <= m <= 12
  {
    var cumulative := [0, 31, 59, 90, 120, 151, 181, 212, 243, 273, 304, 334];
    cumulative[m - 1] + (if m > 2 && IsLeapYear(y) then 1 else 0)
  }

  /**
   * The ordinal of a date, as `date.toordinal`: 0001-01-01 is day 1, and the
   * days of a year follow the days of all the years before it.
   */
  function DayNumber(d: Date): (n: int)
    requires IsValid(d)
    ensures DaysBeforeYear(d.year) < n <= DaysBeforeYear(d.year) + DaysInYear(d.year)
    ensures d == Date(MinYear, 1, 1) ==> n == 1
  {
    DayOfYearBound(d);
    DaysBeforeYear(d.year) + DaysBeforeMonth(d.year, d.month) + d.day
  }

  /** The ordinal of 9999-12-31, the last day `datetime` can represent. */
  const MaxDayNumber := 3652059

  lemma MaxDayNumberIsLastDay()
    ensures InDatetimeRange(Date(MaxYear, 12, 31))
    ensures DayNumber(Date(MaxYear, 12, 31)) == MaxDayNumber
  {
  }

  /** Strict chronological order of two dates. */
  predicate Before(a: Date, b: Date) {
    || a.year < b.year
    || (a.year == b.year && a.month < b.month)
    || (a.year == b.year && a.month == b.month && a.day < b.day)
  }

  /** `p / 4` moves up by one exactly when `p + 1` is a multiple of 4; likewise for 100 and 400. */
  lemma QuotientStep4(p: int)
    requires p >= 0
    ensures (p + 1) / 4 == p / 4 + (if (p + 1) % 4 == 0 then 1 else 0)
  {
    var q, r := p / 4, p % 4;
    if r == 3 {
      assert p + 1 == 4 * (q + 1);
    } else {
      assert p + 1 == 4 * q + (r + 1);
    }
  }

  lemma QuotientStep100(p: int)
    requires p >= 0
    ensures (p + 1) / 100 == p / 100 + (if (p + 1) % 100 == 0 then 1 else 0)
  {
    var q, r := p / 100, p % 100;
    if r == 99 {
      assert p + 1 == 100 * (q + 1);
    } else {
      assert p + 1 == 100 * q + (r + 1);
    }
  }

  lemma QuotientStep400(p: int)
    requires p >= 0
    ensures (p + 1) / 400 == p / 400 + (if (p + 1) % 400 == 0 then 1 else 0)
  {
    var q, r := p / 400, p % 400;
    if r == 399 {
      assert p + 1 == 400 * (q + 1);
    } else {
      assert p + 1 == 400 * q + (r + 1);
    }
  }

  /** The leap-year rule written as three divisibility indicators. */
  lemma DaysInYearByDivisibility(y: int)
    ensures DaysInYear(y) == 365 + (if y % 4 == 0 then 1 else 0)
                              - (if y % 100 == 0 then 1 else 0) + (if y % 400 == 0 then 1 else 0)
  {
    if y % 100 == 0 {
      var k := y / 100;
      assert y == 4 * (25 * k);
    }
    if y % 400 == 0 {
      var k := y / 400;
      assert y == 100 * (4 * k);
    }
  }

  /** Stepping `y` by one adds the length of year `y`: the leap-year rule is the quotient steps. */
  lemma DaysBeforeYearStep(y: int)
    requires y >= MinYear
    ensures DaysBeforeYear(y + 1) == DaysBeforeYear(y) + DaysInYear(y)
  {
    var p := y - 1;
    assert DaysBeforeYear(y + 1) - DaysBeforeYear(y) == 365 + ((p + 1) / 4 - p / 4)
                                  - ((p + 1) / 100 - p / 100) + ((p + 1) / 400 - p / 400);
    QuotientStep4(p);
    QuotientStep100(p);
    QuotientStep400(p);
    DaysInYearByDivisibility(y);
  }

  lemma {:induction false} DaysBeforeYearIncreasing(y: int, z: int)
    requires MinYear <= y < z
    ensures DaysBeforeYear(y) + DaysInYear(y) <= DaysBeforeYear(z)
    decreases z - y
  {
    DaysBeforeYearStep(y);
    if y + 1 < z {
      DaysBeforeYearIncreasing(y + 1, z);
    }
  }

  lemma DaysBeforeMonthStep(y: int, m: int)
    requires 1 <= m < 12
    ensures DaysBeforeMonth(y, m + 1) == DaysBeforeMonth(y, m) + DaysInMonth(y, m)
  {
  }

  lemma {:induction false} DaysBeforeMonthIncreasing(y: int, m: int, n: int)
    requires 1 <= m < n <= 12
    ensures DaysBeforeMonth(y, m) + DaysInMonth(y, m) <= DaysBeforeMonth(y, n)
    decreases n - m
  {
    DaysBeforeMonthStep(y, m);
    if m + 1 < n {
      DaysBeforeMonthIncreasing(y, m + 1, n);
    }
  }

  /** A date's offset within its year never reaches past the year's length. */
  lemma DayOfYearBound(d: Date)
    requires IsValid(d)
    ensures DaysBeforeMonth(d.year, d.month) + d.day <= DaysInYear(d.year)
  {
    if d.month < 12 {
      DaysBeforeMonthIncreasing(d.year, d.month, 12);
    }
  }

  /** Day numbers follow the calendar: an earlier date has a smaller day number. */
  lemma DayNumberIncreasing(a: Date, b: Date)
    requires IsValid(a) && IsValid(b) && Before(a, b)
    ensures DayNumber(a) < DayNumber(b)
  {
    if a.year < b.year {
      DayOfYearBound(a);
      DaysBeforeYearIncreasing(a.year, b.year);
    } else if a.month < b.month {
      DaysBeforeMonthIncreasing(a.year, a.month, b.month);
    }
  }

  /** Two valid dates with the same day number are the same date. */
  lemma DayNumberInjective(a: Date, b: Date)
    requires IsValid(a) && IsValid(b)
    requires DayNumber(a) == DayNumber(b)
    ensures a == b
  {
    if Before(a, b) {
      DayNumberIncreasing(a, b);
    } else if Before(b, a) {
      DayNumberIncreasing(b, a);
    }
  }

  /** The calendar day after `d`. */
  function NextDay(d: Date): (r: Date)
    requires IsValid(d)
    ensures IsValid(r)
    ensures DayNumber(r) == DayNumber(d) + 1
  {
    if d.day < DaysInMonth(d.year, d.month) then
      Date(d.year, d.month, d.day + 1)
    else if d.month < 12 then
      DaysBeforeMonthStep(d.year, d.month);
      Date(d.year, d.month + 1, 1)
    else
      DaysBeforeYearStep(d.year);
      Date(d.year + 1, 1, 1)
  }

  /** The date `n` days after `d`, as `d + timedelta(days=n)` computes it. */
  function AddDays(d: Date, n: nat): (r: Date)
    requires IsValid(d)
    ensures IsValid(r)
    ensures DayNumber(r) == DayNumber(d) + n
    decreases n
  {
    if n == 0 then d else AddDays(NextDay(d), n - 1)
  }

  /** A date whose day number is at most that of 9999-12-31 is in `datetime`'s range. */
  lemma InRangeByDayNumber(d: Date)
    requires IsValid(d)
    ensures InDatetimeRange(d) <==> DayNumber(d) <= MaxDayNumber
  {
    var last := Date(MaxYear, 12, 31);
    MaxDayNumberIsLastDay();
    if d.year > MaxYear {
      DayNumberIncreasing(last, d);
    } else if d != last {
      DayNumberIncreasing(d, last);
    }
  }
}
