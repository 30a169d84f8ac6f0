/**
 * The part of Python's `datetime.date` the engine relies on: proleptic Gregorian
 * dates between years 1 and 9999, their day ordinal (`date.toordinal()`), the
 * weekday (Monday = 0 ... Sunday = 6), chronological comparison, and
 * `date.replace(year=...)`, which raises ValueError when the result does not exist.
 */
module Dates {
  import opened Wrappers

  const MinYear := 1
  const MaxYear := 9999

  datatype Date = Date(year: int, month: int, day: int)

  /** The reason `date.replace` raises ValueError. */
  datatype DateError = YearOutOfRange | DayOutOfRange

  predicate IsLeapYear(y: int) {
    y % 4 == 0 && (y % 100 != 0 || y % 400 == 0)
  }

  function DaysInMonth(y: int, m: int): (r: int)
    requires 1 <= m <= 12
    ensures 28 <= r <= 31
    ensures m == 2 ==> (r == 29 <==> IsLeapYear(y))
  {
    if m == 2 then (if IsLeapYear(y) then 29 else 28)
    else if m == 4 || m == 6 || m == 9 || m == 11 then 30
    else 31
  }

  function DaysInYear(y: int): int {
    if IsLeapYear(y) then 366 else 365
  }

  predicate ValidDate(d: Date) {
    MinYear <= d.year <= MaxYear && 1 <= d.month <= 12 && 1 <= d.day <= DaysInMonth(d.year, d.month)
  }

  /** A date Python can represent. */
  type CalendarDate = d: Date | ValidDate(d) witness Date(1970, 1, 1)

  /** Python's date comparison `a < b`: lexicographic on (year, month, day). */
  predicate Before(a: Date, b: Date) {
    a.year < b.year || (a.year == b.year && (a.month < b.month || (a.month == b.month && a.day < b.day)))
  }

  /** Days in the years before year `y`. */
  function DaysBeforeYear(y: int): int {
    var p := y - 1;
    365 * p + p / 4 - p / 100 + p / 400
  }

  /** Days in the months of year `y` before month `m`. */
  function DaysBeforeMonth(y: int, m: int): int
    requires 1 <= m <= 12
  {
    var cumulative := [0, 31, 59, 90, 120, 151, 181, 212, 243, 273, 304, 334];
    cumulative[m - 1] + (if m > 2 && IsLeapYear(y) then 1 else 0)
  }

  /** `date.toordinal()`: 0001-01-01 is day 1. */
  function Ordinal(d: CalendarDate): (r: int)
    ensures r >= 1
    ensures d.year == MinYear && d.month == 1 ==> r == d.day
  {
    DaysBeforeYear(d.year) + DaysBeforeMonth(d.year, d.month) + d.day
  }

  /** `date.weekday()` of the date with ordinal `ord`: Monday is 0, Saturday 5, Sunday 6. */
  function Weekday(ord: int): (r: int)
    ensures 0 <= r < 7
    ensures r == 0 <==> (ord - 1) % 7 == 0
  {
    (ord + 6) % 7
  }

  /** `d.replace(year=y)`. */
  function ReplaceYear(d: CalendarDate, y: int): (r: Result<CalendarDate, DateError>)
    ensures r.Ok? ==> r.value == Date(y, d.month, d.day)
    ensures r == Err(YearOutOfRange) <==> y < MinYear || y > MaxYear
    ensures r == Err(DayOutOfRange) <==>
              MinYear <= y <= MaxYear && d.month == 2 && d.day == 29 && !IsLeapYear(y)
  {
    if y < MinYear || y > MaxYear then Err(YearOutOfRange)
    else if d.day > DaysInMonth(y, d.month) then Err(DayOutOfRange)
    else Ok(Date(y, d.month, d.day))
  }

  lemma {:induction false} DivStep(x: int, k: int)
    requires k == 4 || k == 100 || k == 400
    ensures (x + 1) / k - x / k == if (x + 1) % k == 0 then 1 else 0
  {
  }

  lemma {:induction false} DaysBeforeYearStep(y: int)
    ensures DaysBeforeYear(y + 1) == DaysBeforeYear(y) + DaysInYear(y)
  {
    var p := y - 1;
    DivStep(p, 4);
    DivStep(p, 100);
    DivStep(p, 400);
    assert (p + 1) / 4 - p / 4 == if y % 4 == 0 then 1 else 0;
    assert (p + 1) / 100 - p / 100 == if y % 100 == 0 then 1 else 0;
    assert (p + 1) / 400 - p / 400 == if y % 400 == 0 then 1 else 0;
    if y % 400 == 0 {
      assert y % 100 == 0 && y % 4 == 0;
    } else if y % 100 == 0 {
      assert y % 4 == 0;
    }
  }

  /** A whole year lies between the start of year `y1` and that of any later year. */
  lemma {:induction false} DaysBeforeYearGrows(y1: int, y2: int)
    requires y1 < y2
    ensures DaysBeforeYear(y1) + DaysInYear(y1) <= DaysBeforeYear(y2)
    decreases y2 - y1
  {
    DaysBeforeYearStep(y1);
    if y1 + 1 < y2 {
      DaysBeforeYearGrows(y1 + 1, y2);
    }
  }

  lemma DayOfYearBounds(d: CalendarDate)
    ensures 1 <= DaysBeforeMonth(d.year, d.month) + d.day <= DaysInYear(d.year)
  {
  }

  lemma MonthsAreOrdered(y: int, m1: int, m2: int)
    requires 1 <= m1 < m2 <= 12
    ensures DaysBeforeMonth(y, m1) + DaysInMonth(y, m1) <= DaysBeforeMonth(y, m2)
  {
  }

  /** The ordinal is strictly increasing in chronological order. */
  lemma OrdinalMonotone(a: CalendarDate, b: CalendarDate)
    requires Before(a, b)
    ensures Ordinal(a) < Ordinal(b)
  {
    if a.year < b.year {
      DayOfYearBounds(a);
      DayOfYearBounds(b);
      DaysBeforeYearGrows(a.year, b.year);
    } else if a.month < b.month {
      MonthsAreOrdered(a.year, a.month, b.month);
    }
  }

  /** Two dates are equal exactly when their ordinals are, and are ordered as their ordinals are. */
  lemma OrdinalOrder(a: CalendarDate, b: CalendarDate)
    ensures Before(a, b) <==> Ordinal(a) < Ordinal(b)
    ensures a == b <==> Ordinal(a) == Ordinal(b)
  {
    if Before(a, b) {
      OrdinalMonotone(a, b);
    } else if Before(b, a) {
      OrdinalMonotone(b, a);
    } else {
      assert a == b;
    }
  }

  /** The calendar day after `d` (`d + timedelta(days=1)`); None after 9999-12-31. */
  function NextDay(d: CalendarDate): Option<CalendarDate> {
    if d.day < DaysInMonth(d.year, d.month) then Some(Date(d.year, d.month, d.day + 1))
    else if d.month < 12 then Some(Date(d.year, d.month + 1, 1))
    else if d.year < MaxYear then Some(Date(d.year + 1, 1, 1))
    else None
  }

  lemma OrdinalNextInMonth(d: CalendarDate)
    requires d.day < DaysInMonth(d.year, d.month)
    ensures Ordinal(Date(d.year, d.month, d.day + 1)) == Ordinal(d) + 1
  {
  }

  lemma OrdinalNextMonth(d: CalendarDate)
    requires d.day == DaysInMonth(d.year, d.month) && d.month < 12
    ensures Ordinal(Date(d.year, d.month + 1, 1)) == Ordinal(d) + 1
  {
    assert DaysBeforeMonth(d.year, d.month + 1) == DaysBeforeMonth(d.year, d.month) + DaysInMonth(d.year, d.month);
  }

  lemma OrdinalNextYear(d: CalendarDate)
    requires d.month == 12 && d.day == 31 && d.year < MaxYear
    ensures Ordinal(Date(d.year + 1, 1, 1)) == Ordinal(d) + 1
  {
    DaysBeforeYearStep(d.year);
    assert DaysBeforeMonth(d.year, 12) + 31 == DaysInYear(d.year);
  }

  /**
   * The ordinal counts days: 0001-01-01 is day 1, and the day after any date
   * has the next ordinal, across month and year ends alike.
   */
  lemma {:induction false} OrdinalCountsDays(d: CalendarDate)
    ensures Ordinal(Date(MinYear, 1, 1)) == 1
    ensures NextDay(d).Some? ==> Ordinal(NextDay(d).value) == Ordinal(d) + 1
    ensures NextDay(d).None? <==> d == Date(MaxYear, 12, 31)
  {
    if d.day < DaysInMonth(d.year, d.month) {
      OrdinalNextInMonth(d);
      assert NextDay(d) == Some(Date(d.year, d.month, d.day + 1));
    } else if d.month < 12 {
      OrdinalNextMonth(d);
      assert NextDay(d) == Some(Date(d.year, d.month + 1, 1));
    } else if d.year < MaxYear {
      OrdinalNextYear(d);
      assert NextDay(d) == Some(Date(d.year + 1, 1, 1));
    } else {
      assert d == Date(MaxYear, 12, 31);
    }
  }

  /** A fixed point of the calendar: 2024-03-10 is day 738955, a Sunday. */
  lemma KnownSunday()
    ensures Ordinal(Date(2024, 3, 10)) == 738955
    ensures Weekday(738955) == 6
  {
  }
}
