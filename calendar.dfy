/**
 * The proleptic Gregorian calendar on (year, month, day) triples, and the
 * count of days since 1970-01-01 that places a UTC-midnight date on the
 * host's millisecond time line.
 */
module Calendar {

  /** A calendar date; as a host `Date` it stands for that day's UTC midnight. */
  datatype CalendarDate = CalendarDate(year: int, month: int, day: int)

  predicate IsLeapYear(y: int) {
    (y % 4 == 0 && y % 100 != 0) || y % 400 == 0
  }

  function DaysInYear(y: int): int {
    if IsLeapYear(y) then 366 else 365
  }

  function DaysInMonth(y: int, m: int): (n: int)
    requires 1 <= m <= 12
    ensures 28 <= n <= 31
    ensures n == 29 <==> m == 2 && IsLeapYear(y)
  {
    if m == 2 then (if IsLeapYear(y) then 29 else 28)
    else if m == 4 || m == 6 || m == 9 || m == 11 then 30
    else 31
  }

  /** The date exists: month 1..12 and day 1..length of that month. */
  predicate ValidDate(d: CalendarDate) {
    1 <= d.month <= 12 && 1 <= d.day <= DaysInMonth(d.year, d.month)
  }

  /** Days from 0001-01-01 to January 1st of year `y` (negative before year 1). */
  function DaysBeforeYear(y: int): int {
    var p := y - 1;
    365 * p + p / 4 - p / 100 + p / 400
  }

  /** Days from January 1st to the first of month `m` in year `y`. */
  function DaysBeforeMonth(y: int, m: int): (n: int)
    requires 1 <= m <= 12
  {
    var common :=
      if m == 1 then 0 else if m == 2 then 31 else if m == 3 then 59
      else if m == 4 then 90 else if m == 5 then 120 else if m == 6 then 151
      else if m == 7 then 181 else if m == 8 then 212 else if m == 9 then 243
      else if m == 10 then 273 else if m == 11 then 304 else 334;
    if m > 2 && IsLeapYear(y) then common + 1 else common
  }

  /** DaysBeforeYear(1970): where the host's time line starts. */
  const EpochOffset: int := 719162

  /** Whole days from 1970-01-01 to `d` (negative before it). */
  function DayNumber(d: CalendarDate): int
    requires ValidDate(d)
  {
    DaysBeforeYear(d.year) + DaysBeforeMonth(d.year, d.month) + d.day - 1 - EpochOffset
  }

  /** 1000 * 60 * 60 * 24 */
  const MsPerDay: int := 86400000

  /** The host time value (milliseconds since 1970-01-01T00:00Z) of `d`'s UTC midnight. */
  function TimeValue(d: CalendarDate): int
    requires ValidDate(d)
  {
    DayNumber(d) * MsPerDay
  }

  /** A host `Date` holds at most 8.64e15 ms, i.e. 1e8 days, either side of 1970-01-01. */
  const MaxHostDays: int := 100000000

  predicate InHostRange(d: CalendarDate) {
    ValidDate(d) && -MaxHostDays <= DayNumber(d) <= MaxHostDays
  }

  /** Chronological order of dates, field by field. */
  predicate Before(a: CalendarDate, b: CalendarDate) {
    a.year < b.year
    || (a.year == b.year && a.month < b.month)
    || (a.year == b.year && a.month == b.month && a.day < b.day)
  }

  /** The following calendar day. */
  function Next(d: CalendarDate): (r: CalendarDate)
    requires ValidDate(d)
    ensures ValidDate(r) && Before(d, r)
  {
    if d.day < DaysInMonth(d.year, d.month) then CalendarDate(d.year, d.month, d.day + 1)
    else if d.month < 12 then CalendarDate(d.year, d.month + 1, 1)
    else CalendarDate(d.year + 1, 1, 1)
  }

  /** The date `n` days after `d`, by stepping one calendar day at a time. */
  function AddDays(d: CalendarDate, n: nat): (r: CalendarDate)
    requires ValidDate(d)
    ensures ValidDate(r)
  {
    if n == 0 then d else Next(AddDays(d, n - 1))
  }

  /** Stepping from year `y - 1` to `y` adds one to `y / k` exactly when `k` divides `y`. */
  lemma DivStep(y: int, k: int)
    requires k == 4 || k == 100 || k == 400
    ensures y / k - (y - 1) / k == if y % k == 0 then 1 else 0
  {
    var q, r := y / k, y % k;
    assert y == k * q + r;
    if r == 0 {
      assert y - 1 == k * (q - 1) + (k - 1);
      assert (y - 1) / k == q - 1;
    } else {
      assert y - 1 == k * q + (r - 1);
      assert (y - 1) / k == q;
    }
  }

  lemma Multiples(y: int)
    ensures y % 400 == 0 ==> y % 100 == 0
    ensures y % 100 == 0 ==> y % 4 == 0
  {
    var a, b := y / 400, y / 100;
    if y % 400 == 0 {
      assert y == 400 * a;
      assert y == 100 * (4 * a) + 0;
    }
    if y % 100 == 0 {
      assert y == 100 * b;
      assert y == 4 * (25 * b) + 0;
    }
  }

  /** A year is as long as the leap rule says. */
  lemma YearLength(y: int)
    ensures DaysBeforeYear(y + 1) == DaysBeforeYear(y) + DaysInYear(y)
  {
    DivStep(y, 4);
    DivStep(y, 100);
    DivStep(y, 400);
    Multiples(y);
  }

  /** Consecutive months abut, and the year ends where the last month does. */
  lemma MonthLength(y: int, m: int)
    requires 1 <= m <= 12
    ensures m < 12 ==> DaysBeforeMonth(y, m + 1) == DaysBeforeMonth(y, m) + DaysInMonth(y, m)
    ensures m == 12 ==> DaysBeforeMonth(y, m) + DaysInMonth(y, m) == DaysInYear(y)
  {
  }

  lemma {:induction false} MonthsOrdered(y: int, m1: int, m2: int)
    requires 1 <= m1 < m2 <= 12
    ensures DaysBeforeMonth(y, m1) + DaysInMonth(y, m1) <= DaysBeforeMonth(y, m2)
  {
    MonthLength(y, m2 - 1);
    if m1 < m2 - 1 {
      MonthsOrdered(y, m1, m2 - 1);
    }
  }

  /** Every day of a valid date lies inside its year. */
  lemma DayWithinYear(d: CalendarDate)
    requires ValidDate(d)
    ensures DaysBeforeYear(d.year) <= DayNumber(d) + EpochOffset < DaysBeforeYear(d.year + 1)
  {
    YearLength(d.year);
    MonthLength(d.year, 12);
    if d.month < 12 {
      MonthsOrdered(d.year, d.month, 12);
    }
  }

  lemma {:induction false} YearsOrdered(y1: int, y2: int)
    requires y1 < y2
    ensures DaysBeforeYear(y1 + 1) <= DaysBeforeYear(y2)
    decreases y2 - y1
  {
    if y1 + 1 < y2 {
      YearsOrdered(y1, y2 - 1);
      YearLength(y2 - 1);
    }
  }

  /** Day numbers follow the calendar: earlier dates have smaller numbers, and only then. */
  lemma DayNumberOrder(a: CalendarDate, b: CalendarDate)
    requires ValidDate(a) && ValidDate(b)
    ensures Before(a, b) <==> DayNumber(a) < DayNumber(b)
  {
    if a.year < b.year {
      DayWithinYear(a);
      DayWithinYear(b);
      YearsOrdered(a.year, b.year);
    } else if b.year < a.year {
      DayWithinYear(a);
      DayWithinYear(b);
      YearsOrdered(b.year, a.year);
    } else if a.month < b.month {
      MonthsOrdered(a.year, a.month, b.month);
    } else if b.month < a.month {
      MonthsOrdered(a.year, b.month, a.month);
    }
  }

  /** Different dates have different day numbers. */
  lemma DayNumberInjective(a: CalendarDate, b: CalendarDate)
    requires ValidDate(a) && ValidDate(b)
    ensures DayNumber(a) == DayNumber(b) <==> a == b
  {
    DayNumberOrder(a, b);
    DayNumberOrder(b, a);
  }

  /** Stepping to the next calendar day adds exactly one to the day number. */
  lemma NextDayNumber(d: CalendarDate)
    requires ValidDate(d)
    ensures DayNumber(Next(d)) == DayNumber(d) + 1
  {
    MonthLength(d.year, d.month);
    if d.month == 12 && d.day == DaysInMonth(d.year, d.month) {
      YearLength(d.year);
    }
  }

  /** `n` calendar steps forward are `n` day numbers forward. */
  lemma {:induction false} AddDaysNumber(d: CalendarDate, n: nat)
    requires ValidDate(d)
    ensures DayNumber(AddDays(d, n)) == DayNumber(d) + n
  {
    if n > 0 {
      AddDaysNumber(d, n - 1);
      NextDayNumber(AddDays(d, n - 1));
    }
  }

  /** Every date with a four-digit year is a date the host can hold. */
  lemma FourDigitYearInHostRange(d: CalendarDate)
    requires ValidDate(d) && 0 <= d.year <= 9999
    ensures InHostRange(d)
  {
    DayWithinYear(d);
    YearsOrdered(0, d.year + 1);
    if d.year < 9999 {
      YearsOrdered(d.year, 10000);
    }
  }
}
