/**
 * The literal cases that the repository's tests pin down for the date core,
 * stated about the model.
 */
module DateCoreExamples {
  import opened Calendar
  import opened DateCore
  import opened Decimal

  /** Fields of the wrong width fail with the format message. */
  lemma RejectsWrongWidth()
    ensures forall s | s in ["2020-01-001", "2020-001-01", "02020-01-01", "999-01-01"] ::
      ParseDate(s) == Fail(DateParseError(FormatErrorMessage(s)))
  {
  }

  /** Whitespace around an otherwise good date fails with the format message. */
  lemma RejectsSurroundingText()
    ensures forall s | s in [" 2020-01-01", "2020-01-01 ", "\n2020-01-01", "2020-01-01\n"] ::
      ParseDate(s) == Fail(DateParseError(FormatErrorMessage(s)))
  {
  }

  /** Other date notations, and blank input, fail with the format message. */
  lemma RejectsOtherFormats()
    ensures forall s | s in ["2020-01-01T00:00:00.000Z", "Wed Jan 01 2020 00:00:00 GMT-0000", "1/1/2020", "01/01/2020", "1-1-2020", "01-01-2020", "", " "] ::
      ParseDate(s) == Fail(DateParseError(FormatErrorMessage(s)))
  {
  }

  /** A month above 19 or a day above 39 is already refused by the pattern. */
  lemma RejectsOutOfPatternFields()
    ensures forall s | s in ["2020-20-01", "2020-01-40", "2020-99-99"] ::
      ParseDate(s) == Fail(DateParseError(FormatErrorMessage(s)))
  {
    assert !MatchesIsoDate("2020-20-01") by { assert !InClass('2', IsoDatePattern[5]); }
    assert !MatchesIsoDate("2020-01-40") by { assert !InClass('4', IsoDatePattern[8]); }
    assert !MatchesIsoDate("2020-99-99") by { assert !InClass('9', IsoDatePattern[5]); }
  }

  /** `s` spells the zero-padded fields `y`, `m` and `d` as `yyyy-mm-dd`, character by character. */
  predicate Spells(s: string, y: nat, m: nat, d: nat) {
    && |s| == 10 && s[4] == '-' && s[7] == '-'
    && y < 10000 && m < 100 && d < 100
    && s[0] == DigitChar(y / 10 / 10 / 10) && s[1] == DigitChar(y / 10 / 10 % 10)
    && s[2] == DigitChar(y / 10 % 10) && s[3] == DigitChar(y % 10)
    && s[5] == DigitChar(m / 10) && s[6] == DigitChar(m % 10)
    && s[8] == DigitChar(d / 10) && s[9] == DigitChar(d % 10)
  }

  lemma SpellsCanonical(s: string, y: nat, m: nat, d: nat)
    requires Spells(s, y, m, d)
    ensures s == Canonical(y, m, d)
  {
    CanonicalChars(y, m, d);
  }

  /** A literal that spells a valid date parses to that date. */
  lemma Renders(s: string, y: nat, m: nat, d: nat)
    requires Spells(s, y, m, d) && ValidDate(CalendarDate(y, m, d))
    ensures ParseDate(s) == Ok(CalendarDate(y, m, d))
  {
    SpellsCanonical(s, y, m, d);
    FormatParseRoundTrip(CalendarDate(y, m, d));
  }

  /** A literal that spells the fields of no date fails with the calendar message. */
  lemma RendersNoDate(s: string, y: nat, m: nat, d: nat)
    requires Spells(s, y, m, d) && m < 20 && d < 40 && !ValidDate(CalendarDate(y, m, d))
    ensures ParseDate(s) == Fail(DateParseError(InvalidDateMessage(s)))
  {
    SpellsCanonical(s, y, m, d);
    FieldsOfCanonical(y, m, d);
  }

  /** Well-shaped but no such date: month 00 and day 00. */
  lemma RejectsNonexistent2020_00_00()
    ensures ParseDate("2020-00-00") == Fail(DateParseError(InvalidDateMessage("2020-00-00")))
  {
    RendersNoDate("2020-00-00", 2020, 0, 0);
  }

  /** Well-shaped but no such date: day 00. */
  lemma RejectsNonexistent2020_01_00()
    ensures ParseDate("2020-01-00") == Fail(DateParseError(InvalidDateMessage("2020-01-00")))
  {
    RendersNoDate("2020-01-00", 2020, 1, 0);
  }

  /** Well-shaped but no such date: month 00. */
  lemma RejectsNonexistent2020_00_01()
    ensures ParseDate("2020-00-01") == Fail(DateParseError(InvalidDateMessage("2020-00-01")))
  {
    RendersNoDate("2020-00-01", 2020, 0, 1);
  }

  /** Well-shaped but no such date: month 13. */
  lemma RejectsNonexistent2020_13_01()
    ensures ParseDate("2020-13-01") == Fail(DateParseError(InvalidDateMessage("2020-13-01")))
  {
    RendersNoDate("2020-13-01", 2020, 13, 1);
  }

  /** Well-shaped but no such date: day 32. */
  lemma RejectsNonexistent2020_01_32()
    ensures ParseDate("2020-01-32") == Fail(DateParseError(InvalidDateMessage("2020-01-32")))
  {
    RendersNoDate("2020-01-32", 2020, 1, 32);
  }

  /** Well-shaped but no such date: February 30th of a leap year. */
  lemma RejectsNonexistent2020_02_30()
    ensures ParseDate("2020-02-30") == Fail(DateParseError(InvalidDateMessage("2020-02-30")))
  {
    RendersNoDate("2020-02-30", 2020, 2, 30);
  }

  /** Well-shaped but no such date: February 29th of a common year. */
  lemma RejectsNonexistent2019_02_29()
    ensures ParseDate("2019-02-29") == Fail(DateParseError(InvalidDateMessage("2019-02-29")))
  {
    RendersNoDate("2019-02-29", 2019, 2, 29);
  }

  /** Parses an ordinary date. */
  lemma AcceptsDate()
    ensures ParseDate("2020-01-01") == Ok(CalendarDate(2020, 1, 1))
  {
    Renders("2020-01-01", 2020, 1, 1);
  }

  /** A low four-digit year is a valid padded year. */
  lemma AcceptsPaddedYear()
    ensures ParseDate("0999-01-01") == Ok(CalendarDate(999, 1, 1))
  {
    Renders("0999-01-01", 999, 1, 1);
  }

  /** `daysBetweenDates(s1, s2)` for two renderings, given the dates they render and their distance. */
  lemma CountOf(today: LocalDateTime, s1: string, start: CalendarDate, s2: string, end: CalendarDate, days: int)
    requires ValidLocal(today)
    requires ValidDate(start) && 0 <= start.year <= 9999 && s1 == Canonical(start.year, start.month, start.day)
    requires ValidDate(end) && 0 <= end.year <= 9999 && s2 == Canonical(end.year, end.month, end.day)
    requires DayNumber(end) - DayNumber(start) == days
    ensures DaysBetweenDates(today, s1, Some(s2)) == Ok(DaysResult(days, s1, s2))
  {
    FormatParseRoundTrip(start);
    FormatParseRoundTrip(end);
    assert ParseDate(s1) == Ok(start) && ParseDate(s2) == Ok(end);
    TwoArgResult(today, s1, s2);
  }

  /** A date to itself. */
  lemma SameDayExample(today: LocalDateTime)
    requires ValidLocal(today)
    ensures DaysBetweenDates(today, "2020-01-01", Some("2020-01-01")) == Ok(DaysResult(0, "2020-01-01", "2020-01-01"))
  {
    SpellsCanonical("2020-01-01", 2020, 1, 1);
    SpellsCanonical("2020-01-01", 2020, 1, 1);
    CountOf(today, "2020-01-01", CalendarDate(2020, 1, 1), "2020-01-01", CalendarDate(2020, 1, 1), 0);
  }

  /** One day forward. */
  lemma FutureDateExample(today: LocalDateTime)
    requires ValidLocal(today)
    ensures DaysBetweenDates(today, "2020-01-01", Some("2020-01-02")) == Ok(DaysResult(1, "2020-01-01", "2020-01-02"))
  {
    SpellsCanonical("2020-01-01", 2020, 1, 1);
    SpellsCanonical("2020-01-02", 2020, 1, 2);
    CountOf(today, "2020-01-01", CalendarDate(2020, 1, 1), "2020-01-02", CalendarDate(2020, 1, 2), 1);
  }

  /** One day back, across a year end; the dates are not sorted. */
  lemma PastDateExample(today: LocalDateTime)
    requires ValidLocal(today)
    ensures DaysBetweenDates(today, "2020-01-01", Some("2019-12-31")) == Ok(DaysResult(-1, "2020-01-01", "2019-12-31"))
  {
    SpellsCanonical("2020-01-01", 2020, 1, 1);
    SpellsCanonical("2019-12-31", 2019, 12, 31);
    CountOf(today, "2020-01-01", CalendarDate(2020, 1, 1), "2019-12-31", CalendarDate(2019, 12, 31), -1);
  }

  /** The end of February in a leap year. */
  lemma LeapYearExample(today: LocalDateTime)
    requires ValidLocal(today)
    ensures DaysBetweenDates(today, "2020-02-28", Some("2020-03-01")) == Ok(DaysResult(2, "2020-02-28", "2020-03-01"))
  {
    SpellsCanonical("2020-02-28", 2020, 2, 28);
    SpellsCanonical("2020-03-01", 2020, 3, 1);
    CountOf(today, "2020-02-28", CalendarDate(2020, 2, 28), "2020-03-01", CalendarDate(2020, 3, 1), 2);
  }

  /** The end of February in a common year. */
  lemma NonLeapYearExample(today: LocalDateTime)
    requires ValidLocal(today)
    ensures DaysBetweenDates(today, "2019-02-28", Some("2019-03-01")) == Ok(DaysResult(1, "2019-02-28", "2019-03-01"))
  {
    SpellsCanonical("2019-02-28", 2019, 2, 28);
    SpellsCanonical("2019-03-01", 2019, 3, 1);
    CountOf(today, "2019-02-28", CalendarDate(2019, 2, 28), "2019-03-01", CalendarDate(2019, 3, 1), 1);
  }

  /** A span across a daylight-saving change is a whole number of days. */
  lemma LongSpanExample(today: LocalDateTime)
    requires ValidLocal(today)
    ensures DaysBetweenDates(today, "2020-01-01", Some("2020-08-01")) == Ok(DaysResult(213, "2020-01-01", "2020-08-01"))
  {
    SpellsCanonical("2020-01-01", 2020, 1, 1);
    SpellsCanonical("2020-08-01", 2020, 8, 1);
    CountOf(today, "2020-01-01", CalendarDate(2020, 1, 1), "2020-08-01", CalendarDate(2020, 8, 1), 213);
  }

  /** A month across a daylight-saving change is a whole number of days. */
  lemma MonthSpanExample(today: LocalDateTime)
    requires ValidLocal(today)
    ensures DaysBetweenDates(today, "2020-05-01", Some("2020-06-01")) == Ok(DaysResult(31, "2020-05-01", "2020-06-01"))
  {
    SpellsCanonical("2020-05-01", 2020, 5, 1);
    SpellsCanonical("2020-06-01", 2020, 6, 1);
    CountOf(today, "2020-05-01", CalendarDate(2020, 5, 1), "2020-06-01", CalendarDate(2020, 6, 1), 31);
  }

  /** Both forms of the call throw the argument's own error for every rejected string. */
  lemma FacadeRejects(today: LocalDateTime, s: string)
    requires ValidLocal(today) && ParseDate(s).Fail?
    ensures DaysBetweenDates(today, s, None) == ParseDate(s).PropagateFailure()
    ensures DaysBetweenDates(today, s, Some(s)) == ParseDate(s).PropagateFailure()
  {
    FailFast(today, s, s);
  }

  /** A minute past local midnight still normalises to that day's UTC midnight. */
  lemma StripsTimeExample()
    ensures LocalDateToUtc(LocalDateTime(2020, 1, 1, 0, 1, 0, 0)) == CalendarDate(2020, 1, 1)
    ensures TimeValue(CalendarDate(2020, 1, 1)) == WallClockMs(LocalDateTime(2020, 1, 1, 0, 1, 0, 0)) - 60000
  {
  }

  /** The host's time line starts at 1970-01-01. */
  lemma EpochIsDayZero()
    ensures DayNumber(CalendarDate(1970, 1, 1)) == 0 && TimeValue(CalendarDate(1970, 1, 2)) == MsPerDay
  {
  }

  /**
   * With the clock at noon on 0050-06-15, `daysBetweenDates("0050-06-15")`
   * counts -693960 days from the as-written normalised date, where the
   * intended normaliser, which the model uses, gives 0.
   */
  lemma TwoDigitYearCount()
    ensures ParseDate("0050-06-15") == Ok(CalendarDate(50, 6, 15))
    ensures ElapsedDays(LocalDateToUtcAsWritten(LocalDateTime(50, 6, 15, 12, 0, 0, 0)), ParseDate("0050-06-15").value) == -693960
    ensures ElapsedDays(LocalDateToUtc(LocalDateTime(50, 6, 15, 12, 0, 0, 0)), ParseDate("0050-06-15").value) == 0
    ensures DaysBetweenDates(LocalDateTime(50, 6, 15, 12, 0, 0, 0), "0050-06-15", None).Ok?
    ensures DaysBetweenDates(LocalDateTime(50, 6, 15, 12, 0, 0, 0), "0050-06-15", None).value.days == 0
  {
    var t := LocalDateTime(50, 6, 15, 12, 0, 0, 0);
    Renders("0050-06-15", 50, 6, 15);
    TwoDigitYearShift();
    DistanceFrom0050To1950();
    OneArgResult(t, "0050-06-15");
  }
}
