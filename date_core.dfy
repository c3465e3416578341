/**
 * The date core of mod.ts: the strict `yyyy-mm-dd` parser with its two
 * error messages, the canonical formatter, the local-to-UTC normaliser and
 * the `daysBetweenDates` facade. The wall clock is the `today` parameter.
 */
module DateCore {
  import opened Decimal
  import opened Calendar

  datatype Option<T> = None | Some(value: T)

  /** The one recoverable error kind; the message is all that callers see. */
  datatype DateParseError = DateParseError(message: string)

  /** A value, or the `DateParseError` that was thrown instead. */
  datatype Outcome<T> = Ok(value: T) | Fail(error: DateParseError) {
    predicate IsFailure() {
      Fail?
    }

    function PropagateFailure<U>(): Outcome<U>
      requires Fail?
    {
      Fail(error)
    }

    function Extract(): T
      requires Ok?
    {
      value
    }
  }

  /** What `daysBetweenDates` returns. */
  datatype DaysResult = DaysResult(days: int, startDate: string, endDate: string)

  /** A host `Date` read in the local time zone: its calendar fields and time of day. */
  datatype LocalDateTime = LocalDateTime(
    year: int, month: int, day: int,
    hours: int, minutes: int, seconds: int, milliseconds: int)

  /** The fields of a local reading that the host clock can produce. */
  predicate ValidLocal(t: LocalDateTime) {
    && InHostRange(CalendarDate(t.year, t.month, t.day))
    && 0 <= t.hours < 24 && 0 <= t.minutes < 60
    && 0 <= t.seconds < 60 && 0 <= t.milliseconds < 1000
  }

  /** The local wall-clock reading on the millisecond time line, as if it were UTC. */
  function WallClockMs(t: LocalDateTime): int
    requires ValidDate(CalendarDate(t.year, t.month, t.day))
  {
    DayNumber(CalendarDate(t.year, t.month, t.day)) * MsPerDay
    + ((t.hours * 60 + t.minutes) * 60 + t.seconds) * 1000 + t.milliseconds
  }

  // ----- The format gate: the regular expression ^[0-9]{4}-[0-1][0-9]-[0-3][0-9]$ -----

  /** One regular-expression atom: a literal character or a bracketed range. */
  datatype CharClass = Lit(c: char) | Range(lo: char, hi: char)

  predicate InClass(c: char, k: CharClass) {
    match k
    case Lit(x) => c == x
    case Range(lo, hi) => lo <= c <= hi
  }

  /** The pattern's atoms in order, `[0-9]{4}` written out as four atoms. */
  const IsoDatePattern: seq<CharClass> := [
    Range('0', '9'), Range('0', '9'), Range('0', '9'), Range('0', '9'),
    Lit('-'), Range('0', '1'), Range('0', '9'),
    Lit('-'), Range('0', '3'), Range('0', '9')
  ]

  /** Anchored at both ends (`^` and `$` without the multiline flag): the whole input matches. */
  predicate FullMatch(s: string, pattern: seq<CharClass>) {
    |s| == |pattern| && forall i :: 0 <= i < |s| ==> InClass(s[i], pattern[i])
  }

  predicate MatchesIsoDate(s: string) {
    FullMatch(s, IsoDatePattern)
  }

  function YearField(s: string): nat
    requires MatchesIsoDate(s)
  {
    ValueOf(s[..4])
  }

  function MonthField(s: string): nat
    requires MatchesIsoDate(s)
  {
    ValueOf(s[5..7])
  }

  function DayField(s: string): nat
    requires MatchesIsoDate(s)
  {
    ValueOf(s[8..])
  }

  // ----- Error messages -----

  function FormatErrorMessage(s: string): string {
    "Invalid date format: \"" + s + "\". Please specify as \"yyyy-mm-dd\""
  }

  function InvalidDateMessage(s: string): string {
    "Invalid date: \"" + s + "\""
  }

  predicate StartsWith(s: string, prefix: string) {
    |prefix| <= |s| && s[..|prefix|] == prefix
  }

  // ----- The operations of mod.ts -----

  /** `yyyy-mm-dd` with each field zero-padded. */
  function Canonical(y: nat, m: nat, d: nat): string {
    Digits(y, 4) + "-" + Digits(m, 2) + "-" + Digits(d, 2)
  }

  /**
   * The first ten characters of the host's ISO rendering of `d`'s UTC midnight:
   * `yyyy-mm-dd` for years 0..9999; outside them the host writes a sign and six
   * year digits, so the ten characters end with the month.
   */
  function UtcDateToIsoString(d: CalendarDate): (r: string)
    requires InHostRange(d)
    ensures |r| == 10
    ensures MatchesIsoDate(r) <==> 0 <= d.year <= 9999
  {
    if 0 <= d.year <= 9999 then
      CanonicalMatches(d.year, d.month, d.day);
      Canonical(d.year, d.month, d.day)
    else
      var sign := if d.year < 0 then "-" else "+";
      var abs := if d.year < 0 then -d.year else d.year;
      var r := sign + Digits(abs, 6) + "-" + Digits(d.month, 2);
      assert r[0] == sign[0];
      r
  }

  /**
   * `Date.UTC(getFullYear(), getMonth(), getDate())` as intended: the UTC
   * midnight of the local calendar date, the time of day and the zone dropped.
   */
  function LocalDateToUtc(t: LocalDateTime): CalendarDate {
    CalendarDate(t.year, t.month, t.day)
  }

  /**
   * `Date.UTC(getFullYear(), getMonth(), getDate())` as the host evaluates it:
   * a year in 0..99 is read as 1900..1999, and the day is counted from the
   * first of the month, so a day past the month's end rolls into the next.
   */
  function LocalDateToUtcAsWritten(t: LocalDateTime): (r: CalendarDate)
    requires ValidDate(CalendarDate(t.year, t.month, t.day))
    ensures ValidDate(r)
    ensures !(0 <= t.year <= 99) ==> r == LocalDateToUtc(t)
    ensures 0 <= t.year <= 99 ==>
      DayNumber(r) == DaysBeforeYear(t.year + 1900) + DaysBeforeMonth(t.year + 1900, t.month) + t.day - 1 - EpochOffset
  {
    var y := if 0 <= t.year <= 99 then t.year + 1900 else t.year;
    var first := CalendarDate(y, t.month, 1);
    var r := AddDays(first, t.day - 1);
    AddDaysNumber(first, t.day - 1);
    DayNumberInjective(r, LocalDateToUtc(t));
    r
  }

  /**
   * The strict parser: a format gate, then a calendar gate, each with its own
   * message. An accepted date is a valid Gregorian date with a four-digit year.
   */
  function ParseDate(s: string): (r: Outcome<CalendarDate>)
    ensures !MatchesIsoDate(s) ==> r == Fail(DateParseError(FormatErrorMessage(s)))
    ensures MatchesIsoDate(s) && r.Fail? ==> r.error == DateParseError(InvalidDateMessage(s))
    ensures MatchesIsoDate(s) ==> (r.Ok? <==> ValidDate(CalendarDate(YearField(s), MonthField(s), DayField(s))))
    ensures r.Ok? ==> InHostRange(r.value) && 0 <= r.value.year <= 9999
  {
    if !MatchesIsoDate(s) then
      Fail(DateParseError(FormatErrorMessage(s)))
    else
      var d := CalendarDate(YearField(s), MonthField(s), DayField(s));
      if !ValidDate(d) then
        Fail(DateParseError(InvalidDateMessage(s)))
      else
        FourDigitYearInHostRange(d);
        Ok(d)
  }

  /** (getTime(end) - getTime(start)) / (1000 * 60 * 60 * 24) */
  function ElapsedDays(start: CalendarDate, end: CalendarDate): (days: int)
    requires ValidDate(start) && ValidDate(end)
    ensures days * MsPerDay == TimeValue(end) - TimeValue(start)
    ensures days == DayNumber(end) - DayNumber(start)
  {
    (TimeValue(end) - TimeValue(start)) / MsPerDay
  }

  /**
   * With one date, counts from today's local date (`LocalDateToUtc`) to it; with two, from the
   * first to the second, in argument order. Either failing parse is thrown.
   */
  function DaysBetweenDates(today: LocalDateTime, date1: string, date2: Option<string>): (r: Outcome<DaysResult>)
    requires ValidLocal(today)
    ensures date2.None? ==> (r.Ok? <==> ParseDate(date1).Ok?)
    ensures date2.Some? ==> (r.Ok? <==> ParseDate(date1).Ok? && ParseDate(date2.value).Ok?)
    ensures r.Ok? ==> |r.value.startDate| == 10 && |r.value.endDate| == 10
  {
    var start :- if date2.None? then Ok(LocalDateToUtc(today)) else ParseDate(date1);
    var end :- if date2.None? then ParseDate(date1) else ParseDate(date2.value);
    Ok(DaysResult(ElapsedDays(start, end), UtcDateToIsoString(start), UtcDateToIsoString(end)))
  }

  // ----- Lemmas about the format gate and the round trips -----

  /** The ten characters of a zero-padded rendering. */
  lemma CanonicalChars(y: nat, m: nat, d: nat)
    requires y < 10000 && m < 100 && d < 100
    ensures Canonical(y, m, d) ==
      [DigitChar(y / 10 / 10 / 10), DigitChar(y / 10 / 10 % 10), DigitChar(y / 10 % 10), DigitChar(y % 10),
       '-', DigitChar(m / 10), DigitChar(m % 10), '-', DigitChar(d / 10), DigitChar(d % 10)]
  {
    FourDigits(y);
    TwoDigits(m);
    TwoDigits(d);
  }

  /** Every zero-padded rendering with a month below 20 and a day below 40 passes the gate. */
  lemma CanonicalMatches(y: nat, m: nat, d: nat)
    requires y < 10000 && m < 20 && d < 40
    ensures MatchesIsoDate(Canonical(y, m, d))
  {
    TwoDigits(m);
    TwoDigits(d);
    var s := Canonical(y, m, d);
    assert s[..4] == Digits(y, 4);
  }

  /** What the gate guarantees about each position. */
  lemma GateShape(s: string)
    requires MatchesIsoDate(s)
    ensures AllDigits(s[..4]) && AllDigits(s[5..7]) && AllDigits(s[8..])
    ensures s[4] == '-' && s[7] == '-' && s[5] <= '1' && s[8] <= '3'
  {
    forall i | 0 <= i < 10
      ensures InClass(s[i], IsoDatePattern[i])
    {
    }
  }

  /** The gate bounds the fields: a year below 10000, a month below 20, a day below 40. */
  lemma FieldBounds(s: string)
    requires MatchesIsoDate(s)
    ensures YearField(s) < 10000 && MonthField(s) < 20 && DayField(s) < 40
  {
    GateShape(s);
    assert Pow10(4) == 10000;
    TwoDigitValue(s[5..7]);
    TwoDigitValue(s[8..]);
  }

  /** Whatever passes the gate is the zero-padded rendering of its three fields. */
  lemma MatchIsCanonical(s: string)
    requires MatchesIsoDate(s)
    ensures YearField(s) < 10000 && MonthField(s) < 20 && DayField(s) < 40
    ensures s == Canonical(YearField(s), MonthField(s), DayField(s))
  {
    FieldBounds(s);
    GateShape(s);
    DigitsOfValue(s[..4]);
    DigitsOfValue(s[5..7]);
    DigitsOfValue(s[8..]);
    assert s == s[..4] + "-" + s[5..7] + "-" + s[8..];
  }

  /** The gate accepts exactly the renderings `Canonical(y, m, d)` with y < 10000, m < 20, d < 40. */
  lemma GateCharacterisation(s: string)
    ensures MatchesIsoDate(s) <==>
      exists y: nat, m: nat, d: nat :: y < 10000 && m < 20 && d < 40 && s == Canonical(y, m, d)
  {
    if MatchesIsoDate(s) {
      MatchIsCanonical(s);
    }
    forall y: nat, m: nat, d: nat | y < 10000 && m < 20 && d < 40 && s == Canonical(y, m, d)
      ensures MatchesIsoDate(s)
    {
      CanonicalMatches(y, m, d);
    }
  }

  /**
   * What the ten characters are: the zero-padded rendering for years
   * 0..9999; otherwise a sign, six year digits, a dash and the month.
   */
  lemma IsoStringForm(d: CalendarDate)
    requires InHostRange(d)
    ensures 0 <= d.year <= 9999 ==> UtcDateToIsoString(d) == Canonical(d.year, d.month, d.day)
    ensures !(0 <= d.year <= 9999) ==>
      UtcDateToIsoString(d) == (if d.year < 0 then "-" else "+") + Digits(if d.year < 0 then -d.year else d.year, 6)
                               + "-" + Digits(d.month, 2)
  {
  }

  /** An accepted string is its own canonical form: format(parse(s)) == s. */
  lemma ParseFormatRoundTrip(s: string)
    requires ParseDate(s).Ok?
    ensures UtcDateToIsoString(ParseDate(s).value) == s
  {
    MatchIsCanonical(s);
  }

  /** The fields read back from a zero-padded rendering are the numbers rendered. */
  lemma FieldsOfCanonical(y: nat, m: nat, d: nat)
    requires y < 10000 && m < 20 && d < 40
    ensures MatchesIsoDate(Canonical(y, m, d))
    ensures YearField(Canonical(y, m, d)) == y
    ensures MonthField(Canonical(y, m, d)) == m
    ensures DayField(Canonical(y, m, d)) == d
  {
    var s := Canonical(y, m, d);
    CanonicalMatches(y, m, d);
    ValueOfDigits(y, 4);
    ValueOfDigits(m, 2);
    ValueOfDigits(d, 2);
    assert s[..4] == Digits(y, 4);
    assert s[5..7] == Digits(m, 2);
    assert s[8..] == Digits(d, 2);
  }

  /** Every date with a four-digit year parses back from its rendering: parse(format(d)) == d. */
  lemma FormatParseRoundTrip(d: CalendarDate)
    requires ValidDate(d) && 0 <= d.year <= 9999
    ensures InHostRange(d) && ParseDate(UtcDateToIsoString(d)) == Ok(d)
  {
    FourDigitYearInHostRange(d);
    FieldsOfCanonical(d.year, d.month, d.day);
    assert UtcDateToIsoString(d) == Canonical(d.year, d.month, d.day);
  }

  /** The strings the parser accepts are exactly the renderings of four-digit-year dates. */
  lemma AcceptedIffCanonical(s: string)
    ensures ParseDate(s).Ok? <==>
      exists d :: ValidDate(d) && 0 <= d.year <= 9999 && InHostRange(d) && UtcDateToIsoString(d) == s
  {
    if ParseDate(s).Ok? {
      ParseFormatRoundTrip(s);
    }
    forall d | ValidDate(d) && 0 <= d.year <= 9999 && InHostRange(d) && UtcDateToIsoString(d) == s
      ensures ParseDate(s).Ok?
    {
      FormatParseRoundTrip(d);
    }
  }

  /** The two rejections are told apart by their message prefixes, which exclude each other. */
  lemma ErrorKinds(s: string)
    ensures ParseDate(s).Fail? ==>
      (StartsWith(ParseDate(s).error.message, "Invalid date format:") <==> !MatchesIsoDate(s))
    ensures ParseDate(s).Fail? ==>
      (StartsWith(ParseDate(s).error.message, "Invalid date:") <==> MatchesIsoDate(s))
  {
    var f := FormatErrorMessage(s);
    var v := InvalidDateMessage(s);
    assert f[..20] == "Invalid date format:";
    assert v[..13] == "Invalid date:";
    assert f[12] == ' ';
    assert v[12] == ':';
  }

  // ----- Lemmas about daysBetweenDates -----

  /** Two arguments: counted from the first to the second, each label being that argument itself. */
  lemma TwoArgResult(today: LocalDateTime, date1: string, date2: string)
    requires ValidLocal(today) && ParseDate(date1).Ok? && ParseDate(date2).Ok?
    ensures DaysBetweenDates(today, date1, Some(date2)) ==
      Ok(DaysResult(DayNumber(ParseDate(date2).value) - DayNumber(ParseDate(date1).value), date1, date2))
  {
    ParseFormatRoundTrip(date1);
    ParseFormatRoundTrip(date2);
  }

  /** One argument: counted from today's local date, whatever the time of day, to the argument. */
  lemma OneArgResult(today: LocalDateTime, date1: string)
    requires ValidLocal(today) && ParseDate(date1).Ok?
    ensures DaysBetweenDates(today, date1, None) ==
      Ok(DaysResult(DayNumber(ParseDate(date1).value) - DayNumber(LocalDateToUtc(today)),
                    UtcDateToIsoString(LocalDateToUtc(today)), date1))
  {
    var end := ParseDate(date1).value;
    ParseFormatRoundTrip(date1);
    assert ElapsedDays(LocalDateToUtc(today), end) == DayNumber(end) - DayNumber(LocalDateToUtc(today));
  }

  /** A failing argument is thrown as is, the first argument's failure first; nothing is returned. */
  lemma FailFast(today: LocalDateTime, date1: string, date2: string)
    requires ValidLocal(today)
    ensures ParseDate(date1).Fail? ==>
      DaysBetweenDates(today, date1, None) == Fail(ParseDate(date1).error)
      && DaysBetweenDates(today, date1, Some(date2)) == Fail(ParseDate(date1).error)
    ensures ParseDate(date1).Ok? && ParseDate(date2).Fail? ==>
      DaysBetweenDates(today, date1, Some(date2)) == Fail(ParseDate(date2).error)
  {
  }

  /** A date to itself is zero days, labelled with the date twice. */
  lemma SameDay(today: LocalDateTime, date: string)
    requires ValidLocal(today) && ParseDate(date).Ok?
    ensures DaysBetweenDates(today, date, Some(date)) == Ok(DaysResult(0, date, date))
  {
    TwoArgResult(today, date, date);
  }

  /** Swapping the arguments negates the count and nothing is sorted. */
  lemma Antisymmetric(today: LocalDateTime, date1: string, date2: string)
    requires ValidLocal(today) && ParseDate(date1).Ok? && ParseDate(date2).Ok?
    ensures DaysBetweenDates(today, date1, Some(date2)).value.days ==
      -DaysBetweenDates(today, date2, Some(date1)).value.days
  {
    TwoArgResult(today, date1, date2);
    TwoArgResult(today, date2, date1);
  }

  /** The sign of the count says which way in time the second date lies from the first. */
  lemma SignFollowsOrder(today: LocalDateTime, date1: string, date2: string)
    requires ValidLocal(today) && ParseDate(date1).Ok? && ParseDate(date2).Ok?
    ensures var days := DaysBetweenDates(today, date1, Some(date2)).value.days;
      && (days > 0 <==> Before(ParseDate(date1).value, ParseDate(date2).value))
      && (days < 0 <==> Before(ParseDate(date2).value, ParseDate(date1).value))
      && (days == 0 <==> date1 == date2)
  {
    var d1, d2 := ParseDate(date1).value, ParseDate(date2).value;
    TwoArgResult(today, date1, date2);
    DayNumberOrder(d1, d2);
    DayNumberOrder(d2, d1);
    DayNumberInjective(d1, d2);
    ParseFormatRoundTrip(date1);
    ParseFormatRoundTrip(date2);
  }

  /** Counts chain: a to b plus b to c is a to c. */
  lemma Additive(today: LocalDateTime, a: string, b: string, c: string)
    requires ValidLocal(today) && ParseDate(a).Ok? && ParseDate(b).Ok? && ParseDate(c).Ok?
    ensures DaysBetweenDates(today, a, Some(b)).value.days + DaysBetweenDates(today, b, Some(c)).value.days
      == DaysBetweenDates(today, a, Some(c)).value.days
  {
    TwoArgResult(today, a, b);
    TwoArgResult(today, b, c);
    TwoArgResult(today, a, c);
  }

  /** Two arguments, the second the rendering of a date: the count is its day-number distance from the first. */
  lemma CountsTo(today: LocalDateTime, date: string, later: CalendarDate, n: int)
    requires ValidLocal(today) && ParseDate(date).Ok?
    requires ValidDate(later) && 0 <= later.year <= 9999
    requires DayNumber(later) - DayNumber(ParseDate(date).value) == n
    ensures InHostRange(later)
    ensures DaysBetweenDates(today, date, Some(UtcDateToIsoString(later))) ==
      Ok(DaysResult(n, date, UtcDateToIsoString(later)))
  {
    FormatParseRoundTrip(later);
    TwoArgResult(today, date, UtcDateToIsoString(later));
  }

  /** The count is the number of calendar days one steps through, leap days included. */
  lemma CountsCalendarSteps(today: LocalDateTime, date: string, n: nat)
    requires ValidLocal(today) && ParseDate(date).Ok?
    requires 0 <= AddDays(ParseDate(date).value, n).year <= 9999
    ensures InHostRange(AddDays(ParseDate(date).value, n))
    ensures var later := UtcDateToIsoString(AddDays(ParseDate(date).value, n));
      DaysBetweenDates(today, date, Some(later)) == Ok(DaysResult(n, date, later))
  {
    var d := ParseDate(date).value;
    AddDaysNumber(d, n);
    CountsTo(today, date, AddDays(d, n), n);
  }

  /** One argument naming today's local date: zero days, whatever the time of day. */
  lemma OneArgToday(today: LocalDateTime)
    requires ValidLocal(today) && 0 <= today.year <= 9999
    ensures var s := UtcDateToIsoString(LocalDateToUtc(today));
      DaysBetweenDates(today, s, None) == Ok(DaysResult(0, s, s))
  {
    var t := LocalDateToUtc(today);
    FormatParseRoundTrip(t);
    OneArgResult(today, UtcDateToIsoString(t));
  }

  /** One argument naming the day after today: one day. */
  lemma OneArgTomorrow(today: LocalDateTime)
    requires ValidLocal(today) && 0 <= today.year && Next(LocalDateToUtc(today)).year <= 9999
    ensures InHostRange(Next(LocalDateToUtc(today)))
    ensures var s := UtcDateToIsoString(LocalDateToUtc(today));
      var e := UtcDateToIsoString(Next(LocalDateToUtc(today)));
      DaysBetweenDates(today, e, None) == Ok(DaysResult(1, s, e))
  {
    var t := LocalDateToUtc(today);
    FormatParseRoundTrip(t);
    FormatParseRoundTrip(Next(t));
    OneArgResult(today, UtcDateToIsoString(Next(t)));
    NextDayNumber(t);
  }

  /** One argument naming the day before today: minus one day. */
  lemma OneArgYesterday(today: LocalDateTime, prev: CalendarDate)
    requires ValidLocal(today) && ValidDate(prev) && 0 <= prev.year <= 9999 && Next(prev) == LocalDateToUtc(today)
    ensures InHostRange(prev)
    ensures var s := UtcDateToIsoString(LocalDateToUtc(today));
      var e := UtcDateToIsoString(prev);
      DaysBetweenDates(today, e, None) == Ok(DaysResult(-1, s, e))
  {
    FormatParseRoundTrip(prev);
    OneArgResult(today, UtcDateToIsoString(prev));
    NextDayNumber(prev);
  }

  // ----- Lemmas about the local-to-UTC normaliser -----

  /** The normalised date is the one UTC day whose span holds the local wall-clock reading. */
  lemma LocalMidnight(t: LocalDateTime)
    requires ValidLocal(t)
    ensures TimeValue(LocalDateToUtc(t)) <= WallClockMs(t) < TimeValue(LocalDateToUtc(t)) + MsPerDay
    ensures forall d :: ValidDate(d) && TimeValue(d) <= WallClockMs(t) < TimeValue(d) + MsPerDay ==>
      d == LocalDateToUtc(t)
  {
    forall d | ValidDate(d) && TimeValue(d) <= WallClockMs(t) < TimeValue(d) + MsPerDay
      ensures d == LocalDateToUtc(t)
    {
      DayNumberInjective(d, LocalDateToUtc(t));
    }
  }

  /** 1900 years hold 475 multiples of 4, 19 of 100 and 4 or 5 of 400, so they start at least 365 * 1900 + 460 days later. */
  lemma ShiftedYearStart(y: int)
    ensures DaysBeforeYear(y + 1900) - DaysBeforeYear(y) >= 365 * 1900 + 460
  {
    var p := y - 1;
    var q4, q100, q400 := p / 4, p / 100, p / 400;
    assert p + 1900 == 4 * (q4 + 475) + p % 4;
    assert (p + 1900) / 4 == q4 + 475;
    assert p + 1900 == 100 * (q100 + 19) + p % 100;
    assert (p + 1900) / 100 == q100 + 19;
    assert p + 1900 == 400 * (q400 + 4) + (p % 400 + 300);
    assert (p + 1900) / 400 >= q400 + 4;
  }

  /** As written, a clock reading in years 0..99 is normalised to a date 1900 years later. */
  lemma TwoDigitYearsLater(t: LocalDateTime)
    requires ValidDate(CalendarDate(t.year, t.month, t.day)) && 0 <= t.year <= 99
    ensures DayNumber(LocalDateToUtcAsWritten(t)) - DayNumber(LocalDateToUtc(t)) >= 365 * 1900
  {
    var y, m := t.year + 1900, t.month;
    ShiftedYearStart(t.year);
    assert DayNumber(LocalDateToUtc(t)) == DaysBeforeYear(t.year) + DaysBeforeMonth(t.year, m) + t.day - 1 - EpochOffset;
    assert DaysBeforeMonth(y, m) >= DaysBeforeMonth(t.year, m) - 1;
  }

  /** As written, a clock reading at noon on 0050-06-15 is normalised to 1950-06-15. */
  lemma TwoDigitYearShift()
    ensures ValidLocal(LocalDateTime(50, 6, 15, 12, 0, 0, 0))
    ensures LocalDateToUtcAsWritten(LocalDateTime(50, 6, 15, 12, 0, 0, 0)) == CalendarDate(1950, 6, 15)
  {
    FourDigitYearInHostRange(CalendarDate(50, 6, 15));
    DayNumberInjective(LocalDateToUtcAsWritten(LocalDateTime(50, 6, 15, 12, 0, 0, 0)), CalendarDate(1950, 6, 15));
  }

  lemma DistanceFrom0050To1950()
    ensures DayNumber(CalendarDate(50, 6, 15)) - DayNumber(CalendarDate(1950, 6, 15)) == -693960
  {
  }

  /** As written, February 29th of year 0 becomes 1900-03-01, since 1900 is a common year. */
  lemma LeapDayOfYearZero()
    ensures LocalDateToUtcAsWritten(LocalDateTime(0, 2, 29, 0, 0, 0, 0)) == CalendarDate(1900, 3, 1)
  {
    DayNumberInjective(LocalDateToUtcAsWritten(LocalDateTime(0, 2, 29, 0, 0, 0, 0)), CalendarDate(1900, 3, 1));
  }
}
