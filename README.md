# days-between-dates, modelled in Dafny

`days-between-dates` counts the days between two ISO dates (`yyyy-mm-dd`), or
between today and one date. Its library (`mod.ts`) has four parts:

- a strict parser. A regular expression gate comes first, then a calendar gate.
  Each gate has its own `DateParseError` message.
- a formatter that renders a UTC-midnight date as `yyyy-mm-dd`.
- a normaliser that maps a local date-time to the UTC midnight of its local date.
- the `daysBetweenDates` facade. It subtracts the two time values and divides by
  the milliseconds in a day.

Its command line (`cli.ts`, `main`) turns the argument list into a message and
an exit code.

The model is pure, as the source is:

- `decimal.dfy` (module `Decimal`) covers zero-padded digit fields and the decimal text of an integer.
- `calendar.dfy` (module `Calendar`) covers the proleptic Gregorian calendar.
  - A date's day number counts the days since 1970-01-01.
  - Its time value is that number times 86400000 ms.
  - The host range is ±1e8 days.
- `date_core.dfy` (module `DateCore`) holds the operations of `mod.ts` and the properties they promise.
  - The regular expression `^[0-9]{4}-[0-1][0-9]-[0-3][0-9]$` is written out atom by atom.
  - The wall clock that `new Date()` reads is the `today` parameter.
  - A thrown `DateParseError` is the `Fail` case of `Outcome`. `:-` propagates it just as `throw` does.
- `date_core_examples.dfy` (module `DateCoreExamples`) holds the literal cases of the repository's tests, stated about the model.
- `cli.dfy` (module `Cli`) holds `main` as `Run`.
  - `daysBetweenDates` is a parameter, which is how the repository's tests call it.
  - Any other thrown value is the type parameter `E`.
  - The real core plugs in through `RealCore`.

## Model

| member | source | states |
|---|---|---|
| Calendar.DaysInMonth | mod.ts:25-29 | month lengths 28..31; 29 exactly for February of a leap year |
| Calendar.YearLength | mod.ts:46-48 | consecutive years start 365 or 366 days apart, by the Gregorian leap rule |
| Calendar.DayWithinYear | mod.ts:46-48 | a valid date's day number lies inside its own year |
| Calendar.DayNumberOrder | mod.ts:46-48 | an earlier calendar date has a smaller day number, and only an earlier one |
| Calendar.DayNumberInjective | mod.ts:46-48 | two valid dates have the same day number exactly when they are the same date |
| Calendar.NextDayNumber | mod.ts:46-48 | the next calendar day is one day number later, across month and year ends |
| Calendar.AddDaysNumber | mod.ts:46-48 | n calendar steps forward are n day numbers forward |
| Calendar.FourDigitYearInHostRange | mod.ts:31 | every valid date with a year in 0..9999 is within the host `Date` range |
| Decimal.ValueOfDigits | mod.ts:13 | reading back a zero-padded rendering gives the number when it fits the width |
| Decimal.DigitsOfValue | mod.ts:17 | a digit string is the zero-padded rendering of its own value |
| Decimal.IntToString | cli.ts:53 | the text of `${days}`: a minus sign exactly for negatives, then the digits of the magnitude with no leading zero |
| Decimal.IntToStringInjective | cli.ts:53 | different day counts print differently |
| DateCore.UtcDateToIsoString | mod.ts:12-14 | ten characters; they pass the format gate exactly when the year is in 0..9999 |
| DateCore.IsoStringForm | mod.ts:12-14 | for a year in 0..9999 the ten characters are the zero-padded rendering; otherwise a sign, six year digits, a dash and the month |
| DateCore.LocalMidnight | mod.ts:8-10 | the normalised date is the one UTC day whose span holds the local wall-clock reading, which is taken from the reading's own calendar fields and time of day: its midnight is the reading minus the time of day |
| DateCore.LocalDateToUtcAsWritten | mod.ts:9 | `Date.UTC` as the host evaluates it: outside years 0..99 the local date is kept; inside them the day number is that of year+1900, month, day, counted from the first of the month |
| DateCore.TwoDigitYearsLater | mod.ts:9 | as written, a clock reading in years 0..99 is normalised to a date at least 365 * 1900 days later |
| DateCore.TwoDigitYearShift | mod.ts:9 | as written, noon on 0050-06-15 normalises to 1950-06-15 |
| DateCore.LeapDayOfYearZero | mod.ts:9 | as written, February 29th of year 0 becomes 1900-03-01 |
| DateCore.ParseDate | mod.ts:16-32 | non-matching input fails with the format message; matching input is accepted exactly when its fields form a valid date, and otherwise fails with the calendar message; an accepted date has a four-digit year and is in host range |
| DateCore.ElapsedDays | mod.ts:46-48 | the millisecond difference divides exactly by 86400000, giving the difference of day numbers |
| DateCore.DaysBetweenDates | mod.ts:34-55 | succeeds exactly when every given argument parses; both labels are ten characters |
| DateCore.CanonicalMatches | mod.ts:17 | every zero-padded rendering with month < 20 and day < 40 passes the gate |
| DateCore.GateShape | mod.ts:17 | the gate fixes the dashes, the digit fields and the leading month and day digits |
| DateCore.FieldBounds | mod.ts:17 | a string that passes the gate has a year below 10000, a month below 20 and a day below 40 |
| DateCore.MatchIsCanonical | mod.ts:17 | whatever passes the gate is the zero-padded rendering of its three fields |
| DateCore.GateCharacterisation | mod.ts:17-23 | the gate accepts exactly the renderings with year < 10000, month < 20, day < 40 |
| DateCore.FieldsOfCanonical | mod.ts:17-29 | the fields read from a rendering are the numbers rendered |
| DateCore.ParseFormatRoundTrip | mod.ts:12-32 | format(parse(s)) == s for every accepted s |
| DateCore.FormatParseRoundTrip | mod.ts:12-32 | parse(format(d)) == d for every valid date with a year in 0..9999 |
| DateCore.AcceptedIffCanonical | mod.ts:16-32 | a string is accepted exactly when it is the rendering of some valid date with a year in 0..9999 |
| DateCore.ErrorKinds | mod.ts:19-29 | the message prefix `Invalid date format:` marks a gate failure and `Invalid date:` a calendar failure, never both |
| DateCore.TwoArgResult | mod.ts:41-54 | two arguments: the count is the day-number difference, end minus start, and the labels are the arguments themselves, unsorted |
| DateCore.CountsTo | mod.ts:41-54 | two arguments, the second the rendering of a date with a four-digit year: the count is that date's day-number distance from the first |
| DateCore.OneArgResult | mod.ts:38-54 | one argument: counted from today's local date, whatever the time of day, to the argument |
| DateCore.FailFast | mod.ts:38-44 | a failing argument's own error is thrown, the first argument's first |
| DateCore.SameDay | mod.ts:41-54 | a date to itself is 0 days |
| DateCore.Antisymmetric | mod.ts:46-48 | swapping the arguments negates the count |
| DateCore.SignFollowsOrder | mod.ts:46-48 | the count is positive, negative or zero exactly as the second date is later, earlier or the same |
| DateCore.Additive | mod.ts:46-48 | a to b plus b to c is a to c |
| DateCore.CountsCalendarSteps | mod.ts:46-48 | the count equals the number of calendar days stepped through, leap days included |
| DateCore.OneArgToday | mod.ts:38-40 | one argument naming today gives 0, whatever the time of day |
| DateCore.OneArgTomorrow | mod.ts:38-40 | one argument naming tomorrow gives 1 |
| DateCore.OneArgYesterday | mod.ts:38-40 | one argument naming yesterday gives -1 |
| DateCoreExamples.RejectsWrongWidth | mod_test.ts:15-19 | fields of the wrong width fail with the format message |
| DateCoreExamples.RejectsSurroundingText | mod_test.ts:21-25 | surrounding whitespace and newlines fail with the format message |
| DateCoreExamples.RejectsOtherFormats | mod_test.ts:27-38 | timestamps, slash and unpadded forms, the empty and blank strings fail with the format message |
| DateCoreExamples.RejectsOutOfPatternFields | mod_test.ts:40-44 | month 20, day 40 and 99-99 are refused by the gate, not the calendar |
| DateCoreExamples.SpellsCanonical | mod.ts:13 | a string spelling the padded digits of y, m, d is their rendering |
| DateCoreExamples.Renders | mod.ts:16-32 | a string spelling a valid date parses to it |
| DateCoreExamples.RendersNoDate | mod.ts:25-29 | a string spelling fields of no date fails with the calendar message |
| DateCoreExamples.RejectsNonexistent2020_00_00 | mod_test.ts:49 | month 00 and day 00 fail with the calendar message |
| DateCoreExamples.RejectsNonexistent2020_01_00 | mod_test.ts:50 | day 00 fails with the calendar message |
| DateCoreExamples.RejectsNonexistent2020_00_01 | mod_test.ts:51 | month 00 fails with the calendar message |
| DateCoreExamples.RejectsNonexistent2020_13_01 | mod_test.ts:54 | month 13 fails with the calendar message |
| DateCoreExamples.RejectsNonexistent2020_01_32 | mod_test.ts:55 | day 32 fails with the calendar message |
| DateCoreExamples.RejectsNonexistent2020_02_30 | mod_test.ts:56 | February 30th of a leap year fails with the calendar message |
| DateCoreExamples.RejectsNonexistent2019_02_29 | mod_test.ts:57 | February 29th of a common year fails with the calendar message |
| DateCoreExamples.AcceptsDate | mod_test.ts:91-95 | `2020-01-01` parses to 2020-01-01 |
| DateCoreExamples.AcceptsPaddedYear | mod_test.ts:96-99 | `0999-01-01` parses to year 999 |
| DateCoreExamples.CountOf | mod.ts:34-55 | the renderings of two dates give their day-number distance, labelled with the strings |
| DateCoreExamples.SameDayExample | mod_test.ts:128-137 | 2020-01-01 to itself is 0 |
| DateCoreExamples.FutureDateExample | mod_test.ts:139-148 | 2020-01-01 to 2020-01-02 is 1 |
| DateCoreExamples.PastDateExample | mod_test.ts:150-159 | 2020-01-01 to 2019-12-31 is -1, labels unsorted |
| DateCoreExamples.LeapYearExample | mod_test.ts:161-170 | 2020-02-28 to 2020-03-01 is 2 |
| DateCoreExamples.NonLeapYearExample | mod_test.ts:172-181 | 2019-02-28 to 2019-03-01 is 1 |
| DateCoreExamples.LongSpanExample | mod_test.ts:195-203 | 2020-01-01 to 2020-08-01 is 213 |
| DateCoreExamples.MonthSpanExample | mod_test.ts:206-214 | 2020-05-01 to 2020-06-01 is 31 |
| DateCoreExamples.FacadeRejects | mod_test.ts:311-351 | a rejected string makes both call forms throw its own error |
| DateCoreExamples.TwoDigitYearCount | mod.ts:34-48 | with the clock at noon on 0050-06-15, `0050-06-15` parses to year 50; the count from the as-written normalised date is -693960; the intended count, and the one `daysBetweenDates` gives in the model, is 0 |
| DateCoreExamples.StripsTimeExample | mod_test.ts:67-71 | 2020-01-01 00:01 local normalises to 2020-01-01, one minute before the wall-clock reading |
| DateCoreExamples.EpochIsDayZero | mod.ts:47 | 1970-01-01 is day 0 and the next day starts at 86400000 ms |
| Cli.SuccessLine | cli.ts:53 | the template puts the start label, ` – `, the end label, `: `, the count text and ` days` each at its place |
| Cli.SuccessMessage | cli.ts:52-55 | the line is the start label, ` – `, the end label, `: `, the day count and ` days`, each at its place |
| Cli.SuccessMessageInjective | cli.ts:50-55 | two results with equal-length labels print the same line only if they are equal |
| Cli.Run | cli.ts:20-56 | a help flag anywhere gives help/0; otherwise a count outside 1..2 gives help/1; a parse failure gives its message/1; another error escapes unchanged; a result gives its line/0; the exit code is 0 or 1, and 0 exactly for help or a result |
| Cli.HelpIgnoresCore | cli.ts:21-33 | with a help flag or a bad count the core is not consulted: any two cores give the same help output |
| Cli.RealRun | cli.ts:37-55 | over the real core nothing escapes; exit 0 exactly when every argument parses, else the first failing argument's message with exit 1 |
| Cli.MockHelp | cli_test.ts:25-85 | `--help` or `-h` at any position gives help with exit 0 |
| Cli.MockWrongCount | cli_test.ts:87-105 | zero or three arguments give help with exit 1 |
| Cli.MockParseFailure | cli_test.ts:107-125 | a parse failure prints its message with exit 1, for one argument or two |
| Cli.MockRethrow | cli_test.ts:127-183 | a foreign error escapes unchanged, for one argument or two |
| Cli.FortyTwo | cli.ts:53 | the count 42 prints as `42` |
| Cli.MockSuccess | cli.ts:50-55 | any accepted mock call prints `start – end: 42 days` with exit 0 |
| Cli.MockFormatOneArg | cli_test.ts:185-193 | one argument prints `ARG_ONE – OMITTED_DATE: 42 days` |
| Cli.MockFormatTwoArgs | cli_test.ts:195-203 | two arguments print `ARG_ONE – ARG_TWO: 42 days` |

## Findings

| source | as written | input that shows it | evidently intended | confidence | as-written member | corrected member |
|---|---|---|---|---|---|---|
| mod.ts:9 | `Date.UTC(d.getFullYear(), d.getMonth(), d.getDate())` reads a local year in 0..99 as 1900..1999 | a clock at noon on 0050-06-15 local and `daysBetweenDates("0050-06-15")`: start 1950-06-15, -693960 days | the UTC midnight of the local date itself: start 0050-06-15, 0 days | high; not executed | DateCore.LocalDateToUtcAsWritten | DateCore.LocalDateToUtc |

`DateCore.TwoDigitYearShift`, `DateCoreExamples.TwoDigitYearCount`, `DateCore.TwoDigitYearsLater` and `DateCore.LeapDayOfYearZero` exhibit the as-written behaviour. `DateCore.LocalMidnight` proves the intended property of the corrected normaliser, which `DateCore.DaysBetweenDates` uses.

## Left out

- The wall clock (`new Date()`, mod.ts:39) is the `today` parameter: a local reading with calendar fields and time of day.
- Time zones and daylight saving are not modelled. `LocalDateTime` is the host's local reading, whatever offset produced it. Only the integer count carries over from the daylight-saving tests.
- `Date.parse` (mod.ts:25-29) is replaced by an explicit Gregorian validity check: month 1..12 and day 1..length of the month. The code itself relies on the host returning NaN for an impossible date. A host that rolls day overflow into the next month would accept `2020-02-30`; the model does not capture such a host.
- The `DateParseError` class (mod.ts:1-6) is a datatype holding its message. Its `name` field and the `Error` prototype chain are not modelled.
- `toISOString` (mod.ts:13) is modelled for the whole host range, including its six-digit-year form. The host's `RangeError` for an invalid date cannot arise, because every date reaching it is valid.
- The division by the milliseconds in a day (mod.ts:48) is a float division in the source. The model uses exact integer division and proves it exact, so no rounding can occur.
- The regular expression engine is not modelled. The pattern is written out as ten character classes over the whole string.
- Process I/O (cli.ts:58-66) is left out: `console.log`/`console.error` and `Deno.exit`.
- The help text (cli.ts:3-13) is a string constant, written out but not reasoned about.
- The tests import `cli` and `HELP` and expect the fields `startISO`/`endISO`, which the shown sources do not provide. The model follows the sources: `main` is `Run`, and the fields are `startDate`/`endDate`. The tests are used only for the behaviour they share with the sources.
- The one-argument daylight-saving test is not modelled as a literal case. It needs the host's time zone; `OneArgResult` covers it for every clock reading.
- The 1-argument tests that depend on the run date are stated for every `today` as `OneArgToday`, `OneArgTomorrow` and `OneArgYesterday`.
- LocalDateToUtc: models the intended normaliser, which keeps the local year. For a clock reading in years 0..99 the code as written uses year+1900 (see "## Findings"); `LocalDateToUtcAsWritten` models that.
- OneArgResult: states the count from the local date itself; for a clock reading in years 0..99 the code as written counts from year+1900 instead.
- OneArgToday: gives 0 under the intended normaliser; for a clock reading in years 0..99 the code as written gives about -694000.
- OneArgTomorrow: gives 1 under the intended normaliser; not for a clock reading in years 0..99 as written.
- OneArgYesterday: gives -1 under the intended normaliser; not for a clock reading in years 0..99 as written.
