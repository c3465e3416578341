/**
 * The command-line front end: `main` turns the argument list into a message
 * and an exit code, consulting the date core only when it is called with one
 * or two arguments and no help flag. The core is a parameter, so that any
 * implementation of `daysBetweenDates` can be plugged in, the real one
 * included.
 */
module Cli {
  import opened Decimal
  import opened DateCore

  /** The usage text; `$exe` stays literal, since the template has no `${exe}`. */
  const Help: string :=
    "Calculate the number of days between 2 ISO-formatted dates.\n"
    + "\n"
    + "USAGE:\n"
    + "    $exe [start-date] <end-date>\n"
    + "\n"
    + "    `start-date` defaults to today.\n"
    + "\n"
    + "EXAMPLE:\n"
    + "    # Days between Deno v0.0.1 and v1.0.0\n"
    + "    $exe 2018-08-17 2020-05-13\n"

  /** What the process prints and the status it exits with. */
  datatype CliOutput = CliOutput(message: string, exitCode: int)

  /** How a call of `daysBetweenDates` ends: a result, a `DateParseError`, or any other thrown value. */
  datatype CoreOutcome<E> =
    | Returned(result: DaysResult)
    | ParseFailure(error: DateParseError)
    | OtherFailure(thrown: E)

  /** How `main` ends: with an output, or by letting a foreign error escape. */
  datatype RunOutcome<E> =
    | Output(output: CliOutput)
    | Rethrown(thrown: E)

  predicate HasHelpFlag(args: seq<string>) {
    "-h" in args || "--help" in args
  }

  /** Spreading one or two arguments into `daysBetweenDates(date1, date2?)`. */
  function CallCore<E>(core: (string, Option<string>) -> CoreOutcome<E>, args: seq<string>): CoreOutcome<E>
    requires 1 <= |args| <= 2
  {
    core(args[0], if |args| == 2 then Some(args[1]) else None)
  }

  /** The template `${startDate} – ${endDate}: ${days} days`, with the count already written out. */
  function SuccessLine(start: string, end: string, count: string): (m: string)
    ensures |m| == |start| + |end| + |count| + 10
    ensures m[..|start|] == start
    ensures m[|start|..|start| + 3] == " – "
    ensures m[|start| + 3..|start| + 3 + |end|] == end
    ensures m[|start| + 3 + |end|..|start| + 5 + |end|] == ": "
    ensures m[|start| + 5 + |end|..|m| - 5] == count
    ensures m[|m| - 5..] == " days"
  {
    var last := count + " days";
    var tail := end + ": " + last;
    var m := start + " – " + end + ": " + count + " days";
    assert m == start + " – " + tail;
    assert last[..|count|] == count;
    assert tail[|end| + 2..] == last;
    assert m[|start| + 3..] == tail;
    m
  }

  /** The success line: both dates, an en dash between them, and the signed day count. */
  function SuccessMessage(r: DaysResult): (m: string)
    ensures |m| == |r.startDate| + |r.endDate| + |IntToString(r.days)| + 10
    ensures m[..|r.startDate|] == r.startDate
    ensures m[|r.startDate|..|r.startDate| + 3] == " – "
    ensures m[|r.startDate| + 3..|r.startDate| + 3 + |r.endDate|] == r.endDate
    ensures m[|r.startDate| + 3 + |r.endDate|..|r.startDate| + 5 + |r.endDate|] == ": "
    ensures m[|r.startDate| + 5 + |r.endDate|..|m| - 5] == IntToString(r.days)
    ensures m[|m| - 5..] == " days"
  {
    SuccessLine(r.startDate, r.endDate, IntToString(r.days))
  }

  /** `main(args)`, with the date core passed in. */
  function Run<E>(core: (string, Option<string>) -> CoreOutcome<E>, args: seq<string>): (r: RunOutcome<E>)
    ensures HasHelpFlag(args) ==> r == Output(CliOutput(Help, 0))
    ensures !HasHelpFlag(args) && (|args| < 1 || |args| > 2) ==> r == Output(CliOutput(Help, 1))
    ensures !HasHelpFlag(args) && 1 <= |args| <= 2 ==>
      match CallCore(core, args)
      case Returned(res) => r == Output(CliOutput(SuccessMessage(res), 0))
      case ParseFailure(err) => r == Output(CliOutput(err.message, 1))
      case OtherFailure(e) => r == Rethrown(e)
    ensures r.Output? ==> r.output.exitCode == 0 || r.output.exitCode == 1
    ensures r.Output? && r.output.exitCode == 0 <==>
      HasHelpFlag(args) || (1 <= |args| <= 2 && CallCore(core, args).Returned?)
    ensures r.Rethrown? <==>
      !HasHelpFlag(args) && 1 <= |args| <= 2 && CallCore(core, args).OtherFailure?
  {
    if HasHelpFlag(args) then Output(CliOutput(Help, 0))
    else if |args| < 1 || |args| > 2 then Output(CliOutput(Help, 1))
    else
      match CallCore(core, args)
      case Returned(res) => Output(CliOutput(SuccessMessage(res), 0))
      case ParseFailure(err) => Output(CliOutput(err.message, 1))
      case OtherFailure(e) => Rethrown(e)
  }

  /** Reading a success line back gives the result: two results whose labels have equal lengths print differently. */
  lemma SuccessMessageInjective(a: DaysResult, b: DaysResult)
    requires |a.startDate| == |b.startDate| && |a.endDate| == |b.endDate|
    ensures SuccessMessage(a) == SuccessMessage(b) <==> a == b
  {
    if SuccessMessage(a) == SuccessMessage(b) {
      var ma, mb := SuccessMessage(a), SuccessMessage(b);
      var lo, hi := |a.startDate| + 5 + |a.endDate|, |ma| - 5;
      assert IntToString(a.days) == ma[lo..hi] == mb[lo..hi] == IntToString(b.days);
      IntToStringInjective(a.days, b.days);
    }
  }

  /** With a help flag the core is never consulted: any two cores give the same outcome. */
  lemma HelpIgnoresCore<E>(core1: (string, Option<string>) -> CoreOutcome<E>,
                           core2: (string, Option<string>) -> CoreOutcome<E>, args: seq<string>)
    requires HasHelpFlag(args) || |args| < 1 || |args| > 2
    ensures Run(core1, args) == Run(core2, args)
    ensures Run(core1, args).Output? && Run(core1, args).output.message == Help
  {
  }

  /** The real core, with the clock reading `today`: a parse failure is its only error. */
  function RealCore<E>(today: LocalDateTime): (string, Option<string>) -> CoreOutcome<E>
    requires ValidLocal(today)
  {
    (date1: string, date2: Option<string>) =>
      match DaysBetweenDates(today, date1, date2)
      case Ok(res) => Returned(res)
      case Fail(err) => ParseFailure(err)
  }

  /**
   * Over the real core, `main` never lets an error escape, and it succeeds
   * exactly when every date argument parses; a failure prints the message of
   * the first argument that does not.
   */
  lemma RealRun<E>(today: LocalDateTime, args: seq<string>)
    requires ValidLocal(today) && !HasHelpFlag(args) && 1 <= |args| <= 2
    ensures Run(RealCore<E>(today), args).Output?
    ensures Run(RealCore<E>(today), args).output.exitCode == 0 <==>
      ParseDate(args[0]).Ok? && (|args| == 2 ==> ParseDate(args[1]).Ok?)
    ensures ParseDate(args[0]).Fail? ==>
      Run(RealCore<E>(today), args).output == CliOutput(ParseDate(args[0]).error.message, 1)
    ensures ParseDate(args[0]).Ok? && |args| == 2 && ParseDate(args[1]).Fail? ==>
      Run(RealCore<E>(today), args).output == CliOutput(ParseDate(args[1]).error.message, 1)
  {
    var date2 := if |args| == 2 then Some(args[1]) else None;
    assert CallCore(RealCore<E>(today), args) ==
      match DaysBetweenDates(today, args[0], date2)
      case Ok(res) => Returned(res)
      case Fail(err) => ParseFailure(err);
    FailFast(today, args[0], if |args| == 2 then args[1] else args[0]);
  }

  // ----- The cases the repository's tests exercise, with a mock core -----

  /** The thrown value the mock cores use. */
  datatype MockError = MockError

  /** Fails to parse `INVALID_DATE` in either position, and otherwise returns 42 days between the labels. */
  function MockCore(date1: string, date2: Option<string>): CoreOutcome<MockError> {
    if date1 == "INVALID_DATE" || date2 == Some("INVALID_DATE") then ParseFailure(DateParseError("INVALID_DATE"))
    else Returned(DaysResult(42, date1, if date2.Some? then date2.value else "OMITTED_DATE"))
  }

  /** A core that always throws a foreign error. */
  function ThrowingCore(date1: string, date2: Option<string>): CoreOutcome<MockError> {
    OtherFailure(MockError)
  }

  /** `--help` or `-h` anywhere wins over a bad count and over bad dates. */
  lemma MockHelp()
    ensures forall args | args in [
        ["--help"], ["--help", "INVALID_DATE"], ["--help", "INVALID_DATE", "INVALID_DATE"],
        ["INVALID_DATE", "--help", "INVALID_DATE"], ["INVALID_DATE", "INVALID_DATE", "--help"],
        ["-h"], ["-h", "INVALID_DATE"], ["-h", "INVALID_DATE", "INVALID_DATE"],
        ["INVALID_DATE", "-h", "INVALID_DATE"], ["INVALID_DATE", "INVALID_DATE", "-h"]] ::
      Run(MockCore, args) == Output(CliOutput(Help, 0))
  {
  }

  /** No arguments, or three, print the usage and fail. */
  lemma MockWrongCount()
    ensures Run(MockCore, []) == Output(CliOutput(Help, 1))
    ensures Run(MockCore, ["1", "2", "3"]) == Output(CliOutput(Help, 1))
  {
  }

  /** A parse failure prints its own message and fails. */
  lemma MockParseFailure()
    ensures Run(MockCore, ["INVALID_DATE"]) == Output(CliOutput("INVALID_DATE", 1))
    ensures Run(MockCore, ["INVALID_DATE", "INVALID_DATE"]) == Output(CliOutput("INVALID_DATE", 1))
  {
  }

  /** A foreign error escapes unchanged, with one argument or two. */
  lemma MockRethrow()
    ensures Run(ThrowingCore, ["1"]) == Rethrown(MockError)
    ensures Run(ThrowingCore, ["1", "2"]) == Rethrown(MockError)
  {
  }

  /** The day count of the mock prints as `42`. */
  lemma FortyTwo()
    ensures IntToString(42) == "42"
  {
    assert NatToString(42) == NatToString(4) + [DigitChar(2)];
  }

  /** Any accepted call of the mock prints its labels around `42 days`. */
  lemma MockSuccess(args: seq<string>, endLabel: string)
    requires 1 <= |args| <= 2 && !HasHelpFlag(args) && "INVALID_DATE" !in args
    requires endLabel == if |args| == 2 then args[1] else "OMITTED_DATE"
    ensures Run(MockCore, args) == Output(CliOutput(args[0] + " – " + endLabel + ": " + "42" + " days", 0))
  {
    FortyTwo();
    assert CallCore(MockCore, args) == Returned(DaysResult(42, args[0], endLabel));
  }

  /** A result for one argument prints as `start – end: N days`. */
  lemma MockFormatOneArg()
    ensures Run(MockCore, ["ARG_ONE"]) == Output(CliOutput("ARG_ONE" + " – " + "OMITTED_DATE" + ": " + "42" + " days", 0))
  {
    MockSuccess(["ARG_ONE"], "OMITTED_DATE");
  }

  /** A result for two arguments prints as `start – end: N days`. */
  lemma MockFormatTwoArgs()
    ensures Run(MockCore, ["ARG_ONE", "ARG_TWO"]) == Output(CliOutput("ARG_ONE" + " – " + "ARG_TWO" + ": " + "42" + " days", 0))
  {
    MockSuccess(["ARG_ONE", "ARG_TWO"], "ARG_TWO");
  }
}
