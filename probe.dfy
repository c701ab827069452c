/**
 * One run of the probe (`main` from the threshold check on): validate the
 * thresholds, query the DCV search, normalise the records, classify them and
 * end with one status and one message. The search capability and today's date
 * are parameters; the queries sent to the search are recorded in the result,
 * so that "no fetch" can be stated.
 */
module Probe {
  import opened Results
  import opened Decimal
  import opened Calendar
  import opened Sequences
  import opened Fetcher
  import opened Nagios
  import opened Aggregator

  /** `DCV.search(expiresIn=days)`: the records for a filter, or the text of the exception it raised. */
  type Search = int -> Result<seq<RawRecord>, string>

  /** The status and message a run ends with, and the `expiresIn` filters it sent upstream. */
  datatype RunResult = RunResult(queries: seq<int>, status: Status, message: string)

  function ConfigErrorMessage(warn: int, crit: int): string {
    "Error : warning value must be greater than critical ( " + IntToString(warn) + " > "
    + IntToString(crit) + " )"
  }

  /** Python's `str(ex)` for the exceptions the fetcher raises. */
  function ErrorText(e: FetchError): string {
    match e
    case MissingField(key) => "'" + key + "'"
    case BadDate(text, FormatMismatch) => "time data '" + text + "' does not match format '%Y-%m-%d'"
    case BadDate(_, YearOutOfRange) => "year 0 is out of range"
    case BadDate(_, DayOutOfRange) => "day is out of range for month"
  }

  function ExceptionMessage(text: string): string {
    "Exception raised: " + text
  }

  /** The fetch step fails: the search raised, or a record did not decode. */
  predicate FetchFails(warn: int, search: Search, today: Date)
    requires ValidDate(today)
  {
    search(warn).Err? || Normalise(search(warn).value, today).Err?
  }

  /** What a run decides, with every failure of the fetch reported as UNKNOWN. */
  function Run(warn: int, crit: int, search: Search, today: Date): RunResult
    requires ValidDate(today)
  {
    if warn < crit then RunResult([], UNKNOWN, ConfigErrorMessage(warn, crit))
    else
      match search(warn)
      case Err(text) => RunResult([warn], UNKNOWN, ExceptionMessage(text))
      case Ok(records) =>
        match Normalise(records, today)
        case Err(e) => RunResult([warn], UNKNOWN, ExceptionMessage(ErrorText(e)))
        case Ok(domains) =>
          var r := Aggregate(domains, warn, crit);
          RunResult([warn], r.status, r.message)
  }

  /** The body of `main` from the threshold check to the final status. */
  method Check(warn: int, crit: int, search: Search, today: Date) returns (res: RunResult)
    requires ValidDate(today)
    ensures res == Run(warn, crit, search, today)
  {
    if warn < crit {
      return RunResult([], UNKNOWN, ConfigErrorMessage(warn, crit));
    }
    var answer := search(warn);
    if answer.Err? {
      return RunResult([warn], UNKNOWN, ExceptionMessage(answer.error));
    }
    var domains := GetDomainExpireIn(answer.value, today);
    if domains.Err? {
      return RunResult([warn], UNKNOWN, ExceptionMessage(ErrorText(domains.error)));
    }
    var result := Evaluate(domains.value, warn, crit);
    return RunResult([warn], result.status, result.message);
  }

  /** Thresholds with `warn < crit` end the run as UNKNOWN before any query is sent. */
  lemma ConfigRejectedBeforeFetch(warn: int, crit: int, search: Search, today: Date)
    requires ValidDate(today)
    ensures Run(warn, crit, search, today).queries == [] <==> warn < crit
    ensures warn < crit ==>
      Run(warn, crit, search, today).status == UNKNOWN && ExitCode(Run(warn, crit, search, today).status) == 3
    ensures warn >= crit ==> Run(warn, crit, search, today).queries == [warn]
  {
  }

  /**
   * A run ends UNKNOWN exactly when the thresholds are rejected or the fetch
   * fails; a failed fetch aborts the run with no partial report.
   */
  lemma UnknownExactlyOnFailure(warn: int, crit: int, search: Search, today: Date)
    requires ValidDate(today)
    ensures Run(warn, crit, search, today).status == UNKNOWN <==>
      warn < crit || FetchFails(warn, search, today)
  {
    if warn >= crit && !FetchFails(warn, search, today) {
      AggregateStatus(Normalise(search(warn).value, today).value, warn, crit);
    }
  }

  /** With thresholds accepted and nothing found, the run is OK with the fixed message. */
  lemma NothingFoundIsOk(warn: int, crit: int, search: Search, today: Date)
    requires ValidDate(today) && warn >= crit && search(warn).Ok?
    requires Normalise(search(warn).value, today) == Ok([])
    ensures Run(warn, crit, search, today).status == OK
    ensures Run(warn, crit, search, today).message == "No domain will expire within " + IntToString(warn) + " days"
    ensures ExitCode(Run(warn, crit, search, today).status) == 0
  {
  }

  /**
   * A reported run lists the renderings of the non-wildcard records only: no
   * item of the joined list starts with `*.`, and the count is that of the
   * findings.
   */
  lemma NoWildcardInMessage(warn: int, crit: int, search: Search, today: Date)
    requires ValidDate(today) && warn >= crit && !FetchFails(warn, search, today)
    requires Normalise(search(warn).value, today).value != []
    ensures var fs := Normalise(search(warn).value, today).value;
      var r := Run(warn, crit, search, today);
      r.message == AlertMessage(|fs|, if r.status == CRITICAL then crit else warn, Renderings(fs, crit))
      && forall k :: 0 <= k < |Renderings(fs, crit)| ==> !StartsWith(Renderings(fs, crit)[k], "*.")
  {
    var fs := Normalise(search(warn).value, today).value;
    AggregateStatus(fs, warn, crit);
    NoWildcardFinding(search(warn).value, today);
    RenderingsKeepPrefix(fs, crit);
  }

  /** CPython's exit status when an exception escapes the program. */
  const UncaughtExceptionStatus := 1

  /**
   * The exit status of `main` as written. A failed fetch enters the `except`
   * branch, whose `sys.exit(UNKNOWN)` is replaced by the `finally` branch's
   * `sys.exit(nagiosExit)`; `nagiosExit` was never assigned on that path, so
   * that line raises `UnboundLocalError`, which escapes the program.
   */
  function ExitStatusAsWritten(warn: int, crit: int, search: Search, today: Date): int
    requires ValidDate(today)
  {
    if warn < crit then ExitCode(UNKNOWN)
    else if FetchFails(warn, search, today) then UncaughtExceptionStatus
    else ExitCode(Aggregate(Normalise(search(warn).value, today).value, warn, crit).status)
  }

  /** As written, a failed fetch exits with the WARNING code, not UNKNOWN. */
  lemma AbortExitsOneAsWritten(warn: int, crit: int, search: Search, today: Date)
    requires ValidDate(today) && warn >= crit && FetchFails(warn, search, today)
    ensures ExitStatusAsWritten(warn, crit, search, today) == ExitCode(WARNING)
    ensures ExitCode(Run(warn, crit, search, today).status) == ExitCode(UNKNOWN) == 3
  {
    UnknownExactlyOnFailure(warn, crit, search, today);
  }

  /** On every other path the exit status as written is the code of the status `Run` decides. */
  lemma AsWrittenAgreesOtherwise(warn: int, crit: int, search: Search, today: Date)
    requires ValidDate(today) && !(warn >= crit && FetchFails(warn, search, today))
    ensures ExitStatusAsWritten(warn, crit, search, today) == ExitCode(Run(warn, crit, search, today).status)
  {
  }
}
