# check-sectigo-dcv: the decision logic of the DCV expiry probe

`check-dcv.py` is a Nagios plugin. It asks the Sectigo certificate manager for
the Domain Control Validation (DCV) records that expire within `warn` days. It
turns each record into a finding with the number of days left, and drops
wildcard domains (`*.`). It sorts the findings into a critical bucket
(`expireInDays <= crit`) and a warning bucket. It then ends with one status
(OK, WARNING, CRITICAL or UNKNOWN) and one message.

This project models that logic in Dafny and proves what it promises:

- `Fetcher` models `getDomainExpireIn`. It is a loop over the search result
  that reads five keys, parses `expirationDate` with `%Y-%m-%d`, counts the
  days from today, and skips wildcard domains. The method is proved equal to a
  specification function `Normalise`. Lemmas then characterise `Normalise`:
  - the run fails exactly when some record does not decode, and it reports the
    first failure;
  - a bad date aborts the run even in a wildcard record;
  - a successful run keeps exactly the non-wildcard records, each once, in
    upstream order.
- `Calendar` holds the dates `datetime.date` handles: the leap-year and
  month-length rules of section 5.7 of RFC 3339, and `toordinal()` in the
  closed form Python uses. It proves that ordinals count calendar days (the
  next day has the next ordinal, and `n` days later has `n` more). It proves
  that the sign of a day difference is the calendar order. It also proves that
  the strict `YYYY-MM-DD` parser (the full-date of section 5.6 of RFC 3339)
  and the date's canonical text are inverse to each other.
- `Aggregator` models the classification loop of `main` (lines 124-141). The
  loop is proved equal to `Aggregate`. Lemmas about `Aggregate` cover:
  - the partition into buckets;
  - the status and the quoted delay;
  - the joined list, which is a permutation of all renderings, critical first,
    with input order kept in each group;
  - monotonicity in `crit`;
  - the layout of the final string.
- `Nagios` holds the exit-code constants and their inverse.
- `Probe` models `main` from the threshold check on. `Check` is the method and
  `Run` its specification:
  - reversed thresholds end UNKNOWN with no query sent;
  - every failed fetch ends UNKNOWN;
  - no wildcard domain reaches the message.

  `ExitStatusAsWritten` models the exit status that the `try`/`finally` at
  check-dcv.py:121-155 actually produces (see Findings).
- `Decimal` and `Sequences` hold the text and list operations used:
  - `str()` of an integer, with a proof that it reads back;
  - `str.startswith`;
  - `', '.join`, with its layout proved;
  - filtering, characterised by positions.
- `Scenarios` works out concrete runs: no findings, one warning, a critical
  finding listed first, a dropped wildcard, a day-first date, reversed
  thresholds, and an already expired date.

The search capability is a parameter `search: int -> Result<seq<RawRecord>,
string>`: the records for an `expiresIn` filter, or the text of the exception
it raised. So is today's date. A raw record is a `map<string, string>`, so a
missing key is the `KeyError` the loop would raise.

Where the code and the design description disagree, the model follows the code:

- The thresholds are only checked for `warn < crit`. Nothing rejects a
  negative `crit` (check-dcv.py:115).
- On the empty path the program exits 0, not UNKNOWN. `sys.exit(OK)` at
  line 149 raises `SystemExit`. That is not an `Exception`, so the `except`
  does not catch it. The `finally` then exits with `nagiosExit`, which is
  `OK`.
- The failure path does not exit with UNKNOWN (see Findings).

## Model

| member | source | states |
|---|---|---|
| Nagios.ExitCode | check-dcv.py:28-31 | the exit code of every status lies in 0..3 |
| Nagios.ExitCodeRoundTrip | check-dcv.py:28-31 | the constants OK=0, WARNING=1, CRITICAL=2, UNKNOWN=3 and the status a supervisor reads back determine each other |
| Nagios.ExitCodeInjective | check-dcv.py:28-31 | no two statuses share an exit code |
| Decimal.DigitsRoundTrip | check-dcv.py:74 | a number written in a fixed number of digits reads back as itself |
| Decimal.ValueOfRoundTrip | check-dcv.py:74 | a digit string read as a number and written back at its width is itself |
| Decimal.IntToStringRoundTrip | check-dcv.py:136-141 | `str()` of any integer, negative ones included, reads back as the integer, so a rendering carries the exact day count |
| Decimal.IntToStringInjective | check-dcv.py:136-141 | distinct integers are rendered differently |
| Calendar.ParseDate | check-dcv.py:74 | a parsed date is a valid calendar date; the format error occurs exactly when the text is not strict YYYY-MM-DD |
| Calendar.ParseFormatRoundTrip | check-dcv.py:74 | every valid date with a four-digit year is parsed back from its own YYYY-MM-DD text |
| Calendar.FormatParseRoundTrip | check-dcv.py:74 | a text that parses is exactly the canonical text of its date, so parsing is strict |
| Calendar.DaysBeforeNextYear | check-dcv.py:75 | the closed-form day count grows by 366 after a leap year and by 365 after any other year |
| Calendar.NextDayOrdinal | check-dcv.py:75 | the calendar day after a date has the next ordinal |
| Calendar.AdvanceOrdinal | check-dcv.py:75 | `n` calendar days later is `n` ordinals later |
| Calendar.DayDifferenceCountsDays | check-dcv.py:75-87 | the day difference to `n` days later is `n`, and back it is `-n` |
| Calendar.DayDifferenceSign | check-dcv.py:75-87 | the day difference is positive, zero or negative exactly when the expiration is after, on or before today |
| Fetcher.Decode | check-dcv.py:69-88 | a record decodes exactly when it has the five keys and a parsable date; `expireInDays` is the day difference from today to that date; a failure names a missing key or the date and its reason |
| Fetcher.GetDomainExpireIn | check-dcv.py:67-91 | the loop returns exactly `Normalise` of the records: the first failure, or the decoded non-wildcard records |
| Fetcher.NormaliseErrorPersists | check-dcv.py:68-79 | once a record fails, the rest of the loop never runs and the run fails with that error |
| Fetcher.NormaliseSucceeds | check-dcv.py:68-79 | the fetch succeeds if and only if every record decodes, wildcard records included |
| Fetcher.NormaliseFirstError | check-dcv.py:68-79 | a failed fetch reports the error of the first record that does not decode |
| Fetcher.UnparsableDateAborts | check-dcv.py:74-79 | an unparsable date aborts the whole run, even in a record whose domain is a wildcard |
| Fetcher.NormaliseKeepsNonWildcards | check-dcv.py:68-91 | the `k`-th finding decodes the record at the `k`-th kept position; the positions strictly increase and are exactly the records without a `*.` domain |
| Fetcher.NoWildcardFinding | check-dcv.py:77-79 | no finding has a domain starting with `*.` |
| Sequences.JoinLength | check-dcv.py:140 | the joined string is as long as the items plus one separator between each two |
| Sequences.JoinItemAt | check-dcv.py:140 | every item appears whole at its offset in the joined string |
| Sequences.JoinSeparatorAt | check-dcv.py:140 | a separator follows every item but the last |
| Sequences.JoinAppend | check-dcv.py:140 | joining two non-empty lists is joining each, with one separator between |
| Sequences.FilterAtPositions | check-dcv.py:78-89 | a filter is its input read at strictly increasing positions, which are exactly the indices whose element passes |
| Aggregator.Evaluate | check-dcv.py:124-141 | the classification loop and its message equal `Aggregate` of the findings |
| Aggregator.BucketsPartition | check-dcv.py:132-138 | every finding lands in exactly one bucket, the critical one if and only if `expireInDays <= crit`; the buckets together are the findings |
| Aggregator.AggregateStatus | check-dcv.py:124-141 | OK exactly when there are no findings, with the fixed message; CRITICAL exactly when some finding is critical; WARNING otherwise; never UNKNOWN; the delay quoted is `crit` for CRITICAL and `warn` otherwise |
| Aggregator.RenderingsPermutation | check-dcv.py:132-140 | the joined list holds every finding's rendering exactly as often as the finding occurs, and no other item |
| Aggregator.RenderingsOrder | check-dcv.py:132-140 | the joined list is the critical renderings at increasing input positions, then the warning renderings at increasing input positions |
| Aggregator.CriticalMonotone | check-dcv.py:133-135 | lowering `crit` only thins the critical bucket and only grows the warning bucket, and a run CRITICAL under the lower threshold is CRITICAL under the higher one |
| Aggregator.MessageCriticalFirst | check-dcv.py:140-141 | with both buckets non-empty, the message is the header with the total count and `crit`, the critical items, one separator, then the warning items |
| Aggregator.RenderKeepsPrefix | check-dcv.py:136-138 | a rendering starts with `*.` only when its domain does |
| Aggregator.RenderingsKeepPrefix | check-dcv.py:136-140 | without wildcard findings, no item of the joined list starts with `*.` |
| Probe.Check | check-dcv.py:115-149 | the body of `main` decides exactly what `Run` states |
| Probe.ConfigRejectedBeforeFetch | check-dcv.py:115-122 | no query is sent if and only if `warn < crit`, and then the run is UNKNOWN with exit code 3; otherwise exactly one query, for `warn` days |
| Probe.UnknownExactlyOnFailure | check-dcv.py:115-153 | a run ends UNKNOWN if and only if the thresholds are rejected or the search or a record fails |
| Probe.NothingFoundIsOk | check-dcv.py:124-149 | with nothing found the run is OK, exit code 0, with the message "No domain will expire within {warn} days" |
| Probe.NoWildcardInMessage | check-dcv.py:77-141 | a reported run's message counts all findings, quotes the delay of its status, and no joined item starts with `*.` |
| Probe.AbortExitsOneAsWritten | check-dcv.py:150-155 | as written, a failed fetch exits with code 1, the WARNING code; the intended run is UNKNOWN, code 3 |
| Probe.AsWrittenAgreesOtherwise | check-dcv.py:115-155 | on every other path the exit status as written is the code of the status `Run` decides |
| Scenarios.NothingFound | check-dcv.py:124-125 | no findings with `warn=30`: OK, "No domain will expire within 30 days" |
| Scenarios.OneWarning | check-dcv.py:129-141 | one finding at 20 days with 30/15: WARNING, "1 domain is about to expire within 30 days : a.example.com (20)" |
| Scenarios.CriticalListedFirst | check-dcv.py:129-141 | findings at 20 and 5 days with 30/15: CRITICAL, delay 15, the 5-day domain listed first, count 2 |
| Scenarios.WildcardDropped | check-dcv.py:77-79 | a lone `*.example.com` record gives OK with the nothing-found message |
| Scenarios.DayFirstDateAborts | check-dcv.py:74-155 | the date `31-02-2024` aborts the run as UNKNOWN, code 3; as written the process exits 1 |
| Scenarios.ThresholdsReversed | check-dcv.py:115-117 | `warn=5, crit=10` gives UNKNOWN with the threshold error and no query |
| Scenarios.AlreadyExpired | check-dcv.py:74-87 | an expiration two days before today gives `expireInDays = -2` |

## Left out

- The `Client` construction and the `SECTIGO_API_*` environment variables (check-dcv.py:58-65). They are network and authentication plumbing. The search is a parameter.
- build/dcv.py and the pagination behind `DCV.search`. They are a REST wrapper that cannot be seen through. Each run sees the search result as one finite list or one exception text.
- Argument parsing (check-dcv.py:43-54). `warn` and `crit` are parameters. This includes the defaults of 30 and 15 days.
- Logging (check-dcv.py:33-41, 101-113, 144-148, 151-152). This covers the renamed level names, stdout, and the traceback. The level name the code registers is `UNKOWN`, spelt that way, so the status line it prints is not modelled. The model keeps the status as a value.
- `sys.exit` as control flow. A run's exit code is `ExitCode` of its status. `ExitStatusAsWritten` models only the exit status that the `try`/`finally` produces.
- `date.today()` and the clock. Today is a parameter.
- Calendar.ParseDate: does not model the leniency of `strptime`. Python also accepts one-digit months and days and a day written ` 5`; the model reads only strict `YYYY-MM-DD`. The upper year bound 9999 comes from the four-digit field.
- Probe.ErrorText: for a text that is not strict `YYYY-MM-DD`, it gives the text of the "does not match format" error. Python sometimes raises "unconverted data remains" instead, and `repr` escapes are not reproduced. Every such text still aborts the run.
- JSON values that are not strings, such as a `null` domain, are not modelled. A raw record maps keys to strings.

## Findings

| source | as written | input that shows it | evidently intended | confidence | as-written member | corrected member |
|---|---|---|---|---|---|---|
| check-dcv.py:150-155 | when `getDomainExpireIn` raises, the `except` also calls `sys.exit(UNKNOWN)`. The `finally` then runs `sys.exit(nagiosExit)`, but `nagiosExit` was never assigned on that path. That raises `UnboundLocalError`, which replaces the `SystemExit(3)` and escapes, so the interpreter exits 1 | the search yields a record with `expirationDate = "31-02-2024"`, with `warn=30, crit=15` | exit 3 (UNKNOWN), as the `except` branch asks | high; not executed | Probe.AbortExitsOneAsWritten | Probe.UnknownExactlyOnFailure |
