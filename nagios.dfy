/** The status levels of a Nagios plugin and the process exit codes that carry them. */
module Nagios {
  import opened Results

  datatype Status = OK | WARNING | CRITICAL | UNKNOWN

  /** The exit code constants OK = 0, WARNING = 1, CRITICAL = 2, UNKNOWN = 3. */
  function ExitCode(s: Status): (code: int)
    ensures 0 <= code <= 3
  {
    match s
    case OK => 0
    case WARNING => 1
    case CRITICAL => 2
    case UNKNOWN => 3
  }

  /** The status a supervisor reads from an exit code; codes above 3 carry none. */
  function StatusOf(code: int): (r: Option<Status>)
    ensures r.Some? <==> 0 <= code <= 3
  {
    if code == 0 then Some(OK)
    else if code == 1 then Some(WARNING)
    else if code == 2 then Some(CRITICAL)
    else if code == 3 then Some(UNKNOWN)
    else None
  }

  /** The exit code and the status determine each other. */
  lemma ExitCodeRoundTrip(s: Status, code: int)
    ensures StatusOf(ExitCode(s)) == Some(s)
    ensures 0 <= code <= 3 ==> ExitCode(StatusOf(code).value) == code
  {
  }

  /** No two statuses share an exit code. */
  lemma ExitCodeInjective(s: Status, t: Status)
    requires ExitCode(s) == ExitCode(t)
    ensures s == t
  {
    ExitCodeRoundTrip(s, 0);
    ExitCodeRoundTrip(t, 0);
  }
}
