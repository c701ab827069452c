/** Concrete runs of the probe, worked out by the verifier. */
module Scenarios {
  import opened Results
  import opened Decimal
  import opened Calendar
  import opened Sequences
  import opened Fetcher
  import opened Nagios
  import opened Aggregator
  import opened Probe

  function At(domain: string, days: int): Finding {
    Finding(domain, "VALIDATED", "VALIDATED", "CNAME", "", days)
  }

  function Record(domain: string, expirationDate: string): RawRecord {
    map["domain" := domain, "dcvStatus" := "VALIDATED", "dcvOrderStatus" := "VALIDATED",
        "dcvMethod" := "CNAME", "expirationDate" := expirationDate]
  }

  lemma Numerals()
    ensures IntToString(1) == "1" && IntToString(2) == "2" && IntToString(5) == "5"
    ensures IntToString(15) == "15" && IntToString(20) == "20" && IntToString(30) == "30"
  {
    assert NatToString(20) == NatToString(2) + [DigitChar(0)];
    assert NatToString(30) == NatToString(3) + [DigitChar(0)];
    assert NatToString(15) == NatToString(1) + [DigitChar(5)];
  }

  lemma YearTexts()
    ensures Digits(2024, 4) == "2024" && Digits(2023, 4) == "2023"
  {
    assert Digits(20, 2) == "20";
    assert Digits(202, 3) == "202";
  }

  lemma NewYearFormat()
    ensures FormatDate(Date(2024, 1, 3)) == "2024-01-03"
  {
    YearTexts();
    assert Digits(0, 1) == "0";
    assert FormatDate(Date(2024, 1, 3)) == "2024" + "-" + "01" + "-" + "03";
  }

  lemma NewYearText()
    ensures ParseDate("2024-01-03") == Ok(Date(2024, 1, 3))
  {
    NewYearFormat();
    ParseFormatRoundTrip(Date(2024, 1, 3));
  }

  lemma YearEndDigits()
    ensures Digits(12, 2) == "12" && Digits(30, 2) == "30"
  {
    assert Digits(1, 1) == "1" && Digits(3, 1) == "3";
  }

  lemma YearEndFormat()
    ensures FormatDate(Date(2023, 12, 30)) == "2023-12-30"
  {
    YearTexts();
    YearEndDigits();
    assert FormatDate(Date(2023, 12, 30)) == "2023" + "-" + "12" + "-" + "30";
  }

  lemma YearEndText()
    ensures ParseDate("2023-12-30") == Ok(Date(2023, 12, 30))
  {
    YearEndFormat();
    ParseFormatRoundTrip(Date(2023, 12, 30));
  }

  /** No findings under the default thresholds. */
  lemma NothingFound()
    ensures Aggregate([], 30, 15) == CheckResult(OK, "No domain will expire within " + "30" + " days")
  {
    Numerals();
  }

  /*
   * The expected messages below are written as the f-string's literal parts
   * and the substituted values, joined with `+`.
   */

  lemma OneWarningList()
    ensures Renderings([At("a.example.com", 20)], 15) == ["a.example.com (20)"]
  {
    Numerals();
    var ds := [At("a.example.com", 20)];
    assert ds[..0] == [];
    assert Critical(ds, 15) == [];
    assert Warning(ds, 15) == ds;
    assert Render(ds[0]) == "a.example.com (20)";
    assert Renders(ds) == ["a.example.com (20)"];
  }

  /** One finding past the critical threshold only. */
  lemma OneWarning()
    ensures Aggregate([At("a.example.com", 20)], 30, 15)
         == CheckResult(WARNING, "1" + " domain is about to expire within " + "30" + " days : " + "a.example.com (20)")
  {
    OneWarningList();
    Numerals();
    var ds := [At("a.example.com", 20)];
    assert ds[..0] == [];
    assert Critical(ds, 15) == [];
  }

  lemma CriticalFirstList()
    ensures Renderings([At("a.example.com", 20), At("b.example.com", 5)], 15)
         == ["b.example.com (5)", "a.example.com (20)"]
  {
    Numerals();
    var a, b := At("a.example.com", 20), At("b.example.com", 5);
    var ds := [a, b];
    assert ds[..1] == [a] && [a][..0] == [];
    assert Critical([a], 15) == [];
    assert Critical(ds, 15) == [b];
    assert Warning([a], 15) == [a];
    assert Warning(ds, 15) == [a];
    assert Render(a) == "a.example.com (20)" && Render(b) == "b.example.com (5)";
    assert Renders([a]) == ["a.example.com (20)"] && Renders([b]) == ["b.example.com (5)"];
  }

  /** The critical finding is listed first and the count covers both. */
  lemma CriticalListedFirst()
    ensures Aggregate([At("a.example.com", 20), At("b.example.com", 5)], 30, 15)
         == CheckResult(CRITICAL, "2" + " domain is about to expire within " + "15" + " days : "
                                  + "b.example.com (5)" + ", " + "a.example.com (20)")
  {
    CriticalFirstList();
    Numerals();
    var a, b := At("a.example.com", 20), At("b.example.com", 5);
    var ds := [a, b];
    assert ds[..1] == [a] && [a][..0] == [];
    assert Critical(ds, 15) == [b];
    var items := ["b.example.com (5)", "a.example.com (20)"];
    assert items[..1] == ["b.example.com (5)"];
    assert Join(", ", items) == "b.example.com (5)" + ", " + "a.example.com (20)";
  }

  /** A wildcard record is dropped and the run reports nothing found. */
  lemma WildcardDropped()
    ensures Run(30, 15, (days: int) => Ok([Record("*.example.com", "2024-01-03")]), Date(2024, 1, 1))
         == RunResult([30], OK, "No domain will expire within " + "30" + " days")
  {
    Numerals();
    NewYearText();
    var rs := [Record("*.example.com", "2024-01-03")];
    assert rs[..0] == [];
    assert StartsWith("*.example.com", "*.");
    assert Normalise(rs, Date(2024, 1, 1)) == Ok([]);
  }

  /** A date in day-month-year order aborts the run as UNKNOWN; as written it exits 1. */
  lemma DayFirstDateAborts()
    ensures var search := (days: int) => Ok([Record("a.example.com", "31-02-2024")]);
      Run(30, 15, search, Date(2024, 1, 1)) == RunResult([30], UNKNOWN,
        "Exception raised: " + "time data '" + "31-02-2024" + "' does not match format '%Y-%m-%d'")
      && ExitCode(Run(30, 15, search, Date(2024, 1, 1)).status) == 3
      && ExitStatusAsWritten(30, 15, search, Date(2024, 1, 1)) == 1
  {
    var search := (days: int) => Ok([Record("a.example.com", "31-02-2024")]);
    var rs := [Record("a.example.com", "31-02-2024")];
    assert search(30) == Ok(rs);
    assert rs[..0] == [];
    assert "31-02-2024"[4] == '2';
    assert ParseDate("31-02-2024") == Err(FormatMismatch);
    assert Normalise(rs, Date(2024, 1, 1)) == Err(BadDate("31-02-2024", FormatMismatch));
    assert FetchFails(30, search, Date(2024, 1, 1));
  }

  /** Thresholds in the wrong order: UNKNOWN, and the search is never queried. */
  lemma ThresholdsReversed(search: Search)
    ensures Run(5, 10, search, Date(2024, 1, 1))
         == RunResult([], UNKNOWN, "Error : warning value must be greater than critical ( " + "5" + " > " + "10" + " )")
  {
    Numerals();
    assert NatToString(10) == NatToString(1) + [DigitChar(0)];
  }

  /** A date already past gives a negative day count. */
  lemma AlreadyExpired()
    ensures Decode(Record("c.example.com", "2023-12-30"), Date(2024, 1, 1)) ==
      Ok(Finding("c.example.com", "VALIDATED", "VALIDATED", "CNAME", "2023-12-30", -2))
  {
    YearEndText();
    var r := Record("c.example.com", "2023-12-30");
    assert HasFields(r) && r["expirationDate"] == "2023-12-30" && r["domain"] == "c.example.com";
    assert DaysBeforeYear(2024) == 738885 && DaysBeforeYear(2023) == 738520;
    assert DayDifference(Date(2024, 1, 1), Date(2023, 12, 30)) == -2;
  }
}
