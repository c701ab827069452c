/**
 * The record fetcher `getDomainExpireIn`: it reads the records the DCV search
 * returned, parses each expiration date, computes the days left from today,
 * and keeps every record whose domain is not a wildcard.
 */
module Fetcher {
  import opened Results
  import opened Calendar
  import opened Sequences

  /** One record of the search result, a JSON object whose values are strings. */
  type RawRecord = map<string, string>

  /** The `info` dictionary the fetcher builds for a kept record. */
  datatype Finding = Finding(
    domain: string,
    dcvStatus: string,
    dcvOrderStatus: string,
    dcvMethod: string,
    expirationDate: string,
    expireInDays: int)

  /** The exceptions that abort the loop: a missing key, or a date `strptime` refuses. */
  datatype FetchError =
    | MissingField(key: string)
    | BadDate(text: string, reason: DateError)

  /** The keys the loop reads from each record, in the order it reads them. */
  const Fields: seq<string> := ["domain", "dcvStatus", "dcvOrderStatus", "dcvMethod", "expirationDate"]

  predicate HasFields(r: RawRecord) {
    "domain" in r && "dcvStatus" in r && "dcvOrderStatus" in r && "dcvMethod" in r
    && "expirationDate" in r
  }

  /** A record the fetcher keeps: its domain does not start with `*.`. */
  predicate IsKeptRecord(r: RawRecord) {
    !("domain" in r && StartsWith(r["domain"], "*."))
  }

  /** What one iteration of the loop makes of a record, before the wildcard test. */
  function Decode(r: RawRecord, today: Date): (res: Result<Finding, FetchError>)
    requires ValidDate(today)
    ensures res.Ok? <==> HasFields(r) && ParseDate(r["expirationDate"]).Ok?
    ensures res.Ok? ==>
      var d := ParseDate(r["expirationDate"]).value;
      res.value.expireInDays == DayDifference(today, d)
      && res.value.domain == r["domain"] && res.value.expirationDate == r["expirationDate"]
    ensures res.Err? && res.error.MissingField? ==> res.error.key in Fields && res.error.key !in r
    ensures res.Err? && res.error.BadDate? ==>
      HasFields(r) && res.error.text == r["expirationDate"]
      && ParseDate(res.error.text) == Err(res.error.reason)
  {
    if "domain" !in r then Err(MissingField("domain"))
    else if "dcvStatus" !in r then Err(MissingField("dcvStatus"))
    else if "dcvOrderStatus" !in r then Err(MissingField("dcvOrderStatus"))
    else if "dcvMethod" !in r then Err(MissingField("dcvMethod"))
    else if "expirationDate" !in r then Err(MissingField("expirationDate"))
    else
      var text := r["expirationDate"];
      match ParseDate(text)
      case Err(reason) => Err(BadDate(text, reason))
      case Ok(d) =>
        Ok(Finding(r["domain"], r["dcvStatus"], r["dcvOrderStatus"], r["dcvMethod"], text,
                   DayDifference(today, d)))
  }

  /**
   * The list `getDomainExpireIn` returns, or the exception that ends it: the
   * records are decoded in upstream order, the first failure aborts, and a
   * decoded wildcard record is skipped.
   */
  function Normalise(rs: seq<RawRecord>, today: Date): Result<seq<Finding>, FetchError>
    requires ValidDate(today)
  {
    if rs == [] then Ok([])
    else
      match Normalise(rs[..|rs| - 1], today)
      case Err(e) => Err(e)
      case Ok(fs) =>
        match Decode(rs[|rs| - 1], today)
        case Err(e) => Err(e)
        case Ok(f) => Ok(if StartsWith(f.domain, "*.") then fs else fs + [f])
  }

  /** Once a prefix of the records has failed, the whole run fails with the same error. */
  lemma {:induction false} NormaliseErrorPersists(rs: seq<RawRecord>, n: nat, today: Date)
    requires ValidDate(today) && n <= |rs|
    requires Normalise(rs[..n], today).Err?
    ensures Normalise(rs, today) == Normalise(rs[..n], today)
    decreases |rs| - n
  {
    if n < |rs| {
      assert rs[..n + 1][..n] == rs[..n];
      NormaliseErrorPersists(rs, n + 1, today);
    } else {
      assert rs[..n] == rs;
    }
  }

  /** The fetcher succeeds exactly when every record, wildcard or not, decodes. */
  lemma {:induction false} NormaliseSucceeds(rs: seq<RawRecord>, today: Date)
    requires ValidDate(today)
    ensures Normalise(rs, today).Ok? <==> forall i :: 0 <= i < |rs| ==> Decode(rs[i], today).Ok?
  {
    if rs != [] {
      var t := rs[..|rs| - 1];
      NormaliseSucceeds(t, today);
      assert forall i :: 0 <= i < |t| ==> t[i] == rs[i];
    }
  }

  /** A failed fetch reports the error of the first record that does not decode. */
  lemma {:induction false} NormaliseFirstError(rs: seq<RawRecord>, today: Date)
    requires ValidDate(today) && Normalise(rs, today).Err?
    ensures exists i :: 0 <= i < |rs| && Decode(rs[i], today) == Err(Normalise(rs, today).error)
                        && forall j :: 0 <= j < i ==> Decode(rs[j], today).Ok?
  {
    var t := rs[..|rs| - 1];
    var n := |rs| - 1;
    assert forall i :: 0 <= i < |t| ==> t[i] == rs[i];
    if Normalise(t, today).Err? {
      NormaliseFirstError(t, today);
      var i :| 0 <= i < |t| && Decode(t[i], today) == Err(Normalise(t, today).error)
                && forall j :: 0 <= j < i ==> Decode(t[j], today).Ok?;
      assert Decode(rs[i], today) == Err(Normalise(rs, today).error);
    } else {
      NormaliseSucceeds(t, today);
      assert Decode(rs[n], today) == Err(Normalise(rs, today).error);
    }
  }

  /** A date that cannot be parsed aborts the run, even in a record that would be dropped. */
  lemma UnparsableDateAborts(rs: seq<RawRecord>, i: nat, today: Date)
    requires ValidDate(today) && i < |rs|
    requires HasFields(rs[i]) && ParseDate(rs[i]["expirationDate"]).Err?
    ensures Normalise(rs, today).Err?
  {
    NormaliseSucceeds(rs, today);
  }

  lemma {:induction false} NormaliseAtKept(rs: seq<RawRecord>, today: Date)
    requires ValidDate(today) && Normalise(rs, today).Ok?
    ensures |Normalise(rs, today).value| == |Positions(IsKeptRecord, rs)|
    ensures forall k :: 0 <= k < |Positions(IsKeptRecord, rs)| ==>
      Decode(rs[Positions(IsKeptRecord, rs)[k]], today) == Ok(Normalise(rs, today).value[k])
  {
    if rs != [] {
      var n := |rs| - 1;
      var t := rs[..n];
      assert Normalise(t, today).Ok?;
      NormaliseAtKept(t, today);
      var ft, pt := Normalise(t, today).value, Positions(IsKeptRecord, t);
      var fs, ps := Normalise(rs, today).value, Positions(IsKeptRecord, rs);
      var f := Decode(rs[n], today).value;
      if IsKeptRecord(rs[n]) {
        assert fs == ft + [f] && ps == pt + [n];
      } else {
        assert fs == ft && ps == pt;
      }
      forall k | 0 <= k < |ps|
        ensures Decode(rs[ps[k]], today) == Ok(fs[k])
      {
        if k < |pt| {
          assert ps[k] == pt[k] && fs[k] == ft[k] && t[pt[k]] == rs[pt[k]];
        }
      }
    }
  }

  /**
   * A successful fetch returns exactly the non-wildcard records, each once, in
   * upstream order: the `k`-th finding is the decoding of the record at the
   * `k`-th kept position.
   */
  lemma NormaliseKeepsNonWildcards(rs: seq<RawRecord>, today: Date)
    requires ValidDate(today) && Normalise(rs, today).Ok?
    ensures var fs, ps := Normalise(rs, today).value, Positions(IsKeptRecord, rs);
      |fs| == |ps|
      && (forall k :: 0 <= k < |ps| ==> Decode(rs[ps[k]], today) == Ok(fs[k]))
      && StrictlyIncreasing(ps)
      && (forall i :: 0 <= i < |rs| ==> (i in ps <==> IsKeptRecord(rs[i])))
  {
    NormaliseAtKept(rs, today);
    PositionsExact(IsKeptRecord, rs);
  }

  /** No wildcard domain survives the fetcher. */
  lemma {:induction false} NoWildcardFinding(rs: seq<RawRecord>, today: Date)
    requires ValidDate(today) && Normalise(rs, today).Ok?
    ensures forall k :: 0 <= k < |Normalise(rs, today).value| ==>
      !StartsWith(Normalise(rs, today).value[k].domain, "*.")
  {
    if rs != [] {
      NoWildcardFinding(rs[..|rs| - 1], today);
    }
  }

  /** `getDomainExpireIn(days)`, given the records the search for `days` returned. */
  method GetDomainExpireIn(records: seq<RawRecord>, today: Date) returns (result: Result<seq<Finding>, FetchError>)
    requires ValidDate(today)
    ensures result == Normalise(records, today)
  {
    var domains: seq<Finding> := [];
    for i := 0 to |records|
      invariant Normalise(records[..i], today) == Ok(domains)
    {
      var domain := records[i];
      assert records[..i + 1][..i] == records[..i];
      if "domain" !in domain {
        NormaliseErrorPersists(records, i + 1, today);
        return Err(MissingField("domain"));
      }
      var domainName := domain["domain"];
      if "dcvStatus" !in domain {
        NormaliseErrorPersists(records, i + 1, today);
        return Err(MissingField("dcvStatus"));
      }
      var dcvStatus := domain["dcvStatus"];
      if "dcvOrderStatus" !in domain {
        NormaliseErrorPersists(records, i + 1, today);
        return Err(MissingField("dcvOrderStatus"));
      }
      var dcvOrderStatus := domain["dcvOrderStatus"];
      if "dcvMethod" !in domain {
        NormaliseErrorPersists(records, i + 1, today);
        return Err(MissingField("dcvMethod"));
      }
      var dcvMethod := domain["dcvMethod"];
      if "expirationDate" !in domain {
        NormaliseErrorPersists(records, i + 1, today);
        return Err(MissingField("expirationDate"));
      }
      var expirationDate := domain["expirationDate"];
      var parsed := ParseDate(expirationDate);
      if parsed.Err? {
        NormaliseErrorPersists(records, i + 1, today);
        return Err(BadDate(expirationDate, parsed.error));
      }
      var expireIn := DayDifference(today, parsed.value);

      // Ignore wildcard subdomains
      if StartsWith(domainName, "*.") {
        continue;
      }

      var info := Finding(domainName, dcvStatus, dcvOrderStatus, dcvMethod, expirationDate, expireIn);
      domains := domains + [info];
    }
    assert records[..|records|] == records;
    return Ok(domains);
  }
}
