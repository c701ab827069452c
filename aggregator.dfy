/**
 * The classification block of `main`: each finding goes to the critical or
 * the warning bucket, the worst bucket sets the status and the delay quoted,
 * and one message lists every finding, critical ones first.
 */
module Aggregator {
  import opened Decimal
  import opened Sequences
  import opened Fetcher
  import opened Nagios

  /** The status and message that end a run that got its findings. */
  datatype CheckResult = CheckResult(status: Status, message: string)

  /** The critical test `d['expireInDays'] <= crit`. */
  function CriticalTest(crit: int): (t: Finding -> bool)
    ensures forall f :: t(f) == (f.expireInDays <= crit)
  {
    (f: Finding) => f.expireInDays <= crit
  }

  /** Its `else` branch: the finding goes to the warning bucket. */
  function WarningTest(crit: int): (t: Finding -> bool)
    ensures forall f :: t(f) == (f.expireInDays > crit)
  {
    (f: Finding) => f.expireInDays > crit
  }

  /** The findings of the critical bucket, in input order. */
  function Critical(ds: seq<Finding>, crit: int): seq<Finding> {
    Filter(CriticalTest(crit), ds)
  }

  /** The findings of the warning bucket, in input order. */
  function Warning(ds: seq<Finding>, crit: int): seq<Finding> {
    Filter(WarningTest(crit), ds)
  }

  /** `'{} ({})'.format(d['domain'], d['expireInDays'])`. */
  function Render(f: Finding): string {
    f.domain + " (" + IntToString(f.expireInDays) + ")"
  }

  function Renders(fs: seq<Finding>): (r: seq<string>)
    ensures |r| == |fs| && forall k :: 0 <= k < |fs| ==> r[k] == Render(fs[k])
  {
    seq(|fs|, k requires 0 <= k < |fs| => Render(fs[k]))
  }

  /** `critDomains + warnDomains`: the list the message joins. */
  function Renderings(ds: seq<Finding>, crit: int): seq<string> {
    Renders(Critical(ds, crit)) + Renders(Warning(ds, crit))
  }

  function EmptyMessage(warn: int): string {
    "No domain will expire within " + IntToString(warn) + " days"
  }

  function AlertMessage(count: int, delay: int, items: seq<string>): string {
    IntToString(count) + " domain is about to expire within " + IntToString(delay) + " days : "
    + Join(", ", items)
  }

  /** What the classification block decides for a list of findings. */
  function Aggregate(ds: seq<Finding>, warn: int, crit: int): CheckResult {
    if ds == [] then CheckResult(OK, EmptyMessage(warn))
    else
      var critical := Critical(ds, crit) != [];
      CheckResult(if critical then CRITICAL else WARNING,
                  AlertMessage(|ds|, if critical then crit else warn, Renderings(ds, crit)))
  }

  lemma RendersAppend(fs: seq<Finding>, f: Finding)
    ensures Renders(fs + [f]) == Renders(fs) + [Render(f)]
  {
  }

  /** One more finding joins the end of exactly one bucket. */
  lemma BucketsAppend(ds: seq<Finding>, d: Finding, crit: int)
    ensures Critical(ds + [d], crit) == if d.expireInDays <= crit then Critical(ds, crit) + [d] else Critical(ds, crit)
    ensures Warning(ds + [d], crit) == if d.expireInDays <= crit then Warning(ds, crit) else Warning(ds, crit) + [d]
  {
    assert (ds + [d])[..|ds|] == ds;
  }

  /** One loop step renders the `i`-th finding at the end of exactly one bucket's list. */
  lemma RendersStep(ds: seq<Finding>, i: int, crit: int)
    requires 0 <= i < |ds|
    ensures Renders(Critical(ds[..i + 1], crit))
      == Renders(Critical(ds[..i], crit)) + (if ds[i].expireInDays <= crit then [Render(ds[i])] else [])
    ensures Renders(Warning(ds[..i + 1], crit))
      == Renders(Warning(ds[..i], crit)) + (if ds[i].expireInDays <= crit then [] else [Render(ds[i])])
  {
    var t, d := ds[..i], ds[i];
    assert ds[..i + 1] == t + [d];
    BucketsAppend(t, d, crit);
    RendersAppend(Critical(t, crit), d);
    RendersAppend(Warning(t, crit), d);
  }

  /** The classification loop of `main` and the message it builds. */
  method Evaluate(domains: seq<Finding>, warn: int, crit: int) returns (result: CheckResult)
    ensures result == Aggregate(domains, warn, crit)
  {
    var nagiosExit := OK;
    var nagiosMessage := "No domain will expire within " + IntToString(warn) + " days";

    var warnDomains: seq<string> := [];
    var critDomains: seq<string> := [];
    if |domains| > 0 {
      nagiosExit := WARNING;
      var delayAlert := warn;
      for i := 0 to |domains|
        invariant critDomains == Renders(Critical(domains[..i], crit))
        invariant warnDomains == Renders(Warning(domains[..i], crit))
        invariant nagiosExit == if critDomains == [] then WARNING else CRITICAL
        invariant delayAlert == if critDomains == [] then warn else crit
      {
        var d := domains[i];
        var item := d.domain + " (" + IntToString(d.expireInDays) + ")";
        assert item == Render(d);
        RendersStep(domains, i, crit);
        if d.expireInDays <= crit {
          nagiosExit := CRITICAL;
          delayAlert := crit;
          critDomains := critDomains + [item];
        } else {
          warnDomains := warnDomains + [item];
        }
      }
      assert domains[..|domains|] == domains;
      var listOfDomains := Join(", ", critDomains + warnDomains);
      nagiosMessage := IntToString(|domains|) + " domain is about to expire within "
        + IntToString(delayAlert) + " days : " + listOfDomains;
    }
    result := CheckResult(nagiosExit, nagiosMessage);
  }

  /**
   * Every finding lands in exactly one bucket: the critical one exactly when
   * `expireInDays <= crit`, the warning one otherwise; the buckets hold the
   * findings with their multiplicities and nothing else.
   */
  lemma BucketsPartition(ds: seq<Finding>, crit: int)
    ensures multiset(Critical(ds, crit)) + multiset(Warning(ds, crit)) == multiset(ds)
    ensures |Critical(ds, crit)| + |Warning(ds, crit)| == |ds|
    ensures forall f :: f in Critical(ds, crit) ==> f in ds && f.expireInDays <= crit
    ensures forall f :: f in Warning(ds, crit) ==> f in ds && f.expireInDays > crit
    ensures forall i :: 0 <= i < |ds| ==>
      (ds[i] in Critical(ds, crit) <==> ds[i].expireInDays <= crit)
      && (ds[i] in Warning(ds, crit) <==> ds[i].expireInDays > crit)
  {
    FilterPartition(CriticalTest(crit), WarningTest(crit), ds);
    FilterMembers(CriticalTest(crit), ds);
    FilterMembers(WarningTest(crit), ds);
  }

  /**
   * The status of a run with findings is CRITICAL exactly when some finding is
   * critical, WARNING when there are findings and none is, OK when there are
   * none; the delay quoted is `crit` for CRITICAL and `warn` otherwise.
   */
  lemma AggregateStatus(ds: seq<Finding>, warn: int, crit: int)
    ensures var r := Aggregate(ds, warn, crit);
      (r.status == OK <==> ds == [])
      && (r.status == CRITICAL <==> exists i :: 0 <= i < |ds| && ds[i].expireInDays <= crit)
      && (r.status == WARNING <==> ds != [] && forall i :: 0 <= i < |ds| ==> ds[i].expireInDays > crit)
      && r.status != UNKNOWN
      && (ds == [] ==> r.message == EmptyMessage(warn))
      && (ds != [] ==> r.message == AlertMessage(|ds|, if r.status == CRITICAL then crit else warn,
                                                 Renderings(ds, crit)))
  {
    FilterEmpty(CriticalTest(crit), ds);
  }

  /** Every rendering appears in the joined list exactly as often as its finding occurs. */
  lemma {:induction false} RenderingsPermutation(ds: seq<Finding>, crit: int)
    ensures multiset(Renderings(ds, crit)) == multiset(Renders(ds))
    ensures |Renderings(ds, crit)| == |ds|
  {
    if ds != [] {
      var n := |ds| - 1;
      var t := ds[..n];
      var f := ds[n];
      RenderingsPermutation(t, crit);
      assert ds == t + [f];
      RendersAppend(t, f);
      if f.expireInDays <= crit {
        assert Critical(ds, crit) == Critical(t, crit) + [f];
        assert Warning(ds, crit) == Warning(t, crit);
        RendersAppend(Critical(t, crit), f);
      } else {
        assert Critical(ds, crit) == Critical(t, crit);
        assert Warning(ds, crit) == Warning(t, crit) + [f];
        RendersAppend(Warning(t, crit), f);
      }
    }
  }

  /**
   * The joined list is the critical findings' renderings, then the warning
   * findings' renderings, each group at strictly increasing input positions:
   * the input order is kept inside each group.
   */
  lemma RenderingsOrder(ds: seq<Finding>, crit: int)
    ensures var r, cs, ws := Renderings(ds, crit), Positions(CriticalTest(crit), ds), Positions(WarningTest(crit), ds);
      |r| == |cs| + |ws| == |ds|
      && StrictlyIncreasing(cs) && StrictlyIncreasing(ws)
      && (forall k :: 0 <= k < |cs| ==> r[k] == Render(ds[cs[k]]) && ds[cs[k]].expireInDays <= crit)
      && (forall k :: 0 <= k < |ws| ==> r[|cs| + k] == Render(ds[ws[k]]) && ds[ws[k]].expireInDays > crit)
  {
    FilterPartition(CriticalTest(crit), WarningTest(crit), ds);
    CriticalHead(ds, crit);
    WarningTail(ds, crit);
  }

  /** The critical renderings head the joined list, in input order. */
  lemma CriticalHead(ds: seq<Finding>, crit: int)
    ensures var r, cs := Renderings(ds, crit), Positions(CriticalTest(crit), ds);
      |cs| <= |r| && StrictlyIncreasing(cs)
      && forall k :: 0 <= k < |cs| ==> r[k] == Render(ds[cs[k]]) && ds[cs[k]].expireInDays <= crit
  {
    var c, cs := Critical(ds, crit), Positions(CriticalTest(crit), ds);
    FilterAtPositions(CriticalTest(crit), ds);
    var r := Renderings(ds, crit);
    assert r == Renders(c) + Renders(Warning(ds, crit));
    forall k | 0 <= k < |cs|
      ensures r[k] == Render(ds[cs[k]]) && ds[cs[k]].expireInDays <= crit
    {
      assert cs[k] in cs;
      assert r[k] == Renders(c)[k] == Render(c[k]);
    }
  }

  lemma ConcatRight(a: seq<string>, b: seq<string>, k: int)
    requires 0 <= k < |b|
    ensures (a + b)[|a| + k] == b[k]
  {
  }

  /** The warning renderings follow the critical ones, in input order. */
  lemma WarningTail(ds: seq<Finding>, crit: int)
    ensures var r, n, ws := Renderings(ds, crit), |Critical(ds, crit)|, Positions(WarningTest(crit), ds);
      n + |ws| == |r| && StrictlyIncreasing(ws)
      && forall k :: 0 <= k < |ws| ==> r[n + k] == Render(ds[ws[k]]) && ds[ws[k]].expireInDays > crit
  {
    var p := WarningTest(crit);
    FilterIndexing(p, ds);
    PositionsExact(p, ds);
    forall k | 0 <= k < |Positions(p, ds)|
      ensures Renderings(ds, crit)[|Critical(ds, crit)| + k] == Render(ds[Positions(p, ds)[k]])
      ensures ds[Positions(p, ds)[k]].expireInDays > crit
    {
      WarningAt(ds, crit, k);
    }
  }

  lemma WarningAt(ds: seq<Finding>, crit: int, k: int)
    requires 0 <= k < |Positions(WarningTest(crit), ds)|
    ensures |Critical(ds, crit)| + k < |Renderings(ds, crit)|
    ensures var i := Positions(WarningTest(crit), ds)[k];
      Renderings(ds, crit)[|Critical(ds, crit)| + k] == Render(ds[i]) && ds[i].expireInDays > crit
  {
    var p := WarningTest(crit);
    var w, ws := Filter(p, ds), Positions(p, ds);
    FilterIndexing(p, ds);
    PositionsExact(p, ds);
    var i := ws[k];
    assert i in ws;
    assert w[k] == ds[i];
    var rc, rw := Renders(Critical(ds, crit)), Renders(w);
    assert rw[k] == Render(ds[i]);
    ConcatRight(rc, rw, k);
  }

  /**
   * Lowering `crit` only moves findings from the critical bucket to the warning
   * bucket: the new critical bucket is the old one thinned, the old warning
   * bucket is the new one thinned, and a CRITICAL run stays CRITICAL under a
   * higher `crit`.
   */
  lemma CriticalMonotone(ds: seq<Finding>, warn: int, low: int, high: int)
    requires low <= high
    ensures Critical(ds, low) == Filter(CriticalTest(low), Critical(ds, high))
    ensures Warning(ds, high) == Filter(WarningTest(high), Warning(ds, low))
    ensures multiset(Critical(ds, low)) <= multiset(Critical(ds, high))
    ensures multiset(Warning(ds, high)) <= multiset(Warning(ds, low))
    ensures Aggregate(ds, warn, low).status == CRITICAL ==> Aggregate(ds, warn, high).status == CRITICAL
  {
    FilterOfFilter(CriticalTest(high), CriticalTest(low), ds);
    FilterOfFilter(WarningTest(low), WarningTest(high), ds);
    FilterSubMultiset(CriticalTest(low), Critical(ds, high));
    FilterSubMultiset(WarningTest(high), Warning(ds, low));
    AggregateStatus(ds, warn, low);
    AggregateStatus(ds, warn, high);
  }

  /**
   * When both buckets are non-empty the message is the header, the critical
   * renderings joined, one separator, then the warning renderings joined.
   */
  lemma MessageCriticalFirst(ds: seq<Finding>, warn: int, crit: int)
    requires Critical(ds, crit) != [] && Warning(ds, crit) != []
    ensures Aggregate(ds, warn, crit).message ==
      IntToString(|ds|) + " domain is about to expire within " + IntToString(crit) + " days : "
      + Join(", ", Renders(Critical(ds, crit))) + ", " + Join(", ", Renders(Warning(ds, crit)))
  {
    var c, w := Renders(Critical(ds, crit)), Renders(Warning(ds, crit));
    assert ds != [];
    assert Aggregate(ds, warn, crit).message == AlertMessage(|ds|, crit, c + w);
    JoinAppend(", ", c, w);
  }

  /** A rendering starts with `*.` only when its domain does. */
  lemma RenderKeepsPrefix(f: Finding)
    requires !StartsWith(f.domain, "*.")
    ensures !StartsWith(Render(f), "*.")
  {
    var r := Render(f);
    if |f.domain| >= 2 {
      assert r[..2] == f.domain[..2];
    } else if |f.domain| == 1 {
      assert r[1] == ' ';
    } else {
      assert r[0] == ' ';
    }
  }

  /** No item of the joined list starts with `*.` when no finding's domain does. */
  lemma RenderingsKeepPrefix(fs: seq<Finding>, crit: int)
    requires forall k :: 0 <= k < |fs| ==> !StartsWith(fs[k].domain, "*.")
    ensures forall k :: 0 <= k < |Renderings(fs, crit)| ==> !StartsWith(Renderings(fs, crit)[k], "*.")
  {
    BucketsPartition(fs, crit);
    var c, w := Critical(fs, crit), Warning(fs, crit);
    forall k | 0 <= k < |Renderings(fs, crit)|
      ensures !StartsWith(Renderings(fs, crit)[k], "*.")
    {
      var f := if k < |c| then c[k] else w[k - |c|];
      assert Renderings(fs, crit)[k] == Render(f);
      assert f in fs;
      RenderKeepsPrefix(f);
    }
  }
}
