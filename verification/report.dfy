/** The report of a pass (patchtester/__init__.py, `generateReport`): one
    record per request, one line per leaf with its verdict, and the leaf's
    errors (or warnings) and suggestions written as "key: value" lines with
    the line breaks rendered as "<br/>". The HTML template around it is not
    modelled. */
module Report {
  import opened Exceptions
  import opened Text
  import opened Records
  import opened RequestTree

  datatype Verdict = Success | Failed | Warning

  /** The report line of one leaf: the change it was for, the verdict, the
      rendered suggestions (none for a success) and the rendered details. */
  datatype ChangeReport = ChangeReport(source: Label, result: Verdict, sugs: Option<string>, details: string)

  datatype RequestReport = RequestReport(reqId: string, changes: seq<ChangeReport>)

  datatype PassReport = PassReport(subject: string, requests: seq<RequestReport>)

  const SuccessDetails: string := "This change was successfully integrated"

  /** Each record as a "key: value" line. */
  function Lines(entries: seq<Entry>): string {
    if |entries| == 0 then ""
    else Lines(entries[..|entries| - 1]) + entries[|entries| - 1].key + ": " + entries[|entries| - 1].value + "\n"
  }

  function Min(a: nat, b: nat): nat {
    if a <= b then a else b
  }

  /** The pairing `zip(findings, sugs)`: both lists cut to the shorter one. */
  function Paired(findings: seq<Entry>, sugs: seq<Entry>): (p: (seq<Entry>, seq<Entry>))
    ensures |p.0| == |p.1| == Min(|findings|, |sugs|)
    ensures p.0 == findings[..|p.0|] && p.1 == sugs[..|p.1|]
  {
    var k := Min(|findings|, |sugs|);
    (findings[..k], sugs[..k])
  }

  /** The report line of one leaf (lines 556-600). A list the loop never
      set on the leaf is an AttributeError. */
  function LeafReport(n: ChangeNode): (r: Outcome<ChangeReport>)
    ensures r.Done? ==> r.value.source == n.name
    ensures r.Done? ==> '\n' !in r.value.details
    ensures r.Done? && r.value.result == Success <==> n.errors == Some([]) && n.warnings == Some([])
    ensures r.Done? && r.value.result == Warning <==> n.errors.Some? && n.errors.value != [] && n.crossComponent && n.sugs.Some?
    ensures r.Done? && r.value.result == Failed <==>
              n.sugs.Some? && n.errors.Some? &&
              ((n.errors.value != [] && !n.crossComponent) || (n.errors.value == [] && n.warnings.Some? && n.warnings.value != []))
    ensures r.Raised? <==>
              || n.errors.None?
              || (n.errors.value == [] && n.warnings.None?)
              || ((n.errors.value != [] || n.warnings.value != []) && n.sugs.None?)
    ensures r.Raised? ==> r.error == AttributeError
    ensures Settled(n) ==> r.Done?
  {
    if n.errors.None? then Raised(AttributeError)
    else if n.errors.value == [] && n.warnings.None? then Raised(AttributeError)
    else if n.errors.value == [] && n.warnings.value == [] then Done(ChangeReport(n.name, Success, None, SuccessDetails))
    else if n.sugs.None? then Raised(AttributeError)
    else
      var findings := if n.errors.value != [] then n.errors.value else n.warnings.value;
      var p := Paired(findings, n.sugs.value);
      var verdict := if n.errors.value != [] && n.crossComponent then Warning else Failed;
      assert '\n' !in SuccessDetails;
      Done(ChangeReport(n.name, verdict, Some(Br(Lines(p.1))), Br(Lines(p.0))))
  }

  /** A success line carries the success text and no suggestions; every
      other line carries suggestions. */
  lemma LeafReportSuccess(n: ChangeNode)
    ensures var r := LeafReport(n);
      && (r.Done? ==> (r.value.result == Success <==> r.value.sugs.None?))
      && (r.Done? && r.value.result == Success ==> r.value.details == SuccessDetails)
  {
  }

  /** The report lines of a request's leaves, in order. */
  function LeafReports(leaves: seq<ChangeNode>): (r: Outcome<seq<ChangeReport>>)
    ensures r.Done? <==> forall i :: 0 <= i < |leaves| ==> LeafReport(leaves[i]).Done?
    ensures r.Done? ==> |r.value| == |leaves| && forall i :: 0 <= i < |leaves| ==> r.value[i] == LeafReport(leaves[i]).value
  {
    if |leaves| == 0 then Done([])
    else
      var init :- LeafReports(leaves[..|leaves| - 1]);
      var last :- LeafReport(leaves[|leaves| - 1]);
      Done(init + [last])
  }

  function RequestReports(t: Tree): (r: Outcome<seq<RequestReport>>)
    ensures r.Done? <==> forall i :: 0 <= i < |t| ==> LeafReports(t[i].children).Done?
    ensures r.Done? ==> |r.value| == |t| && forall i :: 0 <= i < |t| ==>
              r.value[i] == RequestReport(t[i].id, LeafReports(t[i].children).value)
  {
    if |t| == 0 then Done([])
    else
      var init :- RequestReports(t[..|t| - 1]);
      var last :- LeafReports(t[|t| - 1].children);
      Done(init + [RequestReport(t[|t| - 1].id, last)])
  }

  /** The report of a pass: the subject names the two prefixes; one record
      per request node, in tree order, one line per leaf. */
  function Generate(ctx: Ctx, t: Tree): (r: Outcome<PassReport>)
    ensures r.Done? ==> |r.value.requests| == |t|
    ensures r.Done? ==> forall i :: 0 <= i < |t| ==>
              && r.value.requests[i].reqId == t[i].id
              && |r.value.requests[i].changes| == |t[i].children|
              && forall j :: 0 <= j < |t[i].children| ==>
                   LeafReport(t[i].children[j]).Done?
                   && r.value.requests[i].changes[j] == LeafReport(t[i].children[j]).value
                   && r.value.requests[i].changes[j].source == t[i].children[j].name
    ensures r.Done? <==> forall i, j :: 0 <= i < |t| && 0 <= j < |t[i].children| ==> LeafReport(t[i].children[j]).Done?
  {
    var requests :- RequestReports(t);
    Done(PassReport("<b>from " + ctx.fromPrefix + " to " + ctx.branch.toPrefix + "</b>", requests))
  }

  /** A leaf the loop has finished with: all three lists set. */
  predicate Settled(n: ChangeNode) {
    n.errors.Some? && n.warnings.Some? && n.sugs.Some?
  }

  /** The findings a leaf's report lists: its errors, or its warnings when
      it has none. */
  function Listed(n: ChangeNode): seq<Entry>
    requires n.errors.Some? && (n.errors.value == [] ==> n.warnings.Some?)
  {
    if n.errors.value != [] then n.errors.value else n.warnings.value
  }

  /** A leaf with findings reports, one line each, exactly the findings that
      have a suggestion at the same position and exactly those suggestions
      (Python's `zip` drops the rest), and both give the lines back once
      "<br/>" is read as a line break, when no record already held one. */
  lemma ReportListsPairedFindings(n: ChangeNode)
    requires n.errors.Some? && n.sugs.Some? && (n.errors.value == [] ==> n.warnings.Some?)
    requires Listed(n) != []
    requires !Contains(Lines(Listed(n)[..Min(|Listed(n)|, |n.sugs.value|)]), "<br/>")
    requires !Contains(Lines(n.sugs.value[..Min(|Listed(n)|, |n.sugs.value|)]), "<br/>")
    ensures LeafReport(n).Done? && LeafReport(n).value.sugs.Some?
    ensures Unbr(LeafReport(n).value.details) == Lines(Listed(n)[..Min(|Listed(n)|, |n.sugs.value|)])
    ensures Unbr(LeafReport(n).value.sugs.value) == Lines(n.sugs.value[..Min(|Listed(n)|, |n.sugs.value|)])
  {
    var m := Min(|Listed(n)|, |n.sugs.value|);
    UnbrBr(Lines(Listed(n)[..m]));
    UnbrBr(Lines(n.sugs.value[..m]));
  }
}
