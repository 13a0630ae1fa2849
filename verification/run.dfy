/** The whole run (patchtester/__main__.py, `main`): build the tree and the
    run list, then one integration pass and one report per target branch,
    in order, the tree and the run list carried from pass to pass. */
module Run {
  import opened Exceptions
  import opened Text
  import opened Records
  import opened RequestTree
  import opened TreeBuild
  import opened Integration
  import opened Report

  /** How the run ends: exit status 1 when no ticket was found, or the final
      state with one report per branch. */
  datatype Finished = Exited(status: int) | Reported(session: Session, reports: seq<PassReport>)

  /** One branch: its pass, then its report (lines 223-228). */
  function PassAndReport(ctx: Ctx, s: Session, attempts: nat -> Attempt): (r: Outcome<(Session, PassReport)>)
    ensures r.Done? ==> r.value.1.subject == "<b>from " + ctx.fromPrefix + " to " + ctx.branch.toPrefix + "</b>"
    ensures r.Done? ==> SameShape(s.tree, r.value.0.tree) && |r.value.0.requested| == |s.requested|
    ensures r.Done? ==> |s.created| <= |r.value.0.created| && r.value.0.created[..|s.created|] == s.created
    ensures r.Done? ==> Pass(ctx, s, attempts) == Done(r.value.0)
  {
    var s1 :- Pass(ctx, s, attempts);
    var report :- Generate(ctx, s1.tree);
    Done((s1, report))
  }

  /** The report of a branch is the report of the tree its pass left, and
      there is one whenever the pass and the report both go through. */
  lemma PassAndReportGenerates(ctx: Ctx, s: Session, attempts: nat -> Attempt)
    ensures var r := PassAndReport(ctx, s, attempts);
      && (r.Done? ==> Generate(ctx, r.value.0.tree) == Done(r.value.1))
      && (Pass(ctx, s, attempts).Done? && Generate(ctx, Pass(ctx, s, attempts).value.tree).Done? ==> r.Done?)
  {
  }

  /** Branches i, i+1, ... (lines 221-229); `attempts(i)` is what the
      backend answers during pass i. */
  function RunFrom(fromPrefix: string, branches: seq<Branch>, s: Session, attempts: nat -> nat -> Attempt, i: nat)
    : (r: Outcome<(Session, seq<PassReport>)>)
    requires i <= |branches|
    ensures r.Done? ==> |r.value.1| == |branches| - i
    ensures r.Done? ==> forall k :: 0 <= k < |r.value.1| ==>
              r.value.1[k].subject == "<b>from " + fromPrefix + " to " + branches[i + k].toPrefix + "</b>"
    ensures r.Done? ==> SameShape(s.tree, r.value.0.tree) && |r.value.0.requested| == |s.requested|
    ensures r.Done? ==> |s.created| <= |r.value.0.created| && r.value.0.created[..|s.created|] == s.created
    decreases |branches| - i
  {
    if i == |branches| then Done((s, []))
    else
      var one :- PassAndReport(Ctx(fromPrefix, branches[i]), s, attempts(i));
      var rest :- RunFrom(fromPrefix, branches, one.0, attempts, i + 1);
      CreatedGrows(s.created, one.0.created, rest.0.created);
      SameShapeTransitive(s.tree, one.0.tree, rest.0.tree);
      Done((rest.0, [one.1] + rest.1))
  }

  /** The session the run has reached when it comes to branch k. */
  function SessionBefore(fromPrefix: string, branches: seq<Branch>, s: Session, attempts: nat -> nat -> Attempt, i: nat, k: nat)
    : (r: Outcome<Session>)
    requires i <= k <= |branches|
    ensures r.Done? ==> |r.value.requested| == |s.requested|
    decreases k - i
  {
    if i == k then Done(s)
    else
      var s1 :- Pass(Ctx(fromPrefix, branches[i]), s, attempts(i));
      SessionBefore(fromPrefix, branches, s1, attempts, i + 1, k)
  }

  /** Report k of the run is the report of the tree pass k left, pass k
      having run for branch k on the session the earlier passes left. */
  lemma {:induction false} RunFromChain(fromPrefix: string, branches: seq<Branch>, s: Session, attempts: nat -> nat -> Attempt,
                                        i: nat, k: nat)
    requires i <= k < |branches|
    ensures var r := RunFrom(fromPrefix, branches, s, attempts, i);
      r.Done? ==>
        var before := SessionBefore(fromPrefix, branches, s, attempts, i, k);
        var ctx := Ctx(fromPrefix, branches[k]);
        && before.Done?
        && Pass(ctx, before.value, attempts(k)).Done?
        && Generate(ctx, Pass(ctx, before.value, attempts(k)).value.tree) == Done(r.value.1[k - i])
    decreases k - i
  {
    var r := RunFrom(fromPrefix, branches, s, attempts, i);
    if r.Done? {
      var p := PassAndReport(Ctx(fromPrefix, branches[i]), s, attempts(i));
      PassAndReportGenerates(Ctx(fromPrefix, branches[i]), s, attempts(i));
      assert p.Done?;
      var rest := RunFrom(fromPrefix, branches, p.value.0, attempts, i + 1);
      assert rest.Done? && r.value.1 == [p.value.1] + rest.value.1;
      if k > i {
        RunFromChain(fromPrefix, branches, p.value.0, attempts, i + 1, k);
        assert SessionBefore(fromPrefix, branches, s, attempts, i, k)
               == SessionBefore(fromPrefix, branches, p.value.0, attempts, i + 1, k);
      }
    }
  }

  /** The run ends with the session the last pass left. */
  lemma {:induction false} RunFromFinal(fromPrefix: string, branches: seq<Branch>, s: Session, attempts: nat -> nat -> Attempt, i: nat)
    requires i <= |branches|
    ensures var r := RunFrom(fromPrefix, branches, s, attempts, i);
      r.Done? ==> SessionBefore(fromPrefix, branches, s, attempts, i, |branches|) == Done(r.value.0)
    decreases |branches| - i
  {
    var r := RunFrom(fromPrefix, branches, s, attempts, i);
    if r.Done? && i < |branches| {
      var one := PassAndReport(Ctx(fromPrefix, branches[i]), s, attempts(i)).value;
      RunFromFinal(fromPrefix, branches, one.0, attempts, i + 1);
    }
  }

  lemma CreatedGrows(a: seq<string>, b: seq<string>, c: seq<string>)
    requires |a| <= |b| <= |c| && b[..|a|] == a && c[..|b|] == b
    ensures c[..|a|] == a
  {
    assert c[..|a|] == c[..|b|][..|a|];
  }

  /** The run from the command line to the reports. */
  function Execute(args: Args, tickets: Tickets, fromPrefix: string, branches: seq<Branch>, attempts: nat -> nat -> Attempt)
    : (r: Outcome<Finished>)
    ensures Build(args, tickets).NoRequests? <==> r == Done(Exited(1))
    ensures r.Done? && r.value.Reported? ==> |r.value.reports| == |branches| && |r.value.session.requested| == |Build(args, tickets).requested|
    ensures r.Done? && r.value.Reported? ==> SameShape(Build(args, tickets).tree, r.value.session.tree)
  {
    match Build(args, tickets)
    case NoRequests => Done(Exited(1))
    case Planned(tree, requested) =>
      var (s, reports) :- RunFrom(fromPrefix, branches, Session(tree, requested, []), attempts, 0);
      Done(Reported(s, reports))
  }

  lemma FlaggedTwice(n: ChangeNode)
    ensures Flagged(Flagged(n)) == Flagged(n)
  {}

  /** Across the passes, a run list with an entry of 0 keeps it, and the
      placeholders stay flagged once, whatever the number of passes. */
  lemma {:induction false} RunFromFlags(fromPrefix: string, branches: seq<Branch>, s: Session, attempts: nat -> nat -> Attempt, i: nat,
                                        t0: Tree, flagged: bool)
    requires i <= |branches|
    requires ZeroUnlinked(s.tree) && SameShape(t0, s.tree) && PlaceholdersAs(t0, s.tree, flagged)
    requires ZeroFrom(s.requested, 0)
    requires flagged || i < |branches|
    ensures var r := RunFrom(fromPrefix, branches, s, attempts, i);
      r.Done? ==> SameShape(t0, r.value.0.tree) && PlaceholdersAs(t0, r.value.0.tree, true)
    decreases |branches| - i
  {
    if i < |branches| {
      var ctx := Ctx(fromPrefix, branches[i]);
      var p := PassAndReport(ctx, s, attempts(i));
      if p.Done? {
        var s1 := p.value.0;
        PassFlagsPlaceholders(ctx, s, attempts(i));
        forall r, c | 0 <= r < |t0| && 0 <= c < |t0[r].children| && t0[r].children[c].name == Zero
          ensures s1.tree[r].children[c] == Flagged(t0[r].children[c])
        {
          FlaggedTwice(t0[r].children[c]);
        }
        PassFromKeepsZeros(ctx, s, attempts(i), 0, {});
        var k :| 0 <= k < |s.requested| && ParseInt(s.requested[k]) == Some(0);
        assert k in ZeroEntries(s.requested);
        RunFromFlags(fromPrefix, branches, s1, attempts, i + 1, t0, true);
      }
    }
  }

  /** When the run list holds an entry of 0 and there is at least one
      branch, every placeholder leaf of the built tree ends the run with
      exactly the pending-request error and suggestion. */
  lemma RunFlagsPlaceholders(args: Args, tickets: Tickets, fromPrefix: string, branches: seq<Branch>, attempts: nat -> nat -> Attempt)
    requires Build(args, tickets).Planned? && ZeroFrom(Build(args, tickets).requested, 0) && |branches| > 0
    ensures var r := Execute(args, tickets, fromPrefix, branches, attempts);
      var t := Build(args, tickets).tree;
      r.Done? ==> r.value.Reported? && forall i, j :: 0 <= i < |t| && 0 <= j < |t[i].children| && t[i].children[j].name == Zero ==>
        r.value.session.tree[i].children[j] == Flagged(Fresh(Zero))
  {
    var plan := Build(args, tickets);
    BuildSpec(args, tickets);
    RunFromFlags(fromPrefix, branches, Session(plan.tree, plan.requested, []), attempts, 0, plan.tree, false);
  }

  /** A flagged placeholder gets a FAILED line whose details and suggestion
      are the pending-request records. */
  lemma FlaggedPlaceholderReport()
    ensures LeafReport(Flagged(Fresh(Zero)))
            == Done(ChangeReport(Zero, Failed, Some(Br(PendingKey + ": " + PendingSug + "\n")), Br(PendingKey + ": " + PendingDesc + "\n")))
  {
    LinesSingle(Entry(PendingKey, PendingDesc));
    LinesSingle(Entry(PendingKey, PendingSug));
  }

  lemma LinesSingle(e: Entry)
    ensures Lines([e]) == e.key + ": " + e.value + "\n"
  {
    assert [e][..0] == [];
  }
}
