/** Building the request tree and the run list from the command line and the
    ticket service (patchtester/__main__.py, `main`): a `local` request
    holding the changes given on the command line, or one request node per
    distinct ticket id holding that ticket's changes (a placeholder 0 for a
    ticket without any), and the run list of requested changes sorted as text. */
module TreeBuild {
  import opened Exceptions
  import opened Ordering
  import opened RequestTree

  /** The command-line choices that decide where the requested changes come
      from: `-i` (a list of changes), `-r` (a list of tickets), `-p` (pending
      tickets), otherwise the accepted tickets. */
  datatype Args = Args(integrations: Option<seq<string>>, requests: Option<seq<string>>, pending: bool)

  /** A ticket: its id and the changes it requests (possibly none yet). */
  datatype PatchRequest = PatchRequest(id: string, changes: seq<string>)

  /** The ticket service: `lookup(id)` is the ticket, or None when the lookup
      raises its own error (that ticket is then skipped); `pending` and
      `accepted` are the tickets for the target release. */
  datatype Tickets = Tickets(
    lookup: string -> Option<PatchRequest>,
    pending: seq<PatchRequest>,
    accepted: seq<PatchRequest>)

  /** The run stops with exit status 1 when a ticket mode finds no tickets. */
  datatype Plan = NoRequests | Planned(tree: Tree, requested: seq<string>)

  const LocalRequest: string := "local"

  /** Python's truth test of an optional list given on the command line. */
  predicate Given(l: Option<seq<string>>) {
    l.Some? && |l.value| > 0
  }

  /** Reference definition: the positions of the ids whose lookup
      succeeds, in increasing order. */
  function HitPositions(ids: seq<string>, lookup: string -> Option<PatchRequest>): (ps: seq<nat>)
    ensures forall k :: 0 <= k < |ps| ==> ps[k] < |ids| && lookup(ids[ps[k]]).Some?
    ensures forall k, l :: 0 <= k < l < |ps| ==> ps[k] < ps[l]
    ensures forall i :: 0 <= i < |ids| && lookup(ids[i]).Some? ==> i in ps
  {
    if |ids| == 0 then []
    else
      var init := HitPositions(ids[..|ids| - 1], lookup);
      if lookup(ids[|ids| - 1]).None? then init else init + [|ids| - 1]
  }

  /** The tickets the `-r` ids resolve to: one per successful lookup, in
      the order of the ids, failed lookups skipped. */
  function Resolved(ids: seq<string>, lookup: string -> Option<PatchRequest>): (data: seq<PatchRequest>)
    ensures |data| <= |ids|
    ensures forall k :: 0 <= k < |data| ==> exists i :: 0 <= i < |ids| && lookup(ids[i]) == Some(data[k])
    ensures (forall i :: 0 <= i < |ids| ==> lookup(ids[i]).None?) ==> data == []
  {
    if |ids| == 0 then []
    else
      var init := Resolved(ids[..|ids| - 1], lookup);
      assert forall k :: 0 <= k < |init| ==> exists i :: 0 <= i < |ids| - 1 && lookup(ids[i]) == Some(init[k]);
      match lookup(ids[|ids| - 1])
      case None => init
      case Some(pr) => init + [pr]
  }

  /** Ticket k was found at position p[k] of the ids. */
  predicate FoundAt(ids: seq<string>, lookup: string -> Option<PatchRequest>, data: seq<PatchRequest>, p: seq<nat>) {
    |data| == |p| && forall k :: 0 <= k < |data| ==> p[k] < |ids| && lookup(ids[p[k]]) == Some(data[k])
  }

  lemma FoundAtStep(ids: seq<string>, lookup: string -> Option<PatchRequest>, data: seq<PatchRequest>, p: seq<nat>)
    requires |ids| > 0 && FoundAt(ids[..|ids| - 1], lookup, data, p)
    ensures var last := lookup(ids[|ids| - 1]);
      FoundAt(ids, lookup, if last.None? then data else data + [last.value], if last.None? then p else p + [|ids| - 1])
  {
    var init := ids[..|ids| - 1];
    forall k | 0 <= k < |data|
      ensures lookup(ids[p[k]]) == Some(data[k])
    {
      assert init[p[k]] == ids[p[k]];
    }
  }

  /** Every successful lookup gives its ticket, in the order of the ids:
      ticket k is the one found at the k-th position whose lookup succeeds. */
  lemma {:induction false} ResolvedHits(ids: seq<string>, lookup: string -> Option<PatchRequest>)
    ensures FoundAt(ids, lookup, Resolved(ids, lookup), HitPositions(ids, lookup))
  {
    if |ids| > 0 {
      ResolvedHits(ids[..|ids| - 1], lookup);
      FoundAtStep(ids, lookup, Resolved(ids[..|ids| - 1], lookup), HitPositions(ids[..|ids| - 1], lookup));
    }
  }

  /** The leaf names a ticket contributes: its changes, or the placeholder 0. */
  function LabelsOf(pr: PatchRequest): (ls: seq<Label>)
    ensures |ls| >= 1
  {
    if |pr.changes| > 0 then seq(|pr.changes|, i requires 0 <= i < |pr.changes| => Named(pr.changes[i]))
    else [Zero]
  }

  /** The run-list entries a ticket contributes: its changes, or '0'. */
  function TextsOf(pr: PatchRequest): seq<string> {
    if |pr.changes| > 0 then pr.changes else ["0"]
  }

  function FreshLeaves(ls: seq<Label>): (ch: seq<ChangeNode>)
    ensures |ch| == |ls|
    ensures forall i :: 0 <= i < |ls| ==> ch[i] == Fresh(ls[i])
  {
    seq(|ls|, i requires 0 <= i < |ls| => Fresh(ls[i]))
  }

  /** The run-list text of each leaf. */
  function LeafTexts(ch: seq<ChangeNode>): (ts: seq<string>)
    ensures |ts| == |ch|
    ensures forall i :: 0 <= i < |ch| ==> ts[i] == LabelText(ch[i].name)
  {
    seq(|ch|, i requires 0 <= i < |ch| => LabelText(ch[i].name))
  }

  /** The run-list texts of all leaves of a tree, as a bag. */
  function LeafBag(t: Tree): multiset<string> {
    if |t| == 0 then multiset{} else LeafBag(t[..|t| - 1]) + multiset(LeafTexts(t[|t| - 1].children))
  }

  /** The position of the request node with id `id`, if there is one. */
  function IndexOfId(t: Tree, id: string): (k: Option<nat>)
    ensures k.Some? ==> k.value < |t| && t[k.value].id == id
    ensures k.None? ==> forall i :: 0 <= i < |t| ==> t[i].id != id
  {
    if |t| == 0 then None
    else if t[|t| - 1].id == id then Some(|t| - 1)
    else IndexOfId(t[..|t| - 1], id)
  }

  /** One ticket added to the grouping (`requests[str(request.id)].append(...)`). */
  function AddTicket(t: Tree, pr: PatchRequest): Tree {
    var leaves := FreshLeaves(LabelsOf(pr));
    match IndexOfId(t, pr.id)
    case Some(i) => t[i := Request(pr.id, t[i].children + leaves)]
    case None => t + [Request(pr.id, leaves)]
  }

  /** The tickets grouped by id, in order of first appearance. */
  function Group(data: seq<PatchRequest>): Tree {
    if |data| == 0 then [] else AddTicket(Group(data[..|data| - 1]), data[|data| - 1])
  }

  /** Reference definition: the leaf names every ticket with id `id` contributes, in order. */
  function LabelsFor(data: seq<PatchRequest>, id: string): seq<Label> {
    if |data| == 0 then []
    else LabelsFor(data[..|data| - 1], id) + (if data[|data| - 1].id == id then LabelsOf(data[|data| - 1]) else [])
  }

  /** The run list before sorting: every ticket's entries, in ticket order. */
  function Requested(data: seq<PatchRequest>): seq<string> {
    if |data| == 0 then [] else Requested(data[..|data| - 1]) + TextsOf(data[|data| - 1])
  }

  /** The request tree and the run list (lines 164-216). */
  function Build(args: Args, tickets: Tickets): Plan {
    if Given(args.integrations) then
      var changes := args.integrations.value;
      var leaves := FreshLeaves(seq(|changes|, i requires 0 <= i < |changes| => Named(changes[i])));
      Planned([Request(LocalRequest, leaves)], Sort(changes))
    else
      var data :=
        if Given(args.requests) then Resolved(args.requests.value, tickets.lookup)
        else if args.pending then tickets.pending
        else tickets.accepted;
      if |data| == 0 then NoRequests
      else Planned(Group(data), Sort(Requested(data)))
  }

  predicate AllFresh(t: Tree) {
    forall r, c :: 0 <= r < |t| && 0 <= c < |t[r].children| ==> t[r].children[c] == Fresh(t[r].children[c].name)
  }

  predicate DistinctIds(t: Tree) {
    forall i, j :: 0 <= i < j < |t| ==> t[i].id != t[j].id
  }

  lemma LeafTextsOfFresh(pr: PatchRequest)
    ensures LeafTexts(FreshLeaves(LabelsOf(pr))) == TextsOf(pr)
  {}

  lemma {:induction false} LeafBagAppend(t: Tree, q: Request)
    ensures LeafBag(t + [q]) == LeafBag(t) + multiset(LeafTexts(q.children))
  {
    assert (t + [q])[..|t|] == t;
  }

  lemma LeafTextsAppend(a: seq<ChangeNode>, b: seq<ChangeNode>)
    ensures LeafTexts(a + b) == LeafTexts(a) + LeafTexts(b)
  {}

  lemma {:induction false} LeafBagGrow(t: Tree, i: nat, extra: seq<ChangeNode>)
    requires i < |t|
    ensures LeafBag(t[i := Request(t[i].id, t[i].children + extra)]) == LeafBag(t) + multiset(LeafTexts(extra))
    decreases |t|
  {
    var q := Request(t[i].id, t[i].children + extra);
    var u := t[i := q];
    var n := |t| - 1;
    LeafTextsAppend(t[i].children, extra);
    if i == n {
      assert u[..n] == t[..n];
      assert LeafBag(u) == LeafBag(t[..n]) + multiset(LeafTexts(q.children));
    } else {
      assert u[..n] == t[..n][i := q];
      LeafBagGrow(t[..n], i, extra);
      assert LeafBag(u) == LeafBag(u[..n]) + multiset(LeafTexts(t[n].children));
    }
  }

  /** Grouping keeps every ticket's entries: the leaves of the tree and the
      unsorted run list hold the same entries, as many times each. */
  lemma {:induction false} GroupKeepsEntries(data: seq<PatchRequest>)
    ensures LeafBag(Group(data)) == multiset(Requested(data))
    decreases |data|
  {
    if |data| > 0 {
      var init := data[..|data| - 1];
      var pr := data[|data| - 1];
      var t := Group(init);
      GroupKeepsEntries(init);
      LeafTextsOfFresh(pr);
      match IndexOfId(t, pr.id)
      case Some(i) =>
        LeafBagGrow(t, i, FreshLeaves(LabelsOf(pr)));
      case None =>
        LeafBagAppend(t, Request(pr.id, FreshLeaves(LabelsOf(pr))));
    }
  }

  /** Some request node has id `id`. */
  predicate HasId(t: Tree, id: string) {
    exists i :: 0 <= i < |t| && t[i].id == id
  }

  /** Some ticket has id `id`. */
  predicate TicketId(data: seq<PatchRequest>, id: string) {
    exists k :: 0 <= k < |data| && data[k].id == id
  }

  /** What adding one ticket does to the grouping: the ticket's leaves go to
      the end of the node with its id, or to a new last node; every other
      node stays as it was. */
  lemma AddTicketSpec(t: Tree, pr: PatchRequest)
    requires DistinctIds(t) && AllFresh(t)
    ensures var u := AddTicket(t, pr);
      && DistinctIds(u) && AllFresh(u)
      && |t| <= |u| <= |t| + 1
      && (forall i :: 0 <= i < |t| ==> u[i].id == t[i].id)
      && (forall i :: 0 <= i < |t| && t[i].id != pr.id ==> u[i] == t[i])
      && (forall i :: 0 <= i < |t| && t[i].id == pr.id ==> u[i].children == t[i].children + FreshLeaves(LabelsOf(pr)))
      && (|u| == |t| + 1 ==> u[|t|] == Request(pr.id, FreshLeaves(LabelsOf(pr))) && !HasId(t, pr.id))
      && HasId(u, pr.id)
  {
    var u := AddTicket(t, pr);
    match IndexOfId(t, pr.id)
    case Some(i) => assert u[i].id == pr.id;
    case None => assert u[|t|].id == pr.id;
  }

  /** Grouping puts each ticket id on exactly one request node, and every
      node holds the id of some ticket. */
  lemma {:induction false} GroupIds(data: seq<PatchRequest>)
    ensures DistinctIds(Group(data))
    ensures AllFresh(Group(data))
    ensures forall k :: 0 <= k < |data| ==> HasId(Group(data), data[k].id)
    ensures forall i :: 0 <= i < |Group(data)| ==> TicketId(data, Group(data)[i].id)
    decreases |data|
  {
    if |data| > 0 {
      var init := data[..|data| - 1];
      var pr := data[|data| - 1];
      var t := Group(init);
      var u := Group(data);
      GroupIds(init);
      AddTicketSpec(t, pr);
      assert u == AddTicket(t, pr);
      forall k | 0 <= k < |data|
        ensures HasId(u, data[k].id)
      {
        if k < |data| - 1 {
          assert init[k] == data[k];
          assert HasId(t, init[k].id);
          var i :| 0 <= i < |t| && t[i].id == init[k].id;
          assert u[i].id == t[i].id;
        }
      }
      forall i | 0 <= i < |u|
        ensures TicketId(data, u[i].id)
      {
        if i < |t| {
          assert TicketId(init, t[i].id);
          var k :| 0 <= k < |init| && init[k].id == t[i].id;
          assert data[k] == init[k];
        } else {
          assert data[|data| - 1].id == u[i].id;
        }
      }
    }
  }

  /** Each node's leaves are the changes of every ticket with that id, in
      ticket order. */
  lemma {:induction false} GroupLabels(data: seq<PatchRequest>)
    ensures forall i :: 0 <= i < |Group(data)| ==>
              Names(Group(data)[i].children) == LabelsFor(data, Group(data)[i].id)
    decreases |data|
  {
    if |data| > 0 {
      var init := data[..|data| - 1];
      var pr := data[|data| - 1];
      var t := Group(init);
      GroupLabels(init);
      GroupIds(init);
      assert Group(data) == AddTicket(t, pr);
      forall k | 0 <= k < |init|
        ensures init[k].id != pr.id || HasId(t, pr.id)
      {
        assert HasId(t, init[k].id);
      }
      AddTicketLabels(init, pr, t);
    }
  }

  /** The induction step of `GroupLabels`. */
  lemma {:induction false} AddTicketLabels(init: seq<PatchRequest>, pr: PatchRequest, t: Tree)
    requires DistinctIds(t) && AllFresh(t)
    requires forall k :: 0 <= k < |init| ==> init[k].id != pr.id || HasId(t, pr.id)
    requires forall j :: 0 <= j < |t| ==> Names(t[j].children) == LabelsFor(init, t[j].id)
    ensures var u := AddTicket(t, pr);
      forall i :: 0 <= i < |u| ==> Names(u[i].children) == LabelsFor(init + [pr], u[i].id)
  {
    var u := AddTicket(t, pr);
    var data := init + [pr];
    var leaves := FreshLeaves(LabelsOf(pr));
    AddTicketSpec(t, pr);
    assert data[..|data| - 1] == init;
    assert Names(leaves) == LabelsOf(pr);
    forall i | 0 <= i < |u|
      ensures Names(u[i].children) == LabelsFor(data, u[i].id)
    {
      assert LabelsFor(data, u[i].id) == LabelsFor(init, u[i].id) + (if pr.id == u[i].id then LabelsOf(pr) else []);
      if i < |t| && t[i].id == pr.id {
        NamesAppend(t[i].children, leaves);
      } else if i == |t| {
        LabelsForNone(init, pr.id);
      }
    }
  }

  lemma NamesAppend(a: seq<ChangeNode>, b: seq<ChangeNode>)
    ensures Names(a + b) == Names(a) + Names(b)
  {
    NamesPointwise(a + b, Names(a) + Names(b));
  }

  lemma NamesPointwise(a: seq<ChangeNode>, ls: seq<Label>)
    requires |ls| == |a| && forall i :: 0 <= i < |a| ==> ls[i] == a[i].name
    ensures Names(a) == ls
  {}

  lemma {:induction false} LabelsForNone(data: seq<PatchRequest>, id: string)
    requires forall k :: 0 <= k < |data| ==> data[k].id != id
    ensures LabelsFor(data, id) == []
    decreases |data|
  {
    if |data| > 0 {
      LabelsForNone(data[..|data| - 1], id);
    }
  }

  /** In `-i` mode the tree is one `local` request holding the given changes
      in the given order; in every mode the run list is sorted as text and
      holds exactly the entries of the leaves; a ticket mode that finds no
      ticket stops the run. */
  lemma BuildSpec(args: Args, tickets: Tickets)
    ensures Given(args.integrations) ==>
              && Build(args, tickets).Planned?
              && |Build(args, tickets).tree| == 1
              && Build(args, tickets).tree[0].id == LocalRequest
              && Names(Build(args, tickets).tree[0].children)
                 == seq(|args.integrations.value|, i requires 0 <= i < |args.integrations.value| => Named(args.integrations.value[i]))
    ensures Build(args, tickets).NoRequests? <==>
              && !Given(args.integrations)
              && (Given(args.requests) ==> forall i :: 0 <= i < |args.requests.value| ==> tickets.lookup(args.requests.value[i]).None?)
              && (!Given(args.requests) && args.pending ==> tickets.pending == [])
              && (!Given(args.requests) && !args.pending ==> tickets.accepted == [])
    ensures Build(args, tickets).Planned? ==>
              && Sorted(Build(args, tickets).requested)
              && LeafBag(Build(args, tickets).tree) == multiset(Build(args, tickets).requested)
              && AllFresh(Build(args, tickets).tree)
  {
    var plan := Build(args, tickets);
    if Given(args.integrations) {
      var changes := args.integrations.value;
      var t := plan.tree;
      assert LeafTexts(t[0].children) == changes;
      assert t[..0] == [];
    } else {
      var data :=
        if Given(args.requests) then Resolved(args.requests.value, tickets.lookup)
        else if args.pending then tickets.pending
        else tickets.accepted;
      if Given(args.requests) && |data| == 0 {
        ResolvedEmpty(args.requests.value, tickets.lookup);
      }
      if |data| > 0 {
        GroupKeepsEntries(data);
        GroupIds(data);
      }
    }
  }

  lemma {:induction false} ResolvedEmpty(ids: seq<string>, lookup: string -> Option<PatchRequest>)
    requires Resolved(ids, lookup) == []
    ensures forall i :: 0 <= i < |ids| ==> lookup(ids[i]).None?
    decreases |ids|
  {
    if |ids| > 0 {
      ResolvedEmpty(ids[..|ids| - 1], lookup);
      forall i | 0 <= i < |ids| - 1
        ensures lookup(ids[i]).None?
      {
        assert ids[..|ids| - 1][i] == ids[i];
      }
    }
  }
}
