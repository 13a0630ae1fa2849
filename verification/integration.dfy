/** One integration pass over the run list (patchtester/__init__.py,
    `doIntegrations`): for every requested change, find its leaf, describe
    the change, open a new changelist, integrate, resolve each file, check
    for a cross-component change, and record errors, warnings and
    suggestions on the leaf; placeholders for tickets without a change are
    flagged once. */
module Integration {
  import opened Exceptions
  import opened Text
  import opened Records
  import opened RequestTree
  import opened Diagnosis

  /** The state a pass works on: the tree, the run list (entries are replaced
      by the new changelist once a change went all the way through), and the
      changelists created so far. */
  datatype Session = Session(tree: Tree, requested: seq<string>, created: seq<string>)

  const PendingKey: string := "Pending patch or missing Requested Changelists: field"
  const PendingDesc: string := "No changelist available."
  const PendingSug: string :=
    "This request depends on a request to the originating branch that has not been done yet or it has a PRQ "
    + " that is missing the requested changelist.  Try again later or fix the changelist."
  const DescribeKey: string := "p4 describe integrate error"
  const AckKey: string := "create new change error"
  const IntegErrorKey: string := "p4 integrate error"
  const IntegWarnKey: string := "p4 integration warning"
  const CopyKey: string := "Failed to copy in files to new changelist"
  const CopyDesc: string := "A file integration failed. Multiple requests contained different revisions of the same file."
  const CopySug: string :=
    "This warning indicates that the same file was requested in multiple changelists. Because PatchTester does"
    + " not submit the files like p4 patch does, it can not integrate multiple revisions of the same file."
    + " Therefore, it only integrates the first one. This means that PatchTester is not really testing all"
    + " of the requested changes to that file."
  const ResolveErrKey: string := "p4 resolve error"
  const NothingToResolve: string := "no file(s) to resolve."
  const FailedToResolve: string := "Failed to resolve"
  const ConflictKey: string := "Resolution Conflict"
  const CrossKey: string := "Cross Component Checkin"
  const CrossError: string :=
    "Succcesfully integrated and resolved but \nthis changelist contains files from multiple components."
  const CrossSugHead: string := "This is a warning. \nThese are the files in this changelist\n"

  /** The placeholder leaf after it was flagged. */
  function Flagged(n: ChangeNode): ChangeNode {
    n.(crossComponent := false,
       errors := Some([Entry(PendingKey, PendingDesc)]),
       sugs := Some([Entry(PendingKey, PendingSug)]))
  }

  /** A run-list entry of 0 (lines 126-143): every placeholder leaf not yet
      flagged in this pass gets the pending-request error and suggestion. */
  function FlagPlaceholders(t: Tree, seen: set<Pos>): (u: Tree)
    ensures SameShape(t, u)
    ensures forall r, c :: 0 <= r < |t| && 0 <= c < |t[r].children| ==>
              u[r].children[c] ==
                if t[r].children[c].name == Zero && AtChange(r, c) !in seen then Flagged(t[r].children[c])
                else t[r].children[c]
  {
    seq(|t|, r requires 0 <= r < |t| =>
      Request(t[r].id, seq(|t[r].children|, c requires 0 <= c < |t[r].children| =>
        if t[r].children[c].name == Zero && AtChange(r, c) !in seen then Flagged(t[r].children[c])
        else t[r].children[c])))
  }

  /** The reply to `change -i`: the new changelist, or a refusal. */
  datatype Ack = Accepted(id: string) | Rejected

  /** The check of the first line of the `change -i` reply (lines 195-203),
      as written: it is refused only when the first word is not "Change"
      and the third word is not "created"; a line too short for the words
      it reads raises IndexError. */
  function ParseAck(line: string): (r: Outcome<Ack>)
    ensures var w := Split(line, ' ');
      && (r == Done(Rejected) <==> w[0] != "Change" && |w| >= 3 && w[2] != "created")
      && (r.Done? && r.value.Accepted? <==> |w| >= 2 && (w[0] == "Change" || (|w| >= 3 && w[2] == "created")))
      && (r.Done? && r.value.Accepted? ==> r.value.id == w[1])
      && (r.Raised? ==> r.error == IndexError)
  {
    var w := Split(line, ' ');
    if w[0] != "Change" then
      if |w| < 3 then Raised(IndexError)
      else if w[2] != "created" then Done(Rejected)
      else Done(Accepted(w[1]))
    else if |w| < 2 then Raised(IndexError)
    else Done(Accepted(w[1]))
  }

  /** The backend's acknowledgement "Change <id> created" gives back `id`. */
  lemma AckRoundTrip(id: string, rest: string)
    requires ' ' !in id
    ensures ParseAck("Change " + id + " " + rest) == Done(Accepted(id))
  {
    var line := "Change " + id + " " + rest;
    assert line == "Change" + [' '] + (id + [' '] + rest);
    SplitAfterPiece("Change", ' ', id + [' '] + rest);
    SplitAfterPiece(id, ' ', rest);
  }

  /** A three-word line is refused exactly when the first word is not
      "Change" and the third is not "created"; otherwise the second word is
      taken as the new changelist. */
  lemma ParseAckWords(first: string, second: string, third: string)
    requires ' ' !in first && ' ' !in second && ' ' !in third
    ensures ParseAck(first + " " + second + " " + third)
            == if first != "Change" && third != "created" then Done(Rejected) else Done(Accepted(second))
  {
    var line := first + " " + second + " " + third;
    assert line == first + [' '] + (second + [' '] + third);
    SplitAfterPiece(first, ' ', second + [' '] + third);
    SplitAfterPiece(second, ' ', third);
    SplitNoSeparator(third, ' ');
  }

  /** As written, the check also accepts a line whose first word is "Change"
      whatever follows, and one whose third word is "created" whatever
      precedes it. */
  lemma AckIsLenient()
    ensures ParseAck("Change 7 deleted") == Done(Accepted("7"))
    ensures ParseAck("Shelf 7 created") == Done(Accepted("7"))
  {
    assert "Change 7 deleted" == "Change" + " " + "7" + " " + "deleted";
    assert "Shelf 7 created" == "Shelf" + " " + "7" + " " + "created";
    ParseAckWords("Change", "7", "deleted");
    ParseAckWords("Shelf", "7", "created");
  }

  const SkippedMark: string := "resolve skipped."
  const ChunksMark: string := "Diff chunks:"
  const NoConflictMark: string := " 0 conflicting"

  /** A text line of the resolve reply that reports conflicting chunks. */
  predicate ConflictLine(m: string) {
    !Contains(m, SkippedMark) && Contains(m, ChunksMark) && !Contains(m, NoConflictMark)
  }

  /** A resolve entry that ends the scan: a skipped resolve or a conflict. */
  predicate Stops(item: ResolveItem) {
    item.Message? && (Contains(item.text, SkippedMark) || ConflictLine(item.text))
  }

  /** The scan of the resolve reply (lines 299-327): the first conflict line
      met before any "resolve skipped." line, if any. */
  function ScanResolve(items: seq<ResolveItem>): (r: Option<string>)
    ensures r.Some? ==> exists k :: 0 <= k < |items| && items[k] == Message(r.value) && ConflictLine(r.value)
                                     && forall j :: 0 <= j < k ==> !Stops(items[j])
    ensures r.None? ==> forall k :: 0 <= k < |items| && items[k].Message? && ConflictLine(items[k].text) ==>
                                      exists j :: 0 <= j < k && items[j].Message? && Contains(items[j].text, SkippedMark)
  {
    if |items| == 0 then None
    else
      var rest := ScanResolve(items[1..]);
      assert forall k :: 1 <= k < |items| ==> items[k] == items[1..][k - 1];
      match items[0]
      case Tagged(_, _) => rest
      case Message(m) =>
        if Contains(m, SkippedMark) then None
        else if Contains(m, ChunksMark) && !Contains(m, NoConflictMark) then Some(m)
        else rest
  }

  /** The error text of a conflict: the part after the last '+', with
      "conflicting" worded "conflicts", and the file. */
  function ConflictText(line: string, file: string): string {
    ReplaceAll(LastPiece(line, '+'), "conflicting", "conflicts") + " reported for file " + file + "\n\n"
  }

  /** The errors, warnings and suggestions a leaf collects in one attempt. */
  datatype Findings = Findings(errors: seq<Entry>, warnings: seq<Entry>, sugs: seq<Entry>) {
    function Error(key: string, value: string): Findings {
      this.(errors := errors + [Entry(key, value)])
    }
    function Warning(key: string, value: string): Findings {
      this.(warnings := warnings + [Entry(key, value)])
    }
    function Sug(key: string, value: string): Findings {
      this.(sugs := sugs + [Entry(key, value)])
    }
  }

  const NoFindings: Findings := Findings([], [], [])

  /** The findings of the file loop and whether a conflict was found. */
  datatype FilesState = FilesState(findings: Findings, failed: bool)

  /** The key of the error a file that could not be resolved gets. */
  function ResolveFailKey(file: string): string {
    "Error resolving " + file
  }

  /** A file the loop passes over: one branched in at its first revision. */
  predicate BranchedIn(f: FileRev) {
    ParseInt(f.rev) == Some(1) && Contains(f.action, "branch")
  }

  /** A file whose resolve reply reports conflicting chunks (lines 299-327). */
  predicate Conflicting(pf: PendingFile) {
    !BranchedIn(pf.file) && pf.resolve.Returned? && pf.resolve.value != [] && ScanResolve(pf.resolve.value).Some?
  }

  /** The number of entries recorded under `key`. */
  function KeyCount(es: seq<Entry>, key: string): nat {
    if |es| == 0 then 0 else KeyCount(es[..|es| - 1], key) + (if es[|es| - 1].key == key then 1 else 0)
  }

  lemma KeyCountAppend(es: seq<Entry>, e: Entry, key: string)
    ensures KeyCount(es + [e], key) == KeyCount(es, key) + (if e.key == key then 1 else 0)
  {
    assert (es + [e])[..|es|] == es;
  }

  /** One file of the new changelist (lines 270-332). */
  function FileStep(ctx: Ctx, orig: Describe, pf: PendingFile, idx: nat, st: FilesState): (r: Outcome<FilesState>)
    ensures ParseInt(pf.file.rev).None? ==> r == Raised(ValueError)
    ensures BranchedIn(pf.file) ==> r == Done(st)
    ensures r.Done? && !BranchedIn(pf.file) && (pf.resolve.Threw? || pf.resolve.value == []) ==>
              var errors := r.value.findings.errors;
              && r.value.failed == st.failed
              && r.value.findings.warnings == st.findings.warnings
              && r.value.findings.sugs == st.findings.sugs
              && |errors| == |st.findings.errors|
                             + (if pf.resolve.Threw? && !Contains(pf.resolve.text, NothingToResolve) then 2 else 1)
              && errors[..|st.findings.errors|] == st.findings.errors
              && errors[|errors| - 1] == Entry(ResolveFailKey(pf.file.depotFile), FailedToResolve)
    ensures pf.resolve.Returned? && pf.resolve.value != [] && ScanResolve(pf.resolve.value).None? && ParseInt(pf.file.rev).Some? ==>
              r == Done(st)
    ensures r.Done? && !BranchedIn(pf.file) && pf.resolve.Returned? && pf.resolve.value != [] && ScanResolve(pf.resolve.value).Some? ==>
              var sugs := r.value.findings.sugs;
              && r.value.failed
              && r.value.findings.warnings == st.findings.warnings
              && r.value.findings.errors
                 == st.findings.errors + [Entry(ConflictKey, ConflictText(ScanResolve(pf.resolve.value).value, pf.file.depotFile))]
              && |sugs| == |st.findings.sugs| + 1
              && sugs[..|st.findings.sugs|] == st.findings.sugs
              && sugs[|st.findings.sugs|].key == ConflictKey
  {
    var rev :- Parsed(pf.file.rev);
    if rev == 1 && Contains(pf.file.action, "branch") then Done(st)
    else
      var file := pf.file.depotFile;
      match pf.resolve
      case Threw(e) =>
        var f := if !Contains(e, NothingToResolve) then st.findings.Error(ResolveErrKey, e) else st.findings;
        Done(st.(findings := f.Error(ResolveFailKey(file), FailedToResolve)))
      case Returned(items) =>
        if |items| == 0 then Done(st.(findings := st.findings.Error(ResolveFailKey(file), FailedToResolve)))
        else
          match ScanResolve(items)
          case None => Done(st)
          case Some(line) =>
            var sug :- SuggestResolution(ctx, file, idx, orig, items, pf.diag);
            Done(FilesState(st.findings.Error(ConflictKey, ConflictText(line, file)).Sug(ConflictKey, Render(sug, ctx)), true))
  }

  /** A file marks the loop as failed exactly when its resolve reports a
      conflict, and never adds a cross-component error. */
  lemma FileStepFlags(ctx: Ctx, orig: Describe, pf: PendingFile, idx: nat, st: FilesState)
    ensures var r := FileStep(ctx, orig, pf, idx, st);
      && (r.Done? ==> (r.value.failed <==> st.failed || Conflicting(pf)))
      && (r.Done? ==> KeyCount(r.value.findings.errors, CrossKey) == KeyCount(st.findings.errors, CrossKey))
  {
    var r := FileStep(ctx, orig, pf, idx, st);
    if r.Done? && !BranchedIn(pf.file) {
      var file := pf.file.depotFile;
      assert ResolveErrKey[0] != CrossKey[0] && ResolveFailKey(file)[0] != CrossKey[0] && ConflictKey[0] != CrossKey[0];
      match pf.resolve
      case Threw(e) =>
        var f := if !Contains(e, NothingToResolve) then st.findings.Error(ResolveErrKey, e) else st.findings;
        KeyCountAppend(st.findings.errors, Entry(ResolveErrKey, e), CrossKey);
        KeyCountAppend(f.errors, Entry(ResolveFailKey(file), FailedToResolve), CrossKey);
      case Returned(items) =>
        if |items| == 0 {
          KeyCountAppend(st.findings.errors, Entry(ResolveFailKey(file), FailedToResolve), CrossKey);
        } else if ScanResolve(items).Some? {
          KeyCountAppend(st.findings.errors, Entry(ConflictKey, ConflictText(ScanResolve(items).value, file)), CrossKey);
        }
    }
  }

  /** Files i, i+1, ... of the new changelist, in order. */
  function FilesFrom(ctx: Ctx, orig: Describe, files: seq<PendingFile>, i: nat, st: FilesState): (r: Outcome<FilesState>)
    requires i <= |files|
    ensures r.Done? ==> r.value.findings.warnings == st.findings.warnings
    ensures r.Done? ==> |st.findings.errors| <= |r.value.findings.errors|
                        && r.value.findings.errors[..|st.findings.errors|] == st.findings.errors
    ensures r.Done? ==> (r.value.failed <==> st.failed || exists k :: i <= k < |files| && Conflicting(files[k]))
    ensures r.Done? ==> KeyCount(r.value.findings.errors, CrossKey) == KeyCount(st.findings.errors, CrossKey)
    decreases |files| - i
  {
    if i == |files| then Done(st)
    else
      var next :- FileStep(ctx, orig, files[i], i, st);
      FileStepFlags(ctx, orig, files[i], i, st);
      FilesFrom(ctx, orig, files, i + 1, next)
  }

  /** The component of a depot file: its first path segment once the source
      prefix and slash are taken out (everywhere in the path, as Python's
      `replace` does). */
  function Component(file: string, fromPrefix: string): string {
    Split(ReplaceAll(file, fromPrefix + "/", ""), '/')[0]
  }

  /** Components the check passes over. */
  predicate Ignored(component: string) {
    Contains(component, "testSpecs") || Contains(component, "SCons") || Contains(component, "buildMap")
  }

  /** Reference definition: the positions of the files whose component is
      not passed over, in increasing order. */
  function KeptPositions(files: seq<string>, fromPrefix: string): (ps: seq<nat>)
    ensures forall k :: 0 <= k < |ps| ==> ps[k] < |files| && !Ignored(Component(files[ps[k]], fromPrefix))
    ensures forall k, l :: 0 <= k < l < |ps| ==> ps[k] < ps[l]
    ensures forall i :: 0 <= i < |files| && !Ignored(Component(files[i], fromPrefix)) ==> i in ps
  {
    if |files| == 0 then []
    else
      var init := KeptPositions(files[..|files| - 1], fromPrefix);
      if Ignored(Component(files[|files| - 1], fromPrefix)) then init else init + [|files| - 1]
  }

  /** The components of the files, in order, without the ignored ones: the
      component of each kept position, and nothing else. */
  function Considered(files: seq<string>, fromPrefix: string): (cs: seq<string>)
    ensures forall i :: 0 <= i < |cs| ==> !Ignored(cs[i])
  {
    if |files| == 0 then []
    else
      var init := Considered(files[..|files| - 1], fromPrefix);
      var c := Component(files[|files| - 1], fromPrefix);
      if Ignored(c) then init else init + [c]
  }

  /** Every file whose component is not passed over gives its component,
      in the order of the files: component k is that of the k-th kept
      position. */
  lemma {:induction false} ConsideredKept(files: seq<string>, fromPrefix: string)
    ensures |Considered(files, fromPrefix)| == |KeptPositions(files, fromPrefix)|
    ensures forall k :: 0 <= k < |Considered(files, fromPrefix)| ==>
              Considered(files, fromPrefix)[k] == Component(files[KeptPositions(files, fromPrefix)[k]], fromPrefix)
  {
    if |files| > 0 {
      var init := files[..|files| - 1];
      ConsideredKept(init, fromPrefix);
      assert forall k :: 0 <= k < |init| ==> init[k] == files[k];
    }
  }

  /** The comparison loop (lines 337-362): the first component that is not
      empty becomes the reference (an empty one does not stick, being false
      in Python), and any later different one raises the flag. */
  function CompareFrom(cs: seq<string>, reference: string): bool {
    if |cs| == 0 then false
    else if reference == "" then CompareFrom(cs[1..], cs[0])
    else if reference != cs[0] then true
    else CompareFrom(cs[1..], reference)
  }

  /** Reference definition: some component that is not empty is followed by a different one. */
  predicate Mixed(cs: seq<string>) {
    exists i, j :: 0 <= i < j < |cs| && cs[i] != "" && cs[j] != cs[i]
  }

  lemma {:induction false} CompareFromSpec(cs: seq<string>, reference: string)
    ensures CompareFrom(cs, reference) <==> Mixed([reference] + cs)
    decreases |cs|
  {
    var s := [reference] + cs;
    if |cs| > 0 {
      if reference == "" {
        CompareFromSpec(cs[1..], cs[0]);
        assert [cs[0]] + cs[1..] == cs;
        if Mixed(cs) {
          var i, j :| 0 <= i < j < |cs| && cs[i] != "" && cs[j] != cs[i];
          assert s[i + 1] == cs[i] && s[j + 1] == cs[j];
        }
        if Mixed(s) {
          var i, j :| 0 <= i < j < |s| && s[i] != "" && s[j] != s[i];
          assert i > 0;
          assert cs[i - 1] == s[i] && cs[j - 1] == s[j];
        }
      } else if reference != cs[0] {
        assert s[0] != "" && s[1] != s[0];
      } else {
        CompareFromSpec(cs[1..], reference);
        var s' := [reference] + cs[1..];
        if Mixed(s') {
          var i, j :| 0 <= i < j < |s'| && s'[i] != "" && s'[j] != s'[i];
          var i', j' := if i == 0 then 0 else i + 1, j + 1;
          assert s[i'] == s'[i] && s[j'] == s'[j];
        }
        if Mixed(s) {
          var i, j :| 0 <= i < j < |s| && s[i] != "" && s[j] != s[i];
          var i', j' := if i <= 1 then 0 else i - 1, if j <= 1 then 0 else j - 1;
          if j == 1 {
            assert false;
          }
          assert s[i] == s'[i'] && s[j] == s'[j'];
        }
      }
    } else {
      assert |s| == 1;
    }
  }

  /** The change is flagged as cross-component exactly when, among the
      components that are not passed over, some non-empty one is followed
      by a different one. */
  lemma CrossComponentSpec(files: seq<string>, fromPrefix: string)
    ensures CompareFrom(Considered(files, fromPrefix), "") <==> Mixed(Considered(files, fromPrefix))
  {
    CompareFromEmpty(Considered(files, fromPrefix));
  }

  /** Started without a reference, the loop flags exactly a mixed list. */
  lemma CompareFromEmpty(cs: seq<string>)
    ensures CompareFrom(cs, "") <==> Mixed(cs)
  {
    CompareFromSpec(cs, "");
    var s := [""] + cs;
    if Mixed(s) {
      var i, j :| 0 <= i < j < |s| && s[i] != "" && s[j] != s[i];
      assert cs[i - 1] == s[i] && cs[j - 1] == s[j];
    }
    if Mixed(cs) {
      var i, j :| 0 <= i < j < |cs| && cs[i] != "" && cs[j] != cs[i];
      assert s[i + 1] == cs[i] && s[j + 1] == cs[j];
    }
  }

  /** A file of a passed-over component does not change the verdict. */
  lemma IgnoredFileIrrelevant(files: seq<string>, f: string, fromPrefix: string)
    requires Ignored(Component(f, fromPrefix))
    ensures Considered(files + [f], fromPrefix) == Considered(files, fromPrefix)
  {
    assert (files + [f])[..|files|] == files;
  }

  /** The cross-component check on the requested change's files; a record
      without files raises KeyError. */
  function CrossCheck(orig: Describe, fromPrefix: string): (r: Outcome<bool>)
    ensures r.Raised? <==> orig.files.None?
    ensures r.Done? ==> (r.value <==> Mixed(Considered(DepotFiles(orig.files.value), fromPrefix)))
  {
    match orig.files
    case None => Raised(KeyError)
    case Some(fs) =>
      CrossComponentSpec(DepotFiles(fs), fromPrefix);
      Done(CompareFrom(Considered(DepotFiles(fs), fromPrefix), ""))
  }

  function DepotFiles(fs: seq<FileRev>): (ds: seq<string>)
    ensures |ds| == |fs| && forall i :: 0 <= i < |fs| ==> ds[i] == fs[i].depotFile
  {
    seq(|fs|, i requires 0 <= i < |fs| => fs[i].depotFile)
  }

  /** What one attempt leaves on the leaf, and what it adds to the session:
      `created` is the new changelist (if one was opened), `finished` says
      the attempt went all the way through. */
  datatype Processed = Processed(
    findings: Findings,
    cross: bool,
    change: Option<string>,
    desc: Option<Describe>,
    created: seq<string>,
    finished: bool)

  /** One requested change on its leaf (lines 162-364). `change` and `desc`
      are the leaf's fields before the attempt. */
  function ProcessLeaf(ctx: Ctx, integrate: string, change: Option<string>, desc: Option<Describe>, att: Attempt)
    : (r: Outcome<Processed>)
    ensures r.Done? ==> |r.value.created| <= 1
    ensures r.Done? && |r.value.created| == 1 ==>
              && att.describe.Returned?
              && ParseAck(att.ackLine) == Done(Accepted(r.value.created[0]))
              && r.value.change == Some(r.value.created[0])
    ensures r.Done? && r.value.finished ==> |r.value.created| == 1 && !att.integ.IntegThrew? && att.pending.Some?
    ensures r.Done? && r.value.cross ==>
              r.value.finished && |r.value.findings.errors| > 0 && r.value.findings.errors[|r.value.findings.errors| - 1].key == CrossKey
    ensures r.Done? && att.describe.Threw? ==>
              r.value == Processed(NoFindings.Error(DescribeKey, att.describe.text), false, change, desc, [], false)
    ensures r.Done? && r.value.created == [] ==> r.value.change == change && !r.value.finished
    ensures r.Done? && att.describe.Returned? ==> r.value.desc == Some(att.describe.value)
  {
    var _ :- Parsed(integrate);
    match att.describe
    case Threw(t) => Done(Processed(NoFindings.Error(DescribeKey, t), false, change, desc, [], false))
    case Returned(d) =>
      var ack :- ParseAck(att.ackLine);
      match ack
      case Rejected => Done(Processed(NoFindings.Error(AckKey, att.ackShown), false, change, Some(d), [], false))
      case Accepted(id) =>
        if att.integ.IntegThrew? then
          var sug := Render(SuggestIntegError(att.integ.text, d), ctx);
          Done(Processed(NoFindings.Error(IntegErrorKey, att.integ.text).Sug(IntegErrorKey, sug), false, Some(id), Some(d), [id], false))
        else
          var warned := IntegWarnings(att.integ);
          match att.pending
          case None =>
            Done(Processed(warned.Warning(CopyKey, CopyDesc).Sug(CopyKey, CopySug), false, Some(id), Some(d), [id], false))
          case Some(files) =>
            var st :- FilesFrom(ctx, d, files, 0, FilesState(warned, false));
            if st.failed then Done(Processed(st.findings, false, Some(id), Some(d), [id], true))
            else
              var cross :- CrossCheck(d, ctx.fromPrefix);
              var f := if cross then st.findings.Error(CrossKey, CrossError).Sug(CrossKey, CrossSugHead + Join(DepotFiles(d.files.value), '\n'))
                       else st.findings;
              Done(Processed(f, cross, Some(id), Some(d), [id], true))
  }

  /** The cross-component check runs only when no file of the new
      changelist had a resolution conflict, and then gives the flag. */
  lemma ProcessLeafCross(ctx: Ctx, integrate: string, change: Option<string>, desc: Option<Describe>, att: Attempt)
    ensures var r := ProcessLeaf(ctx, integrate, change, desc, att);
      r.Done? && r.value.finished ==>
        var files := att.pending.value;
        && ((exists k :: 0 <= k < |files| && Conflicting(files[k])) ==> !r.value.cross)
        && ((forall k :: 0 <= k < |files| ==> !Conflicting(files[k])) ==>
              att.describe.Returned? && CrossCheck(att.describe.value, ctx.fromPrefix) == Done(r.value.cross))
  {
    var r := ProcessLeaf(ctx, integrate, change, desc, att);
    if r.Done? && r.value.finished {
      var d := att.describe.value;
      var st := FilesFrom(ctx, d, att.pending.value, 0, FilesState(IntegWarnings(att.integ), false));
      assert st.Done?;
      assert r.value.cross ==> !st.value.failed;
    }
  }

  /** The leaf gets the cross-component error once when flagged and never
      otherwise. */
  lemma ProcessLeafCrossOnce(ctx: Ctx, integrate: string, change: Option<string>, desc: Option<Describe>, att: Attempt)
    ensures var r := ProcessLeaf(ctx, integrate, change, desc, att);
      r.Done? ==> KeyCount(r.value.findings.errors, CrossKey) == (if r.value.cross then 1 else 0)
  {
    var r := ProcessLeaf(ctx, integrate, change, desc, att);
    if r.Done? {
      assert DescribeKey[0] != CrossKey[0] && AckKey[0] != CrossKey[0] && IntegErrorKey[0] != CrossKey[0];
      if r.value.finished {
        var d := att.describe.value;
        var st := FilesFrom(ctx, d, att.pending.value, 0, FilesState(IntegWarnings(att.integ), false));
        assert st.Done?;
        KeyCountAppend(st.value.findings.errors, Entry(CrossKey, CrossError), CrossKey);
      }
    }
  }

  /** The warning an integration that returned something leaves. */
  function IntegWarnings(integ: IntegReply): Findings {
    match integ
    case IntegWarned(shown) => NoFindings.Warning(IntegWarnKey, shown)
    case _ => NoFindings
  }

  /** The leaf after an attempt: fresh lists of findings and the new fields. */
  function Settled(n: ChangeNode, p: Processed): (m: ChangeNode)
    ensures m.name == n.name
    ensures m.errors.Some? && m.warnings.Some? && m.sugs.Some?
  {
    ChangeNode(n.name, Some(p.findings.errors), Some(p.findings.warnings), Some(p.findings.sugs), p.cross, p.change, p.desc)
  }

  /** The session after an attempt on leaf (r, c) for entry n: the leaf
      settled, every other leaf kept, the run-list entry replaced by the new
      changelist exactly when the attempt went all the way through (line
      364), and the new changelist recorded. */
  function Apply(s: Session, n: nat, r: nat, c: nat, p: Processed): (u: Session)
    requires n < |s.requested| && IsLeaf(s.tree, r, c)
    requires p.finished ==> p.change.Some?
    ensures SameShape(s.tree, u.tree)
    ensures |u.requested| == |s.requested|
    ensures u.tree[r].children[c] == Settled(s.tree[r].children[c], p)
    ensures forall i: nat, j: nat :: IsLeaf(s.tree, i, j) && (i, j) != (r, c) ==> u.tree[i].children[j] == s.tree[i].children[j]
    ensures u.requested[n] == (if p.finished then p.change.value else s.requested[n])
    ensures forall k :: 0 <= k < |s.requested| && k != n ==> u.requested[k] == s.requested[k]
    ensures u.created == s.created + p.created
  {
    Session(
      SetLeaf(s.tree, r, c, Settled(s.tree[r].children[c], p)),
      if p.finished then s.requested[n := p.change.value] else s.requested,
      s.created + p.created)
  }

  /** The leaf an entry of the run list works on, the change the attempt
      integrates, and the leaf's local changelist before the attempt. */
  datatype Target = Target(r: nat, c: nat, integrate: string, change: Option<string>)

  /** The search for the leaf of entry `v` (lines 147-164): the one node
      named `v`, else the one leaf carrying local changelist `v`, whose
      original change is then integrated instead and becomes its changelist.
      More than one match raises, and so do a match that is not a leaf (it
      has none of a leaf's fields) and a linked leaf never described. */
  function Lookup(t: Tree, v: string): (r: Outcome<Option<Target>>)
    ensures r == Done(None) <==> |NamedNodes(t, v)| == 0 && |LinkedNodes(t, v)| == 0
    ensures |NamedNodes(t, v)| > 1 ==> r == Raised(CountError)
    ensures |NamedNodes(t, v)| == 0 && |LinkedNodes(t, v)| > 1 ==> r == Raised(CountError)
    ensures |NamedNodes(t, v)| == 1 ==>
              var p := NamedNodes(t, v)[0];
              && (!p.AtChange? ==> r == Raised(AttributeError))
              && (p.AtChange? ==> IsLeaf(t, p.r, p.c) && r == Done(Some(Target(p.r, p.c, v, t[p.r].children[p.c].change))))
    ensures |NamedNodes(t, v)| == 0 && |LinkedNodes(t, v)| == 1 ==>
              var p := LinkedNodes(t, v)[0];
              && p.AtChange? && IsLeaf(t, p.r, p.c)
              && var leaf := t[p.r].children[p.c];
                 && (leaf.desc.None? ==> r == Raised(AttributeError))
                 && (leaf.desc.Some? ==> r == Done(Some(Target(p.r, p.c, leaf.desc.value.change, Some(leaf.desc.value.change)))))
    ensures r.Done? && r.value.Some? ==>
              var g := r.value.value;
              IsLeaf(t, g.r, g.c) && (NamedAt(t, AtChange(g.r, g.c), v) || LinkedAt(t, AtChange(g.r, g.c), v))
  {
    var byName :- Single(NamedNodes(t, v));
    match byName
    case Some(p) =>
      assert p in NamedNodes(t, v);
      if !p.AtChange? then Raised(AttributeError)
      else Done(Some(Target(p.r, p.c, v, t[p.r].children[p.c].change)))
    case None =>
      var byLink :- Single(LinkedNodes(t, v));
      match byLink
      case None => Done(None)
      case Some(p) =>
        assert p in LinkedNodes(t, v);
        var leaf := t[p.r].children[p.c];
        if leaf.desc.None? then Raised(AttributeError)
        else Done(Some(Target(p.r, p.c, leaf.desc.value.change, Some(leaf.desc.value.change))))
  }

  /** The attempt on the leaf found for entry n (lines 164-364), applied
      to the session: the leaf settled with the attempt's findings, and the
      entry replaced by the new changelist exactly when the attempt went all
      the way through. */
  function Visit(ctx: Ctx, s: Session, n: nat, g: Target, att: Attempt): (r: Outcome<Session>)
    requires n < |s.requested| && IsLeaf(s.tree, g.r, g.c)
    ensures var leaf := s.tree[g.r].children[g.c];
      var p := ProcessLeaf(ctx, g.integrate, g.change, leaf.desc, att);
      && (p.Raised? ==> r == Raised(p.error))
      && (p.Done? ==>
            && r.Done?
            && SameShape(s.tree, r.value.tree)
            && r.value.tree[g.r].children[g.c] == Settled(leaf, p.value)
            && (forall i: nat, j: nat :: IsLeaf(s.tree, i, j) && (i, j) != (g.r, g.c) ==>
                  r.value.tree[i].children[j] == s.tree[i].children[j])
            && |r.value.requested| == |s.requested|
            && r.value.requested[n] == (if p.value.finished then p.value.change.value else s.requested[n])
            && (forall k :: 0 <= k < |s.requested| && k != n ==> r.value.requested[k] == s.requested[k])
            && r.value.created == s.created + p.value.created
            && |p.value.created| <= 1
            && (r.value.requested[n] != s.requested[n] ==> p.value.created == [r.value.requested[n]]))
  {
    var done :- ProcessLeaf(ctx, g.integrate, g.change, s.tree[g.r].children[g.c].desc, att);
    Done(Apply(s, n, g.r, g.c, done))
  }

  /** One entry n of the run list (lines 125-364), with the leaves already
      flagged in this pass. */
  function Step(ctx: Ctx, s: Session, n: nat, att: Attempt, seen: set<Pos>): (r: Outcome<(Session, set<Pos>)>)
    requires n < |s.requested|
    ensures r.Done? ==> SameShape(s.tree, r.value.0.tree) && |r.value.0.requested| == |s.requested|
    ensures r.Done? ==> forall k :: 0 <= k < |s.requested| && k != n ==> r.value.0.requested[k] == s.requested[k]
    ensures ParseInt(s.requested[n]).None? ==> r == Raised(ValueError)
    ensures ParseInt(s.requested[n]) == Some(0) ==>
              r == Done((s.(tree := FlagPlaceholders(s.tree, seen)), seen + Placeholders(s.tree)))
    ensures r.Done? ==> |s.created| <= |r.value.0.created| <= |s.created| + 1
                        && r.value.0.created[..|s.created|] == s.created
    ensures r.Done? && r.value.0.requested[n] != s.requested[n] ==>
              |r.value.0.created| == |s.created| + 1 && r.value.0.requested[n] == r.value.0.created[|s.created|]
  {
    var integrate := s.requested[n];
    var v :- Parsed(integrate);
    if v == 0 then Done((s.(tree := FlagPlaceholders(s.tree, seen)), seen + Placeholders(s.tree)))
    else
      var target :- Lookup(s.tree, integrate);
      match target
      case None => Done((s, seen))
      case Some(g) =>
        var u :- Visit(ctx, s, n, g, att);
        Done((u, seen))
  }

  /** Placeholder leaves carry no local changelist, so a search by
      changelist never finds one. */
  predicate ZeroUnlinked(t: Tree) {
    forall r, c :: 0 <= r < |t| && 0 <= c < |t[r].children| && t[r].children[c].name == Zero ==> t[r].children[c].change.None?
  }

  /** Every placeholder leaf of `t` is the same in `u`. */
  predicate PlaceholdersKept(t: Tree, u: Tree)
    requires SameShape(t, u)
  {
    forall r, c :: 0 <= r < |t| && 0 <= c < |t[r].children| && t[r].children[c].name == Zero ==> u[r].children[c] == t[r].children[c]
  }

  /** An entry other than 0 works on the leaf the search finds for it, if
      any: the attempt's outcome is the step's, and the entry is replaced
      exactly when the attempt went all the way through. */
  lemma StepVisits(ctx: Ctx, s: Session, n: nat, att: Attempt, seen: set<Pos>)
    requires n < |s.requested|
    ensures var r := Step(ctx, s, n, att, seen);
      ParseInt(s.requested[n]).Some? && ParseInt(s.requested[n]) != Some(0) ==>
        var target := Lookup(s.tree, s.requested[n]);
        && (target.Raised? ==> r == Raised(target.error))
        && (target == Done(None) ==> r == Done((s, seen)))
        && (target.Done? && target.value.Some? ==>
              var visit := Visit(ctx, s, n, target.value.value, att);
              && (visit.Raised? ==> r == Raised(visit.error))
              && (visit.Done? ==> r == Done((visit.value, seen))))
  {
  }

  /** An entry other than 0 flags nothing and leaves every placeholder leaf
      as it was (the leaf it works on is named or linked by the entry, which
      a placeholder never is), and no entry links a placeholder to a
      changelist. */
  lemma StepKeepsPlaceholders(ctx: Ctx, s: Session, n: nat, att: Attempt, seen: set<Pos>)
    requires n < |s.requested| && ZeroUnlinked(s.tree)
    ensures var r := Step(ctx, s, n, att, seen);
      && (r.Done? && ParseInt(s.requested[n]) != Some(0) ==> r.value.1 == seen && PlaceholdersKept(s.tree, r.value.0.tree))
      && (r.Done? ==> ZeroUnlinked(r.value.0.tree))
  {
    var v := ParseInt(s.requested[n]);
    if v.Some? && v != Some(0) {
      var target := Lookup(s.tree, s.requested[n]);
      if target.Done? && target.value.Some? {
        var g := target.value.value;
        assert s.tree[g.r].children[g.c].name != Zero;
      }
    }
  }

  /** Every placeholder leaf of `t0` is, in `t`, the same leaf flagged (or not). */
  predicate PlaceholdersAs(t0: Tree, t: Tree, flagged: bool)
    requires SameShape(t0, t)
  {
    forall r, c :: 0 <= r < |t0| && 0 <= c < |t0[r].children| && t0[r].children[c].name == Zero ==>
      t[r].children[c] == if flagged then Flagged(t0[r].children[c]) else t0[r].children[c]
  }

  /** `seen` is empty while no placeholder was flagged in the pass, and all
      placeholders once they were. */
  predicate SeenInvariant(t0: Tree, t: Tree, seen: set<Pos>, flagged: bool)
    requires SameShape(t0, t)
  {
    && seen == (if flagged then Placeholders(t0) else {})
    && PlaceholdersAs(t0, t, flagged)
  }

  lemma PlaceholdersSameShape(t: Tree, u: Tree)
    requires SameShape(t, u)
    ensures Placeholders(t) == Placeholders(u)
  {
    forall p | p in Placeholders(t)
      ensures p in Placeholders(u)
    {
      var r, c :| 0 <= r < |t| && 0 <= c < |t[r].children| && t[r].children[c].name == Zero && p == AtChange(r, c);
    }
    forall p | p in Placeholders(u)
      ensures p in Placeholders(t)
    {
      var r, c :| 0 <= r < |u| && 0 <= c < |u[r].children| && u[r].children[c].name == Zero && p == AtChange(r, c);
    }
  }

  /** One entry keeps the invariant: an entry of 0 flags every placeholder
      not yet flagged, any other entry leaves the placeholders alone. */
  lemma StepKeepsSeen(ctx: Ctx, t0: Tree, s: Session, n: nat, att: Attempt, seen: set<Pos>, flagged: bool)
    requires n < |s.requested|
    requires ZeroUnlinked(s.tree) && SameShape(t0, s.tree) && SeenInvariant(t0, s.tree, seen, flagged)
    ensures var r := Step(ctx, s, n, att, seen);
      r.Done? ==>
        && SameShape(t0, r.value.0.tree)
        && ZeroUnlinked(r.value.0.tree)
        && SeenInvariant(t0, r.value.0.tree, r.value.1, flagged || ParseInt(s.requested[n]) == Some(0))
  {
    var r := Step(ctx, s, n, att, seen);
    StepKeepsPlaceholders(ctx, s, n, att, seen);
    if r.Done? {
      var u := r.value.0.tree;
      PlaceholdersSameShape(t0, s.tree);
      if ParseInt(s.requested[n]) == Some(0) {
        forall i, j | 0 <= i < |t0| && 0 <= j < |t0[i].children| && t0[i].children[j].name == Zero
          ensures u[i].children[j] == Flagged(t0[i].children[j])
        {
          assert AtChange(i, j) in Placeholders(t0);
        }
      }
    }
  }

  /** Entries n, n+1, ... of the run list; `attempts(k)` is what the backend
      answers for entry k. */
  function PassFrom(ctx: Ctx, s: Session, attempts: nat -> Attempt, n: nat, seen: set<Pos>): (r: Outcome<Session>)
    requires n <= |s.requested|
    ensures r.Done? ==> SameShape(s.tree, r.value.tree) && |r.value.requested| == |s.requested|
    ensures r.Done? ==> |s.created| <= |r.value.created| <= |s.created| + (|s.requested| - n)
                        && r.value.created[..|s.created|] == s.created
    ensures r.Done? ==> forall k :: 0 <= k < n ==> r.value.requested[k] == s.requested[k]
    ensures r.Done? ==> forall k :: n <= k < |s.requested| ==>
                          r.value.requested[k] == s.requested[k] || r.value.requested[k] in r.value.created[|s.created|..]
    decreases |s.requested| - n
  {
    if n == |s.requested| then Done(s)
    else
      var next :- Step(ctx, s, n, attempts(n), seen);
      var rest := PassFrom(ctx, next.0, attempts, n + 1, next.1);
      if rest.Done? then
        var c0, c1, c2 := s.created, next.0.created, rest.value.created;
        assert c2[|c0|..|c1|] == c1[|c0|..];
        assert forall x :: x in c1[|c0|..] ==> x in c2[|c0|..];
        assert forall x :: x in c2[|c1|..] ==> x in c2[|c0|..];
        rest
      else rest
  }

  /** A whole pass, `seen` starting empty. */
  function Pass(ctx: Ctx, s: Session, attempts: nat -> Attempt): (r: Outcome<Session>)
    ensures r.Done? ==> SameShape(s.tree, r.value.tree) && |r.value.requested| == |s.requested|
    ensures r.Done? ==> |s.created| <= |r.value.created| <= |s.created| + |s.requested|
                        && r.value.created[..|s.created|] == s.created
    ensures r.Done? ==> forall k :: 0 <= k < |s.requested| ==>
                          r.value.requested[k] == s.requested[k] || r.value.requested[k] in r.value.created[|s.created|..]
  {
    PassFrom(ctx, s, attempts, 0, {})
  }

  /** The session and flagged set a pass started at entry n has reached
      when it comes to entry k. */
  function StepsFrom(ctx: Ctx, s: Session, attempts: nat -> Attempt, n: nat, seen: set<Pos>, k: nat)
    : (r: Outcome<(Session, set<Pos>)>)
    requires n <= k <= |s.requested|
    ensures r.Done? ==> |r.value.0.requested| == |s.requested|
    decreases k - n
  {
    if n == k then Done((s, seen))
    else
      var next :- Step(ctx, s, n, attempts(n), seen);
      StepsFrom(ctx, next.0, attempts, n + 1, next.1, k)
  }

  /** A pass that finishes took its first step and went on from there. */
  lemma PassFromUnfold(ctx: Ctx, s: Session, attempts: nat -> Attempt, n: nat, seen: set<Pos>)
    requires n < |s.requested|
    ensures PassFrom(ctx, s, attempts, n, seen).Done? ==>
              && Step(ctx, s, n, attempts(n), seen).Done?
              && var next := Step(ctx, s, n, attempts(n), seen).value;
                 PassFrom(ctx, s, attempts, n, seen) == PassFrom(ctx, next.0, attempts, n + 1, next.1)
  {
  }

  /** Each entry of the run list a pass leaves is the one its own step
      wrote (line 364 writes entry n only, and no later step touches it). */
  lemma {:induction false} PassFromEntries(ctx: Ctx, s: Session, attempts: nat -> Attempt, n: nat, seen: set<Pos>, k: nat)
    requires n <= k < |s.requested|
    ensures PassFrom(ctx, s, attempts, n, seen).Done? ==>
              var before := StepsFrom(ctx, s, attempts, n, seen, k);
              && before.Done?
              && Step(ctx, before.value.0, k, attempts(k), before.value.1).Done?
              && PassFrom(ctx, s, attempts, n, seen).value.requested[k]
                 == Step(ctx, before.value.0, k, attempts(k), before.value.1).value.0.requested[k]
    decreases k - n
  {
    PassFromUnfold(ctx, s, attempts, n, seen);
    if PassFrom(ctx, s, attempts, n, seen).Done? {
      var next := Step(ctx, s, n, attempts(n), seen).value;
      if k > n {
        PassFromEntries(ctx, next.0, attempts, n + 1, next.1, k);
      }
    }
  }

  /** The run list's entries of 0 as a set of positions. */
  function ZeroEntries(requested: seq<string>): set<nat> {
    set k | 0 <= k < |requested| && ParseInt(requested[k]) == Some(0)
  }

  /** Each entry of 0 keeps its text. */
  predicate ZerosKept(before: seq<string>, after: seq<string>) {
    |before| == |after| && forall k :: k in ZeroEntries(before) ==> after[k] == before[k]
  }

  lemma StepKeepsZeros(ctx: Ctx, s: Session, n: nat, att: Attempt, seen: set<Pos>)
    requires n < |s.requested|
    ensures Step(ctx, s, n, att, seen).Done? ==> ZerosKept(s.requested, Step(ctx, s, n, att, seen).value.0.requested)
  {}

  /** An entry of 0 is never replaced: its step only flags the placeholders. */
  lemma {:induction false} PassFromKeepsZeros(ctx: Ctx, s: Session, attempts: nat -> Attempt, n: nat, seen: set<Pos>)
    requires n <= |s.requested|
    ensures PassFrom(ctx, s, attempts, n, seen).Done? ==> ZerosKept(s.requested, PassFrom(ctx, s, attempts, n, seen).value.requested)
    decreases |s.requested| - n
  {
    if n < |s.requested| {
      PassFromUnfold(ctx, s, attempts, n, seen);
      var step := Step(ctx, s, n, attempts(n), seen);
      if step.Done? {
        StepKeepsZeros(ctx, s, n, attempts(n), seen);
        PassFromKeepsZeros(ctx, step.value.0, attempts, n + 1, step.value.1);
        if PassFrom(ctx, s, attempts, n, seen).Done? {
          ZerosKeptTransitive(s.requested, step.value.0.requested, PassFrom(ctx, s, attempts, n, seen).value.requested);
        }
      }
    }
  }

  lemma ZerosKeptTransitive(a: seq<string>, b: seq<string>, c: seq<string>)
    requires ZerosKept(a, b) && ZerosKept(b, c)
    ensures ZerosKept(a, c)
  {
    forall k | k in ZeroEntries(a)
      ensures c[k] == a[k]
    {
      assert k in ZeroEntries(b);
    }
  }

  /** Some entry from n on is 0 as Python's `int()` reads it. */
  predicate ZeroFrom(requested: seq<string>, n: nat) {
    exists k :: n <= k < |requested| && ParseInt(requested[k]) == Some(0)
  }

  lemma {:induction false} PassFromFlags(ctx: Ctx, t0: Tree, s: Session, attempts: nat -> Attempt, n: nat,
                                         seen: set<Pos>, flagged: bool)
    requires n <= |s.requested|
    requires ZeroUnlinked(s.tree) && SameShape(t0, s.tree) && SeenInvariant(t0, s.tree, seen, flagged)
    ensures var r := PassFrom(ctx, s, attempts, n, seen);
      r.Done? ==>
        && SameShape(t0, r.value.tree)
        && ZeroUnlinked(r.value.tree)
        && PlaceholdersAs(t0, r.value.tree, flagged || ZeroFrom(s.requested, n))
    decreases |s.requested| - n
  {
    if n < |s.requested| {
      PassFromUnfold(ctx, s, attempts, n, seen);
      var step := Step(ctx, s, n, attempts(n), seen);
      if step.Done? {
        var (s1, seen1) := step.value;
        var flagged1 := flagged || ParseInt(s.requested[n]) == Some(0);
        StepKeepsSeen(ctx, t0, s, n, attempts(n), seen, flagged);
        PassFromFlags(ctx, t0, s1, attempts, n + 1, seen1, flagged1);
        ZeroFromStep(s.requested, s1.requested, n);
      }
    }
  }

  lemma ZeroFromStep(requested: seq<string>, requested': seq<string>, n: nat)
    requires n < |requested| == |requested'|
    requires forall k :: 0 <= k < |requested| && k != n ==> requested'[k] == requested[k]
    ensures ZeroFrom(requested, n) <==> ParseInt(requested[n]) == Some(0) || ZeroFrom(requested', n + 1)
  {
    if ZeroFrom(requested', n + 1) {
      var k :| n + 1 <= k < |requested'| && ParseInt(requested'[k]) == Some(0);
      assert requested'[k] == requested[k];
    }
    if ZeroFrom(requested, n) && ParseInt(requested[n]) != Some(0) {
      var k :| n <= k < |requested| && ParseInt(requested[k]) == Some(0);
      assert requested'[k] == requested[k];
    }
  }

  /** The placeholder rule of a pass: when the run list holds an entry of 0,
      every placeholder leaf ends the pass flagged exactly once (one error
      and one suggestion, whatever the number of such entries), and
      otherwise every placeholder is left as it was. */
  lemma PassFlagsPlaceholders(ctx: Ctx, s: Session, attempts: nat -> Attempt)
    requires ZeroUnlinked(s.tree)
    ensures var r := Pass(ctx, s, attempts);
      r.Done? ==>
        && SameShape(s.tree, r.value.tree)
        && ZeroUnlinked(r.value.tree)
        && forall i, j :: 0 <= i < |s.tree| && 0 <= j < |s.tree[i].children| && s.tree[i].children[j].name == Zero ==>
             r.value.tree[i].children[j]
             == if ZeroFrom(s.requested, 0) then Flagged(s.tree[i].children[j]) else s.tree[i].children[j]
  {
    PassFromFlags(ctx, s.tree, s, attempts, 0, {}, false);
  }
}
