/** The suggestion the tool writes next to an error (patchtester/__init__.py,
    `suggestFix`): for a failed integration, a hint chosen from the error
    text; for a resolution conflict, a diagnosis that traces how the target
    file came to be, which revision it holds against the requested one, and
    which intervening revisions may be missing. The result is kept as a
    structured `Suggestion`; `Render` gives the exact text the report shows. */
module Diagnosis {
  import opened Exceptions
  import opened Text
  import opened Records
  import opened RequestTree

  /** The horizontal rule every diagnosed suggestion starts with. */
  const Rule: string := Repeat('.', 120) + "\n"

  /** `c * n` in Python. */
  function Repeat(c: char, n: nat): (s: string)
    ensures |s| == n && forall i :: 0 <= i < n ==> s[i] == c
  {
    if n == 0 then "" else Repeat(c, n - 1) + [c]
  }

  const IntegMarker: string := "Warnings during command execution( \"p4 integ -q -c"
  const NoSuchFile: string := "- no such file"
  const LookAtThis: string := "Please have a look at this change"
  const LookHere: string := "error please look here"

  /** One edit the target branch made to the file after branching, with the
      first lines of its description. */
  datatype EditNote = EditNote(change: string, snippet: string)

  /** How the held revision of the file came into the target branch. */
  datatype Genesis =
    | CopiedIn(action: string, change: string)
    | MergedIn(action: string, change: string)
    | Branched(rev: string, change: string, edits: nat, notes: seq<EditNote>)
    | BranchedDirect
    | Unknown(how: string)

  /** One revision of the requested file's history. */
  datatype LogLine = LogLine(rev: string, user: string, change: string)

  /** Where the held revision stands against the requested one. */
  datatype Distance =
    | Ahead
    | NoMissing(clientFile: string)
    | Missing(counter: nat, listed: seq<LogLine>)

  datatype Suggestion =
    | Plain
    | ChangePending
    | WrongBranch(path: string)
    | LookAt(detail: string)
    | LookNowhere
    | Conflict(file: string, want: string, have: string, base: string,
               genesis: Genesis, distance: Distance, alreadyHave: bool)

  /** The last component of the source prefix, as the suggestion names it. */
  function SourceName(ctx: Ctx): string {
    LastPiece(ctx.fromPrefix, '/')
  }

  /** The hint for a failed integration, chosen from the error text and the
      requested change's `describe` record (lines 373-388). */
  function SuggestIntegError(e: string, d: Describe): (s: Suggestion)
    ensures s.ChangePending? <==> Contains(e, IntegMarker) && Contains(e, NoSuchFile) && d.status == "pending"
    ensures s.WrongBranch? <==>
              Contains(e, IntegMarker) && Contains(e, NoSuchFile) && d.status != "pending" && d.path.Some?
    ensures s.WrongBranch? ==> d.path == Some(s.path)
    ensures s.Plain? || s.ChangePending? || s.WrongBranch?
  {
    if Contains(e, IntegMarker) && Contains(e, NoSuchFile) then
      if d.status == "pending" then ChangePending
      else if d.path.Some? then WrongBranch(d.path.value)
      else Plain
    else Plain
  }

  /** The result of walking back through the target file's own edits. */
  datatype Walked =
    | Found(rec: LogRecord, anc: Ancestry, back: nat, edits: seq<string>)
    | Exhausted

  /** The record is of a revision inherited from another path. */
  predicate Inherited(rec: Option<LogRecord>) {
    rec.Some? && rec.value.ancestry.Some?
  }

  /** The walk back from the held revision `have` (lines 417-437): note the
      change of the current record, ask for revision have - back, stop at the
      first revision that was inherited, give up once `back` passes `have`. */
  function WalkFrom(history: string -> Option<LogRecord>, have: int, back: nat, rec: LogRecord, edits: seq<string>)
    : (r: Outcome<Walked>)
    decreases have - back
  {
    if |rec.changes| == 0 then Raised(IndexError)
    else
      var edits' := if rec.changes[0] in edits then edits else edits + [rec.changes[0]];
      match history(IntToString(have - back))
      case None => Raised(IndexError)
      case Some(next) =>
        if next.ancestry.Some? then Done(Found(next, next.ancestry.value, back, edits'))
        else if back + 1 > have then Done(Exhausted)
        else WalkFrom(history, have, back + 1, next, edits')
  }

  /** The walk as the source runs it, as a loop. */
  method Walk(history: string -> Option<LogRecord>, have: int, start: LogRecord) returns (r: Outcome<Walked>)
    ensures r == WalkFrom(history, have, 0, start, [])
  {
    var back: nat := 0;
    var rec := start;
    var edits: seq<string> := [];
    while true
      invariant WalkFrom(history, have, back, rec, edits) == WalkFrom(history, have, 0, start, [])
      decreases have - back
    {
      if |rec.changes| == 0 {
        return Raised(IndexError);
      }
      if rec.changes[0] !in edits {
        edits := edits + [rec.changes[0]];
      }
      var next := history(IntToString(have - back));
      if next.None? {
        return Raised(IndexError);
      }
      if next.value.ancestry.Some? {
        return Done(Found(next.value, next.value.ancestry.value, back, edits));
      }
      if back + 1 > have {
        return Done(Exhausted);
      }
      back := back + 1;
      rec := next.value;
    }
  }

  /** The revisions the walk asked about before `back` were all the target
      branch's own edits. */
  predicate OwnEditsBefore(history: string -> Option<LogRecord>, have: int, from: nat, back: nat) {
    forall k: nat :: from <= k < back ==> Asked(history, have, k).Some? && !Inherited(Asked(history, have, k))
  }

  /** The reply to the walk's query `back` steps below `have`. */
  function Asked(history: string -> Option<LogRecord>, have: int, back: nat): Option<LogRecord> {
    history(IntToString(have - back))
  }

  /** Reference definition: `edits` with each of `cs` appended in turn
      unless it is already there. */
  function Noted(edits: seq<string>, cs: seq<string>): (r: seq<string>)
    ensures Distinct(edits) ==> Distinct(r)
    ensures |edits| <= |r| <= |edits| + |cs| && r[..|edits|] == edits
    ensures forall i :: 0 <= i < |cs| ==> cs[i] in r
    ensures forall x :: x in r ==> x in edits || x in cs
    decreases |cs|
  {
    if |cs| == 0 then edits
    else
      var edits' := if cs[0] in edits then edits else edits + [cs[0]];
      var r := Noted(edits', cs[1..]);
      assert r[..|edits|] == r[..|edits'|][..|edits|];
      assert forall i :: 1 <= i < |cs| ==> cs[i] == cs[1..][i - 1];
      assert forall x :: x in cs[1..] ==> x in cs;
      assert cs[0] in r[..|edits'|];
      r
  }

  /** The change a reply of the walk names, "" for none. */
  function FirstChange(rec: Option<LogRecord>): string {
    if rec.Some? && |rec.value.changes| > 0 then rec.value.changes[0] else ""
  }

  /** The changes of the records the walk asked for at steps from .. to-1. */
  function ChangesAsked(history: string -> Option<LogRecord>, have: int, from: nat, to: nat): (cs: seq<string>)
    ensures |cs| == (if from <= to then to - from else 0)
    decreases if from <= to then to - from else 0
  {
    if from >= to then [] else [FirstChange(Asked(history, have, from))] + ChangesAsked(history, have, from + 1, to)
  }

  /** What the walk finds: the first inherited revision counting back from
      `have`, every revision after it an own edit, and the distinct changes
      seen on the way; or, when it gives up, that no revision down to 0 was
      inherited. */
  lemma {:induction false} WalkFromSpec(history: string -> Option<LogRecord>, have: int, back: nat, rec: LogRecord, edits: seq<string>)
    requires Distinct(edits)
    ensures var r := WalkFrom(history, have, back, rec, edits);
      && (r.Done? && r.value.Found? ==>
            && back <= r.value.back
            && (r.value.back <= have || r.value.back == back)
            && history(IntToString(have - r.value.back)) == Some(r.value.rec)
            && r.value.rec.ancestry == Some(r.value.anc)
            && OwnEditsBefore(history, have, back, r.value.back)
            && Distinct(r.value.edits)
            && |r.value.edits| <= |edits| + r.value.back - back + 1)
      && (r.Done? && r.value.Exhausted? ==>
            && OwnEditsBefore(history, have, back, if have + 1 > back then have + 1 else back + 1))
    decreases have - back
  {
    if |rec.changes| > 0 {
      var edits' := if rec.changes[0] in edits then edits else edits + [rec.changes[0]];
      assert Distinct(edits');
      match history(IntToString(have - back))
      case None =>
      case Some(next) =>
        if next.ancestry.None? && back + 1 <= have {
          WalkFromSpec(history, have, back + 1, next, edits');
        }
    }
  }

  /** The edits the walk reports are the changes of the records it passed
      (the held one and each own edit before the inherited one), each once,
      in the order it met them. */
  lemma {:induction false} WalkFromEdits(history: string -> Option<LogRecord>, have: int, back: nat, rec: LogRecord, edits: seq<string>)
    ensures var r := WalkFrom(history, have, back, rec, edits);
      r.Done? && r.value.Found? ==>
        && back <= r.value.back
        && |rec.changes| > 0
        && r.value.edits == Noted(edits, [rec.changes[0]] + ChangesAsked(history, have, back, r.value.back))
    decreases have - back
  {
    if |rec.changes| > 0 {
      var x := rec.changes[0];
      var edits' := if x in edits then edits else edits + [x];
      match history(IntToString(have - back))
      case None =>
      case Some(next) =>
        if next.ancestry.Some? {
          assert ([x] + ChangesAsked(history, have, back, back))[1..] == [];
        } else if back + 1 <= have {
          WalkFromEdits(history, have, back + 1, next, edits');
          var r := WalkFrom(history, have, back + 1, next, edits');
          if r.Done? && r.value.Found? {
            var rest := ChangesAsked(history, have, back + 1, r.value.back);
            assert FirstChange(Asked(history, have, back)) == next.changes[0];
            assert ChangesAsked(history, have, back, r.value.back) == [next.changes[0]] + rest;
            assert ([x] + ([next.changes[0]] + rest))[1..] == [next.changes[0]] + rest;
          }
        }
    }
  }

  /** The position of the base file among the inherited revision's sources
      (lines 439-441): its first occurrence, else the last position; an
      empty list leaves the loop variable unbound (NameError). */
  function LocateBase(files: seq<string>, base: string): (r: Outcome<nat>)
    ensures r.Raised? <==> |files| == 0
    ensures r.Raised? ==> r.error == NameError
    ensures r.Done? ==> r.value < |files|
    ensures r.Done? && files[r.value] == base ==> forall i :: 0 <= i < r.value ==> files[i] != base
    ensures r.Done? && files[r.value] != base ==> r.value == |files| - 1 && base !in files
  {
    if |files| == 0 then Raised(NameError) else Done(FirstOrLast(files, base, 0))
  }

  function FirstOrLast(files: seq<string>, base: string, i: nat): (k: nat)
    requires i < |files|
    requires forall j :: 0 <= j < i ==> files[j] != base
    ensures i <= k < |files|
    ensures forall j :: 0 <= j < k ==> files[j] != base
    ensures files[k] != base ==> k == |files| - 1 && base !in files
    decreases |files| - i
  {
    if files[i] == base || i == |files| - 1 then i else FirstOrLast(files, base, i + 1)
  }

  /** `int(edit)` for each walked edit, paired with its description snippet. */
  function Notes(edits: seq<string>, snippet: string -> string): (r: Outcome<seq<EditNote>>)
    ensures r.Done? <==> forall i :: 0 <= i < |edits| ==> ParseInt(edits[i]).Some?
    ensures r.Done? ==> |r.value| == |edits| && forall i :: 0 <= i < |edits| ==> r.value[i] == EditNote(edits[i], snippet(edits[i]))
    ensures r.Raised? ==> r.error == ValueError
  {
    if |edits| == 0 then Done([])
    else
      var init :- Notes(edits[..|edits| - 1], snippet);
      var last := edits[|edits| - 1];
      if ParseInt(last).None? then Raised(ValueError)
      else Done(init + [EditNote(last, snippet(last))])
  }

  const CopyFrom: string := "copy from"
  const MergeFrom: string := "merge from "
  const BranchFrom: string := "branch from"

  /** The genesis of the file from the integration kind `how` of the found
      revision (lines 449-482). */
  function GenesisOf(how: string, action: string, rec: LogRecord, anc: Ancestry, back: nat, edits: seq<string>, idy: nat,
                     snippet: string -> string): (r: Outcome<Genesis>)
    ensures r.Done? && r.value.CopiedIn? <==> how == CopyFrom && |rec.changes| > 0
    ensures r.Done? && r.value.MergedIn? <==> how == MergeFrom && |rec.changes| > 0
    ensures r.Done? && r.value.Branched? ==> how == BranchFrom && back != 0
    ensures r.Done? && r.value.BranchedDirect? <==> how == BranchFrom && back == 0
    ensures r.Done? && r.value.Unknown? <==> how !in {CopyFrom, MergeFrom, BranchFrom}
    ensures r.Done? && r.value.Unknown? ==> r.value.how == how
    ensures r.Done? && (r.value.CopiedIn? || r.value.MergedIn?) ==> r.value.action == action && r.value.change == rec.changes[0]
    ensures r.Done? && r.value.Branched? ==>
              && idy < |anc.erevs| && |rec.changes| > 0
              && r.value.rev == ReplaceAll(anc.erevs[idy], "#", "")
              && r.value.change == rec.changes[0]
              && r.value.edits == back
              && |r.value.notes| == |edits|
  {
    if how == CopyFrom then
      if |rec.changes| == 0 then Raised(IndexError) else Done(CopiedIn(action, rec.changes[0]))
    else if how == MergeFrom then
      if |rec.changes| == 0 then Raised(IndexError) else Done(MergedIn(action, rec.changes[0]))
    else if how == BranchFrom then
      if back == 0 then Done(BranchedDirect)
      else if idy >= |anc.erevs| || |rec.changes| == 0 then Raised(IndexError)
      else
        var notes :- Notes(edits, snippet);
        Done(Branched(ReplaceAll(anc.erevs[idy], "#", ""), rec.changes[0], back, notes))
    else Done(Unknown(how))
  }

  /** The genesis paragraph exactly as the suggestion writes it. */
  function GenesisText(g: Genesis, ctx: Ctx, file: string, base: string, want: string): string {
    match g
    case CopiedIn(action, change) =>
      "<b>Aquired via:</b> " + action + " in change " + change + " "
      + " as a " + CopyFrom + " " + base + "#" + want + " accepting theirs\n"
    case MergedIn(action, change) =>
      "<b>Aquired via:</b> " + action + " in change " + change + " "
      + MergeFrom + " " + base + "#" + want + " accepting merge\n"
    case Branched(rev, change, edits, notes) =>
      "<b>Branched from " + SourceName(ctx) + " at revision:</b> " + rev + " in change " + change
      + "\n<b>Edits in " + ctx.branch.name + " since branching:</b> " + NatToString(edits)
      + "<ul style=\"margin-top:-30px;margin-bottom:-60px\">" + NotesText(notes) + "</ul>"
    case BranchedDirect => ""
    case Unknown(how) =>
      "Unknown Genesis for " + file + "\n\n" + how
      + "see see https://www.perforce.com/perforce/r14.2/manuals/cmdref/p4_integrated.html"
      + "\n and add cases to patchTester around line 618"
  }

  function NotesText(notes: seq<EditNote>): string {
    if |notes| == 0 then ""
    else NotesText(notes[..|notes| - 1])
         + "<li>Change: " + notes[|notes| - 1].change + " \nDescription:\n" + notes[|notes| - 1].snippet + "</li>"
  }

  /** Python's `zip(revs, users, changes)`: as long as the shortest list. */
  function Zip3(revs: seq<string>, users: seq<string>, changes: seq<string>): (z: seq<LogLine>)
    ensures |z| <= |revs| && |z| <= |users| && |z| <= |changes|
    ensures |z| == |revs| || |z| == |users| || |z| == |changes|
    ensures forall i :: 0 <= i < |z| ==> z[i] == LogLine(revs[i], users[i], changes[i])
  {
    var n := if |revs| <= |users| && |revs| <= |changes| then |revs|
             else if |users| <= |changes| then |users| else |changes|;
    seq(n, i requires 0 <= i < n => LogLine(revs[i], users[i], changes[i]))
  }

  /** The counting loop over the requested file's history (lines 510-520):
      count each revision, stop at the first whose change the genesis
      mentions, list the ones before it. `last` is the revision the loop
      variable is left holding. */
  datatype Enumerated = Enumerated(counter: nat, listed: seq<LogLine>, last: Option<string>)

  function EnumerateFrom(lines: seq<LogLine>, genesis: string, i: nat, acc: Enumerated): Enumerated
    requires i <= |lines|
    decreases |lines| - i
  {
    if i == |lines| then acc
    else
      var counted := acc.(counter := acc.counter + 1, last := Some(lines[i].rev));
      if Contains(genesis, lines[i].change) then counted
      else EnumerateFrom(lines, genesis, i + 1, counted.(listed := acc.listed + [lines[i]]))
  }

  function Enumerate(lines: seq<LogLine>, genesis: string): Enumerated {
    EnumerateFrom(lines, genesis, 0, Enumerated(0, [], None))
  }

  /** Reference definition: the position of the first revision whose change
      the genesis mentions, or the length when there is none. */
  function FirstMentioned(lines: seq<LogLine>, genesis: string, i: nat): (k: nat)
    requires i <= |lines|
    ensures i <= k <= |lines|
    ensures forall j :: i <= j < k ==> !Contains(genesis, lines[j].change)
    ensures k < |lines| ==> Contains(genesis, lines[k].change)
    decreases |lines| - i
  {
    if i == |lines| || Contains(genesis, lines[i].change) then i else FirstMentioned(lines, genesis, i + 1)
  }

  /** The loop counts up to and including the first mentioned revision,
      lists exactly the revisions before it, and leaves the loop variable on
      it (or on the last revision when none is mentioned). */
  lemma {:induction false} EnumerateFromSpec(lines: seq<LogLine>, genesis: string, i: nat, acc: Enumerated)
    requires i <= |lines|
    requires acc.counter == i && acc.listed == lines[..i]
    requires i == 0 ==> acc.last.None?
    requires i > 0 ==> acc.last == Some(lines[i - 1].rev)
    ensures var k := FirstMentioned(lines, genesis, i);
      var r := EnumerateFrom(lines, genesis, i, acc);
      && r.listed == lines[..k]
      && r.counter == (if k < |lines| then k + 1 else |lines|)
      && r.last == (if |lines| == 0 then None else Some(lines[if k < |lines| then k else |lines| - 1].rev))
    decreases |lines| - i
  {
    if i < |lines| && !Contains(genesis, lines[i].change) {
      assert lines[..i + 1] == lines[..i] + [lines[i]];
      EnumerateFromSpec(lines, genesis, i + 1, acc.(counter := i + 1, last := Some(lines[i].rev), listed := lines[..i + 1]));
    }
  }

  lemma EnumerateSpec(lines: seq<LogLine>, genesis: string)
    ensures var k := FirstMentioned(lines, genesis, 0);
      var r := Enumerate(lines, genesis);
      && r.listed == lines[..k]
      && r.counter == (if k < |lines| then k + 1 else |lines|)
      && r.last == (if |lines| == 0 then None else Some(lines[if k < |lines| then k else |lines| - 1].rev))
  {
    EnumerateFromSpec(lines, genesis, 0, Enumerated(0, [], None));
  }

  /** The requested revision of file `idx` of the requested change. */
  function WantedRev(orig: Describe, idx: nat): (r: Outcome<string>)
    ensures r.Done? <==> orig.files.Some? && idx < |orig.files.value|
    ensures r.Done? ==> r.value == orig.files.value[idx].rev
  {
    match orig.files
    case None => Raised(KeyError)
    case Some(fs) => if idx < |fs| then Done(fs[idx].rev) else Raised(IndexError)
  }

  /** The base file of the first resolve record. */
  function BaseFileOf(item: ResolveItem): (r: Outcome<string>)
    ensures r.Done? <==> item.Tagged? && item.baseFile.Some?
    ensures r.Done? ==> r.value == item.baseFile.value
  {
    match item
    case Message(_) => Raised(TypeError)
    case Tagged(b, _) => if b.Some? then Done(b.value) else Raised(KeyError)
  }

  function Parsed(s: string): (r: Outcome<int>)
    ensures r.Done? <==> ParseInt(s).Some?
    ensures r.Done? ==> ParseInt(s) == Some(r.value)
    ensures r.Raised? ==> r.error == ValueError
  {
    match ParseInt(s)
    case None => Raised(ValueError)
    case Some(v) => Done(v)
  }

  /** How the walk starts (lines 411-437): a held revision inherited from
      another path is itself the record sought; otherwise the walk notes the
      held revision's change (line 418) before it parses `have` (line 423). */
  function WalkOf(history: string -> Option<LogRecord>, have: string, first: LogRecord): (r: Outcome<Walked>)
    ensures first.ancestry.Some? ==> r == Done(Found(first, first.ancestry.value, 0, []))
    ensures first.ancestry.None? && |first.changes| == 0 ==> r == Raised(IndexError)
    ensures first.ancestry.None? && |first.changes| > 0 && ParseInt(have).None? ==> r == Raised(ValueError)
    ensures first.ancestry.None? && ParseInt(have).Some? ==> r == WalkFrom(history, ParseInt(have).value, 0, first, [])
  {
    if first.ancestry.Some? then Done(Found(first, first.ancestry.value, 0, []))
    else if |first.changes| == 0 then Raised(IndexError)
    else
      var h :- Parsed(have);
      WalkFrom(history, h, 0, first, [])
  }

  /** The genesis read off the record the walk found (lines 442-487): the
      integration kind at the base file's position among its sources. */
  function FoundGenesis(w: Walked, base: string, snippet: string -> string): (r: Outcome<Genesis>)
    requires w.Found?
    ensures LocateBase(w.anc.files, base).Raised? ==> r == Raised(NameError)
    ensures r.Done? ==>
              var idy := LocateBase(w.anc.files, base).value;
              && LocateBase(w.anc.files, base).Done?
              && idy < |w.anc.hows| && |w.rec.actions| > 0
              && GenesisOf(w.anc.hows[idy], w.rec.actions[0], w.rec, w.anc, w.back, w.edits, idy, snippet) == r
  {
    var idy :- LocateBase(w.anc.files, base);
    if idy >= |w.anc.hows| || |w.rec.actions| == 0 then Raised(IndexError)
    else GenesisOf(w.anc.hows[idy], w.rec.actions[0], w.rec, w.anc, w.back, w.edits, idy, snippet)
  }

  /** The revision the comparison starts from: the branching revision when
      the file was branched and edited since (line 466), else the held one. */
  function HeldRev(g: Genesis, have: string): string {
    if g.Branched? then g.rev else have
  }

  /** The revision the counting loop leaves its loop variable on (lines
      524-534): the first revision the genesis mentions, else the last one,
      else (no revisions) the held revision it started with. */
  function LastCounted(lines: seq<LogLine>, genesis: string, held: string): string {
    var k := FirstMentioned(lines, genesis, 0);
    if |lines| == 0 then held else lines[if k < |lines| then k else |lines| - 1].rev
  }

  /** Where the held revision stands against the requested one (lines
      497-543). Ahead: the target already has it. A distance of 0 or 1: no
      revision is missing, and the diff command names the client file. More:
      the requested file's history above the held revision is counted up to
      and including the first revision the genesis paragraph mentions, and
      the ones before it are listed. */
  function Compare(ctx: Ctx, file: string, want: string, have: string, base: string, genesis: Genesis,
                   item: ResolveItem, between: Reply<Option<LogRecord>>): (r: Outcome<Suggestion>)
    ensures ParseInt(HeldRev(genesis, have)).None? || ParseInt(want).None? ==> r == Raised(ValueError)
    ensures r.Done? ==> r.value.Conflict? || r.value.LookAt?
    ensures r.Done? && r.value.Conflict? ==>
              && r.value.file == file && r.value.want == want && r.value.have == have
              && r.value.base == base && r.value.genesis == genesis
    ensures ParseInt(HeldRev(genesis, have)).Some? && ParseInt(want).Some? ==>
              var held, wanted := ParseInt(HeldRev(genesis, have)).value, ParseInt(want).value;
              && (held > wanted ==> r == Done(Conflict(file, want, have, base, genesis, Ahead, true)))
              && (held <= wanted <= held + 1 ==>
                    && (item.Message? ==> r == Raised(TypeError))
                    && (item.Tagged? && item.clientFile.None? ==> r == Raised(KeyError))
                    && (item.Tagged? && item.clientFile.Some? ==>
                          r == Done(Conflict(file, want, have, base, genesis, NoMissing(item.clientFile.value), false))))
              && (wanted > held + 1 ==>
                    && (between.Threw? ==> r == Done(LookAt(between.text)))
                    && (between == Returned(None) ==> r == Raised(IndexError))
                    && (between.Returned? && between.value.Some? ==>
                          var wh := between.value.value;
                          var lines := Zip3(wh.revs, wh.users, wh.changes);
                          var text := GenesisText(genesis, ctx, file, base, want);
                          var k := FirstMentioned(lines, text, 0);
                          var last := LastCounted(lines, text, HeldRev(genesis, have));
                          && (ParseInt(last).None? ==> r == Raised(ValueError))
                          && (ParseInt(last).Some? ==>
                                r == Done(Conflict(file, want, have, base, genesis,
                                                   Missing(if k < |lines| then k + 1 else |lines|, lines[..k]),
                                                   ParseInt(last).value > wanted)))))
  {
    var rev := HeldRev(genesis, have);
    var held :- Parsed(rev);
    var wanted :- Parsed(want);
    if held > wanted then Done(Conflict(file, want, have, base, genesis, Ahead, true))
    else if wanted - held <= 1 then
      match item
      case Message(_) => Raised(TypeError)
      case Tagged(_, client) =>
        if client.None? then Raised(KeyError)
        else Done(Conflict(file, want, have, base, genesis, NoMissing(client.value), false))
    else
      match between
      case Threw(e) => Done(LookAt(e))
      case Returned(None) => Raised(IndexError)
      case Returned(Some(wh)) =>
        var lines := Zip3(wh.revs, wh.users, wh.changes);
        var text := GenesisText(genesis, ctx, file, base, want);
        var en := Enumerate(lines, text);
        EnumerateSpec(lines, text);
        var held' :- Parsed(if en.last.Some? then en.last.value else rev);
        Done(Conflict(file, want, have, base, genesis, Missing(en.counter, en.listed), held' > wanted))
  }

  /** The diagnosis of a resolution conflict in `file`, position `idx` of the
      new changelist (lines 389-545). `items` is the file's resolve reply.
      The stages run in the source's order: the held revision, the
      requested revision, the base file, the held revision's history, the
      walk back to the inherited revision, its genesis, and the comparison. */
  function SuggestResolution(ctx: Ctx, file: string, idx: nat, orig: Describe, items: seq<ResolveItem>, diag: DiagReplies)
    : (r: Outcome<Suggestion>)
    requires |items| > 0
    ensures diag.have.Threw? ==> r == Done(LookAt(diag.have.text))
    ensures diag.have.Returned? && WantedRev(orig, idx).Raised? ==> r == Raised(WantedRev(orig, idx).error)
    ensures diag.have.Returned? && WantedRev(orig, idx).Done? && BaseFileOf(items[0]).Raised? ==>
              r == Raised(BaseFileOf(items[0]).error)
    ensures (diag.have.Returned? && WantedRev(orig, idx).Done? && BaseFileOf(items[0]).Done?
              && diag.history(diag.have.value).None?) ==> r == Done(LookNowhere)
    ensures diag.have.Returned? && WantedRev(orig, idx).Done? && BaseFileOf(items[0]).Done?
              && diag.history(diag.have.value).Some? ==>
              var have, want, base := diag.have.value, WantedRev(orig, idx).value, BaseFileOf(items[0]).value;
              var walked := WalkOf(diag.history, have, diag.history(have).value);
              && (walked.Raised? ==> r == Raised(walked.error))
              && (walked == Done(Exhausted) ==> r == Done(LookAt("")))
              && (walked.Done? && walked.value.Found? ==>
                    var genesis := FoundGenesis(walked.value, base, diag.snippet);
                    && (genesis.Raised? ==> r == Raised(genesis.error))
                    && (genesis.Done? ==> r == Compare(ctx, file, want, have, base, genesis.value, items[0], diag.between)))
    ensures r.Done? && r.value.Conflict? ==>
              && diag.have.Returned?
              && r.value.file == file
              && r.value.have == diag.have.value
              && WantedRev(orig, idx) == Done(r.value.want)
              && BaseFileOf(items[0]) == Done(r.value.base)
    ensures r.Done? && r.value.Conflict? && r.value.distance.NoMissing? ==> items[0].Tagged? && items[0].clientFile == Some(r.value.distance.clientFile)
    ensures r.Done? ==> r.value.Conflict? || r.value.LookAt? || r.value.LookNowhere?
  {
    match diag.have
    case Threw(e) => Done(LookAt(e))
    case Returned(have) =>
      var want :- WantedRev(orig, idx);
      var base :- BaseFileOf(items[0]);
      match diag.history(have)
      case None => Done(LookNowhere)
      case Some(first) =>
        var walked :- WalkOf(diag.history, have, first);
        match walked
        case Exhausted => Done(LookAt(""))
        case Found(_, _, _, _) =>
          var genesis :- FoundGenesis(walked, base, diag.snippet);
          Compare(ctx, file, want, have, base, genesis, items[0], diag.between)
  }

  /** The suggestion exactly as the report shows it. */
  function Render(s: Suggestion, ctx: Ctx): string {
    match s
    case LookAt(detail) => LookAtThis + detail
    case LookNowhere => LookHere
    case _ => Rule + Body(s, ctx)
  }

  /** The text after the rule of a diagnosed suggestion. */
  function Body(s: Suggestion, ctx: Ctx): string {
    match s
    case ChangePending =>
      "<b>Change is pending</b>\n\nRequested change is currently pending. Please copy locally or submit it"
    case WrongBranch(path) =>
      "<b>Verify the branch of the requested change</b>\n\nRequested change is currently at : " + path
      + "\nWe need it to be in this branch: " + ctx.fromPrefix + "\n"
    case Conflict(file, want, have, base, genesis, distance, alreadyHave) =>
      "<b>File with conflict:</b> " + file + "\n<b>Requested " + SourceName(ctx) + " revision:</b> " + want
      + "\n<b>Current " + ctx.branch.name + " revision:</b> " + have
      + "\n" + GenesisText(genesis, ctx, file, base, want) + "\n"
      + DistanceText(distance, base, want)
      + (if alreadyHave then "<b>We already have revision " + want + " in target branch</b>" else "")
      + "\n\n"
    case _ => ""
  }

  function DistanceText(d: Distance, base: string, want: string): string {
    match d
    case Ahead => ""
    case NoMissing(client) =>
      "<b>No missing intervening changes</b><br/>There does not appear that there are missing intervening"
      + " revisions to properly resolve this file. Perhaps the following diff command can help:"
      + "\"p4 diff2 " + client + " " + base + "#" + want + "\"\n\n"
    case Missing(counter, listed) =>
      "<b>These are " + NatToString(counter) + " missing intervening changes that might help in resolving this conflict:</b> \n"
      + ListedText(listed)
  }

  function ListedText(listed: seq<LogLine>): string {
    if |listed| == 0 then ""
    else ListedText(listed[..|listed| - 1])
         + " revision " + listed[|listed| - 1].rev + " change: " + listed[|listed| - 1].change
         + " user: " + listed[|listed| - 1].user + "\n"
  }

  /** A rendered suggestion starts with the rule exactly when it is a
      diagnosis; the bail-outs of the conflict diagnosis do not. */
  lemma RenderRule(s: Suggestion, ctx: Ctx)
    ensures StartsWith(Render(s, ctx), Rule) <==> !(s.LookAt? || s.LookNowhere?)
  {
    var text := Render(s, ctx);
    if s.LookAt? {
      assert text[0] == 'P' != Rule[0];
    } else if s.LookNowhere? {
      assert text[0] == 'e' != Rule[0];
    } else {
      var body := Body(s, ctx);
      assert text == Rule + body;
      assert text[..|Rule|] == Rule;
    }
  }
}
