# patchtester — a Dafny model of the integration core

patchtester test-integrates requested Perforce changelists into one or more
target branches. It then reports, per patch request and per change, whether the
change integrated cleanly (SUCCESS), went through but with a caveat (WARNING),
or failed (FAILED). Each report line carries the errors or warnings the run met
and a suggestion for each.

This project models the core of that tool as pure Dafny functions over immutable data:

- **Tree and run list** (`TreeBuild`). The request tree has a root, one node per
  patch-request id, and one leaf per requested change. A request that has no
  change yet gets a leaf named by the integer 0, a *placeholder*. The run list
  holds the requested changes, sorted as text. Both come from `-i` changes, `-r`
  tickets, pending tickets or accepted tickets.
- **One integration pass** (`Integration`). For every run-list entry the pass:
  - flags the placeholders once, or finds the entry's leaf by name or by local
    changelist;
  - describes the change and opens a new changelist, checking the `change -i`
    acknowledgement;
  - integrates, checks that files were copied in, and resolves every file,
    scanning the resolve output for conflicts;
  - runs the cross-component check on the requested change's files;
  - replaces the run-list entry by the new changelist, so that later branches
    integrate the local copy.
- **The diagnosis of a failure** (`Diagnosis`). For a failed integration, a
  hint is chosen from the error text. For a resolution conflict, the diagnosis
  walks back through the target file's own edits to the revision inherited from
  another branch, and classifies how the file arrived. It then compares the held
  and the requested revisions, and lists the possibly missing intervening
  revisions. `Render` gives the exact text the report shows.
- **The report of a pass** (`Report`): verdicts, details and suggestions, with
  line breaks rendered as `<br/>`.
- **The run** (`Run`): one pass and one report per target branch, in order, with
  the tree and the run list carried from one pass to the next.

The Perforce server and the ticket service are parameters:

- An `Attempt` holds the replies for one run-list entry:
  - `describe` of the requested change;
  - the `change -i` acknowledgement line;
  - the `integ` outcome;
  - the `describe` of the new changelist, with per-file resolve and diagnosis replies.
- `Tickets` holds the ticket lookups.

A Python exception that ends the run is a `Raised(PyError)` outcome. Examples:
`int()` on a non-number, an index past the end, a missing dictionary key, an
attribute never set on a node, or anytree's `CountError`.

The model follows the code where the code and its description disagree:

- A resolution conflict in one file stops only that file's scan (the `break`
  at `__init__.py:322` leaves the inner loop). The remaining files of the
  changelist are still resolved, so several conflicts can be recorded.
- The acknowledgement check at `__init__.py:196` reads
  `not A and not B`. A line is refused only if neither the first word is
  "Change" nor the third is "created". A line too short for the words it reads
  raises IndexError.
- The run list is sorted as text, not numerically ("100" before "20").
- The merge kind is matched as `"merge from "` with a trailing space.
- After the counting loop of the conflict diagnosis, the test "we already have
  revision …" uses the loop variable that the loop rebinds (`rev`), not the held
  revision.
- The report pairs findings and suggestions with `zip`, position by position,
  and cuts the longer list. An integration warning has no suggestion. So a
  leaf with an integration warning and then a copy failure shows the
  integration warning next to the copy suggestion, and the copy warning is
  dropped.

## Model

| member | source | states |
|---|---|---|
| Ordering.Sort | patchtester/__main__.py:216 | the run list after `sort()` is ordered by Python's string order and is a permutation of the entries |
| Ordering.SortedSameLengthIsNumeric | patchtester/__main__.py:216 | "lowest to highest" holds numerically only when every id has the same number of digits |
| Ordering.TextOrderIsNotNumeric | patchtester/__main__.py:216 | ids of different lengths are not sorted numerically: "100" comes before "20" |
| RequestTree.NamedNodes | patchtester/__init__.py:148-149 | the search by name finds exactly the nodes (root, request or leaf) named by the text, each once |
| RequestTree.LinkedNodes | patchtester/__init__.py:155-157 | the search by `change` finds exactly the leaves carrying that local changelist, each once |
| RequestTree.Single | patchtester/__init__.py:148-157 | a single-node search gives nothing, the one match, or CountError when two distinct nodes match |
| TreeBuild.Resolved | patchtester/__main__.py:174-182 | every `-r` ticket comes from a successful lookup of some id, there are at most as many as ids, and all lookups failing gives none |
| TreeBuild.ResolvedHits | patchtester/__main__.py:174-182 | ticket k is the one found at the k-th id whose lookup succeeds (reference `HitPositions`): every successful lookup is kept, in the order of the ids, and failed lookups are skipped |
| TreeBuild.ResolvedEmpty | patchtester/__main__.py:174-193 | no ticket is found in `-r` mode only when every lookup failed |
| TreeBuild.GroupKeepsEntries | patchtester/__main__.py:195-214 | the leaves of the grouped tree and the unsorted run list hold the same entries, as many times each, a ticket without changes contributing "0" |
| TreeBuild.GroupIds | patchtester/__main__.py:196-211 | each ticket id gets exactly one request node, every node is some ticket's id, and every leaf is fresh |
| TreeBuild.GroupLabels | patchtester/__main__.py:197-214 | each request node's leaves are the changes of every ticket with that id, in ticket order, or the placeholder 0 |
| TreeBuild.AddTicketSpec | patchtester/__main__.py:197-206 | adding a ticket appends its leaves to the node with its id, or adds a new node last; the other nodes are unchanged |
| TreeBuild.BuildSpec | patchtester/__main__.py:163-216 | `-i` gives one `local` request with the given changes in order; a ticket mode stops with status 1 exactly when it finds no ticket; otherwise the run list is sorted and holds exactly the leaves' entries |
| Diagnosis.SuggestIntegError | patchtester/__init__.py:373-387 | an integration failure with the "no such file" marker suggests "pending" for a pending change, the change's path when it has one, and the bare rule otherwise |
| Diagnosis.Walk | patchtester/__init__.py:411-437 | the walk loop computes the same result as the recursive definition `WalkFrom` |
| Diagnosis.WalkFromSpec | patchtester/__init__.py:411-437 | the walk stops at the first inherited revision counting back from the held one; every revision skipped is an own edit; the edits collected are distinct; giving up means no revision down to 0 was inherited |
| Diagnosis.WalkFromEdits | patchtester/__init__.py:417-437 | the edits the walk reports are the changes of the held record and of every own edit it passed, each once, in the order met (reference `Noted` over `ChangesAsked`) |
| Diagnosis.WalkOf | patchtester/__init__.py:411-437 | a held revision inherited from another path is itself the record sought; otherwise a record without a change raises IndexError before `have` is parsed, a non-number `have` raises ValueError, and else the walk starts at the held revision |
| Diagnosis.LocateBase | patchtester/__init__.py:442-444 | the base file's first position among the sources, else the last position; an empty list leaves the loop variable unbound (NameError) |
| Diagnosis.Notes | patchtester/__init__.py:476-481 | each edit the walk collected is parsed as an integer and noted with its description, in order; a non-number raises ValueError |
| Diagnosis.GenesisOf | patchtester/__init__.py:449-487 | the kind of arrival is decided by `how` alone: copy, merge (trailing space), branch after own edits (with the stripped revision, edit count and notes), direct branch, or unknown |
| Diagnosis.FoundGenesis | patchtester/__init__.py:442-487 | no sources raise NameError; a genesis is always the classification of the integration kind at the base file's position among the found record's sources |
| Diagnosis.Zip3 | patchtester/__init__.py:524-526 | the three history lists are zipped to the length of the shortest |
| Diagnosis.EnumerateSpec | patchtester/__init__.py:522-534 | the counter reaches the position of the first revision the genesis mentions, plus one; exactly the revisions before it are listed; the loop variable is left on it (or on the last revision) |
| Diagnosis.WantedRev | patchtester/__init__.py:401 | the requested revision of file `idx` of the requested change; KeyError or IndexError otherwise |
| Diagnosis.BaseFileOf | patchtester/__init__.py:404 | the base file of the first resolve record; TypeError for a text record, KeyError without one |
| Diagnosis.Compare | patchtester/__init__.py:497-543 | held above requested gives "already have" (Ahead); a distance of 0 or 1 gives no missing revision and the client file (TypeError or KeyError without one); a larger distance counts the requested file's history up to the first revision the genesis mentions (`FirstMentioned`), lists those before it, and sets "already have" from the revision the loop stops on; unparseable revisions raise ValueError |
| Diagnosis.SuggestResolution | patchtester/__init__.py:388-545 | a failing `have` gives "have a look" with the error; a missing requested revision or base file raises; a missing history gives "look here"; otherwise the stages run in the source's order: a walk that raises raises, a walk that gives up gives the bare "have a look", and a found record's genesis is compared (`Compare`) with the held and requested revisions; a diagnosis names the file, both revisions and the base file, and the diff hint names the client file |
| Diagnosis.RenderRule | patchtester/__init__.py:373-440 | a rendered suggestion starts with the 120-dot rule exactly when it is not one of the bail-outs that replace the text |
| Integration.FlagPlaceholders | patchtester/__init__.py:126-145 | every placeholder not yet seen in the pass gets exactly the pending error and suggestion, with the cross-component flag cleared; every other leaf is unchanged |
| Integration.ParseAck | patchtester/__init__.py:195-204 | the acknowledgement is refused exactly when the first word is not "Change" and the third is not "created"; otherwise the second word is the new changelist; too few words raise IndexError |
| Integration.AckRoundTrip | patchtester/__init__.py:195-204 | the acknowledgement "Change <id> created" gives back `<id>` |
| Integration.ParseAckWords | patchtester/__init__.py:196 | for any three space-free words, the exact refuse-or-accept rule |
| Integration.AckIsLenient | patchtester/__init__.py:196 | "Change 7 deleted" and "Shelf 7 created" are both taken as new changelist 7 |
| Integration.ScanResolve | patchtester/__init__.py:290-323 | a conflict is reported only for a text line with conflicting chunks met before any skipped-resolve line; without one, every conflict line follows a skipped-resolve line |
| Integration.FileStep | patchtester/__init__.py:256-330 | a file branched in at revision 1 is passed over; a resolve that fails or returns nothing adds the error(s) ending in "Error resolving"; a conflict adds exactly one error and one suggestion and marks the change failed; a clean resolve adds nothing |
| Integration.FileStepFlags | patchtester/__init__.py:270-332 | one file marks the loop failed exactly when it already was or the file's resolve reports a conflict, and adds no cross-component error |
| Integration.FilesFrom | patchtester/__init__.py:256-330 | the file loop only appends errors and never touches warnings; it ends failed exactly when it started failed or some file not branched in reported a conflict; it adds no cross-component error |
| Integration.Considered | patchtester/__init__.py:333-343 | no component the check passes over (testSpecs, SCons, buildMap) is compared |
| Integration.ConsideredKept | patchtester/__init__.py:333-343 | every file whose component is not passed over gives its component, in the order of the files, and nothing else is compared (reference `KeptPositions`) |
| Integration.CompareFromSpec | patchtester/__init__.py:345-360 | the comparison loop raises the flag exactly when a non-empty component is followed by a different one |
| Integration.CrossComponentSpec | patchtester/__init__.py:331-360 | the flag over the considered components equals the reference `Mixed` |
| Integration.IgnoredFileIrrelevant | patchtester/__init__.py:337-343 | a file of a passed-over component does not change the verdict |
| Integration.CrossCheck | patchtester/__init__.py:331-360 | the requested change's files are mixed-component exactly when the flag is raised; a record without files raises KeyError |
| Integration.ProcessLeaf | patchtester/__init__.py:162-364 | at most one changelist is created, and only after a described change and an accepted acknowledgement; a failed describe records only its error; the change goes through only without an integration error and with files copied in; the cross flag comes with its error last |
| Integration.ProcessLeafCross | patchtester/__init__.py:331-360 | after a resolution conflict the change is never flagged cross-component; without one, the flag is exactly the cross-component check of the requested change's files |
| Integration.ProcessLeafCrossOnce | patchtester/__init__.py:331-364 | a flagged leaf carries the cross-component error exactly once, an unflagged one never |
| Integration.Settled | patchtester/__init__.py:164-168 | after an attempt the leaf keeps its name and has all three lists set |
| Integration.Apply | patchtester/__init__.py:164-364 | the attempt's leaf is settled with its findings and the other leaves are unchanged; entry n becomes the new changelist exactly when the attempt went all the way through, and the other entries are unchanged; the attempt's changelist is added to the created ones |
| Integration.Lookup | patchtester/__init__.py:147-164 | the leaf an entry works on is the one node named by it, else the one leaf carrying it as local changelist (whose original change is then integrated); nothing found exactly when neither search matches; two matches raise CountError; a match that is not a leaf, or a linked leaf never described, raises AttributeError |
| Integration.Visit | patchtester/__init__.py:164-364 | an attempt's exception propagates; otherwise the found leaf is settled, every other leaf and entry is unchanged, and entry n is overwritten by the new changelist exactly when the attempt went through |
| Integration.Step | patchtester/__init__.py:125-364 | one entry changes only its own run-list position; a non-number raises ValueError; an entry of 0 only flags the placeholders; otherwise the placeholders are untouched; at most one changelist is created and the replaced entry is that changelist |
| Integration.StepVisits | patchtester/__init__.py:147-364 | an entry other than 0 works on the leaf the search finds: a search that raises raises, no match changes nothing, and a match is the visit of that leaf |
| Integration.StepKeepsPlaceholders | patchtester/__init__.py:125-164 | an entry other than 0 adds nothing to the flagged set and leaves every placeholder leaf as it was, and no step gives a placeholder a local changelist |
| Integration.StepKeepsSeen | patchtester/__init__.py:135-144 | the already-flagged set is empty until the first 0 entry and all placeholders after it |
| Integration.PassFrom | patchtester/__init__.py:124-364 | the pass keeps the tree's shape, creates at most one changelist per remaining entry, and replaces entries only by changelists it created |
| Integration.Pass | patchtester/__init__.py:124-364 | the same for a whole pass |
| Integration.PassFromEntries | patchtester/__init__.py:124-364 | every entry the pass leaves in the run list is the one its own step wrote, on the session the earlier steps reached |
| Integration.PassFromKeepsZeros | patchtester/__init__.py:128-145 | an entry of 0 is never replaced in the run list |
| Integration.ZeroFromStep | patchtester/__init__.py:125-145 | an entry of 0 exists from position n exactly when it is at n or from n+1 after the step |
| Integration.PassFromFlags | patchtester/__init__.py:124-145 | the placeholders end flagged exactly once if some remaining entry is 0, and unchanged otherwise |
| Integration.PassFlagsPlaceholders | patchtester/__init__.py:124-145 | after a whole pass, each placeholder carries one pending error and one suggestion whatever the number of 0 entries, or is untouched when there is none |
| Report.Paired | patchtester/__init__.py:570 | findings and suggestions are paired position by position, cut to the shorter list |
| Report.LeafReport | patchtester/__init__.py:556-604 | SUCCESS exactly when both lists are empty; WARNING exactly for errors on a cross-component change; FAILED for other errors or for warnings; an unset list read raises AttributeError; details never contain a line break |
| Report.LeafReportSuccess | patchtester/__init__.py:556-600 | a line has no suggestions exactly when it is a success, which carries the success text |
| Report.LeafReports | patchtester/__init__.py:556-604 | one report line per leaf, in order |
| Report.RequestReports | patchtester/__init__.py:553-605 | one record per request node, in order, carrying its id |
| Report.Generate | patchtester/__init__.py:547-617 | the subject names both prefixes; every leaf of every request gets its report line in tree order |
| Report.ReportListsPairedFindings | patchtester/__init__.py:566-600 | a leaf with findings lists its errors, or its warnings when it has none, cut to the suggestions by `zip`; with `<br/>` read back as line breaks, the details are those findings' "key: value" lines and the suggestion text is the paired suggestions' lines |
| Run.PassAndReport | patchtester/__main__.py:223-225 | a branch's pass and report; the subject names that branch |
| Run.PassAndReportGenerates | patchtester/__main__.py:223-225 | a branch's report is the report of the tree its pass left, and there is one whenever the pass and the report both go through |
| Run.RunFrom | patchtester/__main__.py:221-229 | one report per branch, in order, each naming its branch; the tree keeps its shape and the created changelists only grow |
| Run.RunFromChain | patchtester/__main__.py:221-229 | report k is the report of the tree that pass k left, pass k having run for branch k on the session the earlier passes left (`SessionBefore`) |
| Run.RunFromFinal | patchtester/__main__.py:221-229 | the run ends with the session the last pass left |
| Run.Execute | patchtester/__main__.py:163-229 | with the target branches and source prefix given, exit status 1 exactly when no ticket is found; otherwise one report per branch |
| Run.RunFromFlags | patchtester/__main__.py:222-229 | across passes the placeholders stay flagged once, never twice |
| Run.RunFlagsPlaceholders | patchtester/__main__.py:203-229 | with a 0 entry and at least one branch, every placeholder leaf of the built tree ends the run with exactly the pending error and suggestion |
| Run.FlaggedPlaceholderReport | patchtester/__init__.py:566-584 | a flagged placeholder is reported FAILED with the pending record as details and suggestion |

## Left out

- Run.Execute: the lookup of the branch names in the release collection (`__main__.py:112-131`) is not modelled, because it is I/O: its exit with status 1 on an unknown name and its special case for the source branch 'dev' are outside the model, and the target branches and the source prefix are parameters. The pending and accepted tickets are looked up for the last target branch only (`__main__.py:184`, `__main__.py:187`); the model takes that lookup's reply as the given ticket data.
- Perforce and ticket-service exceptions that the source does not catch are not modelled. These include a failing `fetch_change`, `change -i`, the `describe` of the new changelist, `filelog` inside the conflict diagnosis, and a ticket lookup that fails in a way other than its own error. Their replies are inputs that always succeed.
- The results of `verify` and `sync` (lines 262-275) are not modelled, because the source only logs them.
- `prepForIntegration`, `cleanup`, client validation, argument parsing, logging, the jinja template and the e-mail are not modelled, because they are I/O around the core. A pass's report is the structured data the template receives.
- The text of the new changelist's description is not modelled, because nothing in the core reads it back.
- Integration.ProcessLeaf: an integration error whose text contains "resolutionConf" would, in the source, enter the conflict diagnosis with no file. That path is not modelled; such an error gets the integration hint.
- Diagnosis.Notes: the first lines of each edit's description come from the input function `snippet`. The `describe` behind it is not modelled.
- Text.ParseInt accepts an optional sign followed by ASCII digits. Python's `int()` also accepts surrounding whitespace, underscores and other Unicode digits, which are not modelled.
- Integration.Step reads `int(integrate) is 0` as a comparison with 0, which is how CPython behaves for small integers.
- Replies that the source indexes with `[0]` (the `describe` of a change, the `change -i` reply, the `have` reply) are assumed to hold at least one record.
- The report's key/value rendering assumes one key per record, which is how the core builds every record.
