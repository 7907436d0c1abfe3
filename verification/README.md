# Partitur protocols, modelled and proved

Partitur runs a score of movements, each carried out by adapters, under a
journal from which every decision can be replayed. This project models the code
on which that replay and its documents rest, and proves what the code promises.

- **Document regeneration.** `Myers`, `DocumentDiff` and `Transport` cover the
  greedy O(ND) diff with its backtracking, the two-level diff of lines and
  bytes, and the boundary mapper that carries classified byte ranges to the new
  document. `Coverage`, `Regions`, `Fragments`, `Registry`, `RegistryFacts` and
  `Regeneration` cover sorting, coverage, region cutting, splitting and merging.
  `Markers` and `Materialize` cover the marker tokens and their way back, and
  `MarkerGrammar` which documents are accepted. `Ledger` composes them all: the
  decisions of the old document, a delta for what changed, and the ledger and
  marked text of the new one. `Decisions` says which receipts are valid and
  from which decisions a document regenerates, in terms of labels and bytes
  alone; `Resupply` says when some delta can do it, `Deltas` which ones do, and `Idempotence` that doing it again changes nothing.
- **Dependencies.** `Dependencies` is the stable topological order and
  `Closures` the two reachability fixpoints. The amendment evaluator orders
  movements with the same algorithm (`internal/amendment/evaluator.go:426-467`);
  since only one list is a complete stable order, both return the same list.
- **Recovery.** `Recovery` holds the decision tables C.1 to C.4 and the selector
  between units, as the code decides; `RecoveryTables` holds the rows of the
  design, read from the top, and shows that both are the same. Where the code
  departs from the order of C.1 in `docs/DESIGN.md:6742-6757`, the rows follow
  the code: it looks for an open question ahead of the reclaim and for an open
  interval behind it, and rebuilds the finalization last. `Continuations`
  follows the tables, `PlannerSafety` says what their decisions rest on, and
  `Lifecycle` runs the selector against its effects.
  `AcceptanceRuns` runs acceptance evaluation against crash and recovery.
  `Reduction` folds a journal into the records of its attempts and, beside them,
  the facts that recovery reads; `AcceptanceJournal` shows that the reducer
  accepts what an evaluation writes, `JournalOrder` what it forces on every
  journal, and `JournalFacts` says of each record which entries it comes from.
- **Launch.** `Launch` is the gated handoff of launcher, trampoline and observer
  as interleaved steps, each process free to stop at any of them.
- **Canonical JSON.** `NameOrder`, `CanonicalJson`, `JsonParser`,
  `JsonRoundTrip` and `JsonIngress` print and parse by RFC 8785; `Canonicity`
  shows that the printed text is the shortest, and `JsonGrammar` that ingress
  accepts a grammar and nothing else.
- **Adapter protocol.** `Framing` is the JSONL stream, `AdapterExecute` the
  client side of one execution under cancellation, `AdapterServer` the serving
  loop.

`Results` and `Sequences` hold what several modules share. Loops, in-place
updates and mutated state of the source are methods and classes here, proved
against the specification functions beside them; concurrent processes are step
relations, with theorems over all runs. `*` stands for an answer of the outside
world.

## Where the code falls short of what it is for

Five properties that one would expect do not hold of the code. Each is proved
together with the exact condition under which the property does hold.

- A finalized score can reach the error sentinel of the selector
  (`internal/recovery/planner.go:964-967`). Rules 04, 08 and 12 of
  `internal/score/rules.go` accept a movement outside the draft phase that needs
  the draft movement, and a final movement that is the draft one; the draft
  movement becomes inapplicable, and the need never succeeds.
  `Lifecycle.DraftNeedIsAccepted` gives the smallest such score, and
  `Lifecycle.LifecycleTheorem` the exact condition, `Runnable`.
- A crash can lose the verdict of a review, and with it the human gate. The live
  evaluation keeps the verdict in memory
  (`internal/acceptance/acceptance.go:758-785`) and writes it into the
  completion; recovery completes an evaluation without one
  (`internal/recoveryconsequence/consequence.go:246-292`), and a gate of mode
  `on_contested` is derived from the recorded verdict
  (`internal/runstore/recovery.go:797-812`), although `docs/DESIGN.md:7390` says
  that recovery cannot bypass the gate. `AcceptanceRuns.ContestedGateIsBypassed`
  gives the crash, `AcceptanceRuns.GateSurvivesIff` the exact condition for the
  decision behind the evaluation, and `AcceptanceRuns.TransparentIff` that for
  the journal, for every prefix of a live run.
- A crash before a review criterion was started leaves an acceptance that
  recovery cannot finish: the resumed evaluation gets no artifact reader
  (`internal/recoveryexec/handlers.go:477-512`) and refuses the criterion
  (`internal/acceptance/acceptance.go:662-678`).
  `AcceptanceRuns.ReviewIsNotResumed` gives the plan, `AcceptanceRuns.RefusedIff`
  the exact condition for given outcomes, and `AcceptanceRuns.ResumableIff` that
  for all: recovery is never refused if and only if no review criterion is left
  unstarted.
- A ledger cannot be updated over every edit. A dirty decision must be touched
  by a supplied one (`cmd/partitur-spec-regions/regenerate.go:112-123`), and
  where that is asked for is projected from its boundaries (lines 287-297): a
  decision whose whole text was deleted or replaced leaves the empty range behind
  the new text, so between neighbours that stay clean and touch it, no supplied
  decision counts. `Resupply.DeletionIsRefused` and
  `Resupply.ReplacementIsRefused` give the documents, `Resupply.MiddleIsRefused`
  the family, and `Resupply.UpdatableIff` the exact condition: each gap is
  touched by a stretch with a payload that no clean decision occupies, and the
  document can be cut and printed. `Resupply.GapCoversIff` says when a gap covers
  the new text of an edit at all.
- Cutting refuses documents that have regions: when the nonblank lines fill the
  regions and blank lines follow, `ValidateUniverse` would accept those in the
  last region, but the cutting loop puts them into one of their own.
  `Regions.RefusedThoughCuttable` gives the document, and
  `Regions.RefusedThoughCuttableIff` the exact condition.

## Model

| member | source | states |
|---|---|---|
| `Myers.MyersOperations` | cmd/partitur-spec-regions/regenerate.go:583-615 | Returns a script of least cost among all edit scripts; fails exactly when that least cost exceeds the limit of 8192; the error after the loop is never returned. |
| `Myers.NoShorterScript` | cmd/partitur-spec-regions/regenerate.go:588-612 | While the exit test stays false in all rounds before d, every script costs at least d. |
| `Myers.WalkStaysWithin` | cmd/partitur-spec-regions/regenerate.go:590-609 | No walk of d edits, even outside the grid, passes the furthest column that round d computes on its diagonal. |
| `Myers.ScriptArrives` | cmd/partitur-spec-regions/regenerate.go:606-609 | A script of cost c makes the exit test true in round c. |
| `Myers.FirstArrivalIsCorner` | cmd/partitur-spec-regions/regenerate.go:606-609 | The exit test first fires exactly at (n, m), although x and y may leave the grid. |
| `Myers.ClipStaysInside` | cmd/partitur-spec-regions/regenerate.go:596-609 | Any walk past the grid gives an edit script inside the grid that is not more expensive. |
| `Myers.TrivialScript` | cmd/partitur-spec-regions/regenerate.go:583-587 | Deleting everything and inserting everything is a script, so a least one exists within n + m rounds. |
| `Myers.Advance` | cmd/partitur-spec-regions/regenerate.go:594-605 | One diagonal of a round reaches exactly the furthest column of that round. |
| `Myers.TakeEdit` | cmd/partitur-spec-regions/regenerate.go:595-601 | The choice between the two neighbouring diagonals is the one that leads furthest. |
| `Myers.PreviousDiagonal` | cmd/partitur-spec-regions/regenerate.go:621-632 | Backtracking picks, from the saved round, the diagonal the last edit really came from. |
| `Myers.BacktrackRound` | cmd/partitur-spec-regions/regenerate.go:620-642 | One backtracking round prepends a snake of matching items and, except in round 0, exactly one edit. |
| `Myers.BacktrackDiff` | cmd/partitur-spec-regions/regenerate.go:617-649 | The rebuilt script walks from (0, 0) to the end point with exactly as many edits as saved rounds; each equal step pairs equal items. |
| `Myers.Reverse` | cmd/partitur-spec-regions/regenerate.go:643-648 | The in-place reversal turns the collected steps into the script. |
| `DocumentDiff.EditsFromOperations` | cmd/partitur-spec-regions/regenerate.go:655-687 | The edits of a script are strictly separated in both documents, the bytes between them are identical, and their sizes add up to the cost of the script. |
| `DocumentDiff.PatchTheorem` | cmd/partitur-spec-regions/regenerate.go:518-580 | Replacing the old range of every edit by its new range turns the old document into the new one. |
| `DocumentDiff.RawByteDiff` | cmd/partitur-spec-regions/regenerate.go:573-581 | The byte edits of two documents patch one into the other with the least total size, or the least size exceeds the limit. |
| `DocumentDiff.SplitLines` | cmd/partitur-spec-regions/regenerate.go:565-571 | The lines of a document concatenate to it and none is empty. |
| `DocumentDiff.SplitAfterTerminates` | cmd/partitur-spec-regions/regenerate.go:566-570 | Every piece but the last ends with its only newline; the last piece has none. |
| `DocumentDiff.ConsumeHunk` | cmd/partitur-spec-regions/regenerate.go:539-549 | A hunk is the whole run of inserted and deleted lines, located at the bytes where those lines lie. |
| `DocumentDiff.AppendHunk` | cmd/partitur-spec-regions/regenerate.go:550-560 | The byte edits of a hunk, shifted to its place, extend the patch found so far. |
| `DocumentDiff.DiffBytes` | cmd/partitur-spec-regions/regenerate.go:518-563 | The two-level diff patches the old document into the new one, with no edit for equal documents; it fails only when the lines are too far apart or a hunk of some shortest line script has bytes that are. |
| `Transport.DecisionDirty` | cmd/partitur-spec-regions/regenerate.go:246-256 | A range is dirty exactly when an edit overlaps it or inserts strictly inside it. |
| `Transport.MapBoundary` | cmd/partitur-spec-regions/regenerate.go:258-285 | The loop maps a position through the first edit that reaches it, or by the shift of all earlier edits. |
| `Transport.MappedAtEdit` | cmd/partitur-spec-regions/regenerate.go:258-285 | The ends of an edit go to the ends of its new bytes, its start to their end when an insertion there is to be included, and a position strictly inside it to their start. |
| `Transport.CleanIffInGap` | cmd/partitur-spec-regions/regenerate.go:246-256 | A range is clean exactly when it lies inside one stretch that both documents share. |
| `Transport.MappedInGap` | cmd/partitur-spec-regions/regenerate.go:258-285 | Inside a shared stretch both kinds of boundary move by the offset of that stretch. |
| `Transport.TransportTheorem` | cmd/partitur-spec-regions/regenerate.go:246-285 | A clean range [s, e) arrives byte for byte: new[map(s, true)..map(e, false)] equals old[s..e]. |
| `Transport.TransportKeepsOrder` | cmd/partitur-spec-regions/regenerate.go:258-285 | Clean ranges stay disjoint and in order; two that touch are separated by exactly the bytes inserted between them. |
| `Markers.Parse` | internal/docmarker/marker.go:18-62 | The loop over tokens returns the ranges, or the error, of the reading of the document defined token by token; see MarkerGrammar.ParsedIs for what that reading is. |
| `MarkerGrammar.MarkerIdIff` | internal/docmarker/marker.go:9 | The ids by their characters are those of the pattern: words of letters and digits with single separators between them. |
| `MarkerGrammar.TokenIsRead` | internal/docmarker/marker.go:9 | Wherever the text of a token with a valid name stands, the scanner reads that token. |
| `MarkerGrammar.ReadIsToken` | internal/docmarker/marker.go:9 | Whatever the scanner reads as a token is the text of a token with a valid name. |
| `MarkerGrammar.FindAllIsLeftmost` | internal/docmarker/marker.go:19-20 | The tokens found are the leftmost ones that do not overlap, and stripping leaves exactly the text between them. |
| `MarkerGrammar.ParsedIs` | internal/docmarker/marker.go:18-62 | The answer for every document: malformed marker text first, then the first fault of the token list (unmatched, nested, crossed, duplicate or empty), then an open end, otherwise the ranges. |
| `MarkerGrammar.AcceptedIff` | internal/docmarker/marker.go:18-62 | A document is accepted exactly when no malformed marker text is left and its tokens are pairs of begin and end of one name around a payload, with different anchors; the ranges are the texts between the tokens. |
| `Materialize.TokenMatches` | internal/docmarker/marker.go:10-16 | A printed token is read back as itself, whatever follows it. |
| `Materialize.NoMatchAcross` | internal/docclause/materialize.go:36-44 | No token starts in token-free text, not even across its end into an inserted token. |
| `Materialize.MarkerRoundTrip` | internal/docclause/materialize.go:30-47 | Reading a materialized source gives exactly its ranges with their bytes in order, and deleting the tokens gives back the source. |
| `Materialize.PrintMarked` | internal/docclause/materialize.go:30-43 | The cursor loop prints the source with a pair of tokens around each classified range. |
| `Materialize.ValidateMaterialized` | internal/docclause/materialize.go:58-80 | Accepts exactly the documents that read back to the classified ranges and strip back to the source. |
| `Materialize.Materialize` | internal/docclause/materialize.go:14-47 | For a complete registry the only failure is marker text in the source; the final self-check never fails. |
| `Regions.ValidateUniverse` | internal/docclause/regions.go:59-103 | Accepts exactly the region lists that cover all lines in order with 200 nonblank lines each and 1 to 200 in the last. |
| `Regions.GenerateRegions` | internal/docclause/regions.go:25-57 | Returns a valid universe; fails exactly when the document is empty, lacks the final newline, or ends in blank lines behind a full region (or is blank). |
| `Regions.CutLines` | internal/docclause/regions.go:37-52 | The cutting loop yields the one list of regions that cutting line by line defines; it is a valid universe exactly when the nonblank lines do not fill the regions and leave blank lines over. |
| `Regions.UniverseExistsIff` | internal/docclause/regions.go:59-103 | Lines have a valid universe exactly when one of them is not blank. |
| `Regions.RefusedThoughCuttableIff` | internal/docclause/regions.go:25-57 | Lines are refused although they have a universe exactly when their nonblank lines fill the regions and the last line is blank. |
| `Regions.RefusedThoughCuttable` | internal/docclause/regions.go:25-57 | A concrete document of two hundred nonblank lines and a blank one, which is refused although it has a universe. |
| `Registry.UniverseCuts` | internal/docclause/regions.go:59-103 | The bytes of the regions tile the document, and every region has a payload. |
| `Registry.FillBucket` | cmd/partitur-spec-regions/regenerate.go:427-447 | The inner loop collects exactly the fragments with a payload of one region and stops at the decision that reaches beyond it. |
| `Registry.BuildRegistry` | cmd/partitur-spec-regions/regenerate.go:413-462 | The two-pointer walk gives every region exactly its fragments with a payload; it fails exactly when a decision reaches beyond the document. |
| `Fragments.FlatSplits` | cmd/partitur-spec-regions/regenerate.go:424-448 | Fragments listed region by region are the fragments listed decision by decision. |
| `Fragments.TailJoins` | internal/docclause/registry.go:163-170 | Fragments behind a region boundary extend the entry that reaches the boundary. |
| `Fragments.PiecesJoin` | internal/docclause/registry.go:162-173 | The fragments of one decision merge back into one entry, whatever came before. |
| `Fragments.TrimKeepsPayload` | cmd/partitur-spec-regions/regenerate.go:438-440 | Dropping whitespace-only fragments removes only blank ends of a decision; label and payload stay. |
| `Fragments.SplitThenMerge` | internal/docclause/registry.go:147-173 | Splitting at all region boundaries and merging again gives one entry per decision, trimmed only at blank ends. |
| `Coverage.SortIsSorted` | cmd/partitur-spec-regions/regenerate.go:404-411 | Sorting decisions yields an ordered permutation. |
| `Coverage.SortedStays` | internal/docclause/registry.go:156-161 | Sorting leaves an ordered list as it is. |
| `Coverage.MarkAll` | cmd/partitur-spec-regions/regenerate.go:346-357 | The coverage loop succeeds exactly on valid, disjoint ranges, and then marks exactly the covered bytes. |
| `Coverage.Uncovered` | cmd/partitur-spec-regions/regenerate.go:358-374 | The scan reports no span exactly when every byte is covered or whitespace. |
| `Coverage.ValidateCompleteCoverage` | cmd/partitur-spec-regions/regenerate.go:345-383 | Accepts exactly valid, disjoint decisions that cover every byte that is not whitespace. |
| `Coverage.ValidateRegionDecisions` | internal/docclause/registry.go:185-235 | Accepts exactly the nonempty receipts with valid labels, payloads and disjoint ranges inside the region, complete when that is required. |
| `Coverage.MergeAdjacentDecisions` | cmd/partitur-spec-regions/regenerate.go:385-402 | The merging pass equals joining the sorted decisions one by one. |
| `RegistryFacts.BucketIsValid` | internal/docclause/registry.go:185-235 | With complete coverage and valid labels the receipt of every region is valid and complete. |
| `RegistryFacts.SplitIsOrdered` | internal/docclause/registry.go:147-173 | Ordering the receipts of a split gives exactly the trimmed decisions. |
| `RegistryFacts.PendingIffInvalidLabel` | internal/docclause/registry.go:107-122 | After a split, a region is pending exactly when some decision has an invalid label. |
| `RegistryFacts.TrimmedIsReadable` | internal/docclause/materialize.go:21-30 | The ordered classifications of a split can always be printed and read back. |
| `Regeneration.MergeIsDecided` | cmd/partitur-spec-regions/regenerate.go:385-402 | Merging keeps order, coverage, labels and payloads and leaves nothing to merge. |
| `Regeneration.OrderedClassifications` | internal/docclause/registry.go:147-183 | Returns the merged receipts, or an error exactly when an anchor occurs in two places. |
| `Regeneration.PendingRegions` | internal/docclause/registry.go:107-122 | No region is listed exactly when every receipt is valid and complete. |
| `Regeneration.Register` | cmd/partitur-spec-regions/regenerate.go:142-153 | After the regions are cut, only an invalid label, a duplicate anchor or marker text can still make regeneration fail. |
| `Regeneration.Regenerate` | cmd/partitur-spec-regions/regenerate.go:127-158 | For decisions with a payload, which RegenerateLedger establishes: succeeds exactly when coverage is complete, the regions can be cut, labels are valid, merged anchors are unique and the document has no marker text; the marked document then reads back to the trimmed decisions and strips back to the source. |
| `Regeneration.RegeneratedIsDecided` | cmd/partitur-spec-regions/regenerate.go:235-244 | The receipts of a regeneration amount to decisions that the next one can start from: the trimmed merged ones. |
| `Regeneration.ResultIsUnique` | cmd/partitur-spec-regions/regenerate.go:127-158 | A document and its decisions have one result at most: regions, receipts and marked text. |
| `Ledger.ShiftDecisions` | cmd/partitur-spec-regions/regenerate.go:86-107 | The clean decisions are moved by the boundary mapper, and the dirty ones leave the ranges to supply again. |
| `Ledger.ProjectBoundary` | cmd/partitur-spec-regions/regenerate.go:287-297 | A boundary inside an edit is projected to its new start or end, any other is mapped. |
| `Ledger.ValidateDelta` | cmd/partitur-spec-regions/regenerate.go:299-343 | Accepts exactly the deltas whose decisions have payload, label and a fresh anchor each and overlap neither each other nor a shifted decision. |
| `Decisions.ReceiptIff` | internal/docclause/registry.go:185-235 | The receipt of a region is valid exactly when it is not empty, each entry is an anchor named by an id or non-normative without a name, lies in the region and holds a byte other than whitespace, and no byte is decided twice; it is complete when each byte other than whitespace is decided. |
| `Decisions.RegenerableIff` | cmd/partitur-spec-regions/regenerate.go:127-158 | Regeneration succeeds exactly when each decision is labelled so, no byte is decided twice, each byte other than whitespace is decided, from the first byte of an anchor to its last each byte belongs to it, no marker text stands in the document, and the document can be cut into regions; nothing is said in terms of sorting or merging. |
| `Decisions.MergingKeepsNames` | cmd/partitur-spec-regions/regenerate.go:385-402 | Merging decisions changes the label of no byte. |
| `Deltas.DeltaValidIff` | cmd/partitur-spec-regions/regenerate.go:299-343 | The check accepts exactly the deltas whose entries each hold a byte other than whitespace, are anchors with an id or non-normative without one, repeat no anchor of each other or of the shifted decisions, and share no byte with each other or with those. |
| `Ledger.CheckSupplied` | cmd/partitur-spec-regions/regenerate.go:112-123 | Finds no missing range exactly when every dirty decision is touched by a supplied one. |
| `Ledger.RegenerateLedger` | cmd/partitur-spec-regions/regenerate.go:34-158 | Diff, shift, check and regenerate: succeeds exactly for a valid delta that touches every dirty decision and completes the shifted ones; every clean decision of the old document then reappears in the marked new one, with its label and its bytes but for blank ends. |
| `Deltas.UpdatesIff` | cmd/partitur-spec-regions/regenerate.go:34-158 | A delta completes the update exactly when it can be supplied, its anchors are marker ids, it touches the gap of each dirty decision, every byte other than whitespace belongs to a shifted or supplied decision, and the document can be cut and has no marker text. |
| `Deltas.AnAnchorCanBeSupplied` | cmd/partitur-spec-regions/regenerate.go:314-325 | Turning a non-normative entry of such a delta into an anchor with a fresh id leaves it one. |
| `Deltas.SuppliedReappear` | cmd/partitur-spec-regions/regenerate.go:127-158 | Every supplied decision is read back from the new marked document, with its label and its bytes but for blank ends. |
| `Deltas.ProjectionKeepsOrder` | cmd/partitur-spec-regions/regenerate.go:287-297 | Projecting keeps the order of the ends of one range and of boundaries of different ranges that no single edit surrounds both. |
| `Deltas.GapIsFree` | cmd/partitur-spec-regions/regenerate.go:88-111 | A gap is a range of the new document and asks for no byte of a clean decision that was carried over. |
| `Ledger.CleanReappear` | cmd/partitur-spec-regions/regenerate.go:86-158 | Diff, transport, merging, splitting, trimming and marking together keep every clean decision: reading the marked document gives a range with its label and payload. |
| `Resupply.SuppliableIff` | cmd/partitur-spec-regions/regenerate.go:112-123 | A gap can be supplied exactly when one of the stretches that the decisions in place leave free, taken whole, has a payload and touches it. |
| `Resupply.DeltaExistsIff` | cmd/partitur-spec-regions/regenerate.go:108-123 | Some valid delta touches every gap exactly when each gap is touched by a free stretch with a payload. |
| `Resupply.UpdatableIff` | cmd/partitur-spec-regions/regenerate.go:108-158 | A ledger can be updated by some delta exactly when each gap of a dirty decision is touched by a free stretch with a payload, and the new document can be cut and has no marker text. |
| `Resupply.MiddleIsRefused` | cmd/partitur-spec-regions/regenerate.go:112-123 | A decision whose whole text is replaced, by anything or nothing, between two that touch it can never be supplied again. |
| `Resupply.DeletionIsRefused` | cmd/partitur-spec-regions/regenerate.go:112-123 | Concrete documents: the second of three lines is deleted, and no delta updates the ledger. |
| `Resupply.ReplacementIsRefused` | cmd/partitur-spec-regions/regenerate.go:112-123 | Concrete documents: the second of three characters is replaced, and no delta updates the ledger. |
| `Resupply.GapCoversIff` | cmd/partitur-spec-regions/regenerate.go:287-297 | The projected gap of a decision covers the new bytes of an edit that touches it exactly when the edit starts elsewhere than the decision or inserts nothing. |
| `Ledger.UnchangedStays` | cmd/partitur-spec-regions/regenerate.go:86-132 | An unchanged document needs no delta: nothing is dirty, nothing moves, and merging keeps the decisions. |
| `Idempotence.LedgerRegeneratesItself` | cmd/partitur-spec-regions/regenerate_test.go:17-40 | Whatever a regeneration yields, its own ledger updates the unchanged document without a delta, and yields the same regions, receipts and marked text. |
| `Idempotence.RegenerateTwice` | cmd/partitur-spec-regions/regenerate_test.go:17-40 | Regenerating, and then again from the new ledger and the same document, gives the same result twice. |
| `Dependencies.StableTopologicalMovementIDs` | internal/driver/movement_composition.go:40-81 | Fails exactly on an undeclared id, an empty id or a cyclic subgraph; otherwise returns the stable order: a permutation of the included ids with every included need earlier. |
| `Dependencies.StableIsLeast` | internal/driver/movement_composition.go:62-79 | The stable order is lexicographically least by declaration position among all orders. |
| `Dependencies.StableIsUnique` | internal/driver/movement_composition.go:40-81 | Only one list is a complete stable order, so every algorithm that yields one yields the same. |
| `Dependencies.CyclicHasNoOrder` | internal/driver/movement_composition.go:70-72 | A cyclic subgraph has no order at all. |
| `Dependencies.StuckIsCyclic` | internal/driver/movement_composition.go:63-72 | When nothing is ready, the rest of the graph holds a cycle. |
| `Dependencies.CountNeeds` | internal/driver/movement_composition.go:46-60 | Indegrees and children count the included needs exactly, whatever order the map of included ids yields. |
| `Dependencies.FirstReady` | internal/driver/movement_composition.go:63-70 | Picks the first declared included movement that is ready and not emitted; the empty id means none, or the movement with that id. |
| `Dependencies.Release` | internal/driver/movement_composition.go:75-77 | Decrements the indegree of each child once per occurrence. |
| `Closures.MovementOrDownstreamStarted` | internal/amendment/evaluator.go:327-352 | True exactly when an attempt exists on the movement or on one that transitively needs it; the repeat loop ends on every graph. |
| `Closures.SelectOnce` | internal/amendment/evaluator.go:330-344 | One pass selects only downstream movements and reports a change unless the selection is closed. |
| `Closures.ClosedIsDownstream` | internal/amendment/evaluator.go:328-345 | A closed selection of downstream movements holds all of them. |
| `Closures.Visit` | internal/driver/movement_composition.go:104-119 | The recursive visit adds exactly what is reachable and not yet visited; it ends on every graph. |
| `Closures.DependencyClosure` | internal/driver/movement_composition.go:98-124 | Computes exactly the transitive needs of the target; fails exactly when one of them is undeclared. |
| `Closures.ContributorOrder` | internal/driver/movement_composition.go:85-128 | Fails exactly on an empty or absent target, an undeclared transitive need, or a cycle or an empty id among the needs; otherwise the contributors are exactly the transitive needs of the target, each once and behind its own needs. |
| `Lifecycle.StepHolds` | internal/recovery/planner.go:913-968 | Every step of a compiled run keeps the invariant: at most one movement is running, a movement starts only after its needs succeeded, the final one only with a candidate; and it decreases the measure. |
| `Lifecycle.NoDeadlock` | internal/recovery/planner.go:924-967 | In every reachable open state of a runnable run the selector has a valid decision; its error sentinel is not reached. |
| `Lifecycle.SuccessIsComplete` | internal/driver/driver.go:248-356 | A run that succeeds has every movement outside the draft phase succeeded. |
| `Lifecycle.UnrunnableNeverSucceeds` | internal/recovery/planner.go:961-967 | A run whose score is not runnable never reaches success. |
| `Lifecycle.RunEnds` | internal/driver/driver.go:248-356 | Every run ends within the initial measure of steps. |
| `Lifecycle.RunIsSafe` | internal/driver/driver.go:248-356 | The safety invariant holds after every number of steps. |
| `Lifecycle.LifecycleTheorem` | internal/recovery/planner.go:913-968 | For every compiled run: the sentinel is never met, and the run succeeds, exactly when no other movement waits for a draft movement and the final one is not a draft. |
| `Lifecycle.LiveRunLoop` | internal/driver/driver.go:239-357 | The live loop ends in success exactly for runnable scores, with every movement outside the draft phase succeeded. |
| `Lifecycle.DraftNeedIsAccepted` | internal/score/rules.go:278-329 | A score of two movements that rules 04, 08 and 12 accept and that is not runnable: the final movement needs the draft movement. |
| `RecoveryTables.C1FromTheTop` | internal/recovery/planner.go:529-634 | For every input the run-level table answers by the row that applies and has none above it that does; conditions and answers of the 19 rows are those of the design, on the raw facts. |
| `RecoveryTables.C2FromTheTop` | internal/recovery/planner.go:660-806 | The same for the 15 rows of the attempt table on the head attempt; without a head it goes on to C.4. |
| `RecoveryTables.BlockedIff` | internal/recovery/planner.go:683-704 | A blocked attempt: a question is asked for exactly when one is not durable yet, the run waits exactly when all are and a blocking decision of this attempt is open, and the attempt is resumed with its movement and performer exactly when none is. |
| `RecoveryTables.C3FromTheTop` | internal/recovery/planner.go:811-880 | The same for the rows of the acceptance table on a started acceptance; a criterion named is the first of its kind in plan order. |
| `RecoveryTables.C4FromTheTop` | internal/recovery/planner.go:882-908 | The order of the scheduler table: terminal run, attempt in flight, spent budget, recovered composition, one step. |
| `RecoveryTables.SelectsOneStep` | internal/recovery/planner.go:913-968 | The step is the selected successor; else the movement of least declaration position that can become ready; else the first that is ready or running; else the candidate when its precondition holds; else the error sentinel. |
| `RecoveryTables.ExhaustsBudget` | internal/recovery/planner.go:974-986 | Without time left the first running movement fails, and without one the run. |
| `NameOrder.BytesBeforeIff` | internal/recovery/planner.go:1279-1290 | The order of ids by bytes: at the first difference the smaller character stands, or the shorter id ends. |
| `Continuations.ExecuteContinuations` | internal/recoveryexec/executor.go:203-206 | The loop reaches the decision found by following continuations from C.1, table by table. |
| `Continuations.StartedIsFinal` | internal/recovery/planner.go:819-876 | C.3 on a started acceptance never falls through: it always decides. |
| `Continuations.ContinuationsEnd` | internal/recoveryexec/executor.go:520-544 | At most three continuations lead to a valid decision or a halt; at most two when the records of the head attempt agree. |
| `Continuations.ContinuationsEndIff` | internal/recoveryexec/executor.go:520-544 | Continuations end exactly when the attempt in flight is not lost between C.2 and C.3. |
| `Continuations.LostCycles` | internal/recovery/planner.go:811-819 | Why the two records have to agree: otherwise C.2, C.3 and C.4 would hand over to each other for ever. |
| `PlannerSafety.ContinuationsEndExactly` | internal/recovery/planner.go:802-819 | On any input, continuations end exactly unless C.1 lets pass and the verified head attempt says that its acceptance started while the state has no such record; no loaded input is of that kind (JournalsReachADecision). |
| `Reduction.EntryKeeps` | internal/runstate/apply.go:268-566 | Every journal entry that the reducer accepts keeps the reduced state and the facts that recovery reads off the same entries in agreement. |
| `Reduction.JournalsAgree` | internal/runstore/recovery.go:424-575 | After every journal that loads, the two tell the same story of every attempt, verdicts lie on started criteria only, and a completion has only passes. |
| `JournalOrder.RestsOnEarlier` | internal/runstate/apply.go:268-566 | In a journal that loads, everything an entry rests on comes before it: the launch before the probe, both before the performer's end or a blocked end, verification before acceptance, the start of a criterion before its verdict, every judged criterion before the evaluation, and the evaluation before a completed attempt. |
| `JournalOrder.OnceEach` | internal/runstate/apply.go:268-566 | In a journal that loads, an attempt passes each milestone once, each criterion is started and judged once, and nothing of an attempt that can happen once comes behind its end. |
| `JournalFacts.StateIs` | internal/runstate/apply.go:245-900 | In a journal that loads, an attempt is in a state exactly when the last entry that moves it brings it there. |
| `JournalFacts.EndIs` | internal/runstate/apply.go:245-900 | An attempt has ended in a state exactly when some entry of the journal brought it there, and nothing moves it afterwards. |
| `JournalFacts.DispositionIs` | internal/runstore/recovery.go:424-575 | The disposition that recovery reads of a failed attempt is exactly that of the entry which ended it. |
| `JournalFacts.ResultIs` | internal/runstore/recovery.go:424-575 | Recovery reads the success or failure of a movement exactly when an entry says so behind the selection of the attempt. |
| `JournalFacts.GateRejectionIs` | internal/runstore/recovery.go:424-575 | Recovery reads a rejected final gate exactly when the last failure of the movement under this attempt says so. |
| `JournalFacts.HeadIs` | internal/runstore/recovery.go:777-800 | The head attempt is the one selected last among those of the current revision that were not superseded, with the movement, performer and revision of its entry. |
| `JournalFacts.RevisionIs` | internal/runstate/apply.go:806-900 | The revision on record is that of the last approved amendment, or the first one. |
| `Reduction.LoadedAgrees` | internal/runstore/recovery.go:272-300 | On every loaded input the head attempt says that its acceptance started exactly when the state has the record. |
| `Reduction.JournalsReachADecision` | internal/recoveryexec/executor.go:520-544 | From every journal that loads, the planner reaches a valid decision or a halt within two continuations. |
| `Reduction.SuccessIsRecorded` | internal/recovery/planner.go:1020-1062 | Table C.3 lets an attempt succeed only when the journal holds a pass for every criterion of its plan, no rejection, and, whenever the gate opens on the recorded verdict, a request for the attempt's gate and its approval. |
| `AcceptanceJournal.TraceIsAccepted` | internal/runstate/apply.go:460-566 | The reducer accepts whatever a live evaluation or its recovery writes, event by event, and holds exactly the record that the planner is shown. |
| `PlannerSafety.ProceedsIffCleared` | internal/recovery/planner.go:529-631 | C.1 goes on exactly when the run is open, the authority is held, no person is awaited, every referenced object is present and replay owes nothing. |
| `PlannerSafety.FinalDecisionIsFounded` | internal/recovery/planner.go:660-877 | Whatever table the continuations end on, a process is written off only with a proof that it is gone, a subject is judged only when it matches, and a launch is removed only with a free marker or an empty session. |
| `PlannerSafety.VerifyingInOrder` | internal/recovery/planner.go:748-774 | Whenever C.1 lets pass, following the planner takes a verifying attempt through capture, verification and the start of acceptance, in this order, failing it where the lost worktree is still needed, and then to table C.3. |
| `PlannerSafety.SuccessIffAcceptable` | internal/recovery/planner.go:1020-1062 | Acceptance succeeds exactly for an evaluated acceptance without failure or open criterion, with its gate passed and its subject unchanged. |
| `AcceptanceRuns.EvaluateStartedCriteria` | internal/acceptance/acceptance.go:425-617 | Refuses a review without an artifact reader; otherwise appends a trace: criteria in plan order, each started then judged, up to a rejection. Behind the first criterion that fails, is interrupted or spends the time, exactly its start, judgement and rejection stand, as far as they happened. Completion is appended exactly when every criterion passed and it was asked for, and it carries the verdict of the review. |
| `AcceptanceRuns.VerdictIsLast` | internal/acceptance/acceptance.go:758-785 | The verdict carried is that of the last review among the criteria. |
| `AcceptanceRuns.PrefixIsTrace` | internal/acceptance/acceptance.go:452-567 | What a crash leaves of a trace is a trace. |
| `AcceptanceRuns.StartedOnce` | internal/acceptance/acceptance.go:452-567 | A trace starts no criterion twice, is at most twice the plan plus one long, and completes only after every criterion passed. |
| `AcceptanceRuns.ReplayShows` | internal/recovery/planner.go:1103-1158 | The replayed record shows table C.3 exactly where the trace stops, and holds the verdict of its completion. |
| `AcceptanceRuns.PlannerGoesOn` | internal/recovery/planner.go:811-877 | On the replay of any trace C.3 picks its one continuation: the first unstarted criterion, the one in flight, the unrejected failure, the completion, or the gate derived from the recorded verdict. |
| `AcceptanceRuns.ActionKeepsCourse` | internal/recoveryexec/handlers.go:940-985 | Every recovery action extends the trace towards the same final journal, whose completion carries no verdict; standing still means being there. |
| `AcceptanceRuns.RecoverAcceptance` | internal/recoveryexec/handlers.go:445-530 | Planning and acting in turn leaves the final journal, or the part of it ahead of the first review that would have to be started, where it is refused; the last decision is the planner's on that journal. |
| `AcceptanceRuns.RefusedIff` | internal/recoveryexec/handlers.go:477-512 | Recovery falls short of the journal it heads for exactly when an unstarted review lies ahead with nothing but passes in front of it. |
| `AcceptanceRuns.TransparentIff` | internal/recoveryconsequence/consequence.go:246-292 | For every prefix of a live journal, recovery leaves the journal of the live run exactly when a criterion in flight would have been an error, the completion was recorded, or no review lies ahead behind passes only and either none is planned or some criterion does not pass. |
| `AcceptanceRuns.AlwaysTransparentIff` | internal/recoveryconsequence/consequence.go:246-292 | Whatever the outcomes still to come, recovery leaves the journal of the live run exactly when the prefix is completed, rejected or holds a failure, or stops outside a criterion of a plan without review. |
| `AcceptanceRuns.DecisionAfterCrash` | internal/runstore/recovery.go:797-812 | What recovery leaves behind a crash anywhere in a live run: a review it is refused, the recorded failure, or the gate decision on the verdict, which is gone unless the completion was recorded. |
| `AcceptanceRuns.GateDecides` | internal/recovery/planner.go:1020-1062 | Behind a completed evaluation C.3 asks for the human gate exactly when it opens on the recorded verdict; otherwise the attempt succeeds. |
| `AcceptanceRuns.GateSurvivesIff` | internal/runstore/recovery.go:797-812 | The decision behind the evaluation is the live one exactly when no review lies ahead and: some criterion does not pass, or the completion was recorded, or the crash was outside a criterion and the gate mode is not on_contested, or the verdict is not contested. |
| `AcceptanceRuns.ContestedGateIsBypassed` | internal/recoveryconsequence/consequence.go:266-288 | A concrete plan and crash: the live run asks for the gate, the recovered one, which is not refused, succeeds without it. |
| `AcceptanceRuns.ResumableIff` | internal/recoveryexec/handlers.go:477-512 | Recovery is never refused, whatever the outcomes, exactly when no review criterion is left unstarted. |
| `AcceptanceRuns.ReviewIsNotResumed` | internal/recoveryexec/handlers.go:477-512 | A concrete plan that recovery cannot finish: its review criterion was not started before the crash, and nothing is ever appended. |
| `Launch.ExecOnlyAfterReceipt` | internal/launch/launch_unix.go:215-247 | In every interleaving the program runs only after a complete receipt, of the event type of its kind of launch, for the identity that names the trampoline itself. |
| `Launch.NeverReleasedLater` | internal/launch/trampoline_unix.go:133-142 | If the launcher is gone before the gate byte left, the program never runs. |
| `Launch.MarkerFreeMeansUnreleased` | internal/launch/observe_unix.go:29-62 | A free marker sampled after the launcher was gone proves that the gate byte never left. |
| `Launch.SampledIdentityIsOurs` | internal/launch/identity.go:77-111 | A sampled identity is the process of this launch. |
| `Launch.OutcomeTellsRelease` | internal/launch/launch_unix.go:234-264 | A plain failure means that nothing runs or will run; success and the failure after release mean that the receipt was held first. |
| `Launch.StepKeeps` | internal/launch/trampoline_unix.go:86-164 | Every step of launcher, trampoline and observer keeps the protocol invariant. |
| `Launch.TrampolineEnds` | internal/launch/trampoline_unix.go:133-137 | Once the launcher is gone the trampoline takes boundedly many steps. |
| `Launch.NeverStuck` | internal/launch/trampoline_unix.go:133-137 | Until it ends or runs the program, an abandoned trampoline can always move, or the observer hands the lock back. |
| `Launch.ObserveHandoff` | internal/launch/observe_unix.go:29-62 | An undisturbed observation is exact: absent marker, empty marker, published identity, held lock or free marker. |
| `Launch.HandoffCanSucceed` | internal/launch/launch_unix.go:54-264 | The protocol can succeed: some run starts the program. |
| `NameOrder.CompareUTF16` | internal/canonical/encode.go:147-159 | The unit-by-unit comparison is the lexicographic order of UTF-16 code units and is zero only for equal names. |
| `NameOrder.Trichotomy` | internal/canonical/encode.go:147-159 | Exactly one of before, equal and after holds. |
| `NameOrder.PrecedesThen` | internal/canonical/encode.go:147-159 | The order is transitive. |
| `NameOrder.SameUnitsSameName` | internal/canonical/encode.go:148-149 | Names with the same code units are the same name. |
| `NameOrder.UnitsAreNotScalars` | internal/canonical/encode.go:147-159 | The order differs from the order of scalar values. |
| `NameOrder.SortedIsUnique` | internal/canonical/encode.go:50-54 | A set of names has one sorted list. |
| `NameOrder.SortNames` | internal/canonical/encode.go:50-54 | Sorting the names in any order gives that list. |
| `CanonicalJson.AppendString` | internal/canonical/encode.go:76-107 | Appends the string escape by escape; Canonicity.StringIsCanonical says why these are the escapes of section 3.2.2.2 of RFC 8785. |
| `CanonicalJson.AppendValue` | internal/canonical/encode.go:24-74 | Appends the canonical text of the value, whatever order the maps yield their names in. |
| `JsonParser.ValidateJSONStrings` | internal/canonical/ingress.go:78-136 | The scan accepts exactly the texts in which every quoted part is a proper string with paired surrogates. |
| `JsonParser.DecodeJSONValue` | internal/canonical/ingress.go:149-202 | The decoder with its loops computes the grammar of values, refusing duplicate names. |
| `JsonRoundTrip.BodyTrip` | internal/canonical/encode.go:81-106 | A printed string is read back as itself. |
| `JsonRoundTrip.NumberTrip` | internal/canonical/ingress.go:204-218 | A printed safe integer is read back as itself; no printed number is refused as a negative zero. |
| `JsonRoundTrip.ValueTrip` | internal/canonical/ingress.go:149-202 | The canonical text of a value, followed by anything that can follow a value, is read back as that value. |
| `JsonIngress.EncodeThenParse` | internal/canonical/ingress.go:24-42 | Parsing the canonical text of any value gives the value back. |
| `JsonIngress.EncodeIsInjective` | internal/canonical/encode.go:20-22 | Different values have different canonical texts. |
| `Canonicity.StringIsCanonical` | internal/canonical/encode.go:76-107 | Of all texts that are read back as a string, the printed one is the shortest, and the only one of its length whose escapes have no upper-case digit. |
| `Canonicity.NumberIsCanonical` | internal/canonical/encode.go:109-127 | An integer of the safe range has no other text than the printed one. |
| `Canonicity.CanonicalIsShortest` | internal/canonical/encode.go:24-74 | No text that ingress accepts as a value is shorter than its canonical text. |
| `JsonGrammar.AcceptsExactlyTheGrammar` | internal/canonical/ingress.go:24-202 | Ingress accepts exactly the texts of the RFC 8259 grammar, with distinct names in every object and integers of the safe range for numbers, and yields the value they stand for. |
| `JsonGrammar.UnitsAreEscaped` | internal/canonical/encode.go:147-158 | The code units by which names are ordered are those whose escapes are read as the name. |
| `JsonIngress.NothingIsReplaced` | internal/canonical/ingress.go:24-42 | In an accepted text no broken surrogate was replaced silently. |
| `Framing.Reader.ReadLine` | internal/protocol/jsonrpc.go:263-289 | Byte by byte: a line within the limit unchanged, an error for a longer one, a partial frame for a tail; the stream is left at the next line. |
| `Framing.Reader.ReadFrame` | internal/protocol/jsonrpc.go:251-261 | Skips blank lines and returns the next other outcome. |
| `Framing.Reader.ReadAll` | internal/protocol/jsonrpc.go:251-261 | Reading to the end reports exactly the events of the stream. |
| `Framing.ReadsLineByLine` | internal/protocol/jsonrpc.go:251-289 | Any stream gives, in order, each nonblank line within the limit, one error per longer line, and a partial frame for a tail without newline. |
| `Framing.Writer.Write` | internal/protocol/jsonrpc.go:220-243 | Appends the message and a newline, or nothing when it is too large. |
| `Framing.WriteThenRead` | internal/protocol/jsonrpc.go:220-261 | Frames written come back as the same sequence. |
| `AdapterExecute.Execution.TerminalRecordingSuppressed` | internal/adapter/execute.go:916-927 | True exactly when a cancellation was seen or the channel is closed, and remembered. |
| `AdapterExecute.Execution.RecordStop` | internal/adapter/execute.go:833-854 | Writes at most one stop, and only when the call began before the cancellation; a recorder may fail without having written, and reported success without a write means a cancellation. |
| `AdapterExecute.Execution.RecordOutcome` | internal/adapter/execute.go:893-909 | Writes at most one outcome, behind the stop, and only when the call began before the cancellation; a recorder may fail without having written. |
| `AdapterExecute.Execution.RecordFailure` | internal/adapter/execute.go:878-891 | A failure writes stop and the failed outcome, or neither after a cancellation; without an error the outcome stands or the cancellation came first. |
| `AdapterExecute.Execution.ConsumeEvent` | internal/adapter/execute.go:629-685 | An event is refused exactly when 10000 came before it or it is malformed, repeated, undeclared or without authority; an accepted one is recorded, numbered and blocks as its kind says. |
| `AdapterExecute.Execution.ConsumeArtifact` | internal/adapter/execute.go:696-727 | An artifact is refused exactly when it is unnamed, repeated, undeclared, a change set or outside the output directory, and otherwise recorded once. |
| `AdapterExecute.Execution.ValidateBlocking` | internal/adapter/execute.go:767-788 | Accepts a response exactly when its pending decisions are the blocking events, each once, and it waits for a human exactly when there are any. |
| `AdapterExecute.Execution.RecordCheckpoint` | internal/adapter/execute.go:286-302 | A checkpoint is recorded exactly when it exceeds the last one, so checkpoints strictly increase. |
| `AdapterExecute.Execution.TakeFrame` | internal/adapter/execute.go:304-346 | A response is taken exactly when its pending decisions match the blocking events, an acknowledgement exactly once behind a cancel request, an event exactly when it is acceptable; an undecodable frame ends the window. |
| `AdapterExecute.Execution.Window` | internal/adapter/execute.go:281-377 | The event window ends with a matching response or a failure; nothing terminal is recorded after a cancellation that came first. |
| `AdapterExecute.Execution.ResponseTail` | internal/adapter/execute.go:379-431 | Behind a response only the acknowledgement of a requested cancel and the end of frames are accepted. |
| `AdapterExecute.Execution.Conclude` | internal/adapter/execute.go:486-511 | Sweep, stop, outcome, in this order; the outcome says what the result that stands came to, and a result that the journal left out does not stay in the report. |
| `AdapterExecute.Execution.Execute` | internal/adapter/execute.go:45-512 | In every run at most one stop and one outcome, the outcome behind the stop, both after a sweep and begun before any cancellation. Without an error an outcome is recorded unless the cancellation came first: blocked exactly when blocking events were raised, completed exactly when the adapter answered so, failed in every other case. A result is a response the adapter sent. |
| `AdapterServer.StepKeeps` | internal/adapterkit/serve.go:73-256 | Every step of loop, handler, sink holder, input and signal keeps the invariant. |
| `AdapterServer.EveryFrameIsAnsweredOnce` | internal/adapterkit/serve.go:96-253 | In every run a received frame has at most one response, and exactly one when the loop stops without an error. |
| `AdapterServer.ReceivedIff` | internal/adapterkit/serve.go:96-253 | In every run an execution starts exactly for a valid execute frame that comes while none runs; every other frame is answered at once. |
| `AdapterServer.EmittedIff` | internal/adapterkit/serve.go:310-340 | In every run an event is written exactly for the running execution, while fewer than 10000 of its events were. |
| `AdapterServer.ExecutionsAreBounded` | internal/adapterkit/serve.go:310-330 | At most one execution is open at a time, each emits at most 10000 events, and none of them after its response. |
| `AdapterServer.ShutdownWaitsOnlyForTheHandler` | internal/adapterkit/serve.go:87-94 | After the end of input or a signal the loop only waits for its handler, then answers and stops; after a partial frame it stops without an answer. |
| `AdapterServer.StopsWithErrorIff` | internal/adapterkit/serve.go:73-253 | In every run a loop that stops, stops with an error exactly when some response could not be written, or the input ended inside a frame and no termination signal came later. |

## Left out

- Myers.MyersOperations: the saved trace keeps mathematical integers, not the int32 entries of the source.
- DocumentDiff.DiffBytes: fails only for a hunk of some shortest line script that is too long, not exactly then, because the split into hunks depends on which of several shortest scripts is found.
- Markers.Parse: documents have one character per byte; the regular-expression engine is written out as a grammar of tokens.
- Regions.GenerateRegions: what a blank line is stays a parameter, because the source trims Unicode space; every line of ASCII whitespace is required to be blank.
- Regeneration.Regenerate: hashes, blob ids, the registry file, its activation pins and the lookup of receipts by key are left out; receipts are listed in region order. Decisions are required to have a payload; Ledger.RegenerateLedger establishes it by the delta check and the transport.
- Ledger.RegenerateLedger: the old decisions are required to be merged, disjoint and with a payload, as the validation of the old registry leaves them; which of several reasons is reported first is not modelled.
- Ledger.ValidateDelta: the texts of its errors are left out.
- Coverage.ValidateRegionDecisions: the order in which the source reports several errors of one receipt is not modelled.
- Lifecycle.LifecycleTheorem: every unit of work succeeds; failed, blocked and cancelled movements, retries, revisions and the exhaustion of the time budget are decided by the tables but not run here.
- Continuations.ContinuationsEnd: payload fields of actions that no table reads again, such as routed ids and findings, are left out of the decisions.
- AcceptanceRuns.RecoverAcceptance: the subject matches, no launch is left unjournaled and the session can be swept; the other observations are covered by the tables. Hashes, durations and the text of findings are left out, and the gate is followed up to the decision to ask for it; a resumed criterion that is interrupted again is another crash.
- Launch.StepKeeps: one launch directory and one observer at a time; pipes, locks and processes are their abstract effect, a machine crash and the descendants of the program are not modelled.
- Launch.ExecOnlyAfterReceipt: the identity document is its nonce, pid and session; start identities and their encoding are not part of this model.
- CanonicalJson.AppendValue: numbers are safe integers, so float formatting with its exponent (`trimExponentZero`) is left out; strings are sequences of Unicode scalar values, so invalid UTF-8 and the UTF-8 layer are left out.
- JsonParser.DecodeJSONValue: fractions, exponents and integers beyond the safe range are answered with an error of their own; YAML ingress is not part of this model.
- Framing.Reader.ReadLine: read errors other than the end of input, and JSON marshalling, are left out.
- AdapterExecute.Execution.Execute: starts after the launch; message contents, sanitizing, amendment bodies, file-system checks of artifact paths and timers are their outcomes.
- AdapterServer.EveryFrameIsAnsweredOnce: request decoding and response contents are left out; frames that were never received because a signal came first have no response.
- Reduction.EntryKeeps: entries that touch attempts and their acceptances only; guards on the run, movements, hashes and authority are left out, so the model accepts every journal that the reducer accepts, and more.
- The score compiler, the rest of the reducer, the store and Git: their guarantees are stated as preconditions.
- The command line, rendering, `init`, redaction, logs and enforcement tables are not modelled.
- Amendment classification beyond the reachability guard, and the consequences that only build payloads, are not modelled.
