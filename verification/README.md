# Verified models of the PLM's bill-of-materials, CAD, migration and reporting logic

This Dafny project models five parts of the Yuantus PLM code base and proves what they promise. Each imperative part
of the source is a method or a class proved against a specification function; the laws are lemmas about those
functions, so they hold for every input and every run.

- **BOM compare and batch apply.** `BomLines`, `BomReadings`, `BomEntries`, `BomLabels`, `BomCompare`, `BomRollUp`,
  `BomTolerance`, `BomFit` and `BomNumQty` follow a tree from flattening through grouping by key, sorting by label,
  comparing and filtering. `ItemGraph` and `BomApply` follow a batch of edits through the cycle check and one database
  transaction (`Transactions`).
- **Lisp scanners.** `LispBalance` (comment stripping and delimiter counting), `LispCalls` (the two call scanners), `LispChecks`,
  `LispRoundTrip` (a printer and the proof that the argument scanner undoes it) and `LispArity`.
- **CAD field synchronisation.** `CadKeys` (spellings and aliases), `CadFields` (what reading and writing mean),
  `CadDrawing` (the drawing, read and rewritten in place), `CadAliases`, `CadLaws` (counting and convergence),
  `CadPlaces` (which cells a write touches) and `CadPutGet` (reading after writing).
- **Resumable migration and code allocation.** `RelationshipTypes`, `Migration`, `MigrationLaws`, `MigrationRehearsal` and
  `BreakageCodes`.
- **Performance and observation pipelines.** `Duration`, `PerfReport`, `PerfRoundTrip`, `PerfDatabases`, `PerfGate`,
  `PerfGateKinds` and `PerfGateLaws` for the report, its reader and the gate; `Grouping`, `Observation`, `Refreeze` and
  `Evaluation` for observation sets, `DriftRows` and `Drift` for what moved between two of them. `Text`, `Digits`,
  `Sequences` and `Options` are shared.

Floats are exact reals. Quantity texts, regular expressions, database verdicts, the alias table and the query order are
parameters, so every result holds whatever they are.

Where the code does not do what one would expect, the model keeps the code and the condition is proved:

- Sorting keys by label is independent of the set's iteration order exactly when the labels tell the keys apart
  (`BomLabels.OrderIsDetermined`); child `a:B` in unit `C` and child `a` in unit `B:C` share one
  (`BomLabels.SharedLabel`).
- A clean comparison of two trees by position or by reference is clean when summarized at the same tolerance, over all
  quantities, exactly when the tolerance is not positive, some finer key is on one side only, or no child and unit has two
  finer keys (`BomTolerance.RollsUpIff`); a tree that fails at every positive tolerance is
  `BomTolerance.ToleranceDoesNotRollUp`. For `num_qty` it is so exactly when the tolerance is not positive, some child and
  unit has lines on one side only, or none has at least two counted lines on each side and six in all
  (`BomNumQty.NumQtyRollsUpIff`); for one tree with two sets of quantities that is three counted lines
  (`BomNumQty.OneTreeRollsUpIff`). The quantities range over any set of numbers a float may hold; for `num_qty` these are
  written apart, and hold the tolerance halved and negated (`BomNumQty.GradesAreWrittenApart` shows such a set). In any
  mode the drift is at most one tolerance per finer key (`BomRollUp.CleanRollsUp`).
- Comparing a tree with itself reports only unchanged rows exactly when the tolerance is not negative, quantities do not
  count, or there are no rows (`BomCompare.SelfCompare`).
- The arity scanner counts atoms inside nested forms. On nested forms that are balanced with their string literals read
  as such it agrees with the argument scanner exactly when every nested form is one run of atoms and strings
  (`LispArity.ScannersAgreeOnArity`); on `(f (a b))` it counts two (`LispArity.NestedAtomsCountTwice`).
- A second apply of the same fields is idle on every drawing exactly when no value that can be written behind a label is
  itself read as a written key (`CadLaws.SecondApplyIdleIff`). For field names without `=` that is a test of the values
  alone (`CadLaws.PlainNamesIdleIff`); writing `b` into `a` and `v` into `b` fails it (`CadPutGet.SecondApplyExample`).
- On an aligned row the writer fills the places of the written keys and touches no other cell exactly when every cell
  that keeps its text is settled (`CadPlaces.WritesOwnPlacesIff`). Otherwise a value cell that already holds the written
  value is read again as a label, which can cost the next field (`CadPutGet.EqualValueIsReread`,
  `CadPutGet.AlignmentIsNotEnough`).
- Resumed migrations converge when no relationship waits for an item that the migration itself creates
  (`MigrationLaws.ResumedRunsConverge`), and only then is one finished run always enough
  (`MigrationLaws.OneRunIsEnoughIff`, `MigrationLaws.ChainExample`). The sessions do not flush on a lookup, so a run does
  not find an item it has added and not yet committed (`MigrationLaws.PendingIsNotFound`). A rehearsal never commits, so
  it reports the count of the real run, in every query order, exactly when there are no such rows or fewer than 500 rows
  can be moved directly (`MigrationRehearsal.RehearsalTellsIff`); otherwise a row behind the first batch is miscounted
  (`MigrationRehearsal.WaitingRowMiscounted`).
- For the same reason two relationship types that want the same new item type both add it, and the commit fails exactly
  then (`RelationshipTypes.CommitFailsIff`).
- The refrozen candidate is ready exactly when every pending item's approval id is a non-empty text: an id that is a
  number is turned into a text and then not found (`Refreeze.ReadyIffAllPendingHaveIds`,
  `Refreeze.NumberIsNotExcluded`). It passes its row count check exactly when no kept item shares an ECO with a
  pending one (`Evaluation.EvaluateCandidate`, `Evaluation.SharedEcoFailsRowCount`).
- A wider window keeps passes under `max`, not under `median` (`PerfGateLaws.MedianWideningFails`); per scenario the exact
  condition is `PerfGateLaws.WideningIsSafeIff`.

## Model

| member | source | states |
|---|---|---|
| ItemGraph.DetectCycleWithPath | src/yuantus/meta_engine/services/bom_service.py:370-422 | the breadth-first search answers yes exactly when the parent is the child or reachable from it, and then returns an actual path that closes the cycle |
| ItemGraph.EnqueueChildren | src/yuantus/meta_engine/services/bom_service.py:408-417 | every unvisited child of the current item is queued, each queued visit carrying a real path back to the start |
| ItemGraph.CycleCheckIsExact | src/yuantus/meta_engine/services/bom_service.py:362-368 | adding an edge to an acyclic graph keeps it acyclic exactly when the check says no |
| ItemGraph.WalkWithExtraEdge | src/yuantus/meta_engine/services/bom_service.py:362-422 | a walk that uses a new edge splits into old walks to its start and from its end |
| BomApply.ApplyChange | plugins/yuantus-bom-compare/main.py:875-948 | one change moves the session to the specified next store or reports the specified error status; one that goes through has removed exactly its row, replaced that row's properties alone, or added exactly one current row with the given parent, child and type |
| BomApply.ApplyBomChanges | plugins/yuantus-bom-compare/main.py:874-964 | the committed store is the in-order fold of all changes, or the starting store under `dry_run` or after any failure; nothing uncommitted is left in the session; the status tells which; a batch that goes through is a chain of stores, each change of it having removed, updated or added exactly its row, with the engine asked for just that |
| BomApply.StepCarries | plugins/yuantus-bom-compare/main.py:875-948 | a change that goes through: removal leaves every other row as it was, update keeps type and endpoints, and an add gives its row the parent, the child, the type (the request's first, or `Part BOM`, if none is given) and the properties the engine settles for those sent: the caller's with the related id and the quantity |
| BomApply.EngineFailureEnds | plugins/yuantus-bom-compare/main.py:955-963 | for all three operations the engine's refusal ends the batch with the engine's status, and its failure with 500 |
| BomApply.StepKeepsAcyclic | plugins/yuantus-bom-compare/main.py:875-948 | any one successful change keeps an acyclic BOM acyclic |
| BomApply.BatchKeepsAcyclic | plugins/yuantus-bom-compare/main.py:874-962 | any batch keeps an acyclic BOM acyclic |
| BomApply.HistoryKeepsAcyclic | plugins/yuantus-bom-compare/main.py:768-964 | any sequence of requests, with any mixture of failures and dry runs, keeps the committed BOM acyclic |
| BomApply.OnlyEffectiveCallsCount | plugins/yuantus-bom-compare/main.py:950-962 | rehearsals and failed requests can be struck from any history of requests: the rest ends in the same store and goes through call by call |
| BomApply.AddRefusedIffCyclic | plugins/yuantus-bom-compare/main.py:915-946 | an add the engine accepts, below an existing parent, is refused with 409 exactly when its edge would close a cycle, fails with 500 exactly when it would not but the type is no relationship type, and otherwise adds exactly that edge |
| BomApply.InsertAddsEdge | src/yuantus/meta_engine/operations/add_op.py:53-130 | an inserted relationship item contributes exactly one edge |
| BomApply.UpdateKeepsEdges | src/yuantus/meta_engine/operations/update_op.py:27-109 | changing properties changes no edge |
| BomLines.RollUp | plugins/yuantus-bom-compare/main.py:244-262 | the quantities of the finer keys of one child and unit add up to its summarized quantity |
| BomLines.Conservation | plugins/yuantus-bom-compare/main.py:236-262 | outside `only_product` the quantities over all keys add up to those of all relations in the tree that name a child |
| BomLines.ReorderedSameLines | plugins/yuantus-bom-compare/main.py:236-241 | permuting children anywhere in the tree permutes the flattened lines |
| BomLines.ReorderKeepsQuantities | plugins/yuantus-bom-compare/main.py:236-262 | permuting children changes no key and no quantity |
| BomReadings.FlattenVisitsAll | plugins/yuantus-bom-compare/main.py:236-241 | the flattened tree holds the line at every path of the tree and no others, in preorder, each reading its relation: `quantity` before `qty` and one for what is missing or unreadable, the child's id and name before the relation's and the item number, the unit trimmed and in upper case or `EA` |
| BomReadings.VisitedOnce | plugins/yuantus-bom-compare/main.py:236-241 | no line is visited twice |
| BomReadings.SameKeyIff | plugins/yuantus-bom-compare/main.py:244-262 | two lines have one key exactly when they agree in what the mode looks at: child, unit, written quantity, position or designator |
| BomEntries.ExtractEntries | plugins/yuantus-bom-compare/main.py:341-391 | one entry per key of a line with a child id, with exactly that key's lines summed up: quantity, units, positions, designators, relationship ids in order |
| BomEntries.GroupsUnique | plugins/yuantus-bom-compare/main.py:350-391 | that specification leaves only one possible result |
| BomEntries.ReorderKeepsEntries | plugins/yuantus-bom-compare/main.py:341-391 | permuting children keeps every entry: its child, quantity, units, positions, designators and the multiset of its relationship ids; only the displayed name and the order of the ids may change |
| BomLabels.SortSpec | plugins/yuantus-bom-compare/main.py:559 | sorting by label permutes the keys and orders them by label |
| BomLabels.SortStable | plugins/yuantus-bom-compare/main.py:559 | keys with one label keep their order |
| BomLabels.LabelInjective | plugins/yuantus-bom-compare/main.py:265-266 | joined labels of colon-free keys of one length are injective |
| BomLabels.LabelsTellKeysApart | plugins/yuantus-bom-compare/main.py:244-266 | in every mode labels tell all keys of two trees apart if child ids and units hold no colon |
| BomLabels.SortedWalkUnique | plugins/yuantus-bom-compare/main.py:558-559 | with distinct labels the sorted walk does not depend on the order the set was iterated in |
| BomLabels.OrderIsDetermined | plugins/yuantus-bom-compare/main.py:558-559 | it is independent of the iteration order if and only if the labels are distinct |
| BomLabels.SharedLabel | plugins/yuantus-bom-compare/main.py:265-266 | two concrete keys with colons share a label, and their order is open |
| BomCompare.SortKeys | plugins/yuantus-bom-compare/main.py:558-559 | the walk lists every key of either side once, in label order, and with distinct labels is the only such list |
| BomCompare.CompareEntries | plugins/yuantus-bom-compare/main.py:554-605 | the differences are the rows of the walked keys in order, unchanged ones only on request, and the summary tallies every status, shown or not |
| BomCompare.CompareBomTrees | plugins/yuantus-bom-compare/main.py:524-605 | the whole comparison of two trees: groupings, order, differences and summary; each row says of its key what the two trees' lines say - both quantities, absent where a side has no lines, the delta that leads from the first to the second, the status, the first side's name, and each side's units, positions, designators and relationship ids - and keys without a row are unchanged ones left out on request; with distinct labels the differences are strictly ordered by their key texts |
| BomCompare.DiffSays | plugins/yuantus-bom-compare/main.py:563-605 | one key's row, in terms of the lines of the key on the two sides |
| BomCompare.ReportedKeys | plugins/yuantus-bom-compare/main.py:559-581 | the keys with rows are those of the walk in its order, but for unchanged ones |
| BomCompare.DiffsStrictlyOrdered | plugins/yuantus-bom-compare/main.py:559-605 | an ordered walk of keys with distinct labels gives a strictly ordered list of differences, with or without unchanged rows |
| BomCompare.SummaryIsExact | plugins/yuantus-bom-compare/main.py:554-579 | added, removed, and modified plus unchanged are the sizes of B minus A, A minus B, and their intersection |
| BomCompare.RowsMatchSummary | plugins/yuantus-bom-compare/main.py:579-605 | the unfiltered list shows each status as often as the summary says, except suppressed unchanged rows |
| BomCompare.SwapLaw | plugins/yuantus-bom-compare/main.py:559-605 | over one walk, comparing the other way gives the same rows with added and removed exchanged and deltas negated; where both sides have the key the displayed names are not compared |
| BomCompare.SwapTrees | plugins/yuantus-bom-compare/main.py:524-605 | two trees without colons in child ids and units, compared both ways with keys met in any order, give mirrored lists row by row, up to the displayed name of keys both sides have |
| BomCompare.SelfCompare | plugins/yuantus-bom-compare/main.py:563-577 | comparing a tree with itself reports only unchanged rows exactly when quantities do not count, the tolerance is not negative, or there are no rows |
| BomCompare.Keeps | plugins/yuantus-bom-compare/main.py:312-337 | the chain of filter tests keeps a row exactly when it meets every given condition |
| BomCompare.FilterDiffs | plugins/yuantus-bom-compare/main.py:296-338 | bad filters are rejected; otherwise the result is the stable subsequence of all rows that meet every condition |
| BomCompare.StatusesMet | plugins/yuantus-bom-compare/main.py:269-287 | a row passes the status filters exactly when its status is meant, in any case and with any blanks, by some value to include, if there is any that is not blank, and by none to exclude |
| BomCompare.StatusesAccepted | plugins/yuantus-bom-compare/main.py:269-287 | status values are accepted exactly when each is blank or means one of the four statuses |
| BomCompare.SummarizeDiffs | plugins/yuantus-bom-compare/main.py:289-293 | every status is counted exactly and the counts add up to the number of rows |
| BomCompare.Respond | plugins/yuantus-bom-compare/main.py:607-615 | without filters the rows are untouched; with filters `summary_filtered` counts the filtered list |
| BomRollUp.CleanRollsUp | plugins/yuantus-bom-compare/main.py:230-262 | a clean finer comparison implies a clean summarized one at the tolerance taken once for each finer key of a child and unit |
| BomRollUp.SameToleranceRollsUp | plugins/yuantus-bom-compare/main.py:230-262 | in any finer mode and for any two trees it does so at the same tolerance if that is not positive or no child and unit has two finer keys |
| BomRollUp.ExactCleanRollsUp | plugins/yuantus-bom-compare/main.py:230-262 | at zero tolerance it does so at the same tolerance |
| BomTolerance.RollsUpIff | plugins/yuantus-bom-compare/main.py:230-262 | for two given trees compared by position or by reference, over all quantities on both sides, it does so if and only if the tolerance is not positive, some finer key is on one side only, or no child and unit has two finer keys |
| BomTolerance.ToleranceDoesNotRollUp | plugins/yuantus-bom-compare/main.py:230-233 | a concrete tree that fails at every positive tolerance, by position and by reference |
| BomFit.FittingRollsUp | plugins/yuantus-bom-compare/main.py:230-262 | in `num_qty` a clean comparison is clean when summarized if every child and unit has at most one counted line on a side or at most five in all |
| BomNumQty.SplitDoesNotRollUp | plugins/yuantus-bom-compare/main.py:230-262 | two quantities shared out differently over one child and unit, each within the tolerance and both together not, compare clean and are modified when summarized |
| BomNumQty.NumQtyRollsUpIff | plugins/yuantus-bom-compare/main.py:230-262 | for two given trees compared by `num_qty`, over all quantities a float holds and any way of writing these apart, a clean comparison is clean when summarized if and only if the tolerance is not positive, some child and unit has lines on one side only, or none has at least two counted lines on each side and six in all |
| BomNumQty.OneTreeRollsUpIff | plugins/yuantus-bom-compare/main.py:230-262 | for one tree with two sets of quantities: if and only if the tolerance is not positive or no child and unit stands on three counted lines |
| BomNumQty.GradesAreWrittenApart | plugins/yuantus-bom-compare/main.py:256-257 | such numbers and such a way of writing them exist, at every tolerance and for trees of any size |
| BomTolerance.CopiesDoNotRollUp | plugins/yuantus-bom-compare/main.py:256-257 | in `num_qty`, two copies of each of two quantities against one of each compare clean and are modified when summarized |
| LispBalance.StripLispLineComments | clients/cad-desktop-helper/verify_lisp_shell_static.py:58-93 | the output is the raw text without the characters the one-pass automaton puts in comments |
| LispBalance.CountBalanced | clients/cad-desktop-helper/verify_lisp_shell_static.py:173-206 | the four counts over text whose comments are not recognised |
| LispBalance.StripIdempotent | clients/cad-desktop-helper/verify_lisp_shell_static.py:58-93 | stripping twice is stripping once |
| LispBalance.StrippedCountIsRawCount | clients/cad-desktop-helper/verify_lisp_shell_static.py:173-206 | counting the stripped text equals running the code/string/comment automaton once over the raw text |
| LispBalance.QuoteBalance | clients/cad-desktop-helper/verify_lisp_shell_static.py:173-206 | opened minus closed quotes is 0 or 1, and 1 exactly when the text ends inside a string |
| LispBalance.StripThenCount | clients/cad-desktop-helper/verify_lisp_shell_static.py:675-678 | the pipeline as a whole: automaton counts, and unequal quotes exactly for an unfinished string |
| LispCalls.ScanCall | clients/cad-desktop-helper/verify_lisp_shell_static.py:329-389 | one call's index loop refines a recursive three-state scanner and returns the position behind the call |
| LispCalls.FindHelperUploadCalls | clients/cad-desktop-helper/verify_lisp_shell_static.py:316-391 | all calls of the needle, left to right, each search starting behind the last call |
| LispCalls.CountCall | clients/cad-desktop-helper/verify_lisp_shell_static.py:114-156 | the arity loop over one call refines its recursive specification |
| LispCalls.FindHelperCallArities | clients/cad-desktop-helper/verify_lisp_shell_static.py:96-159 | the counts of all calls of the needle, left to right |
| LispRoundTrip.UploadAritiesOfPrinted | clients/cad-desktop-helper/verify_lisp_shell_static.py:310-313 | the upload arities of a printed text are the numbers of arguments its calls were printed with |
| LispChecks.CheckUploadArityIsThree | clients/cad-desktop-helper/verify_lisp_shell_static.py:394-401 | the arity check passes exactly when there is an upload call and each has three arguments |
| LispRoundTrip.ScannerUndoesPrinter | clients/cad-desktop-helper/verify_lisp_shell_static.py:316-391 | for any needle-free texts around any calls with barewords, escaped string literals and balanced nested forms between any blanks, scanning the printed text returns exactly the arguments, nested forms as `(...)` |
| LispRoundTrip.SeparatorsAndBarewords | clients/cad-desktop-helper/verify_lisp_shell_static.py:376-388 | line breaks, tabs and spaces separate arguments, and every visible ASCII character but quotes and parentheses may be part of a bareword |
| LispArity.ScannersAgreeOnArity | clients/cad-desktop-helper/verify_lisp_shell_static.py:96-159 | what the arity scanner counts on such texts, if nested forms are balanced both as they stand and with their strings read as such, and that it is the number of arguments exactly when every nested form is one run of atoms and strings |
| LispArity.NestedAtomsCountTwice | clients/cad-desktop-helper/verify_lisp_shell_static.py:96-159 | on `(f (a b))` the arity scanner counts two and the argument scanner finds one |
| LispArity.QuoteFreeOk | clients/cad-desktop-helper/verify_lisp_shell_static.py:96-159 | every balanced nested form without quotes meets that condition |
| CadFields.NormalizeInput | clients/autocad-material-sync/verify_material_sync_fixture.py:95-102 | the last non-blank value given for each non-empty canonical key |
| CadKeys.SpellsIff | clients/autocad-material-sync/verify_material_sync_fixture.py:42-51 | the chain of replacements reads a key in one pass: blanks around it dropped, spaces, tabs and both colons ignored, `-` read as `_`, letters as small ones |
| CadKeys.NamesIff | clients/autocad-material-sync/verify_material_sync_fixture.py:39-52 | a text names the field its spelling is an alias of, or else the field it spells, and no other |
| CadKeys.BlanksAround | clients/autocad-material-sync/verify_material_sync_fixture.py:42-45 | blanks around a key do not change the field it names |
| CadKeys.IgnoredWithin | clients/autocad-material-sync/verify_material_sync_fixture.py:45-49 | nor does a space, a tab or either colon within it |
| CadKeys.FoldedWithin | clients/autocad-material-sync/verify_material_sync_fixture.py:46-50 | nor does the case of a letter, or `-` for `_` |
| CadFields.FieldsLastWin | clients/autocad-material-sync/verify_material_sync_fixture.py:55-92 | a drawing's fields are exactly those its pairs give, and the last pair wins |
| CadFields.NormalizedIff | clients/autocad-material-sync/verify_material_sync_fixture.py:95-102 | a field is to be written exactly when some given name, by any spelling or alias, names it with a value that is not blank, and the last such value counts |
| CadFields.DrawingIsWritten | clients/autocad-material-sync/verify_material_sync_fixture.py:113-157 | what every attribute and every row's first cells hold after writing, by the names they spell |
| CadFields.PairCellIff | clients/autocad-material-sync/verify_material_sync_fixture.py:82-86 | a cell is split at its first `=`, if it has one that does not stand in front |
| CadAliases.AliasRead | clients/autocad-material-sync/verify_material_sync_fixture.py:55-92 | an attribute or label named by an alias gives the field it is an alias of |
| CadAliases.AliasWritten | clients/autocad-material-sync/verify_material_sync_fixture.py:113-157 | and is rewritten when that field is, under whatever name it is given |
| CadAliases.MaterialFixture | clients/autocad-material-sync/verify_material_sync_fixture.py:68-157 | the fixture's attribute under the Chinese word for material is read as `material` and rewritten with it |
| Text.BlankIsStripped | clients/autocad-material-sync/verify_material_sync_fixture.py:55-65 | a text is blank exactly when nothing is left of it after stripping |
| Text.CaseChange | plugins/yuantus-bom-compare/main.py:225-227 | changing case exchanges each capital with its small letter and leaves every other character alone |
| Text.LeqIff | plugins/yuantus-bom-compare/main.py:559 | texts are ordered by the first character that differs, a prefix before its extensions |
| Text.AsciiBlanks | clients/cad-desktop-helper/verify_lisp_shell_static.py:376-382 | among ASCII characters exactly the space, the tab, the line ends and the separators are blanks |
| CadDrawing.ReadCells | clients/autocad-material-sync/verify_material_sync_fixture.py:77-91 | one row's column loop, with its one- and two-cell steps |
| CadDrawing.Drawing.ExtractFields | clients/autocad-material-sync/verify_material_sync_fixture.py:68-92 | block attributes first, then all tables; the fields are exactly those that some pair read names, under any spelling or alias, each with the last such pair's stripped value; the drawing is not changed |
| CadDrawing.ApplyRow | clients/autocad-material-sync/verify_material_sync_fixture.py:116-140 | one row is rewritten in place cell by cell as specified, and the changes counted |
| CadDrawing.ApplyTable | clients/autocad-material-sync/verify_material_sync_fixture.py:113-141 | every row of a table is rewritten and the counts added up |
| CadDrawing.Drawing.ApplyFields | clients/autocad-material-sync/verify_material_sync_fixture.py:144-157 | all attributes and tables of the drawing are rewritten in place and all changes counted; every attribute whose name names a given field, by any spelling or alias, holds its value, all others are as before, and so it is with a label or pair cell in front of a row |
| CadLaws.CountIsDifferingCells | clients/autocad-material-sync/verify_material_sync_fixture.py:116-141 | the returned count is the number of cells that differ afterwards, so no cell is counted or written twice |
| CadLaws.TableCountIsDifferingCells | clients/autocad-material-sync/verify_material_sync_fixture.py:113-141 | the same for a whole table |
| CadLaws.OnlyJustifiedChanges | clients/autocad-material-sync/verify_material_sync_fixture.py:116-140 | a cell changes only if it is a `key=value` cell of a written key or stands behind a label of one; labels never change |
| CadLaws.PairStaysPair | clients/autocad-material-sync/verify_material_sync_fixture.py:122-132 | a rewritten `key=value` cell keeps its key, holds the new value and needs no further rewrite |
| CadLaws.SecondPassIdle | clients/autocad-material-sync/verify_material_sync_fixture.py:116-140 | if no value that can be written behind a label reads as a written key, writing a row again changes nothing |
| CadLaws.SecondPassBusy | clients/autocad-material-sync/verify_material_sync_fixture.py:116-140 | for any label whose value does, pair-shaped or not, there is a row that the second pass changes again |
| CadLaws.SecondApplyIdle | clients/autocad-material-sync/verify_material_sync_fixture.py:144-157 | under the first condition a second apply to a whole drawing returns 0 and changes nothing |
| CadLaws.SecondApplyIdleIff | clients/autocad-material-sync/verify_material_sync_fixture.py:113-157 | the second apply is idle on every drawing if and only if that condition holds |
| CadPutGet.SecondApplyExample | clients/autocad-material-sync/verify_material_sync_fixture.py:113-157 | a concrete row of three cells that the second apply changes |
| CadLaws.PlainNamesIdleIff | clients/autocad-material-sync/verify_material_sync_fixture.py:95-157 | for given field names that are not blank and hold no `=`, it is so if and only if no value to be written reads as a written key |
| CadPlaces.WritesOwnPlacesIff | clients/autocad-material-sync/verify_material_sync_fixture.py:116-140 | on an aligned row the writer fills exactly the places of the written keys if and only if no cell that keeps its text sets off a write that shows |
| CadPutGet.OwnPutGet | clients/autocad-material-sync/verify_material_sync_fixture.py:77-91 | reading any aligned row whose places were filled gives the old reading overridden by the stripped written values |
| CadPutGet.RowPutGet | clients/autocad-material-sync/verify_material_sync_fixture.py:77-91 | reading a written row from any column gives the old reading overridden by the stripped written values |
| CadPutGet.PutGet | clients/autocad-material-sync/verify_material_sync_fixture.py:68-157 | extracting after applying gives the old extraction overridden by the stripped written values for the keys the drawing has a place for, on aligned tables where every kept cell is settled |
| CadPutGet.EqualValueIsReread | clients/autocad-material-sync/verify_material_sync_fixture.py:133-140 | on an aligned row whose value cell already holds the value and reads as a written key, the next field's name is overwritten and the field lost |
| CadPutGet.AlignmentIsNotEnough | clients/autocad-material-sync/verify_material_sync_fixture.py:68-141 | a concrete aligned row of four one-letter cells loses a field when written and read again |
| RelationshipTypes.EnsureItemTypes | scripts/migrate_relationship_items.py:39-71 | the mapping, the completed item types, and the added ones, which later lookups in the loop do not find |
| RelationshipTypes.CommitFailsIff | scripts/migrate_relationship_items.py:39-71 | the commit fails exactly when two relationship types want the same new item type |
| RelationshipTypes.NamelessClash | scripts/migrate_relationship_items.py:42 | a nameless relationship type whose id is another's name is such a pair |
| RelationshipTypes.MappedTypesExist | scripts/migrate_relationship_items.py:39-71 | every relationship type is mapped, and after a commit to an item type that exists |
| RelationshipTypes.ItemTypeAfterCommit | scripts/migrate_relationship_items.py:39-71 | after a commit the item type of a relationship type is a new one made with its tag, name, source and related types, or the one there was, with at most its blanks filled, and nothing without updates |
| RelationshipTypes.EnsureIdempotent | scripts/migrate_relationship_items.py:39-71 | after a run whose commit went through, a second run adds and changes nothing |
| Migration.MigrateRow | scripts/migrate_relationship_items.py:109-153 | one turn of the loop: look the endpoints up among the committed items, then skip, stop with an error, or add the item and commit each full batch of 500; an added item stands for its relationship |
| Migration.Migrate | scripts/migrate_relationship_items.py:101-159 | what a run leaves committed, whether it completes, raises or dies after any number of rows, and what it reports; every item there was is as it was, and every new one stands for its relationship |
| Migration.LeavesMigrated | scripts/migrate_relationship_items.py:101-159 | however a run ends, each new item has its relationship's source, related id, creator, state (or `Active`) and mapped type, its own id as configuration id, generation 1, its source's permission, and the relationship's properties with the sort order where they had none |
| MigrationLaws.LostTail | scripts/migrate_relationship_items.py:149-158 | a run that dies or stops with an error keeps just the largest multiple of 500 of the rows it had moved |
| MigrationLaws.CompleteRunReachesGoal | scripts/migrate_relationship_items.py:101-159 | a complete run from any state between start and goal ends at the goal |
| MigrationLaws.ResumedRunsConverge | scripts/migrate_relationship_items.py:101-159 | any history of aborted, failed, dry or complete runs followed by one complete run gives the table of a single uninterrupted run, if no relationship waits for an item yet to be migrated |
| MigrationLaws.ChainsPreventConvergence | scripts/migrate_relationship_items.py:101-159 | if one does, a complete run can leave a table that the next run still changes |
| MigrationLaws.OneRunIsEnoughIff | scripts/migrate_relationship_items.py:101-159 | one finished run leaves nothing for the next, in every query order, if and only if no relationship waits for an item yet to be migrated |
| MigrationLaws.ChainExample | scripts/migrate_relationship_items.py:111-148 | two concrete rows, one hanging from the other, for which it is not enough |
| MigrationLaws.PendingIsNotFound | scripts/migrate_relationship_items.py:116-129 | with the row it hangs from added just before, the second of those rows makes a run raise and leave nothing, or is passed over if orphans are allowed |
| MigrationRehearsal.RehearsalTellsIff | scripts/migrate_relationship_items.py:101-159 | wherever both end, a dry run reports the count of the real run, in every query order, if and only if no relationship waits for an item yet to be migrated or fewer than 500 rows can be moved directly |
| MigrationRehearsal.WaitingRowMiscounted | scripts/migrate_relationship_items.py:111-148 | a row that waits for directly movable rows, of which there are at least 500, makes a dry run and the real run report different counts in some query order |
| MigrationLaws.RehearsalChangesNothing | scripts/migrate_relationship_items.py:150-159 | a dry run leaves the committed table as it was, however it ends |
| MigrationLaws.CountIsNewItems | scripts/migrate_relationship_items.py:101-159 | the count is the number of items added, so no relationship is migrated twice |
| BreakageCodes.HighestSequence | migrations/versions/c4d5e6f7a8b9_add_breakage_incident_identity_dimensions.py:100-104 | the first pass finds the highest number in use |
| BreakageCodes.FillRow | migrations/versions/c4d5e6f7a8b9_add_breakage_incident_identity_dimensions.py:107-114 | a row's updates, and the number used up exactly for a blank code |
| BreakageCodes.IncidentTable.Backfill | migrations/versions/c4d5e6f7a8b9_add_breakage_incident_identity_dimensions.py:88-123 | the two passes number the blank codes in row order from above the highest number in use, and fill blank BOM and routing ids from version and production order |
| BreakageCodes.CodesNeverCollide | migrations/versions/c4d5e6f7a8b9_add_breakage_incident_identity_dimensions.py:100-123 | afterwards every incident has a code, old codes are kept, and each new code differs from all others even trimmed and ignoring case, for any number of rows |
| BreakageCodes.NewCodesCountUp | migrations/versions/c4d5e6f7a8b9_add_breakage_incident_identity_dimensions.py:100-114 | new codes are `BRK-` and at least six digits, and count up by one in row order from just above the highest number in use, which is some code's, read trimmed and in any case |
| BreakageCodes.CodePlain | migrations/versions/c4d5e6f7a8b9_add_breakage_incident_identity_dimensions.py:102-114 | a printed code reads back as its number, past six digits too |
| BreakageCodes.BackfillIdempotent | migrations/versions/c4d5e6f7a8b9_add_breakage_incident_identity_dimensions.py:88-123 | running it again changes nothing |
| Observation.AggregateByStage | scripts/render_p2_shared_dev_142_refreeze_candidate.py:36-53 | one row per stage in order of first appearance, with the sizes of that stage's pending and overdue groups |
| Observation.AggregateByAssignee | scripts/render_p2_shared_dev_142_refreeze_candidate.py:56-69 | one row per assignee in order of first appearance, with the size of its group |
| Observation.BuildSummary | scripts/render_p2_shared_dev_142_refreeze_candidate.py:72-79 | the counts of a summary are the numbers of items that are not overdue, overdue, and escalated |
| Observation.SummaryConservesItems | scripts/render_p2_shared_dev_142_refreeze_candidate.py:36-79 | stage and assignee rows add up to the pending, overdue and total item counts |
| Refreeze.FilterEntries | scripts/render_p2_shared_dev_142_refreeze_candidate.py:82-93 | the entries that name no excluded approval or ECO, in order |
| Refreeze.AnomalyTotalFalls | scripts/render_p2_shared_dev_142_refreeze_candidate.py:96-107 | each anomaly list loses every copy of an excluded entry and no other, and the total falls by exactly the number of excluded entries |
| Refreeze.BuildCandidate | scripts/render_p2_shared_dev_142_refreeze_candidate.py:226-252 | the candidate, by the items alone: each of its lists keeps, in order, exactly what names no pending item's approval or, for records, ECO, an id that is a number going by its numeral; the anomalies' total is what their lists hold; the summary counts what is left |
| Refreeze.PendingIff | scripts/render_p2_shared_dev_142_refreeze_candidate.py:240-241 | the texts looked for are those a pending item's id goes by: a text that is not empty, or the decimal numeral of a number other than zero |
| Refreeze.CandidateIdempotent | scripts/render_p2_shared_dev_142_refreeze_candidate.py:226-252 | refreezing a candidate changes nothing |
| Refreeze.ReadyIffAllPendingHaveIds | scripts/render_p2_shared_dev_142_refreeze_candidate.py:226-313 | the candidate is ready exactly when every pending item's approval id is a non-empty text |
| Refreeze.NumberIsNotExcluded | scripts/render_p2_shared_dev_142_refreeze_candidate.py:240-245 | a pending item whose id is the number 7 is kept, although `7` is among the excluded texts |
| Evaluation.EvaluateSnapshot | scripts/evaluate_p2_observation_results.py:80-125 | each of the five checks holds exactly when its two counts agree |
| Evaluation.SnapshotCounts | scripts/evaluate_p2_observation_results.py:48-58 | the evaluator's own counts are the numbers of items that are not overdue, overdue, and escalated |
| Evaluation.KeptCounts | scripts/render_p2_shared_dev_142_refreeze_candidate.py:240-250 | with mirrored exports no more rows than items are kept, and equally many exactly when no kept item shares an excluded ECO |
| Evaluation.EvaluateCandidate | scripts/evaluate_p2_observation_results.py:41-125 | a candidate always passes the summary and anomaly checks, and the row count check exactly under that condition |
| Evaluation.SharedEcoFailsRowCount | scripts/render_p2_shared_dev_142_refreeze_candidate.py:243-250 | a pending and an overdue item of one ECO: one item is kept and no export row |
| DriftRows.BuildItemChangeRows | scripts/render_p2_shared_dev_142_drift_investigation.py:40-86 | one row for each approval both files know of which some field moved, in the order of the ids, with exactly the moved fields and what the clock's fields held; the last record of an id counts, and `True` and `1` are equal |
| DriftRows.SortedIds | scripts/render_p2_shared_dev_142_drift_investigation.py:59 | the common ids, each once, in ascending order |
| Drift.AnalyzeTimeDrift | scripts/render_p2_shared_dev_142_drift_investigation.py:89-168 | time drift exactly when nothing was added or removed, only allowed metrics moved, every row is explained by the clock, and some item is newly overdue; otherwise the reason, at the first row that is not explained |
| Drift.OneApproval | scripts/render_p2_shared_dev_142_drift_investigation.py:40-168 | under explained rows an approval's escalation stays and it is overdue now exactly if it was or is newly so |
| Drift.TimeDriftConserves | scripts/render_p2_shared_dev_142_drift_investigation.py:89-168 | for lists with the same distinct approval ids, overdue rises and pending falls by exactly the number of newly overdue ids, at least one, and escalated stays |
| Drift.Investigate | scripts/render_p2_shared_dev_142_drift_investigation.py:20-31 | each verdict has its exact condition; time drift is found exactly when membership stayed, only the clock's metrics moved, the clock alone moved approvals, by the items themselves, and it made one overdue; it then implies those count changes |
| Drift.TimeOnlyIff | scripts/render_p2_shared_dev_142_drift_investigation.py:40-168 | the rows are explained exactly when the items are, and the newly overdue ids are those of items that moved and were not overdue |
| Duration.FormatThenParse | scripts/perf_gate.py:39-50 | parsing a formatted duration gives it as rounded by printing |
| Duration.PiecesRead | scripts/perf_gate.py:36-50 | digits, an optional point with digits, and `ms` or `s` in any case, with blanks between and around, are read as what they are worth |
| Duration.ReadPieces | scripts/perf_gate.py:36-50 | and no other text is read |
| Duration.PrintedError | scripts/perf_p5_reports.py:36-39 | the rounding error is at most 0.05 ms below one second and 0.5 ms from there on |
| Duration.PrintedMonotone | scripts/perf_p5_reports.py:36-39 | a longer duration never prints as a shorter one, across the change of units too |
| PerfReport.WriteReport | scripts/perf_p5_reports.py:377-407 | the report's lines: heading, one table row per result, closing |
| PerfReport.ParseReport | scripts/perf_gate.py:67-127 | the line loop with its early end refines a fold over the lines |
| PerfReport.TaggedIff | scripts/perf_gate.py:33-35 | a heading line is recognised exactly when its beginning is followed by one or more characters, a backquote and nothing but blanks |
| PerfReport.StatusCounted | scripts/perf_p5_reports.py:374-375 | the two figures at the report's end are the numbers of results with these statuses |
| PerfRoundTrip.HeaderCells | scripts/perf_gate.py:97-111 | the columns that are read stand under their headings |
| PerfRoundTrip.ResultLineKind | scripts/perf_p5_reports.py:393-396 | a result's line is never taken for the header, the separator or the end of the table, and its cells read back |
| PerfRoundTrip.ReadsBack | scripts/perf_gate.py:67-127 | reading a written report recovers start, git, database and every scenario's measured text and status |
| PerfRoundTrip.RowPerName | scripts/perf_gate.py:114-118 | with distinct names every result has its own row and there are no others |
| PerfGate.SortedIsSort | scripts/perf_gate.py:156-157 | the list whose middle is the median is the ascending permutation of the values |
| PerfGate.StatOfSorted | scripts/perf_gate.py:153-159 | the median is the middle of the ascending values, or halfway between the middle two, and the maximum the last |
| PerfGate.StatBetween | scripts/perf_gate.py:153-160 | median and maximum lie between any bounds of the values |
| PerfGate.GateOne | scripts/perf_gate.py:167-232 | the gate passes exactly when no measured scenario with a baseline value is over both tolerances, and reports exactly those that are; it looks at the baselines on the candidate's kind of database |
| PerfDatabases.KindsApart | scripts/perf_gate.py:53-64 | SQLite, Postgres in both spellings, MySQL and unnamed databases are four kinds: two of them have one label exactly when they are of one kind |
| PerfDatabases.OthersByScheme | scripts/perf_gate.py:53-64 | any other text goes by what stands before its colon |
| PerfGateKinds.OtherKindsIgnored | scripts/perf_gate.py:176-229 | baselines on other kinds of database, put in anywhere, change neither the failures nor the verdict |
| PerfGateKinds.OneKindWindow | scripts/perf_gate.py:176-182 | baselines of the candidate's kind are all compared with, up to the window, which counts from the first and is at least one |
| PerfGateKinds.PostgresDoesNotExcuse | scripts/perf_gate.py:176-229 | 40 ms against 10 ms on SQLite fails whatever Postgres took |
| PerfGateLaws.SlowerStillFails | scripts/perf_gate.py:193-229 | a slower candidate never turns a failure into a pass |
| PerfGateLaws.LooserStillPasses | scripts/perf_gate.py:184-217 | a larger `pct` or `abs` never turns a pass into a failure |
| PerfGateLaws.NoSlowerThanSomePasses | scripts/perf_gate.py:193-232 | under `max` a candidate no slower than some windowed baseline in each scenario passes |
| PerfGateLaws.WiderStillPasses | scripts/perf_gate.py:182-232 | under `max` widening the window never turns a pass into a failure if each scenario already had a baseline value |
| PerfGateLaws.WideningIsSafeIff | scripts/perf_gate.py:200-217 | for either statistic, more baseline values can fail no further measurement exactly when there are none, or there were some and the baseline has not dropped |
| PerfGateLaws.MedianWideningFails | scripts/perf_gate.py:156-157 | under `median` a wider window does turn a pass into a failure |
| PerfGateLaws.NoSlowerRunPasses | scripts/perf_gate.py:39-232 | a run measured no slower than runs behind the window passes under `max` after all have been written, read and parsed |
| PerfGateLaws.RealRegressionFails | scripts/perf_gate.py:39-232 | a measured time over both tolerances by more than half a millisecond is reported as a failure after writing, reading and parsing |

## Left out

- The BOM properties' configurable names, reading quantities from text and writing quantities as key text: the first are
  fixed fields, the others parameters.
- Positions and designators are texts; the joined display texts of a difference are kept as sets; regular expressions are
  predicates.
- The preview branch of the batch, exports, permissions and hooks of the item engine beyond its accept or refuse verdict,
  and what a deletion cascades to.
- ASCII is the only alphabet with letter case and digits; infinities and not-a-number quantities do not occur.
- BomCompare.SwapLaw: does not compare the displayed names of keys both sides have, because the source shows side A's name.
- BomCompare.SwapTrees: does not compare those names either.
- LispRoundTrip.ScannerUndoesPrinter: asks the needle to start with a parenthesis and hold no second one, as all needles in the source do.
- The regular-expression search for call endpoints and the static checks built on the scanners.
- CadPutGet.PutGet: its condition is exact for the cells written (CadPlaces.WritesOwnPlacesIff) and sufficient for the fields read, because a later place can restore a field that a stray write cost.
- CAD cells and values that are not texts, and loading the alias table.
- BomNumQty.NumQtyRollsUpIff: asks that different quantities a float holds are written differently, as Python's `str` does, and that the tolerance can be halved once for each line without leaving them.
- Migration: the pre-checks and counts of rows without types, logging, and concurrent writers; the query's order is a parameter.
- The guarded schema changes around the breakage-code backfill.
- Observation files, CSV quoting, the per-role table, ids that are fractions or booleans, and list members that are no records except as opaque entries.
- Drift: the order of the field names within a row, display columns, approval ids that are no texts, and values that are lists or objects.
- The report as one file: the model starts from its lines, so texts with line breaks are not covered; its duration figure is a parameter.
- The gate's printed lines and their order, its configuration, and finding and ordering report files.
- Routes, authentication, licensing, schema migrations other than the backfill, and the scripts that repeat the modelled ones.
