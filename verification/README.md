# strategy-gpt: search, loop, codec and cache model

A Dafny model of the parts of strategy-gpt that sit between its language-model and engine calls, with proofs of
what they guarantee. `dafny verify dfyconfig.toml` checks all of it.

What is modelled, module by module:

- **Search.** `RecursiveGrid`, `GridSearch`, `GridDriver` and `Rounding` model the recursive-grid optimizer in both of
  its forms, the closed loop and the step driver; `GridMeaning` says what its rounds, trials and cells are, and
  `GridGeometry` how cells nest. `MiniOptimize` models the sweep behind a hypothesis.
- **Hypothesis loop.** `MechanicalGate`, `RejectTaxonomy`, `Repair`, `Ranking`, `InnerLoop` and `Workflow` model the
  accept gate, the repair loop and the two forms of the generate / critique / rank loop; `PriorDecisions` what a run
  leaves in the ledger for later runs.
- **Parsers and printers.** `Stage3` and `Stage2` model the markdown emissions; `Stage3Grammar` and `Stage2Grammar` say what
  their texts mean, `Stage3RoundTrip` and `Stage2RoundTrip` when they survive being written and read. `Toml` models the hand-written TOML string writers, read back with the rules of the section "String" of TOML v1.0.0.
- **Logs, caches and stores.** `DecisionLog`; `SourceBundle`; `RunnerVersion`, `BuildKey`, `KeyRivals` and
  `BuildCache`.
- **Streams and batches.** `Normalizer`, `Consolidator`, `CrossValidation` with `FinalChoice`, and `Drawdown`.
- `Basics`, `Numbers`, `Lex`, `Text`, `Newlines` and `StableSort` hold what these share.

How the outside world appears: model replies, validators, critics, builds, backtests, the objective and the compiler
are arbitrary functions; a batch engine is a function from runs to a terminal status. Hashes are functions without
collisions where a statement needs it. `random.Random` is a seed function, a state transition and an arbitrary
permutation per state. Square root is any function with the defining property. Floating-point numbers are real
numbers, minus infinity is a separate value where the code uses it. A Python dictionary is a map; a candidate or box
of the grid search lists its entries in the order of the parameter space. Identifiers and times are inputs.
Dumping and loading JSON and YAML are taken to be inverse to each other.

Classes in the source that update their own state (`RecursiveGridDriver`, `DecisionRecord`, the source store, the
build driver with its cache, the ledger) are classes here; loops are methods proved against the functions about
which the lemmas speak.

Where the code and its documentation disagree, the model follows the code:

- `attempt_with_optimize` documents the aggregate as the mean of the per-fold bests (tester.py, step 3 of its
  docstring); the code takes the best fold mean. `MiniOptimize.AggregateBelowGateMean` says how the two compare.
- `DrawdownTrajectory` documents `flat` as "no drawdowns"; the code calls every curve flat whose drawdowns stay within
  0.5 percent (`Drawdown.ShapeExactly`).
- The artifact cache documents that different inputs give a new key. That holds between plain requests
  (`BuildKey.KeyDetermines`): manifest fields are single lines, no dependency name has an equals sign, the version does
  not start like a dependency line (`dep:`, `dev:`, `build:`), and in front of the runner version no blank line is
  followed by a version and by a line starting with `params_schema:`. It does not hold for all. Which requests share
  their key text with another, `KeyRivals.RivalExactly` and `KeyRivals.SingleLineRivalExactly` say for every request;
  the build then returns the other one's library (`BuildCache.RivalIsServed`).
- It also documents that sorting drops the order of dependencies. That holds for a list exactly when no name stands in
  it with two requirements (`BuildKey.OrderForgottenExactly`), which the lint sees to.
- The documented recursive grid shrinks the box to selected cells of the current one. Continuous dimensions are nested
  accordingly; an integer dimension exactly when no round escapes (`GridGeometry.IntegerBoxesNestExactly`), because
  rounding can freeze the cell outside itself.
- Prior decisions are limited before deferred ones are dropped, so mechanical failures do displace older decisions
  (`PriorDecisions.DeferredUseTheLimit`).
- `_select_final` calls `min` on an empty list when all accepted candidates score minus infinity
  (`CrossValidation.SelectFinalExactly`, `CrossValidation.FinalChoiceFailsExactly`).

## Model

| member | source | states |
|---|---|---|
| Rounding.RoundIsTheRounding | python/strategy_gpt/optimizer.py:971-1025 | Python `round`: an integer is the rounding of a real exactly when no integer is nearer and a tie goes to the even one |
| RecursiveGrid.DimGridPoints | python/strategy_gpt/optimizer.py:971-994 | the loop with its `seen` set yields the grid of one dimension: choices, a frozen integer, distinct rounded integers in order, or equally spaced reals |
| RecursiveGrid.ProductMembers | python/strategy_gpt/optimizer.py:917-928 | a candidate is in the product grid exactly when each entry is a grid point of its dimension |
| RecursiveGrid.CandidateEntries | python/strategy_gpt/optimizer.py:917-931 | every candidate of a round takes, in every dimension, a grid point of that cell at that dimension's own resolution |
| RecursiveGrid.ShrinkBox | python/strategy_gpt/optimizer.py:997-1025 | the in-place shrink, per dimension: half a step around the extreme centres, clipped to the cell, frozen at a rounded integer below width one |
| GridSearch.SelectTopIsBest | python/strategy_gpt/optimizer.py:933-941 | for every shuffle the round splits into the selected trials, min(top_k, number of trials) of them with the best first, and others of which none scores higher |
| GridSearch.ScoreRound | python/strategy_gpt/optimizer.py:859-873 | one pass over a round's metrics gives the trials of the round, with `oos_min_score` applied, and counts the refused ones; `GridMeaning.SearchAnswers` says what those trials are |
| GridSearch.BestAccepted | python/strategy_gpt/optimizer.py:886-890 | the best trial is the first accepted one of maximal score, and there is none exactly when nothing was accepted |
| GridSearch.Search | python/strategy_gpt/optimizer.py:835-915 | the closed loop: validation errors first, otherwise all trials of all rounds in order, the number of refused ones, and the best |
| GridSearch.RejectedConcat | python/strategy_gpt/optimizer.py:859-873 | refusals are counted once per trial, round by round |
| GridDriver.RecursiveGridDriver.constructor | python/strategy_gpt/optimizer.py:1042-1049 | the driver starts on the initial box with the generator seeded by seed plus salt |
| GridDriver.RecursiveGridDriver.Create | python/strategy_gpt/optimizer.py:1028-1049 | creation fails exactly with the searcher's validation error |
| GridDriver.RecursiveGridDriver.NextCandidates | python/strategy_gpt/optimizer.py:1051-1063 | the next candidates are those of the current box, or none once done |
| GridDriver.RecursiveGridDriver.Observe | python/strategy_gpt/optimizer.py:1065-1091 | one observation moves `box`, `round_index`, the generator and `done` as the step function says, and changes nothing once done |
| GridDriver.Drive | python/strategy_gpt/optimizer.py:1028-1091 | the documented driving loop terminates and returns the rounds of the step function |
| GridDriver.ObserveProgress | python/strategy_gpt/optimizer.py:1065-1091 | every observation that does not finish the driver uses up one of its rounds |
| GridDriver.TopIgnoresFlags | python/strategy_gpt/optimizer.py:933-941 | which trials are best does not depend on their acceptance flags, the only thing in which driver and loop trials differ |
| GridDriver.GridNonEmpty | python/strategy_gpt/optimizer.py:917-928 | the grid of a valid searcher is never empty unless some choice list is |
| GridDriver.DriverReplaysSearch | python/strategy_gpt/optimizer.py:835-941 | from any box and generator state with salt 0, the driver replays the loop's rounds one by one, including ties, errors and the stopping round |
| GridDriver.EmptyGridSearch | python/strategy_gpt/optimizer.py:835-891 | with an empty choice list both forms run no trial at all |
| GridDriver.DriverRefinesSearch | python/strategy_gpt/optimizer.py:1028-1091 | for every valid problem, driving the step driver gives exactly the trial sequence of `search` |
| GridMeaning.RefusesExactly | python/strategy_gpt/optimizer.py:893-914 | a searcher is refused exactly for the first of resolution, number of selected trials, depth, epsilon and overrides that is out of order |
| GridMeaning.ContinuousGridExactly | python/strategy_gpt/optimizer.py:971-994 | the grid of a continuous cell runs from one end to the other in equal steps; without width it is one point |
| GridMeaning.IntegerGridExactly | python/strategy_gpt/optimizer.py:971-994 | the grid of an integer cell holds an integer exactly when one of the equally spaced points rounds to it, half to even; below width one it is the rounded middle |
| GridMeaning.ProductInOrder | python/strategy_gpt/optimizer.py:917-928 | candidates come in lexicographic order, the last dimension varying fastest, each combination once |
| GridMeaning.CandidatesAreProduct | python/strategy_gpt/optimizer.py:917-931 | the candidates of a round are the product of the grids of its cells, each at the override for its parameter or at the common resolution |
| GridMeaning.SearchAnswers | python/strategy_gpt/optimizer.py:859-873 | in every round of every search trial k has the k-th candidate, its own metrics and what the objective says of exactly those, and is flagged accepted exactly when the objective accepts and the score reaches `oos_min_score` |
| GridMeaning.TrialsMeasured | python/strategy_gpt/optimizer.py:859-873 | when the evaluator answers each candidate for itself, every trial of a search carries the metrics and the outcome of its own parameters |
| GridMeaning.BestIsBestMeasured | python/strategy_gpt/optimizer.py:859-891 | hence the best trial has the parameters whose own metrics score highest among all accepted trials |
| GridMeaning.RejectedCounts | python/strategy_gpt/optimizer.py:859-873 | the number of refused trials is the number of trials not accepted |
| GridMeaning.DriveAnswers | python/strategy_gpt/optimizer.py:1051-1091 | in every round that the step driver is taken through each trial answers its own candidate, from any state |
| GridMeaning.DriverAnswersAlike | python/strategy_gpt/optimizer.py:1028-1091 | round by round the driver answers the candidates of the same boxes as the closed loop |
| GridMeaning.TiesByShuffle | python/strategy_gpt/optimizer.py:933-941 | the selected trials lead any stable descending arrangement of the shuffled round, so ties go by the shuffle |
| GridMeaning.ShrinksToHull | python/strategy_gpt/optimizer.py:997-1025 | the next cell is the hull of the selected points, half a step wider and clipped to the cell; an integer cell then narrower than one is the rounding of its middle |
| GridMeaning.ShrinksToMidpoints | python/strategy_gpt/optimizer.py:997-1025 | a continuous cell shrinks to the middle between its least selected grid point and the neighbour below, and its greatest and the neighbour above, or keeps its end |
| GridMeaning.SettledExactly | python/strategy_gpt/optimizer.py:1094-1112 | a dimension counts as converged exactly when it is a choice, a frozen or one-value integer, or its width is below the epsilon share of the whole range |
| GridMeaning.SearchRunsOut | python/strategy_gpt/optimizer.py:835-915 | a whole search starts on the full ranges with the seeded generator, goes on from the box and generator state that each round leaves, and ends after `depth` rounds or with the first converged box |
| GridGeometry.CellsStayGood | python/strategy_gpt/optimizer.py:947-1025 | in every round of every run each cell is a subinterval of its range, an integer cell, or the full choice list, and each round starts from the previous one's box |
| GridGeometry.ContinuousBoxesNest | python/strategy_gpt/optimizer.py:997-1025 | continuous cells of later rounds lie inside those of all earlier ones |
| GridGeometry.TopCandidatesKept | python/strategy_gpt/optimizer.py:997-1025 | every top candidate of a round lies in the next round's box in every continuous dimension |
| GridGeometry.WidthHalves | python/strategy_gpt/optimizer.py:997-1025 | with `top_k` = 1, after i rounds a continuous width is at most 2^-i of the original, for every resolution of at least 2 |
| GridGeometry.StopsByPlateau | python/strategy_gpt/optimizer.py:1094-1112 | a space of continuous and choice parameters stops within min(depth, n) rounds for every n with 2^-n below the plateau epsilon |
| GridGeometry.IntegerCandidates | python/strategy_gpt/optimizer.py:971-994 | integer candidates are integers of the declared range in every trial of every run |
| GridGeometry.IntegerGridsIncrease | python/strategy_gpt/optimizer.py:971-994 | in every round an integer grid is non-empty and strictly increasing |
| GridGeometry.FrozenForGood | python/strategy_gpt/optimizer.py:1007-1025 | a frozen integer dimension keeps its value, and every later candidate takes it |
| GridGeometry.IntegersInsideNest | python/strategy_gpt/optimizer.py:997-1025 | an integer cell shrunk around integers inside it stays inside itself and keeps every one of them |
| GridGeometry.IntegerShrinkNestsExactly | python/strategy_gpt/optimizer.py:997-1025 | an integer cell of width at least one, shrunk around any integers at most half outside it, leaves itself exactly when they all agree on one that lies outside, by less than one minus half a step, or by exactly that and even |
| GridGeometry.IntegerTopKept | python/strategy_gpt/optimizer.py:997-1025 | in every run: when rounding left the top candidates of a round inside its integer cell, the next cell lies inside it and holds them |
| GridGeometry.IntegerStepNestsExactly | python/strategy_gpt/optimizer.py:997-1025 | in every run an integer cell lies inside the one before unless the round escapes in that way, and then the dimension is frozen from the next round on |
| GridGeometry.IntegerBoxesNestExactly | python/strategy_gpt/optimizer.py:997-1025 | over a whole run the cells of an integer dimension are nested if and only if no round but the last escapes |
| GridGeometry.IntegerBoxesNeedNotNest | python/strategy_gpt/optimizer.py:1007-1025 | the escape does happen: a box shrunk from the initial one around grid points freezes outside itself |
| MiniOptimize.NextPowerOfTwoIsLeast | python/strategy_gpt/optimizer.py:168-171 | the Sobol proposal count is the least power of two not below the request |
| MiniOptimize.ProposalsAreFirst | python/strategy_gpt/optimizer.py:210-239 | the proposals are the first points of the sequence, as many as that, and none over an empty space |
| MiniOptimize.ChargeIsExact | python/strategy_gpt/optimizer.py:210-239 | charging trials times folds is what the sweep evaluates exactly when the request is a power of two or there are no folds |
| MiniOptimize.DefaultChargeIsExact | python/strategy_gpt/optimizer.py:210-239 | 64 trials on every fold is what a Sobol sweep of 64 requests evaluates; `Workflow.ChargedAsEvaluated` ties it to the charge |
| MiniOptimize.Sweep | python/strategy_gpt/tester.py:1249-1269 | every per-fold best is the maximum over all proposals, the winner is the first proposal of maximal fold mean, and there are exactly proposals times folds evaluations |
| MiniOptimize.AggregateBelowGateMean | python/strategy_gpt/tester.py:1194-1313 | the aggregate is at most the mean of the per-fold bests that the gate sees, with equality exactly when one proposal is best on every fold |
| MechanicalGate.AcceptCharacterised | python/strategy_gpt/mechanical_gate.py:98-198 | acceptance without square roots, for every configuration: fold variation within the threshold and delta above k times the combined deviation, compared as squares; a negative threshold accepts nothing, a negative k allows a small deficit |
| MechanicalGate.VerdictCharacterised | python/strategy_gpt/mechanical_gate.py:98-198 | the whole verdict without square roots: the variance reject exactly when the mean is zero or the variation out of bounds, the noise reject exactly when it is within and the lead too small, borderline exactly when an accepted lead exceeds the floor by no more than the margin, and the reported means and their difference |
| MechanicalGate.DefaultVerdict | python/strategy_gpt/mechanical_gate.py:42-60 | under the default settings: deviation at most half of the mean, a lead of more than one combined deviation, borderline up to six fifths of one |
| MechanicalGate.AcceptedBeatsBaseline | python/strategy_gpt/mechanical_gate.py:98-198 | for k at least 0 an accepted candidate's mean is strictly above the baseline's |
| MechanicalGate.GateIgnoresFoldOrder | python/strategy_gpt/mechanical_gate.py:78-198 | permuting either score list changes nothing in the outcome |
| MechanicalGate.GateIgnoresScale | python/strategy_gpt/mechanical_gate.py:78-198 | scaling both lists by a positive constant leaves accept, reject kind and borderline unchanged |
| RejectTaxonomy.ParseInvertsValue | python/strategy_gpt/reject_taxonomy.py:41-59 | parsing the stored string of a reject kind gives that kind |
| RejectTaxonomy.MechanicalKinds | python/strategy_gpt/reject_taxonomy.py:62-118 | mechanical kinds are the repairable ones minus schema and smoke, plus the exhausted budget; gate and verdict kinds are neither |
| RejectTaxonomy.KindsByString | python/strategy_gpt/reject_taxonomy.py:41-118 | which stored strings are repairable and which are mechanical; no other string is either |
| Repair.RunStageWithRepair | python/strategy_gpt/repair.py:167-217 | the loop returns the attempts of the recursive reference, with the last one's outcome, or the error for a negative budget |
| Repair.AttemptsFromChain | python/strategy_gpt/repair.py:183-217 | attempts are numbered from the start and each is emitted with the feedback of the one before |
| Repair.StageContract | python/strategy_gpt/repair.py:167-217 | between 1 and k+1 attempts; all but the last are invalid; accepted exactly when some attempt is valid; a rejected stage has used the whole budget; the reported response, parsed value and kind are those of the last attempt |
| Repair.EmitWithRepairContract | python/strategy_gpt/workflow.py:216-300 | a stage makes 1 to k_repair+1 emissions, and gives up with a kind other than ok when its validator never fails with kind ok |
| Repair.EmitsLastAttempt | python/strategy_gpt/workflow.py:216-300 | what a node learns from a stage: the parsed value of the last attempt, or the kind and the feedback of its failure, an unknown kind counting as the exhausted budget |
| Ranking.RanksAboveExactly | python/strategy_gpt/nodes.py:219-297 | the default score in whole numbers: one candidate ranks above another exactly when eleven times the lead in lift plus the lead in fifths of evidence exceeds the lead in burden, three for a net addition and minus one for a net removal |
| Ranking.BetterRanksHigher | python/strategy_gpt/nodes.py:219-297 | all else equal, one candidate outranks another exactly when its lift is higher, exactly when it has more citations up to three, exactly when its net additions are fewer |
| Ranking.DominatingRanksHigher | python/strategy_gpt/nodes.py:219-297 | a candidate no worse in lift, counted citations and net additions and better in one of them ranks strictly higher |
| Ranking.NetAdditionsCount | python/strategy_gpt/nodes.py:247-273 | each added parameter or file counts one up, each removed parameter or deleted file one down, deleted files only beside a list of files |
| InnerLoop.CritiqueNode | python/strategy_gpt/nodes.py:163-212 | the loop appends each open candidate to accepted or rejected as the critic says of it in its place, in order, and empties the open list |
| InnerLoop.CritiqueMoves | python/strategy_gpt/nodes.py:163-212 | each open candidate ends up behind the accepted or behind the rejected ones, as the critic says of it in its place and with that rationale; nothing else does |
| InnerLoop.JudgedPartitions | python/strategy_gpt/nodes.py:163-212 | every open candidate ends up in exactly one of the two lists |
| InnerLoop.JudgedAsSaid | python/strategy_gpt/nodes.py:163-212 | the entries are exactly the candidates judged so, in the order of submission, each with the rationale that the critic gave in its place |
| InnerLoop.RunInnerLoop | python/strategy_gpt/nodes.py:425-473 | the `while True` loop returns what the recursive loop and one select give, or the error for a missing diagnosis or negative target; in the list no entry stands behind one that it dominates in lift, counted citations and net additions |
| InnerLoop.RankingEveryPassIsRankingOnce | python/strategy_gpt/nodes.py:300-319 | ranking in every pass equals ranking once at the end: same pass count, same reason, and the accepted list is the stable sort of all acceptances in submission order |
| InnerLoop.InnerLoopReturnsTopOfOneSort | python/strategy_gpt/nodes.py:425-473 | the loop returns the first K of one global stable sort |
| InnerLoop.SelectedByMerit | python/strategy_gpt/nodes.py:300-340 | no acceptance of any pass that is left out dominates one that is kept, and none that is kept stands behind one it dominates |
| InnerLoop.ComparedWith | python/strategy_gpt/nodes.py:405-422 | new drafts are compared with exactly what was rejected in this run, which comes first, and what earlier runs rejected |
| InnerLoop.AsksForMissing | python/strategy_gpt/nodes.py:125-160 | a pass asks for as many drafts as are missing from the target, and for one at least |
| InnerLoop.LoopStopsFirst | python/strategy_gpt/nodes.py:425-473 | the loop ends with the first pass at which a check says so, after at most max(1, budget minus starting iteration) passes, in the state those passes give |
| InnerLoop.ReasonMatchesFinalState | python/strategy_gpt/nodes.py:425-473 | every pass but the last leaves acceptances missing, a draft that is new, and budget; the reason is the first of the three that holds of the last pass: enough accepted; otherwise all drafts of that pass too similar to what was rejected before it; otherwise the budget is used up |
| StableSort.SortIsStable | python/strategy_gpt/nodes.py:300-319 | the sort is descending, permutes its input and keeps the order of equal keys |
| StableSort.StableSortIsUnique | python/strategy_gpt/nodes.py:300-319 | these properties leave one possible result, so the library sort returns the same list |
| StableSort.ResortIsSortOnce | python/strategy_gpt/workflow.py:740-740 | sorting a sorted prefix with new elements behind it is sorting everything once |
| Workflow.IterateKeeps | python/strategy_gpt/workflow.py:303-756 | one iteration keeps the invariant, emits at most 3(k_repair+1) times and accepts at most one candidate |
| Workflow.FlagsAreEarlyExits | python/strategy_gpt/workflow.py:303-665 | the flag-passing nodes leave for `rank` what a chain of early exits decides: after the first reject no node changes it |
| Workflow.IterationDecides | python/strategy_gpt/workflow.py:303-756 | a candidate is accepted exactly when every check passes, with the name, lift, citations and net additions of what was generated; otherwise it is rejected with the kind and reason of the first failing check, and recorded only if its idea was parsed |
| Workflow.JudgedExactly | python/strategy_gpt/workflow.py:303-665 | the chain of checks, check by check: which idea, commitments, build, sweep, gate outcome and verdict a candidate passes with, and for every failure which check failed, with its kind and reason |
| Workflow.SweepsExactly | python/strategy_gpt/workflow.py:520-580 | an iteration completes a sweep and is charged for it exactly when its candidate gets that far, 64 backtests a fold still fit into the limit, and the sweep can be made |
| Workflow.RankKeeps | python/strategy_gpt/workflow.py:668-756 | `rank` records the candidate once, keeps the accepted list a stable sort of all acceptances, clears the slots |
| Workflow.InvAfter | python/strategy_gpt/workflow.py:802-858 | after any number of iterations: exact charge, budget never exceeded, history = accepted + rejected, every accepted entry carries an attempt and the accepting gate outcome computed from it |
| Workflow.ChargedAsEvaluated | python/strategy_gpt/workflow.py:527-532 | in every state the backtests charged are the evaluations of the completed sweeps, 64 Sobol proposals on every fold each, and never more than the limit |
| Workflow.AcceptedByMerit | python/strategy_gpt/workflow.py:668-756 | in every state no accepted candidate stands behind one that it dominates in lift, counted citations and net additions |
| Workflow.EveryReachedState | python/strategy_gpt/workflow.py:772-858 | in every state reached after `rank`: that invariant, iteration at most max(1, budget), acceptances at most max(1, target) |
| Workflow.AcceptedBeatBaseline | python/strategy_gpt/workflow.py:605-627 | every accepted candidate of every run beats the baseline mean strictly |
| Workflow.RunWorkflow | python/strategy_gpt/workflow.py:772-858 | the graph terminates for every configuration, in the first state in which the target is met or the iterations or the backtests are used up |
| Workflow.SelectDropsNothing | python/strategy_gpt/workflow.py:759-769 | `select` drops nothing exactly when the target is positive or nothing was accepted |
| Workflow.SelectKeeps | python/strategy_gpt/workflow.py:759-769 | `select` keeps the front of the accepted list: as much as the target, and with a negative target all but as many at the end |
| Workflow.ReportedReason | python/strategy_gpt/workflow.py:759-795 | the reported reason is right whether or not the edge's write to the state survives |
| Stage3.ParseStage3 | python/strategy_gpt/markdown_io.py:333-421 | the indexed line walk returns what the recursive parser says, with the same error at the same place |
| Stage3Grammar.ParsesExactly | python/strategy_gpt/markdown_io.py:328-435 | the meaning of every text: it is read exactly when its lines are files (heading, blank lines, fenced block), deletions and prose with no path twice, and then as these; otherwise the first heading that starts none gives the error |
| Stage3Grammar.NamesExactly | python/strategy_gpt/markdown_io.py:362-372 | which path a heading names, and whether it deletes it: what stands behind the sign between whitespace |
| Stage3Grammar.FencesExactly | python/strategy_gpt/markdown_io.py:323-325 | an opening fence is three backticks, a tag and whitespace; a closing one three backticks and whitespace |
| Stage3Grammar.StripExactly | python/strategy_gpt/markdown_io.py:362-372 | stripping leaves exactly what stands between whitespace |
| Stage3.SerializeStage3 | python/strategy_gpt/markdown_io.py:424-435 | the list-building serializer writes the blocks of all files in order, then the deletions |
| Stage3RoundTrip.ParseOfSerialized | python/strategy_gpt/markdown_io.py:333-435 | without bare closing fences the parser reads back every path and deletion and each body up to its final newline, whatever headings or opening fences the bodies contain |
| Stage3RoundTrip.RereadKeepsCanonical | python/strategy_gpt/markdown_io.py:395-435 | a body is read back unchanged exactly when it is empty or ends in one newline after a non-blank line |
| Stage3RoundTrip.ParsedIsLegal | python/strategy_gpt/markdown_io.py:333-421 | whatever the text, a parsed emission has valid paths, no deletion twice, something in it, and bodies whose only line breaks are newlines |
| Stage3RoundTrip.RoundTripsExactly | python/strategy_gpt/markdown_io.py:333-435 | every emission there is survives serialize and parse if and only if it is legal in that sense, and every body is canonical and has no bare closing fence |
| Stage3RoundTrip.FilesStay | python/strategy_gpt/markdown_io.py:333-421 | parsing on never changes or drops a file or a deletion already read |
| Stage2.SplitH1Sections | python/strategy_gpt/markdown_io.py:446-480 | the line loop computes the section map of the step function |
| Stage2.FencedLinesAreData | python/strategy_gpt/markdown_io.py:446-480 | lines in a fence only extend the open section, as long as nothing like a heading comes where they have closed the fence |
| Stage2.SectionSteps | python/strategy_gpt/markdown_io.py:446-480 | walking over one serialized section closes the previous one and takes the whole block as the new body |
| Stage2.LoadBlock | python/strategy_gpt/markdown_io.py:513-536 | the block reader returns the text of the fenced block, or the error of the first missing fence |
| Stage2Grammar.SectionsExactly | python/strategy_gpt/markdown_io.py:443-480 | the sections of every text: one for each title that a heading outside the fences has, holding the lines from the last such heading to the next heading, stripped |
| Stage2Grammar.BlockExactly | python/strategy_gpt/markdown_io.py:513-536 | what is read from a section: the lines between an opening first line and the first closing fence, or which of the three is missing |
| Stage2Grammar.TextsExactly | python/strategy_gpt/markdown_io.py:180-216 | what is handed to the YAML loader: both texts, or what is wrong with the first that cannot be read |
| Stage2.BlockTextExactly | python/strategy_gpt/markdown_io.py:513-536 | unwrapping a wrapped text gives it back exactly when none of its lines is a bare closing fence |
| Stage2RoundTrip.SectionsHaveHeadings | python/strategy_gpt/markdown_io.py:446-480 | every section of a text is the stripped lines from some unfenced heading of its title to the next unfenced heading |
| Stage2RoundTrip.BlockNeedsLines | python/strategy_gpt/markdown_io.py:513-536 | a block from which a text is read has an opening line, all lines of the text, and a closing one |
| Stage2RoundTrip.OnlyOnePlace | python/strategy_gpt/markdown_io.py:180-224 | two sections long enough for both texts can only be the two that the serializer wrote, whatever copies of headings and blocks the texts contain |
| Stage2RoundTrip.TextsRoundTripExactly | python/strategy_gpt/markdown_io.py:180-224 | both YAML texts come back verbatim if and only if no line of either is a bare closing fence, nothing like a heading comes where their own fence lines have left the fence, and the first has its fence lines in pairs |
| Toml.StrReads | python/strategy_gpt/author.py:1195-1197 | what `_toml_str` writes is read back exactly for values without control characters other than tab, whatever follows on the line |
| Toml.MultiReads | python/strategy_gpt/author.py:1200-1207 | what `_toml_multi` writes is read back exactly for values whose only control characters are newline and tab: runs of quotes of any length, trailing quotes and backslashes included |
| Toml.LiteralReads | python/strategy_gpt/author.py:1210-1217 | the same for `_toml_literal`, with its fallback when three ticks occur |
| Toml.MultiBodyReads | python/strategy_gpt/author.py:1206-1207 | the escaped body followed by the delimiter is read as the value, up to two trailing quotes taken from the delimiter's run |
| Toml.LiteralBodyReads | python/strategy_gpt/author.py:1217-1217 | the verbatim body followed by the delimiter is read as the value |
| SourceBundle.CanonicalFilesSetHash | python/strategy_gpt/per_strategy_ledger.py:262-275 | the hasher loop digests the canonical text of the bundle |
| SourceBundle.CanonicalDetermines | python/strategy_gpt/per_strategy_ledger.py:262-275 | two NUL-free bundles are hashed over the same text exactly when they are equal |
| SourceBundle.SharedExactly | python/strategy_gpt/per_strategy_ledger.py:262-275 | for every bundle, whatever its contents: a different one is hashed over the same text exactly when it has two files or more, or one in whose content something like a later path stands between NULs |
| SourceBundle.SourceStore.WriteSourceSet | python/strategy_gpt/per_strategy_ledger.py:341-359 | writing keeps an existing directory, otherwise stores exactly the bundle, and every directory keeps hashing to its name |
| SourceBundle.SourceStore.ReadSourceSet | python/strategy_gpt/per_strategy_ledger.py:361-371 | reading returns the stored bundle with universal newlines, or nothing for an unknown digest |
| SourceBundle.UniversalExactly | python/strategy_gpt/per_strategy_ledger.py:361-371 | universal newlines leave a text alone exactly when it has no carriage return |
| SourceBundle.UniversalAt | python/strategy_gpt/per_strategy_ledger.py:361-371 | each carriage return, with the newline behind it if there is one, is read as one newline |
| SourceBundle.EveryBundleKept | python/strategy_gpt/per_strategy_ledger.py:341-359 | after any sequence of NUL-free writes every bundle stands unchanged under its own digest |
| SourceBundle.ReadBack | python/strategy_gpt/per_strategy_ledger.py:341-371 | reading back any bundle of such a run gives it exactly when it has no carriage return |
| BuildKey.LintManifest | crates/build-pipeline/src/linter.rs:94-115 | no violation exactly when all names of the three lists are distinct and allowed; each violation names a repeated or a forbidden dependency, and every such name is reported |
| BuildKey.CanonicalManifestBytes | crates/build-pipeline/src/artifact_cache.rs:126-158 | the sorted, tagged dependency lines pushed to a string are the canonical manifest |
| BuildKey.SortForgetsOrder | crates/build-pipeline/src/artifact_cache.rs:126-143 | when no name has two requirements, two lists sort alike exactly when one reorders the other |
| BuildKey.SortKeepsOrderUnderNames | crates/build-pipeline/src/artifact_cache.rs:126-143 | two lists sort alike exactly when they have, under every name, the same requirements in the same order |
| BuildKey.OrderForgottenExactly | crates/build-pipeline/src/artifact_cache.rs:126-143 | all reorderings of a list sort alike if and only if no name stands in it with two requirements |
| BuildKey.ReorderingKeepsKey | crates/build-pipeline/src/artifact_cache.rs:31-48 | "same inputs = same key": reordering dependencies of different names, or any when no name has two requirements, leaves the key text alone |
| BuildKey.PreimageLines | crates/build-pipeline/src/artifact_cache.rs:31-48 | the key text, line by line: source, name, version, dependencies, a blank line, runner version, schema |
| RunnerVersion.DisplayDetermines | crates/engine-rt/src/version.rs:10-35 | two runner versions with the same text are the same |
| BuildKey.KeyDetermines | crates/build-pipeline/src/artifact_cache.rs:1-48 | "different inputs = new key" for plain requests: two share a key text exactly when they agree in every field, up to the order of dependencies of different names, and up to any order when no name has two requirements |
| BuildKey.UnmarkedIsUncut | crates/build-pipeline/src/artifact_cache.rs:31-48 | a plain manifest makes a plain request when no line of source, name or version starts with `params_schema:` |
| KeyRivals.RivalExactly | crates/build-pipeline/src/artifact_cache.rs:31-48 | any request whatever shares its key text with a different one if and only if there are more than three lines in front of its runner version, or its lines can be cut elsewhere: a blank line, a version, and the end or a `params_schema:` line |
| KeyRivals.SingleLineRivalExactly | crates/build-pipeline/src/artifact_cache.rs:31-48 | any request whatever shares its key text with a different one of single-line fields if and only if it has a field of several lines, or a dependency, or another cut, or two lines of source and a version that reads like a dependency |
| KeyRivals.EqualsConfuses | crates/build-pipeline/src/artifact_cache.rs:126-158 | any request whose least-named dependency has an equals sign in its name shares its key text with the request that splits that dependency there |
| BuildCache.BuildDriver.LookupArtifact | crates/build-pipeline/src/artifact_cache.rs:90-101 | a hit needs a record under the key, with that key in it, whose library exists |
| BuildCache.BuildDriver.Store | crates/build-pipeline/src/artifact_cache.rs:103-123 | storing writes one record and nothing else |
| BuildCache.BuildDriver.RunCargo | crates/build-pipeline/src/driver.rs:189-205 | a cargo invocation is logged, and on success leaves the library in the key's own project directory |
| BuildCache.BuildDriver.BuildImpl | crates/build-pipeline/src/driver.rs:264-315 | schema, source lint, manifest lint, lookup, compile, store, schema file, in this order; the new disk and the result are those of the step function |
| BuildCache.RefusesExactly | crates/build-pipeline/src/driver.rs:264-286 | a build is refused exactly for the first of schema, source and manifest that is out of order, whatever is cached, and leaves the disk alone |
| BuildCache.HitsExactly | crates/build-pipeline/src/driver.rs:287-315 | input in order is a hit exactly when a record with its key has its library; otherwise it is compiled, and a success leaves the compiled library in the key's own project |
| BuildCache.LibraryNamed | crates/build-pipeline/src/driver.rs:189-205 | the library file is `lib`, the crate name with underscores for dashes, `.so` |
| BuildCache.BuildKeeps | crates/build-pipeline/src/driver.rs:264-315 | one build keeps the cache invariant and neither changes nor removes anything on disk |
| BuildCache.NothingOverwritten | crates/build-pipeline/src/driver.rs:264-315 | over any sequence of builds no library, artifact record or schema is ever changed or removed |
| BuildCache.CargoRuns | crates/build-pipeline/src/driver.rs:264-315 | cargo only runs on a clean source, a manifest of distinct allowed dependencies and a schema that parses or is absent, and never again for a key after it succeeded |
| BuildCache.CacheServesMaker | crates/build-pipeline/src/driver.rs:264-315 | after any sequence of builds, whatever the tools: a refused request gets its error, any other the artifact, library and schema of the first clean request of the same key that compiles, and it is a hit exactly when that one came earlier |
| BuildCache.RivalIsServed | crates/build-pipeline/src/driver.rs:287-298 | a request that shares its key text with one built before is served the library of that one |
| BuildCache.SameKeySameRequest | crates/build-pipeline/src/artifact_cache.rs:31-48 | for a collision-free hash, lint-clean plain requests have one key exactly when they are the same up to dependency order |
| BuildCache.CacheIsTransparent | crates/build-pipeline/src/driver.rs:264-315 | after any sequence of plain requests, a build succeeds exactly when its request is clean and compiles, and then returns what compiling this very request gives, with the schema it declares on record |
| DecisionLog.DecisionRecord.Open | python/strategy_gpt/author_decisions.py:133-141 | opening reads back exactly the events on disk |
| DecisionLog.DecisionRecord.Append | python/strategy_gpt/author_decisions.py:149-160 | an event is appended in memory and on disk alike, or refused for an unknown field with nothing changed |
| DecisionLog.DecisionRecord.Project | python/strategy_gpt/author_decisions.py:166-181 | the loop projects the events to the last-write-wins map |
| DecisionLog.IngestDecisions | python/strategy_gpt/author.py:371-426 | ingesting a response moves record, pending decisions and disk as the step function says, and keeps memory and disk in step |
| DecisionLog.LandsInOrder | python/strategy_gpt/author.py:371-409 | when the crate name lands, the log gets the start of the dialog and then a lock for every waiting decision, in the fixed order of the seven fields |
| DecisionLog.DiffProjects | python/strategy_gpt/author.py:410-426 | appending only the differences brings the projection to the overlaid map |
| DecisionLog.LogRefinesMap | python/strategy_gpt/author.py:371-426 | for any sequence of blocks: until a crate name lands all decisions wait and the disk is untouched; afterwards the log under the first crate name projects to its old projection overlaid with every block, on whichever turn the name landed |
| DecisionLog.UnchangedExactly | python/strategy_gpt/author.py:410-426 | ingesting into an open record appends nothing exactly when the record already says all of it |
| DecisionLog.ReingestAppendsNothing | python/strategy_gpt/author.py:371-426 | ingesting the block of the previous turn again appends nothing, also right after the record was opened |
| DecisionLog.DialogHonest | python/strategy_gpt/author.py:410-426 | every amendment's old value is the projection of the log before it, and differs from the new one |
| Normalizer.NormalizeBars | crates/data-gateway/src/normalizer.rs:10-40 | check, sort, dedup and retain compute the normalized list, or the first error |
| Normalizer.RefusesExactly | crates/data-gateway/src/normalizer.rs:10-34 | an empty range is refused, otherwise exactly a list with an invalid bar, naming the first one and what is wrong with it |
| Normalizer.NormalizeExactly | crates/data-gateway/src/normalizer.rs:35-39 | the result is strictly ascending and holds exactly the first input bar of every timestamp in range |
| Normalizer.FixedExactly | crates/data-gateway/src/normalizer.rs:10-40 | normalizing changes nothing exactly when the list is strictly ascending, in range, and every bar is finite with its high not below its low |
| Normalizer.NormalizeIdempotent | crates/data-gateway/src/normalizer.rs:10-40 | normalizing twice is normalizing once |
| Consolidator.IndexByTime | crates/data-gateway/src/consolidator.rs:93-106 | the nested loops index every quote under its timestamp, keys ascending |
| Consolidator.PickByPrecedence | crates/data-gateway/src/consolidator.rs:198-208 | the loop over the precedence list returns the picked quote's bar |
| Consolidator.MergeAt | crates/data-gateway/src/consolidator.rs:112-188 | one turn of the main loop: the chosen bar and its warnings, or the refused disagreement |
| Consolidator.MergeProviders | crates/data-gateway/src/consolidator.rs:75-196 | the merge over all timestamps, with the zero- and one-provider cases |
| Consolidator.FewPass | crates/data-gateway/src/consolidator.rs:75-92 | one provider's bars pass as they are, and none give none |
| Consolidator.PickIsHighestPresent | crates/data-gateway/src/consolidator.rs:198-208 | the pick is the first quote of the highest-ranked provider present, else the first quote of all |
| Consolidator.MedianIsUpper | crates/data-gateway/src/consolidator.rs:172-186 | the median pick is an upper median by close: at most half lie below it, more than half do not lie above it |
| Consolidator.MedianExactly | crates/data-gateway/src/consolidator.rs:172-186 | and it is one quote: half of the quotes, rounded down, have a lower close, or the same and an earlier provider |
| Consolidator.ChosenExactly | crates/data-gateway/src/consolidator.rs:170-208 | which bar a timestamp gets: the median quote's under that policy with two quotes or more, otherwise the first quote of the highest-ranked provider present, or the first of all |
| Consolidator.DivergesExactly | crates/data-gateway/src/consolidator.rs:211-222 | for every tolerance, the fold over minimum and maximum holds exactly when there are two values and some are further apart than the tolerance, relative to the lower one or absolutely when some value is not positive |
| Consolidator.JudgedExactly | crates/data-gateway/src/consolidator.rs:112-168 | at one timestamp a warning of each kind exactly when it is due, and a refusal exactly under `Fail` with diverging closes |
| Consolidator.RecordsDescribe | crates/data-gateway/src/consolidator.rs:112-168 | every warning, and the refused disagreement, names its timestamp, symbol, severity and the readings of exactly the providers present |
| Consolidator.MergeExactly | crates/data-gateway/src/consolidator.rs:75-196 | for two or more providers: an error exactly when `Fail` meets diverging closes; otherwise one bar per timestamp in strict order, chosen among the quotes there, and one warning of each kind exactly at the timestamps where it is due |
| Consolidator.MergeCoversProviders | crates/data-gateway/src/consolidator.rs:75-196 | the merged timestamps are those of all providers together, and every merged bar is some provider's |
| Consolidator.OneQuotePerProvider | crates/data-gateway/src/consolidator.rs:70-106 | after normalization a provider has at most one quote per timestamp |
| Consolidator.MergedIsNormal | crates/data-gateway/src/consolidator.rs:75-196 | merging normalized providers gives a normalized list |
| Drawdown.WalkEpisodes | python/strategy_gpt/diagnose.py:345-383 | the walk with its five variables reports exactly the episodes of the runs |
| Drawdown.DrawdownTrajectory | python/strategy_gpt/diagnose.py:335-399 | the whole summary, or none for an empty curve |
| Drawdown.SummarizesRuns | python/strategy_gpt/diagnose.py:335-399 | the summary counts the runs of the curve and takes its extremes and deepest episodes from theirs |
| Drawdown.SpansAreMaximalRuns | python/strategy_gpt/diagnose.py:345-383 | the episodes are the maximal runs of negative drawdown, in order, covering every negative point |
| Drawdown.MaximalRunsUnique | python/strategy_gpt/diagnose.py:345-383 | there is only one such segmentation |
| Drawdown.Trough | python/strategy_gpt/diagnose.py:363-370 | the trough is the first index at which the run's lowest drawdown is reached |
| Drawdown.DurationsConserved | python/strategy_gpt/diagnose.py:345-383 | the durations add up to the number of negative points |
| Drawdown.OnlyLastUnrecovered | python/strategy_gpt/diagnose.py:372-383 | an episode is unrecovered exactly when it is the last one and the curve ends below zero |
| Drawdown.MaxDepthExactly | python/strategy_gpt/diagnose.py:384-384 | the maximum depth is the least of zero and all drawdowns |
| Drawdown.ShapeExactly | python/strategy_gpt/diagnose.py:328-391 | the shape names the first band that no drawdown exceeds |
| Drawdown.LongestIsMost | python/strategy_gpt/diagnose.py:385-385 | the longest duration is the largest of all, or zero |
| Drawdown.TopAreDeepest | python/strategy_gpt/diagnose.py:392-392 | the reported episodes are the three deepest, deepest first |
| CrossValidation.SubmitAndCollect | python/strategy_gpt/optimization_runner.py:272-329 | the collecting loop returns one entry per run, from the last result with its index, or the failure of the batch |
| CrossValidation.AnyCompletionOrder | python/strategy_gpt/optimization_runner.py:306-329 | with distinct run indices the order in which results come back does not matter |
| CrossValidation.EntryBelongs | python/strategy_gpt/optimization_runner.py:306-329 | a run's entry is made of its own result, and a run without one has failed with `missing_result` |
| CrossValidation.EntryCarries | python/strategy_gpt/optimization_runner.py:306-329 | an entry carries the metrics of a success, or the kind and message of a failure |
| CrossValidation.EndedFailsAll | python/strategy_gpt/optimization_runner.py:290-305 | a batch that ends otherwise fails every run of it, with its error or its status |
| CrossValidation.FailuresEvaluated | python/strategy_gpt/optimization_runner.py:739-750 | a failed run counts as not accepted, with minus infinity and one violation that carries its error |
| CrossValidation.PackRuns | python/strategy_gpt/optimization_runner.py:806-811 | the nested loops pack every winner on every fold |
| CrossValidation.PlanAt | python/strategy_gpt/optimization_runner.py:806-811 | run w * folds + f is winner w on fold f |
| CrossValidation.CrossValidate | python/strategy_gpt/optimization_runner.py:788-894 | rows and outcomes of the two loops over plan and winners; `CrossRun`, `CrossOutcome` and `FinalChoice.CrossScoreInSums` say what these are |
| CrossValidation.CrossRun | python/strategy_gpt/optimization_runner.py:806-862 | that run carries winner w's parameters and fold f's slice, and its row records its own result |
| CrossValidation.OwnEntriesAreOwn | python/strategy_gpt/optimization_runner.py:826-858 | each winner gets, fold by fold, the entries of its own runs |
| CrossValidation.CrossOutcome | python/strategy_gpt/optimization_runner.py:863-894 | a winner is accepted exactly when there is a fold and every fold ran and was accepted |
| CrossValidation.ReasonsInOrder | python/strategy_gpt/optimization_runner.py:839-858 | why a run was rejected: its own error, else violations, else soft misses |
| CrossValidation.ViolationsOfRejectedFolds | python/strategy_gpt/optimization_runner.py:863-894 | what counts against a winner are the violations of the folds that rejected it, under their fold numbers |
| CrossValidation.OutcomeReason | python/strategy_gpt/optimization_runner.py:863-894 | a rejected winner's reason names those violations, or that there are none |
| FinalChoice.CrossScoreInSums | python/strategy_gpt/optimization_runner.py:863-894 | a winner whose folds all scored: its score times the folds is the sum of its fold scores, its variance times the folds the sum of their squared distances from the score; any other scores minus infinity |
| CrossValidation.ReplayRebuildsRun | python/strategy_gpt/optimization_ledger.py:555-575 | replaying any recorded `final_cross_` row rebuilds the very run that was submitted: parameters, modes, seed and slice |
| CrossValidation.SelectFinalExactly | python/strategy_gpt/optimization_runner.py:897-906 | the final choice is accepted, within the tie margin of the best score and of least variance among those; the code fails exactly when all accepted candidates score minus infinity |
| FinalChoice.ChoiceExactly | python/strategy_gpt/optimization_runner.py:897-906 | the final choice of any list: the first of least variance among the accepted candidates whose score no other accepted one exceeds by more than 0.000001; there is one exactly when somebody is accepted with a finite score |
| FinalChoice.FinalChoiceInSums | python/strategy_gpt/optimization_runner.py:788-906 | the same of cross-validation, in the fold scores alone: by sums of fold scores within the margin, then by least squared deviation, then by order |
| CrossValidation.FinalChoiceFailsExactly | python/strategy_gpt/optimization_runner.py:788-906 | on what cross-validation hands it, the final choice fails exactly when some winner passed every fold and each that did has a fold whose accepted score is minus infinity |
| CrossValidation.AcceptedAtMinusInfinity | python/strategy_gpt/optimization_runner.py:788-906 | and it does fail: whenever one winner's runs all succeed under an objective that accepts at minus infinity |
| PriorDecisions.Ledger.PersistCandidate | python/strategy_gpt/hypothesize.py:228-353 | one hypothesis row and one decision row, with the kind, stage and evidence of the candidate |
| PriorDecisions.PersistedAsItIs | python/strategy_gpt/hypothesize.py:228-353 | what is written of a candidate: its idea, kind, rationale, stage and evidence with the digest of its files, and the kind of reject in the evidence when there is one |
| PriorDecisions.SeenAsPersisted | python/strategy_gpt/hypothesize.py:131-186 | and what a later run sees of it is just that |
| PriorDecisions.Ledger.PersistRun | python/strategy_gpt/hypothesize.py:460-494 | the two persist loops write accepted, then rejected candidates |
| PriorDecisions.Ledger.ProjectPriorDecisions | python/strategy_gpt/hypothesize.py:131-186 | the projection loop with its two skips |
| PriorDecisions.RunsPersistInOrder | python/strategy_gpt/hypothesize.py:460-494 | over many runs only the candidates of all runs together matter |
| PriorDecisions.PriorsExactly | python/strategy_gpt/hypothesize.py:131-186 | the prior decisions are exactly the candidates among the `limit` most recent that were not mechanically rejected, each with its own kind, rationale, evidence and hypothesis |
| PriorDecisions.ListedExactly | python/strategy_gpt/hypothesize.py:131-186 | over any sequence of runs no decision is listed twice, a mechanical rejection never, and any other exactly when it is among the `limit` most recent |
| PriorDecisions.DeferredUseTheLimit | python/strategy_gpt/per_strategy_ledger.py:506-519 | deferred decisions count against the limit: enough newer mechanical failures hide every older decision |

## Left out

- Language-model clients, prompts, the command line, dialog input, progress reporting: text plumbing around the modelled functions.
- YAML, JSON, parquet and SQLite, stage-1 parsing and the validation of YAML payloads: foreign formats and field checks.
- The `syn` source lint, the cargo process, and the contents of the generated Cargo project: an arbitrary predicate and an arbitrary compiler function stand for them.
- Floating-point rounding and NaN: prices and scores are real numbers; whether a bar's open and close are finite is a flag of the bar.
- The other searchers (grid, random, Sobol points themselves, TPE, CMA-ES, differential evolution, Latin hypercube, successive halving): library numerics, or simple enumeration.
- `_build_search_space`, `_classify_falsification`, `_evaluate_guard` and side-effect flags of `tester.py`: field-by-field case distinctions.
- Fold derivation, walk-forward slices, PBO, DSR and the selection layer: arithmetic over formulas outside the modelled files.
- Log-scaled parameters and `_project_unit`: the recursive grid does not use them.
- `OptimizationLedger` buffering, `baseline_best`, `_aggregate_mean` of metrics other than scores, `_reconcile_final_with_selection`: appends, one lookup and formatting.
- The holding-period histogram, signal misfires and trade statistics of `diagnose.py`: counting loops.
- Crashes in the middle of a write, outside deletions, file-system path rules (`..`, a path that is both file and directory): file names are plain and distinct.
- `_intent_to_toml` as a document, the `\u` escapes and the single-quoted form of TOML: the string writers never emit them; the round trips hold in front of any text that does not start with a quote.
- Python's equality between different JSON types (`1 == True == 1.0`) in the decision log: values are equal when their JSON text is.
- Workflow.RunWorkflow: does not model the `diagnose`, knowledge-base and filter nodes in front of the cycle; their results are part of the clients.
- BuildKey.KeyDetermines: speaks of plain requests only, because "different inputs = new key" is false beyond them; `KeyRivals.RivalExactly` and `KeyRivals.SingleLineRivalExactly` say for every request whether it shares its key text with another.
- BuildCache.CacheIsTransparent: speaks of plain requests only, for the same reason; `BuildCache.CacheServesMaker` says for all requests whose library is served.
- DecisionLog.IngestDecisions: does not model timestamps or the extraction of the block from the reply.
- PriorDecisions.Ledger.PersistCandidate: does not model response blobs and source files; the idea stands for the stored hypothesis row.
- Stage2RoundTrip.TextsRoundTripExactly: does not speak of empty texts or of line breaks other than newline, because YAML dumps are never empty and escape those breaks.
- CrossValidation.SubmitAndCollect: does not model polling and wall-clock seconds.
