# Rig execution, viewport, picker and migration: a verified model

This project models the parts of the rig repository whose correctness is an
argument rather than a picture, and proves that argument for all inputs.

- **Baked cluster schedules** (`WordLanes`, `Popcount`, `ClusterSets`, `TopologicalOrder`,
  `Cones`, `BakedRuns`, `ScheduleRuns`, `ConeRuns`, `RepeatedFrames`, `StepGraph`,
  `StepClusters`, `BuildRules`, `BuiltPrograms`): the 64-bit-word cluster bitset and its
  population count, the topological order, the cones closed by unions, every
  interleaving of a clustered schedule whose conflicting steps are ordered,
  re-running a cone instead of a whole frame, and the checks of a build that
  establish what these results ask of a schedule.
- **The op graph compiler** (`Descriptors`, `StrongComponents`, `CanonicalOrder`,
  `GraphCompiler`, `OpGraph`, `Lowering`, `ClusterValidation`): from descriptors to
  a graph in canonical order without the operations on cycles, packing
  operations into clusters, and the check of a packing.
- **The op graph executor** (`Executor`, `ExecutorSafety`, `ExecutorResults`,
  `CompletionOrder`, `CandidateWave`, `Propagation`, `SerialExecutor`): the readiness
  and change-propagation executor as a state machine over what its tasks do, with a
  test for failure, a test for need and a body that other tasks can come between.
- **The test selector** (`CMakeText`, `CommentPieces`, `ArgumentCuts`, `LinkLines`,
  `Selector`, `SelectionRules`): comment stripping, argument splitting, link
  visibilities, and selection as reachability.
- **Viewport geometry** (`Reals`, `Framing`, `Clipping`, `Dashes`, `Chips`): the
  framing camera, Liang-Barsky clipping, dashes and label placement, over real
  arithmetic.
- **The control surface** (`Retarget`, `LeastSquares`, `PickerLayout`,
  `PanelPlacement`): drivers of joints, retargeting, the panel fit and the search for a free button spot.
- **Rest migration** (`RestMigration`, `PlanarMotions`): rebasing absolute rests
  onto parents in place, over any group of rigid motions, and a planar group
  with mirroring that meets the laws.
- **The camera splice** (`CameraSplice`, `StageText`): finding the camera block of a stage
  text and replacing or adding it.

`FiniteSets`, `Digraphs`, `Maps` and `Options` hold the vocabulary the others
share. `dafny verify dfyconfig.toml` checks everything.

Code that updates objects or variables in loops is modelled by classes and
methods, each proved against a specification; what is promised about the
specification is proved beside it. A run of concurrent tasks is a sequence of
states, one enabled action apart, and results about runs hold of every such
sequence.

## Findings

Where a promise of the code or its documentation does not hold for all inputs,
the project shows an input and proves exactly when it does hold.

- **A label can be drawn on an obstacle although there is room**
  (docs/render_media.py:2158-2169). `Chips.ClashCanRemain`: the chip of a driver
  that is out of view, in its fixed corner slot, is pushed from one of two rings
  to the other, and its box ends on the lower one.
  `Chips.LandsClearIffSomePlaceIs`: a chip lands clear if and only if its first
  place or one the pushes lead to is clear, the last included, which is not
  looked at. `Chips.OneObstacleIsExact` is the exact condition on a single
  obstacle. `Chips.GuaranteeIsExact`: with `n` obstacles that all end by `limit`
  every chip lands clear if and only if `n` is zero, or `limit` is at most 41, or
  `n` is at most twelve and `limit` at most 316. By
  `Chips.TwelveAttemptsAreEnough` a chip that does not land clear of at most twelve
  obstacles would not with any number of attempts.
- **Clipping loses a segment that creeps across an edge**
  (docs/render_media.py:1736-1739). `Clipping.CreepingSegmentIsLost` is one.
  `Clipping.ExactIffSteadyAcross` and `Clipping.ExactIffSteadyDown`: a coordinate
  is clipped exactly with every steady companion if and only if it is steady:
  it moves by at least the tolerance, or not at all, or stays on one side of
  each edge.
- **The search for a free button spot can return an occupied one**
  (tools/rigexec_control_surface.py:215-222). `PickerLayout.TallBoxDefeatsSearch`:
  one tall box does it. `PickerLayout.FreeIffSomeAttemptIs`: the spot is free if
  and only if one of the forty attempts or the untried spot after them is.
  `PickerLayout.GuaranteeIsExact`: `n` boxes that reach over `m` attempts each
  always leave it free if and only if `n * m` is at most forty; boxes up to one
  and a half buttons tall reach over two, so twenty of them do and twenty-one
  need not.
- **The framing camera can clip what it frames** (docs/render_media.py:1446-1447).
  `Framing.SinglePointIsClipped`: a single point is in front of the near plane.
  `Framing.NothingIsClipped`: everything is rendered if and only if the fitted
  distance is at least 0.001 and the cloud is no deeper than 99 times it.
- **"PUBLIC wins" is true of one command only**
  (tools/select_affected_tests.py:255-262). `LinkLines.LaterCommandOverridesPublic`
  is a later command that wins instead; `LinkLines.PublicWinsInLastCommandOnly`:
  a name ends PUBLIC if and only if the last command that mentions it says so.
- **A migration can move a provider whose rest is kept in scalars**
  (tools/migrateRestToLocal.py:162-171). `PlanarMotions.MirroredParentMovesChild`:
  a child under a mirrored parent. `RestMigration.MigrationPreservesIffSpellable`:
  every frame is preserved if and only if every local rest that has to go into
  scalars can be spelled by them.
- **A second migration is only harmless where the stamp has somewhere to go**
  (tools/migrateRestToLocal.py:133-145). `RestMigration.StampIsOnRigRoot` says
  where that is. `PlanarMotions.SecondMigrationMovesChild`: a child under a shifted
  parent, without a rig root, is kept by the first migration and moved by the
  second. `RestMigration.SecondMigrationWithoutRoot`: a second migration keeps the
  frames if and only if it leaves every rest as it is, which it does if, and
  where scalars can spell the rests only if, every parent rested at the identity.
- **A stage whose last brace stands behind a camera's head is spoiled by adding
  a camera** (docs/fit_cameras.py:123-130). `CameraSplice.HeadBeforeClosingBrace`
  is such a text; `CameraSplice.LastAdditionWins`: injecting twice equals
  injecting the second block if and only if the brace is not there.

The topological order also leaves out clusters that are merely downstream of a
cycle (libs/rigExec/bakedSchedule.cpp:1845-1847 speaks of the cycle only);
`TopologicalOrder.ClusterTopologicalOrder` says so exactly.

## Model

| member | source | states |
|---|---|---|
| Popcount.PopulationCount | libs/rigExec/bakedClusters.h:88-101 | for every word, the shift, mask and multiply fallback gives the number of set lanes |
| ClusterSets.ClusterSet.Resize | libs/rigExec/bakedClusters.h:112-114 | enough words for the count, and the empty set |
| ClusterSets.ClusterSet.Clear | libs/rigExec/bakedClusters.h:115 | the empty set at the same width |
| ClusterSets.ClusterSet.Test | libs/rigExec/bakedClusters.h:116-119 | true exactly of members; negative indices are none |
| ClusterSets.ClusterSet.Set | libs/rigExec/bakedClusters.h:120-125 | adds exactly that member, or nothing for a negative index |
| ClusterSets.ClusterSet.SetAll | libs/rigExec/bakedClusters.h:126-131 | exactly the clusters below the count, no stray high bit |
| ClusterSets.ClusterSet.Union | libs/rigExec/bakedClusters.h:132-149 | the set union for any widths and for the set itself, never narrower, and true exactly when the set grew |
| ClusterSets.ClusterSet.Any | libs/rigExec/bakedClusters.h:150-155 | true exactly when the set is not empty |
| ClusterSets.ClusterSet.Count | libs/rigExec/bakedClusters.h:156-162 | the cardinality of the set |
| ClusterSets.GrowthsAreBounded | libs/rigExec/bakedClusters.h:132-149 | in any chain of unions of sets below n, at most n report growth, and the final size accounts for each |
| TopologicalOrder.ClusterTopologicalOrder | libs/rigExec/bakedSchedule.cpp:1822-1849 | distinct clusters, each after all its predecessors, leaving out exactly those on a cycle or downstream of one |
| TopologicalOrder.CompleteIffAcyclic | libs/rigExec/bakedSchedule.cpp:1845-1847 | the order names every cluster if and only if the cluster graph is acyclic |
| Cones.BuildCones | libs/rigExec/bakedSchedule.cpp:2100-2108 | after the backward pass of unions each bitset is exactly what its cluster reaches among the ordered clusters, and so all it reaches when the order is complete |
| BakedRuns.StepLands | libs/rigExec/bakedTrace.h:46-64 | with conflicting steps ordered, a step run once its predecessors are done brings its slots to their program-order values and disturbs no other |
| ScheduleRuns.NextKeeps | libs/rigExec/bakedClusters.h:19-29 | every action of every interleaving keeps the schedule's invariant |
| ScheduleRuns.QuiescentIsFinished | libs/rigExec/bakedClusters.h:57-61 | no deadlock: where nothing can move every step has been done |
| ScheduleRuns.RunsAgree | libs/rigExec/bakedClusters.h:19-27 | any interleaving at rest has run each step of the clusters to run exactly once, after its predecessors, and left the slots of program order |
| ScheduleRuns.FullRunsAgree | libs/rigExec/bakedClusters.h:50-74 | serial, parallel and any other run of the whole schedule leave the same slots, from whatever slots they start |
| ScheduleRuns.RunsAreBounded | libs/rigExec/bakedClusters.h:57-61 | each action uses up one unit of a fixed amount of work, so every run ends |
| ConeRuns.DirtyClusters | libs/rigExec/outputAffectedIndex.cpp:66-79 | the union of the cones of the steps' clusters is exactly what those reach, at full width; steps and clusters out of range are passed over |
| ConeRuns.DirtyIsClosed | libs/rigExec/bakedClusters.h:103-108 | the dirty clusters hold the seeds and whatever follows one of them |
| ConeRuns.DirtyIsLeast | libs/rigExec/bakedClusters.h:103-108 | nothing smaller does |
| ConeRuns.ConeIsStartable | libs/rigExec/bakedClusters.h:103-108 | with single-writer slots read after they are written, the clean clusters' slots are up to date |
| ConeRuns.ConeAgreesWithFullRun | libs/rigExec/bakedClusters.h:103-108 | a run of the cone and a run of everything, however each interleaves, leave the same slots |
| ConeRuns.RerunCone | libs/rigExec/bakedClusters.h:70-74 | running the dirty clusters in topological order on one thread leaves the full run's slots |
| ConeRuns.Reevaluate | libs/rigExec/bakedClusters.h:70-74 | order, cones, union of the listed steps' and rerun, end to end: the slots of a full run whenever the readers of changed inputs share clusters with listed steps |
| RepeatedFrames.RepeatKeepsSlots | libs/rigExec/bakedSchedule.h:33-45 | a frame repeated with nothing changed keeps every slot if readers follow their writers, as a build requires |
| RepeatedFrames.RepeatKeepsSlotsIffReadersFollow | libs/rigExec/bakedSchedule.cpp:831-920 | and only if, over all effects and slots of a single-writer schedule: what the build's producer check enforces is exactly what a repeated frame needs |
| StepGraph.ValidateStepEdges | libs/rigExec/bakedSchedule.cpp:675-738 | accepts exactly the step graphs whose lists are sorted, point backward and forward and are each other's inverse |
| StepGraph.ValidateSlotProducers | libs/rigExec/bakedSchedule.cpp:831-920 | accepts exactly the step graphs that name admitted slots only and in which every slot read outside the source domains has an earlier first writer among the reader's predecessors |
| BuildRules.ProducersMeaning | libs/rigExec/bakedSchedule.cpp:831-920 | with its edges in order a step graph passes exactly if the retired domain is named nowhere, the admission domain is read as its one slot and never written, and every slot read has its first writer earlier and among the reader's predecessors, or no writer and a seed |
| StepClusters.ValidateClusters | libs/rigExec/bakedSchedule.cpp:1276-1375 | accepts exactly the partitions in program order whose edges cover the step edges and whose order names every cluster once, after its predecessors |
| BuildRules.ClusteringMeaning | libs/rigExec/bakedSchedule.cpp:1276-1375 | a clustering passes exactly if it partitions the steps, its edges match each other and cover the steps', and its order lists every cluster once, after its predecessors |
| BuiltPrograms.ValidateStepGraph | libs/rigExec/bakedSchedule.cpp:1770-1802 | accepts exactly what passes these three checks |
| BuiltPrograms.ReaderHasEdge | libs/rigExec/bakedSchedule.h:33-45 | in an accepted program with one writer to a slot every reader of a written slot comes after the writer and names it as a predecessor |
| BuiltPrograms.AcceptedIsOrderly | libs/rigExec/bakedSchedule.h:33-45 | acceptance, with one writer to a slot and none to the prologue's, establishes everything the schedule and cone results ask: ordered conflicts, readers after writers, a partition with covering acyclic edges, a complete order |
| BuiltPrograms.ReevaluateBuilt | libs/rigExec/bakedClusters.h:70-74 | an accepted program re-evaluated by cones has the slots of a full run |
| StrongComponents.Components | libs/rigExecGraph/opGraph.cpp:20-57 | the components that hold a cycle, each whole; their members are exactly the vertices on cycles |
| CanonicalOrder.LessIsLexicographic | libs/rigExecGraph/opGraph.cpp:219-220 | one key comes before another exactly if it ends where the other goes on, or has the smaller character where they first differ |
| CanonicalOrder.OrderCanonically | libs/rigExecGraph/opGraph.cpp:219-229 | of the kept operations whose predecessors are placed always the least key next, until none is left; left out are exactly those on or behind a cycle |
| CanonicalOrder.StuckIffExcluded | libs/rigExecGraph/opGraph.h:63-64 | with the cycles' members set aside nothing behind a cycle is lost |
| GraphCompiler.IndexProducers | libs/rigExecGraph/opGraph.cpp:112-126 | refuses exactly empty or repeated keys, values with two producers and written leaves; otherwise names each value's producer |
| GraphCompiler.Connect | libs/rigExecGraph/opGraph.cpp:127-140 | refuses exactly predecessors out of range and reads without a source; otherwise the dependences as sorted inverse lists |
| GraphCompiler.CompileOpGraph | libs/rigExecGraph/opGraph.cpp:104-252 | refuses exactly too many operations, empty and repeated keys, shared values, written leaves, predecessors out of range, unsupplied reads, and loops where they are rejected; the compiled graph holds exactly the operations on no loop in key order, with their dependences, readers and volatile operations by place |
| Descriptors.CompiledIsRunnable | libs/rigExecGraph/opGraph.cpp:230-251 | what compiles has forward edges, single producers, acyclic clusters and complete reader lists, and no operation writes a leaf: all the executor asks |
| Descriptors.EdgesAreDependences | libs/rigExecGraph/opGraph.cpp:232-248 | compiled operations are joined exactly if one names the other or reads what it writes, and then the other is earlier; inputs, outputs and volatility are the descriptor's |
| Descriptors.SetAsideIffLoops | libs/rigExecGraph/opGraph.cpp:193-202 | an operation is left out exactly if it depends on itself, directly or through others |
| Descriptors.NeighboursAscend | libs/rigExecGraph/opGraph.cpp:219-229 | an operation that does not depend on the one just before it has the lexicographically later key |
| Descriptors.IndependentIsSorted | libs/rigExecGraph/opGraph.cpp:219-229 | operations without dependences compile to their keys sorted |
| Descriptors.OrderIsKeysOnly | libs/rigExecGraph/opGraph.h:15-16 | however the operations are listed, the same ones come in the same order |
| Descriptors.CompilationIsKeysOnly | libs/rigExecGraph/opGraph.h:15-16 | and the whole compiled graph, clusters, readers and volatile operations included, is the same |
| Descriptors.AcceptanceIsKeysOnly | libs/rigExecGraph/opGraph.h:15-16 | nor does the listing decide what is accepted or set aside |
| Lowering.LowerOpClusters | libs/rigExecGraph/opGraph.cpp:254-301 | packs only admissible inputs, and every one of them on a graph with mutual edges: every operation once, validly, within the grain, and no chain short of it; refused otherwise is only a positive grain where an operation's one successor does not come later |
| Lowering.CostMeaning | libs/rigExecGraph/opGraph.h:76 | a group costs a microsecond a member without costs, and otherwise what its members cost |
| Lowering.ValidIsRunnable | libs/rigExecGraph/opGraph.h:73-77 | coarsening linear chains adds no dependency: a valid packing of a forward graph has forward, inverse and acyclic cluster edges |
| ClusterValidation.ValidateOpClusters | libs/rigExecGraph/opGraph.cpp:303-351 | accepts exactly the safe packings: every operation once, clusters of one to 64 in order, each a line of operations that are each other's only neighbour, edges exactly those of the operations, all backward |
| ClusterValidation.SafeIffValid | libs/rigExecGraph/opGraph.cpp:303-351 | these are the packings the other results call valid |
| ClusterValidation.LowerAndValidate | libs/rigExecGraph/opGraph.h:73-84 | what the lowering builds the check accepts and the executor may run |
| ExecutorSafety.StepKeeps | libs/rigExecGraph/opGraph.cpp:468-539 | every action of every task keeps the executor's invariant: counts never underflow, settled values stay consistent, held inputs stay current |
| ExecutorResults.RaceFree | libs/rigExecGraph/opGraph.cpp:482-507 | while a body is in flight no other task is at or in an operation that reads or writes what it writes |
| ExecutorResults.CheckedInputsAreStable | libs/rigExecGraph/opGraph.cpp:484-497 | once a body has found no failure, no other task changes whether it is needed or what it reads |
| ExecutorResults.BodiesRunOnce | libs/rigExecGraph/opGraph.cpp:484-497 | no run enters an operation's body twice |
| ExecutorResults.QuiescentIsComplete | libs/rigExecGraph/opGraph.cpp:523-540 | nothing can move exactly when every candidate cluster has finished, and no other cluster was touched |
| ExecutorResults.RunsAreBounded | libs/rigExecGraph/opGraph.cpp:508-539 | every run is at most as long as the candidates' work |
| ExecutorResults.AgreesWithProgramOrder | libs/rigExecGraph/opGraph.cpp:409-552 | however the tasks interleave, success is reported exactly when running everything in program order succeeds, and the store is then that run's |
| ExecutorResults.SettledHoldsProgramOrder | libs/rigExecGraph/opGraph.cpp:482-507 | at every moment of every run, failing ones too, a settled operation holds its program-order values as far as program order gets, and leaves are untouched |
| ExecutorResults.FailureHasWitness | libs/rigExecGraph/opGraph.cpp:484-497 | a run that has failed has an operation that fails on what its settled predecessors gave it, as it does in program order |
| ExecutorResults.ConeAgreesWithForce | libs/rigExecGraph/opGraph.cpp:432-457 | two executions over the same operations and leaves end alike, whatever their seeds, candidates and clusterings |
| ExecutorResults.ForceIsValid | libs/rigExecGraph/opGraph.cpp:433-451 | a forced run may start from any store |
| ExecutorResults.NextFrameIsValid | libs/rigExecGraph/opGraph.cpp:440-457 | a frame that ended well leaves what the next frame's partial execution needs |
| CompletionOrder.CompletionIsTopological | libs/rigExecGraph/opGraph.h:110-114 | at rest exactly the candidates are numbered, from 1 to their count once each, every predecessor before its successors |
| CandidateWave.Candidates | libs/rigExecGraph/opGraph.cpp:417-457 | refuses exactly out-of-range lists and missing lowerings; otherwise the seeds are the forced, listed and volatile operations and the candidates exactly what the sources reach, each listed once |
| CandidateWave.WaveMeaning | libs/rigExecGraph/opGraph.cpp:440-457 | that is, what successors lead to from an operation a list names or that reads a changed leaf |
| CandidateWave.CandidatesFit | libs/rigExecGraph/opGraph.cpp:440-457 | the wave holds the readers of changed leaves and is closed under successors |
| Propagation.RanWasAskedFor | libs/rigExecGraph/opGraph.cpp:484-496 | at every moment of every run a body that ran is that of a candidate which is a seed or reads a changed value |
| Propagation.RanIffAskedFor | libs/rigExecGraph/opGraph.cpp:484-496 | a run that ended well ran exactly the candidates that are seeds or read a changed value |
| Propagation.ChangedIffMoved | libs/rigExecGraph/opGraph.h:95-96 | while no body has failed a value counts as changed exactly if it is a changed leaf, is not what was retained, or was flagged by the body that left it |
| Propagation.RestRan | libs/rigExecGraph/opGraph.h:171 | a clean retained output stops the wave: with nothing flagged, what ran is told by the seeds, the changed leaves and the values program order makes others than retained |
| SerialExecutor.ExecuteSerial | libs/rigExecGraph/opGraph.cpp:468-522 | the ready queue on one thread gives program order's success, store and a topological numbering, and runs exactly the candidates that are seeds or read a leaf that changed or a value that came out other than retained |
| SerialExecutor.Execute | libs/rigExecGraph/opGraph.cpp:409-522 | from the lists to the store: refused exactly when a list is out of range, otherwise program order's success and store, numbers for exactly what the sources reach, and of those run exactly the forced, listed and volatile operations and those whose inputs changed |
| CMakeText.StripComments | tools/select_affected_tests.py:46-70 | the scanner loop computes the specification the next two rows are about |
| CMakeText.CommentStrippingIsSafe | tools/select_affected_tests.py:46-70 | stripping is idempotent, leaves no comment, keeps every newline, shortens lines only at the end, and keeps every quoted string |
| CMakeText.StripChangesOnlyComments | tools/select_affected_tests.py:46-70 | a text is unchanged exactly when it has no comment |
| CommentPieces.CommentsAreWhatIsDropped | tools/select_affected_tests.py:46-70 | however a text is taken apart into plain characters, strings closed by a quote not behind a backslash, and hash signs with the rest of their line, stripping leaves everything but the last; and every text can be |
| CommentPieces.UnquotedIsCutAtHash | tools/select_affected_tests.py:64-67 | without quotes every line is cut before its first hash sign |
| CMakeText.SplitArgs | tools/select_affected_tests.py:73-106 | the splitter loop computes the specification the next row is about |
| CMakeText.SplitIsStable | tools/select_affected_tests.py:73-106 | for every string, splitting the space-join of the arguments gives the arguments again |
| CMakeText.SplitKeepsText | tools/select_affected_tests.py:73-106 | for every string and state, the arguments together are the text without what separates them, but for spaces at its end |
| ArgumentCuts.SplitIsAtCuts | tools/select_affected_tests.py:73-106 | arguments are cut exactly at whitespace behind an even number of quotes where the bracket balance was never lower |
| ArgumentCuts.ArgumentsAreUnique | tools/select_affected_tests.py:73-106 | and these cuts determine them |
| LinkLines.Target.Link | tools/select_affected_tests.py:244-262 | one command: a name given PUBLIC anywhere is PUBLIC, otherwise what it is given last; earlier commands are overwritten |
| LinkLines.CommandSays | tools/select_affected_tests.py:244-262 | argument by argument: a name is PUBLIC if it is given anywhere where PUBLIC is the last keyword or there is none yet, and otherwise has the last keyword before where it is given last |
| LinkLines.NamesAreInOrder | tools/select_affected_tests.py:249-254 | the names are listed argument by argument, in order and with repetitions |
| LinkLines.LinkAll | tools/select_affected_tests.py:244-262 | all commands: each name has the visibility the last command mentioning it gives |
| LinkLines.TargetSays | tools/select_affected_tests.py:244-262 | in terms of the arguments: a name ends with what the last command that gives it says, and with nothing else |
| LinkLines.PublicWinsInLastCommandOnly | tools/select_affected_tests.py:255-262 | a name ends PUBLIC if and only if the last command that mentions it mentions it under PUBLIC |
| LinkLines.LaterCommandOverridesPublic | tools/select_affected_tests.py:259-262 | a later PRIVATE link overrides PUBLIC |
| LinkLines.PublicNames | tools/select_affected_tests.py:292-294 | exactly the links not marked PRIVATE |
| LinkLines.PublicNamesInOrder | tools/select_affected_tests.py:292-294 | they keep their order |
| LinkLines.PublicNamesRepeat | tools/select_affected_tests.py:292-294 | and their repetitions |
| Selector.Closure | tools/select_affected_tests.py:297-306 | exactly what is reached, cyclic graphs included: the least closed superset of the start |
| Selector.BuildPublicEdges | tools/select_affected_tests.py:309-311 | each library's published links |
| Selector.SourceOwners | tools/select_affected_tests.py:315-318 | a path's owners are exactly the libraries that compile it |
| Selector.MarkTouched | tools/select_affected_tests.py:408-440 | marks exactly the libraries, executables or everything that each changed path touches |
| Selector.SelectExecutables | tools/select_affected_tests.py:442-471 | an executable is selected exactly when everything is, or it is marked, or consumes a marked library, or lists a changed source |
| Selector.NamesFor | tools/select_affected_tests.py:473-481 | the tests of the executables, each once, in the order they are first met |
| Selector.SelectTests | tools/select_affected_tests.py:407-493 | selection is reachability: one link of any visibility, then published links only |
| Selector.SelectionIsMonotone | tools/select_affected_tests.py:407-493 | more changed paths never drop a test |
| Selector.PrivateLinksStop | tools/select_affected_tests.py:451-454 | a library linked only privately is consumed only by the executables that link it themselves |
| Selector.PublishedLinksAreConsumed | tools/select_affected_tests.py:451-458 | what a consumed library publishes is consumed |
| SelectionRules.SourceMarks | tools/select_affected_tests.py:413-418 | a path `libs/` or `tests/` and anything that some library compiles marks exactly the libraries that compile it |
| SelectionRules.HeaderMarks | tools/select_affected_tests.py:419-432 | otherwise, if it ends in `.h` or `.hpp` and headers are followed, exactly what its includers belong to |
| SelectionRules.OtherSourceMarksNothing | tools/select_affected_tests.py:413-434 | and otherwise nothing |
| SelectionRules.ElsewhereMarks | tools/select_affected_tests.py:435-440 | elsewhere a path that ends in `CMakeLists.txt` or starts with `cmake/` marks everything, one that holds `schema.usda` the evaluator, and any other nothing |
| SelectionRules.ConsumerMeaning | tools/select_affected_tests.py:451-465 | a library is consumed exactly if links lead to it, of which only the first may be private |
| SelectionRules.SourceSelects | tools/select_affected_tests.py:407-493 | a changed source of a library selects every test of every executable that consumes it |
| SelectionRules.OwnSourceSelects | tools/select_affected_tests.py:466-469 | a changed source of an executable selects its tests |
| SelectionRules.HeaderSelects | tools/select_affected_tests.py:407-493 | a changed header those of the executables that list an includer or consume a library that compiles one |
| SelectionRules.BuildFileSelects | tools/select_affected_tests.py:435-447 | a changed build file every test |
| SelectionRules.SchemaSelects | tools/select_affected_tests.py:438-440 | the changed schema those of the consumers of the evaluator |
| SelectionRules.SelectedHasReason | tools/select_affected_tests.py:407-493 | no test is selected without such a reason, and none that is not registered or whose name holds a variable |
| SelectionRules.FirstTimesInOrder | tools/select_affected_tests.py:473-481 | tests are listed in the order in which they occur first |
| SelectionRules.TestsInFileOrder | tools/select_affected_tests.py:473-481 | those of an executable in the order of the file |
| SelectionRules.TestsByExecutable | tools/select_affected_tests.py:473-481 | and those of several executable by executable |
| Framing.ViewBasisIsOrthonormal | docs/render_media.py:1414-1419 | every pitch and yaw give an orthonormal basis |
| Framing.ViewAngles | docs/render_media.py:1414-1419 | the axes for a yaw about the vertical and a pitch about the camera's side, entry by entry |
| Framing.ViewInvertsCamera | docs/render_media.py:1448-1453 | the view matrix undoes the camera's placement |
| Framing.ProjectMeaning | docs/render_media.py:1706-1718 | the matrix entries used amount to perspective division by the depth in front of the eye |
| Framing.PixelMeaning | docs/render_media.py:1706-1718 | a pixel is the middle of the viewport moved right and up by the point's share beside and above the axis; None exactly at a depth of at most 1e-9 |
| Framing.ProjectionKeepsSides | docs/render_media.py:1706-1718 | at one depth further right is further right and higher is higher |
| Framing.EveryPointIsFramed | docs/render_media.py:1425-1453 | every point of every cloud, along every orthonormal basis, for every margin of at least 1, is in front of the eye and within 1/margin of the half-frame |
| Framing.FlatCloudTouchesMargin | docs/render_media.py:1432-1435 | of a flat cloud that is wide for the frame the rightmost point meets the margin exactly |
| Framing.HighCloudTouchesMargin | docs/render_media.py:1432-1435 | and of one that is high for it the topmost |
| Framing.NothingIsClipped | docs/render_media.py:1446-1447 | every point lies between the clipping planes if and only if the fitted distance is at least 0.001 and the cloud is at most 99 times as deep |
| Framing.SinglePointIsClipped | docs/render_media.py:1446-1447 | a single point is in front of the near plane |
| Clipping.ClipRange | docs/render_media.py:1733-1748 | the loop's interval is exactly the parameters all four edges accept, or none is |
| Clipping.ClipSegment | docs/render_media.py:1721-1749 | returns the ends of that interval, or None |
| Clipping.AxisIsExactIffSteady | docs/render_media.py:1734-1748 | a coordinate's two edge tests mean what they should at every parameter if and only if it is steady |
| Clipping.ClipIsExact | docs/render_media.py:1721-1749 | the result is precisely the part of the segment inside the rectangle, None exactly when there is none |
| Clipping.ExactIffSteadyAcross | docs/render_media.py:1734-1739 | a horizontal coordinate is steady if and only if every segment with it and a steady companion is clipped exactly |
| Clipping.ExactIffSteadyDown | docs/render_media.py:1734-1739 | likewise for a vertical one |
| Clipping.CreepingSegmentIsLost | docs/render_media.py:1736-1739 | a segment dropped although an end is visible |
| Dashes.Dashed | docs/render_media.py:1752-1768 | the walk draws the dashes of its specification on the clipped segment, or nothing if that is absent or too short |
| Dashes.DashesAreSpaced | docs/render_media.py:1763-1768 | every dash but the last is exactly `dash` long and `gap` before the next |
| Dashes.DashesReachBothEnds | docs/render_media.py:1763-1768 | the first dash starts where the segment does, and the last ends where it does or is whole and at most a gap away |
| Dashes.DashesAreVisible | docs/render_media.py:1753-1768 | everything drawn is on the original segment and inside the clip rectangle |
| Dashes.WalkIsBounded | docs/render_media.py:1721-1729 | fewer turns than diagonal / (dash + gap) + 1, however far off-screen the ends are |
| Chips.SearchFree | docs/render_media.py:2158-2169 | the twelve attempts compute the search the rows below are about |
| Chips.PlaceChips | docs/render_media.py:2131-2172 | each chip is placed by that search around the blockers and the chips before it |
| Chips.ChipPlace | docs/render_media.py:2145-2157 | how wide and high a chip is and where it starts: 14 pixels right or left of its ring as asked, at the margin if it must, 24 above, held back by the safe area |
| Chips.FirstClashMeaning | docs/render_media.py:2159-2165 | the obstacle it is pushed off is the first of those less than 4 pixels away sideways and 3 up and down |
| Chips.PushMeaning | docs/render_media.py:2167-2169 | it goes 5 pixels below that one if it fits there, and otherwise 5 above it or to the top of the safe area |
| Chips.ChipsStaySafe | docs/render_media.py:2155-2171 | for arbitrary blockers every chip keeps to the safe area up and down, and sideways exactly when it is narrow enough |
| Chips.ClearChipsKeepDistance | docs/render_media.py:2158-2171 | a chip whose search ended clear keeps 4 and 3 pixels from every blocker and every earlier chip |
| Chips.FewObstaclesAlwaysClear | docs/render_media.py:2158-2169 | with at most twelve obstacles and room under each every chip lands clear |
| Chips.TwelveAttemptsAreEnough | docs/render_media.py:2158-2169 | among at most twelve obstacles a chip that does not land clear would not with any number of attempts |
| Chips.OneObstacleIsExact | docs/render_media.py:2158-2169 | a chip fails to land clear of a single obstacle if and only if it is in the way, ends below 316 and starts above 42 |
| Chips.LandsClearIffSomePlaceIs | docs/render_media.py:2158-2171 | a chip lands clear if and only if one of thirteen places is clear, the one after the last push included |
| Chips.KeepsDistanceIffLandsClear | docs/render_media.py:2158-2171 | a placed box keeps 4 and 3 pixels from every blocker and every earlier chip if and only if it lands clear |
| Chips.GuaranteeIsExact | docs/render_media.py:2158-2169 | the exact counts and lowest ends of obstacles for which every chip lands clear |
| Chips.ClashCanRemain | docs/render_media.py:2317-2337 | two rings bounce the corner slot's chip for any number of attempts, its box ends on the lower ring whatever else is there, and it would fit elsewhere |
| Retarget.ChooseDrivers | tools/rigexec_control_surface.py:367-374 | per joint the first of its best offers: visible before hidden, then by rank |
| Retarget.ChoiceMeaning | tools/rigexec_control_surface.py:367-374 | that is a visible control if there is one, of those no less hidden one of least rank, and of these the first |
| Retarget.Resolve | tools/rigexec_control_surface.py:381-385 | the guarded walk ends, at the undriven end of the chain or at the first prim met twice |
| Retarget.DrivingControls | tools/rigexec_control_surface.py:379-385 | every joint is resolved so |
| Retarget.ResolutionIsUnique | tools/rigexec_control_surface.py:379-385 | where a walk ends depends on the drivers alone |
| Retarget.EndIsFixed | tools/rigexec_control_surface.py:379-385 | an end that is driven resolves to itself |
| Retarget.CycleResolvesToItself | tools/rigexec_control_surface.py:379-385 | a joint on a cycle resolves to itself |
| Retarget.RetargetIsIdempotent | tools/rigexec_control_surface.py:110-120 | for every driver map, cycles included, retargeting twice is retargeting once |
| Retarget.Surface.Retarget | tools/rigexec_control_surface.py:107-126 | in every button and region a target with a pair becomes its pair and any other stays, and exactly those that changed are reported |
| Retarget.Surface.RetargetTwice | tools/rigexec_control_surface.py:107-126 | a second retarget moves nothing |
| Retarget.UpdateIsIdempotent | tools/rigexec_control_surface.py:430-463 | an update settles every target, leaves selectable controls alone and moves only onto selectable ones |
| Retarget.UpdateMeaning | tools/rigexec_control_surface.py:430-463 | a dead path becomes the one selectable control of its name, a joint the selectable control that drives it, and anything else stays |
| LeastSquares.DenominatorMeaning | tools/rigexec_control_surface.py:194 | never negative, and zero exactly when all world coordinates coincide |
| LeastSquares.FitIsOptimal | tools/rigexec_control_surface.py:185-199 | the fit minimises the squared residuals over all lines and is the only one that does |
| LeastSquares.LineIsRecovered | tools/rigexec_control_surface.py:185-199 | samples on a line give that line |
| LeastSquares.NoFitMeaning | tools/rigexec_control_surface.py:187-196 | there is no fit exactly for fewer than three samples or a denominator below 1e-9, coinciding coordinates included |
| PickerLayout.FitProjection | tools/rigexec_control_surface.py:164-199 | a fit of each axis to the wired buttons' centres, or none |
| PanelPlacement.SamplesAreWired | tools/rigexec_control_surface.py:164-182 | one sample on each axis for every wired control, in order: its world coordinate against the middle of its button |
| PickerLayout.ClearSpot | tools/rigexec_control_surface.py:214-222 | ends at the first free attempt of forty, or after them |
| PickerLayout.FreeIffSomeAttemptIs | tools/rigexec_control_surface.py:214-222 | the spot returned is free if and only if one of forty-one spots is |
| PickerLayout.FreeSpotIsFound | tools/rigexec_control_surface.py:202-222 | few enough boxes for their height always leave it free |
| PickerLayout.GuaranteeIsExact | tools/rigexec_control_surface.py:202-222 | and that bound is exact, for every box height |
| PickerLayout.TallBoxDefeatsSearch | tools/rigexec_control_surface.py:215-222 | one tall box leaves an occupied spot |
| PickerLayout.PlacingKeepsDisjoint | tools/rigexec_control_surface.py:251-267 | a button put into a free box overlaps nothing, even when it takes an old button's name |
| PanelPlacement.OverlapMeaning | tools/rigexec_control_surface.py:218-220 | boxes with an inside overlap exactly if some point is inside both |
| PanelPlacement.ButtonIsPut | tools/rigexec_control_surface.py:250-281 | a button is centred at the projection of its control, or below it by as many steps of one and a quarter of its height as are blocked before, at most forty; it is named `b_` and its label and nothing else changes |
| PickerLayout.Panel.Place | tools/rigexec_control_surface.py:250-281 | one button at the end of the search, and when that is free |
| PickerLayout.Panel.AddButtons | tools/rigexec_control_surface.py:225-291 | every request with a world position is placed in turn, other buttons stay, and while every spot is free the new buttons overlap none, old or new; up to twenty-one low buttons guarantee it |
| RestMigration.Stage.ParentProvider | tools/migrateRestToLocal.py:51-58 | a provider above the prim with only prims that are none between them, or none exactly if there is no such |
| RestMigration.NearestIsNearest | tools/migrateRestToLocal.py:51-58 | that ancestor is what every other result reads |
| RestMigration.ProvidersBelowAreRebased | tools/migrateRestToLocal.py:186-194 | on a stage whose prims have their parents every provider with a provider anywhere above it is rebased, by the lowest |
| RestMigration.Stage.AbsoluteWorldRests | tools/migrateRestToLocal.py:99-108 | every provider's composed rest |
| RestMigration.Stage.LocalWorldRests | tools/migrateRestToLocal.py:111-126 | every provider's world rest as the product up its chain, whatever the traversal order |
| RestMigration.Stage.IsMigrated | tools/migrateRestToLocal.py:133-138 | true exactly when some rig root carries the version |
| RestMigration.Stage.Stamp | tools/migrateRestToLocal.py:141-145 | every rig root and nothing else is stamped |
| RestMigration.Stage.WriteRest | tools/migrateRestToLocal.py:148-171 | one prim's rest in the spelling it uses |
| RestMigration.Stage.MigrateStage | tools/migrateRestToLocal.py:174-195 | nothing on a migrated stage; otherwise every provider below another is rebased by its parent's old rest, in any traversal order, and counted |
| RestMigration.Stage.MigrateTwice | tools/migrateRestToLocal.py:174-195 | with a rig root the second migration changes nothing |
| RestMigration.WrittenReadsBack | tools/migrateRestToLocal.py:148-171 | what is written is read back through a matrix always, through scalars exactly when they can spell it |
| RestMigration.MigrationKeepsSpelling | tools/migrateRestToLocal.py:148-156 | prims keep their kind and spelling, scalars beside a matrix stay, everything but rebased providers and rig roots is untouched |
| RestMigration.MigrationPreservesWorldRests | tools/migrateRestToLocal.py:111-126 | new world rests after the migration are the old ones before it |
| RestMigration.MigrationPreservesIffSpellable | tools/migrateRestToLocal.py:174-195 | if and only if every local rest bound for scalars can be spelled by them |
| RestMigration.StampIsOnRigRoot | tools/migrateRestToLocal.py:133-145 | a migrated stage knows it is one exactly when it has a rig root |
| RestMigration.RebasingRelativeRests | tools/migrateRestToLocal.py:174-195 | migrating relative rests again keeps every frame if and only if it leaves every rest as it is |
| RestMigration.SecondMigrationWithoutRoot | tools/migrateRestToLocal.py:174-195 | so does a second migration; it does where every parent rested at the identity, and where scalars can spell the rests only there |
| RestMigration.MigrateAndCompare | tools/migrateRestToLocal.py:215-227 | frames read before and after agree exactly when the scalars could take them |
| PlanarMotions.PlanarIsLawful | tools/migrateRestToLocal.py:79-96 | turns, mirrorings and translations of the plane meet every law assumed of rests |
| PlanarMotions.RestMovesPoints | tools/migrateRestToLocal.py:89-97 | a rest turns a point, translates it and takes it through the matrix, in that order |
| PlanarMotions.FramesMovePoints | tools/migrateRestToLocal.py:111-126 | a frame takes a point through the prim's own rest and then through the frame of the nearest provider above |
| PlanarMotions.MirroredParentMovesChild | tools/migrateRestToLocal.py:162-171 | a child under a mirrored parent is not preserved |
| PlanarMotions.SecondMigrationMovesChild | tools/migrateRestToLocal.py:133-145 | without a rig root the second migration moves a child under a shifted parent |
| PlanarMotions.PlanarDoesNotCommute | tools/migrateRestToLocal.py:190-191 | in this group the side a rest is multiplied on matters |
| CameraSplice.CameraBlockSpan | docs/fit_cameras.py:45-76 | the span of the first head, its brace and the first closing line; absent exactly when there is no head; an error otherwise |
| StageText.SpanMeaning | docs/fit_cameras.py:45-76 | absent exactly if no line is the head as written; otherwise, at the first, which of the two errors, or the lines from there to the first closing brace at the prim's indent |
| StageText.LinesMeaning | docs/fit_cameras.py:57 | the lines run together are the text; each is free of breaks but for the one it ends with, a carriage return and its newline being one; only the last may have none |
| StageText.ContentMeaning | docs/fit_cameras.py:60-72 | what is compared of a line is the line without the carriage returns and newlines at its end |
| CameraSplice.SpanIsUnique | docs/fit_cameras.py:45-76 | the text determines the span |
| CameraSplice.InjectCamera | docs/fit_cameras.py:117-130 | replaces that span, adds the block before the last brace, or reports the error |
| StageText.AddedInFrontOfBrace | docs/fit_cameras.py:123-130 | a text without a camera gets it in front of its closing brace, after a blank line, whatever newlines there were |
| StageText.RefusedWithoutBrace | docs/fit_cameras.py:123-129 | and is refused if it does not end in one |
| CameraSplice.ReplacementIsLocal | docs/fit_cameras.py:120-122 | nothing outside the span changes, and the new block is found exactly where it was put |
| CameraSplice.LastWriteWins | docs/fit_cameras.py:120-122 | over an existing camera, injecting twice equals injecting the second block |
| CameraSplice.AdditionIsFound | docs/fit_cameras.py:123-130 | an added block is found where it was put if and only if the last brace is not behind a head |
| CameraSplice.LastAdditionWins | docs/fit_cameras.py:123-130 | and then, and only then, injecting twice equals injecting the second block |
| CameraSplice.BraceOnItsOwnLine | docs/fit_cameras.py:123-130 | a brace on its own line is never behind a head |
| CameraSplice.HeadBeforeClosingBrace | docs/fit_cameras.py:123-130 | a text whose brace is |
| CameraSplice.TemplateIsWellFormed | docs/fit_cameras.py:28-38 | whatever its numbers, the template is a well-formed block |
| StageText.TemplateText | docs/fit_cameras.py:28-38 | its ten lines, with the clipping range, the lens, the rotation and the translation where they belong |

## Left out

- Floating point: floats are reals, so rounding, overflow, infinities and the
  rejection of non-finite costs and grains (libs/rigExecGraph/opGraph.cpp:258-264)
  are not modelled; square roots are a parameter with the root's property, and
  angles are pairs of cosine and sine.
- USD stages, Qt, files and the network: prims are maps, sequences and paths; a
  traversal order is any order.
- Memory order: the executor's atomics are interleaved actions, so what is proved
  is about every interleaving and not about reorderings within one task.
- The executor's `skip`, `skipEffects`, `changed` and `inputsChanged` callbacks,
  its reset and touched records, and per-cluster time stamps and thread ids.
- Unsigned 32-bit operation indices: they are natural numbers.
- How the baked schedule packs clusters by level and cost: what it packs is what
  a build checks.
- Of the checks of a build the pose and point versions, the semantic checks and
  the head tier; the text of violations. That a slot has one writer and the
  prologue's have none (libs/rigExec/bakedProgramImpl.h:1192-1212) is assumed.
- Of compiling an op graph the loops reported for its cycles and the message, the
  retained exclusion proofs, the longest path and the kinds of operations.
- ClusterSets.ClusterSet.Test: reading past the last word is excluded by the
  precondition, as it is undefined in the original.
- ClusterSets.ClusterSet.Set: writing past the last word likewise.
- ExecutorResults.SettledHoldsProgramOrder: which operations settle before a
  failure depends on the interleaving and is not promised.
- SerialExecutor.Execute: the parallel dispatch has no method of its own; it is
  the state machine's runs.
- The order of executables in a selection, its report, header fans and reasons; the
  regular expressions and loop expansion of the CMake reader, and which header
  includes which, which are parameters.
- `usd_free_exes`, CTest expressions and labels in the selector.
- Selector.MarkTouched: path normalisation and the include search are functions
  given to the model.
- A sort by key followed by taking the first offer is the stable minimum it
  computes (tools/rigexec_control_surface.py:373-374).
- Renaming panels and reporting in the control surface's update.
- PickerLayout.Panel.AddButtons: of a new button the position, size and control
  are kept, not its shape and colours.
- Euler angles in space: composing and decomposing are laws, met by the planar
  model; a prim without an authored `rest:space` is taken to have the identity.
- RestMigration.MigrateAndCompare: compares whole frames, where the command
  compares translations only, and does not save.
- The evaluator's camera operations and number formatting in the camera fitting
  command; a template's numbers are any texts without line breaks.
- Framing.EveryPointIsFramed: a cloud given as a range is its eight corners.
- Labels' leaders, fonts and drawing; a text width is a number.
