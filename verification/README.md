# EcoScape verification model

EcoScape runs resilience experiments on Kubernetes and checks event streams for conformance. This
project models its two hard components in Dafny and proves what they promise.

**The streaming conformance checker** (`sut/outlier-detection`). `PetriNet` and `PrefixAlignment`
define the token game and what a prefix alignment is and costs. `AlignmentSearch` is the least-cost
search with its heap of possibly stale entries, its best-cost table and its cap on explored states.
`Sorting` is Python's stable sort by a number. `LossyCounting` is the event filter of a discovery
window, `DirectlyFollows` the counters handed to the miner, `Conformance` the operator that joins
the event stream of a shard with the broadcast models, `ConformanceRuns` whole runs of it under any
interleaving, and `Windows` the version arithmetic that ties an event to the model of the block
before it.

**The experiment and topology controllers** (`internal/controller`). `ExperimentModel` and
`TopologyModel` say what one reconcile does to the cluster, given the clock reading, the query
results and which API calls fail. `Controllers` holds the two reconcilers as classes that act on an
API server handler by handler, each proved equal to the step function. `ExperimentRuns` interleaves
them, `RepetitionResults` follows the results ConfigMap, `MeasurementWindows`, `MeasurementLines`,
`SampleCounts` and `ReportedScores` follow the samples from the clock to the reported scores,
`Termination` shows when runs end, `TwoControllers`, `LinkLifetime` and `ChaosLifetime` say which
chaos objects exist when, and `ControllerRuns` drives the reconcilers through whole runs.
`SloScores` compares the controller's score with the per-tick score of the Python runner;
`ChaosRefs` and `ChaosPhases` are the names, references, creation and rollback of chaos objects.

What the models compute is tied to statements that do not use their definitions. `FiringSequences`
gives the token game by counting tokens (the state equation) and `EditDistance` the alignment cost
by insertions and deletions; `LossyCounting.RetainedIff` says what is kept by counting the stream,
`DirectlyFollowsCounts` what the counters count by counting events, and `ResultFacts` what a result
says by its samples. `LinkObjects` and `FaultObjects` write out the objects that links and faults
declare; `Itinerary` gives the order, length and exit of every sub-phase by the specification,
`ChaosWindows` the references and the chaos behind every chaos reading, and `TopologySwitch` when
the topology is on and what becomes of it.

Scores are `real`, counts and seconds are unbounded `nat`. A marking is a multiset of places. The
cluster is a record of the experiment status, the topology, the set of chaos objects and two
append-only sequences for the ConfigMaps. A query is an optional `real`; the clock, random ids and
failing calls are inputs of a step. `heuristics_miner.apply_dfg` is an arbitrary function from
counters to a net.

Where the documentation and the code differ the model follows the code: the README of the outlier
detector describes 30-event discovery windows, separate conformance windows and one model pinned per
case, while the code uses 200-event windows and a model version per event; the comment on
`recordMeasurementAggregate` says it runs on every reconcile of a window, while the code records
only on sample boundaries; the comment on `applyChaosPhase` describes two-part references, while the
code writes and splits four parts; and the window before the chaos lasts `chaosDelay` seconds, not
`measurementDuration`.

Properties the code does not have in general are stated with their exact condition: rollback of a
failed chaos application (`ChaosPhases.RollbackCompleteIff`,
`ChaosLifetime.FailedApplicationIsCleanIff`, with the counterexample
`ChaosPhases.DuplicateZoneLeaks`), objects left behind by a lost patch
(`ChaosLifetime.LostPatchLeaksIff`), "Active implies the link objects exist"
(`TwoControllers.AlwaysUpIff`), "Inactive implies they do not" (`LinkLifetime.InactiveMeansDownIff`,
with the counterexample `LinkLifetime.HalfApplicationStays`), the end of a run
(`Termination.RisingRunEndsIff`, with the counterexamples `Termination.OddReadingsNeverEnd` for a
clock that skips seconds and `Termination.FailingReadsNeverEnd` for a topology that cannot be read),
and the score of the mean against the reference where smaller is better
(`SloScores.SmallerBetterIff`, with the counterexample `SloScores.SmallerBetterCanUnderstate`).

A score that divides by zero, which only a zero or negative threshold allows, is infinite in the
original and cannot be written as JSON: the append fails and with it the experiment. The model says
so by a missing result; the Python sink raises at the same divisions.

`dafny verify dfyconfig.toml` checks the whole project.

## Model

| member | source | states |
|---|---|---|
| PetriNet.CountsIdentify | sut/outlier-detection/processmining/prefix_alignment.py:104-121 | markings that agree outside the net's places and have equal counts per place are equal, so the table key loses nothing |
| FiringSequences.FireAllIff | sut/outlier-detection/processmining/prefix_alignment.py:66-70 | the state equation: a sequence of transitions can be fired if and only if at every firing and on every place the tokens at the start plus those produced before cover those consumed so far, and the marking it reaches is exactly the one with as many tokens as there were, plus produced, less consumed |
| PrefixAlignment.LogPathShows | sut/outlier-detection/processmining/prefix_alignment.py:54-100 | the log path without its gaps is the part of the activities explained so far |
| PrefixAlignment.FiringsFire | sut/outlier-detection/processmining/prefix_alignment.py:64-100 | the transitions of any executable move sequence are enabled one after the other from the initial marking and lead to the final one |
| PrefixAlignment.ModelPathShows | sut/outlier-detection/processmining/prefix_alignment.py:64-100 | both paths have one step per move, and the model path without gaps is the trace of the fired transitions |
| PrefixAlignment.CostCountsDeviations | sut/outlier-detection/processmining/prefix_alignment.py:54-100 | the cost is the number of steps that are neither silent nor synchronous |
| PrefixAlignment.OptimalCost | sut/outlier-detection/processmining/prefix_alignment.py:15-102 | a least alignment cost exists for every model and trace, and it is at most the length of the trace |
| PrefixAlignment.AppendingCostsZeroOrOne | sut/outlier-detection/processmining/prefix_alignment.py:34-100 | under one model, appending an activity raises the least cost by exactly 0 or 1 |
| EditDistance.CostIsEditDistance | sut/outlier-detection/processmining/prefix_alignment.py:15-102 | the least alignment cost is the least number of activities to delete and labels to insert that turn the trace into the visible labels of some sequence the net can play by the state equation; no moves, markings or search occur in the statement |
| AlignmentSearch.KeyIdentifiesReachableState | sut/outlier-detection/processmining/prefix_alignment.py:104-121 | two reachable states with the same table key are the same state |
| AlignmentSearch.CheaperIsDone | sut/outlier-detection/processmining/prefix_alignment.py:34-100 | everything reachable below the cost of every queued entry has been expanded at a recorded cost that is no worse, stale entries and zero-cost cycles included |
| AlignmentSearch.NoCheaperAlignment | sut/outlier-detection/processmining/prefix_alignment.py:45-52 | no alignment at all is cheaper than the least queued entry |
| AlignmentSearch.QueueNeverEmpty | sut/outlier-detection/processmining/prefix_alignment.py:34-102 | the heap is never empty before a result, so the "No prefix alignment" error cannot be reached |
| AlignmentSearch.Expand | sut/outlier-detection/processmining/prefix_alignment.py:34-45 | a popped live entry has a key that was never expanded before, and popping it keeps the invariant |
| AlignmentSearch.PushKeepsInv | sut/outlier-detection/processmining/prefix_alignment.py:116-131 | recording a strictly better cost with an entry for it keeps the invariant and makes the older entry of that key stale |
| AlignmentSearch.Search.AddSearchState | sut/outlier-detection/processmining/prefix_alignment.py:104-131 | pushes an entry and lowers the table exactly if the cost is new or strictly better, and keeps the search invariant |
| AlignmentSearch.Search.PopLeast | sut/outlier-detection/processmining/prefix_alignment.py:34-38 | removes an entry that is least by cost and then insertion order |
| AlignmentSearch.Search.OfferTransition | sut/outlier-detection/processmining/prefix_alignment.py:64-100 | one enabled transition: the model move and, where the label matches, the synchronous move are offered to the table |
| AlignmentSearch.Search.ExpandState | sut/outlier-detection/processmining/prefix_alignment.py:54-100 | after an expansion every possible move out of the state has been offered |
| AlignmentSearch.CalculateAlignment | sut/outlier-detection/processmining/prefix_alignment.py:15-102 | terminates; a found result is the cost and the two paths of an alignment that no alignment undercuts; giving up means that more distinct states than the cap are reachable at no more than the cost of a cheapest alignment, and it does give up if as many states as the cap are cheaper than that; it never ends without alignment |
| AlignmentSearch.FoundCostIsOptimalCost | sut/outlier-detection/processmining/prefix_alignment.py:45-52 | the returned cost is the least cost over all prefix alignments |
| AlignmentSearch.FoundPathsAreWitness | sut/outlier-detection/processmining/prefix_alignment.py:47-52 | the returned paths have equal length; every step shows its activity, its label, or the name of a silent transition, on the right path, and a synchronous one the same text on both; without gaps they are the activities and the trace of a sequence that the state equation shows to be playable; and the cost counts their deviations |
| AlignmentSearch.CheapStatesAreAnswered | sut/outlier-detection/processmining/prefix_alignment.py:40-43 | bounded net or not, the cap is not hit when at most that many states are no more costly than a cheapest alignment |
| AlignmentSearch.BoundedNetIsAnswered | sut/outlier-detection/processmining/prefix_alignment.py:40-43 | the cap is not hit when (activities + 1) times the reachable markings is at most the cap |
| LossyCounting.FilterDiscoveryEvents | sut/outlier-detection/pipeline.py:74-98 | keeps, in order, all events of an activity or none: all exactly if since the end of some bucket, or from the start, it occurred more often than buckets were begun; so every activity more frequent than ceil(N/width) is kept and whatever is kept occurs at least twice |
| LossyCounting.ErrorBound | sut/outlier-detection/pipeline.py:77-90 | at every point a tracked activity has count <= true count <= count + delta with delta below the bucket number, and an untracked one has at most as many occurrences as buckets completed |
| LossyCounting.RetainedBounds | sut/outlier-detection/pipeline.py:91-98 | every activity more frequent than ceil(N/width) is kept, and a kept one occurs at least twice |
| LossyCounting.RetainedIff | sut/outlier-detection/pipeline.py:75-98 | an activity survives all prunes, the final one included, if and only if for some bucket boundary d its occurrences after it exceed the number of buckets begun since; stated over the stream alone |
| LossyCounting.TableIsExact | sut/outlier-detection/pipeline.py:77-90 | a tracked counter holds exactly the occurrences since its start, and no other bucket boundary as a start would do better; an untracked activity exceeds the buckets from no start |
| LossyCounting.CountsSince | sut/outlier-detection/pipeline.py:77-90 | the entries first seen after k buckets account for at most the events after those buckets |
| LossyCounting.SurvivorsAreFrequent | sut/outlier-detection/pipeline.py:85-90 | whatever is still tracked has been counted on average once per bucket since |
| LossyCounting.SpaceBound | sut/outlier-detection/pipeline.py:75-90 | after any number of events the table holds at most width/1 + ... + width/b entries |
| DirectlyFollows.GroupByCase | sut/outlier-detection/processmining/model_discovery.py:9-11 | the list of each case holds its events' stamps in arrival order |
| DirectlyFollows.CreateDirectlyFollowsData | sut/outlier-detection/processmining/model_discovery.py:6-37 | the four counters are the sums, over all cases, of the counters of the case's trace in sequence order; what they count is said by DirectlyFollowsCounts.CountersCount and OccurrencesCount |
| DirectlyFollowsCounts.CountersCount | sut/outlier-detection/processmining/model_discovery.py:18-29 | with distinct sequence numbers, said of the events alone: the graph counts the event pairs of one case of which the first is numbered lower with nothing of the case in between; starts count the cases by the activity of their lowest-numbered event, ends by that of their highest-numbered one |
| DirectlyFollowsCounts.OccurrencesCount | sut/outlier-detection/processmining/model_discovery.py:26-34 | whatever the numbers, the occurrences are the multiset of the activities of the events, and the activities are those that occur |
| Sorting.SortSorts | sut/outlier-detection/processmining/model_discovery.py:19-22 | sorting by sequence number gives a sorted permutation |
| Sorting.SortIsStable | sut/outlier-detection/processmining/model_discovery.py:19-22 | entries with the same number keep their order |
| Sorting.SortedUnique | sut/outlier-detection/pipeline.py:62 | with distinct numbers there is only one sorted permutation |
| DirectlyFollows.FlowConservation | sut/outlier-detection/processmining/model_discovery.py:18-29 | for every activity, occurrences = starts + incoming pairs = ends + outgoing pairs; total starts = total ends = cases, and pairs = events minus cases |
| DirectlyFollows.PermutationInvariant | sut/outlier-detection/processmining/model_discovery.py:9-37 | with distinct sequence numbers every permutation of the events gives the same data |
| Conformance.ConformanceOperator.ProcessBroadcastElement | sut/outlier-detection/pipeline.py:280-283 | the model replaces what was stored for its version, and no case is touched |
| Conformance.WithinCapIsScored | sut/outlier-detection/processmining/prefix_alignment.py:40-43 | if every available model has a closed set of markings so small that (processed + pending + 1) times its size is within the cap, no search on a prefix of the case has more states than the cap |
| Conformance.ConformanceOperator.ReprocessPendingEvents | sut/outlier-detection/pipeline.py:228-278 | scores pending events in order, each under its own model on top of all processed ones, passes over events without a version and stops at the first whose model is missing; it fails only if the search for some pending event, on exactly that event's own prefix and model, has more states than the cap, and never if the models are bounded as above |
| Conformance.ConformanceOperator.FlushCases | sut/outlier-detection/pipeline.py:297-306 | whatever the order of the cases, every case is reprocessed once and its scores come out in its own order; it fails only where reprocessing one of the cases can, and never for a shard of bounded models |
| Conformance.ConformanceOperator.ProcessElement | sut/outlier-detection/pipeline.py:285-306 | queues the event and flushes every case of the shard; an unknown case without a model version is dropped; it fails only where the flush can |
| ConformanceRuns.ReprocessFacts | sut/outlier-detection/pipeline.py:228-278 | reprocessing keeps the order of a case, emits exactly the scores of what it moves, and leaves no scorable head |
| ConformanceRuns.RunKeepsCase | sut/outlier-detection/pipeline.py:228-306 | in every run with each version published once, processed followed by pending is the arrivals in order, and the scores emitted so far are those of the processed events |
| ConformanceRuns.NoScorableHeadLeft | sut/outlier-detection/pipeline.py:285-306 | after every event that is taken in no case has a pending head whose model is available |
| ConformanceRuns.TakenInIff | sut/outlier-detection/pipeline.py:285-293 | an event is taken in if and only if it carries a model version or an event of its case with one came before; any other changes nothing |
| ConformanceRuns.ScoredIff | sut/outlier-detection/pipeline.py:228-306 | right after an event that is taken in, the first n arrivals of a case have been scored if and only if the models of all of them have been published |
| ConformanceRuns.RunKeepsPending | sut/outlier-detection/pipeline.py:234-277 | what waits in a case is exactly what was taken in, in order, less the events scored; events without a version stay where they are |
| ConformanceRuns.LastPublished | sut/outlier-detection/pipeline.py:280-283 | the model stored for a version is the one published last |
| ConformanceRuns.InterleavingIndependence | sut/outlier-detection/pipeline.py:228-306 | two interleavings with the same arrivals of a case and the same models, each followed by one more event, emit the same score sequence for the case |
| ConformanceRuns.RunScoresMean | sut/outlier-detection/pipeline.py:249-276 | the i-th score of a case is the least alignment cost of its first i arrivals under that event's own model version |
| ConformanceRuns.ConsecutiveScores | sut/outlier-detection/pipeline.py:249-276 | consecutive scores of a case under one model version differ by 0 or 1 |
| Windows.DiscoverModelFromWindow | sut/outlier-detection/pipeline.py:61-72 | the window is sorted by sequence number; if events survive the filter it yields the model mined from them, numbered by its last event, and otherwise none |
| Windows.SortRestores | sut/outlier-detection/pipeline.py:62 | sorting restores a block of the stream from any order in which its events arrived |
| Windows.SplitIff | sut/outlier-detection/pipeline.py:103-123 | an event goes on to be scored if and only if its number is at least 200, unchanged but for its version, the number of 200-event blocks before its own |
| Windows.KeptAreFrequent | sut/outlier-detection/pipeline.py:62-74 | what a window keeps is what lossy counting keeps at the width ceil(1 / error) |
| Windows.BlockUpdate | sut/outlier-detection/pipeline.py:61-72 | in whatever order the events of block j arrive, the window yields no update if nothing is kept, and else the one numbered j + 1 with the model of what is kept |
| Windows.WindowVersion | sut/outlier-detection/pipeline.py:163-166 | block j of the stream has an update if and only if lossy counting keeps an event of it, and that update is numbered j + 1 and mined from exactly the events kept |
| Windows.PipelinePublishesOnce | sut/outlier-detection/pipeline.py:153-175 | no version is ever published twice |
| Windows.NoLookAhead | sut/outlier-detection/pipeline.py:103-123 | event s is scored only under the model mined from exactly the block 200 (s/200 - 1) to 200 (s/200) - 1, and no event below 200 is scored |
| SloScores.RecordedIsSummary | internal/controller/experiment_controller.go:571-591 | updating the running aggregates in place keeps them equal to the folds over the recorded values |
| SloScores.RecordMeasurement | internal/controller/experiment_controller.go:596-601 | a value is recorded exactly on sample boundaries, and then all aggregates and the value list include it |
| SloScores.BuildRepetitionResult | internal/controller/experiment_controller.go:605-667 | one result per state, scored by the last SLO of its name, and the weighted sum of the scores of the names known; none exactly where a score divides by zero; what it says of the samples is ResultFacts.ResultDescribes |
| SloScores.ScoreByTicks | ecoscape-python/experiment_runner/sink/slo_violation_score_sink.py:10-26 | feeding the sink value by value computes the mean of the per-tick scores; without values, or where a tick divides by zero, it fails |
| SloScores.BiggerBetterAtMostReference | internal/controller/experiment_controller.go:628-637 | where bigger is better the score of the mean is at most the mean of the scores, with equality when no sample exceeds the threshold |
| SloScores.SmallerBetterAtLeastReference | internal/controller/experiment_controller.go:628-637 | where smaller is better and every sample reaches the threshold, the score of the mean is at least the mean of the scores |
| SloScores.SmallerBetterIff | internal/controller/experiment_controller.go:628-637 | where smaller is better, for all samples, the score of the mean is at least the mean of the scores if and only if the reciprocal of the mean is at most the mean of the reciprocals, all raised to the threshold first |
| SloScores.SmallerBetterWithinThresholdIff | internal/controller/experiment_controller.go:628-637 | where smaller is better and the mean is within the threshold, the score of the mean is at least the mean of the scores if and only if no sample exceeds the threshold |
| SloScores.SmallerBetterCanUnderstate | internal/controller/experiment_controller.go:628-637 | one sample below the threshold can turn that order around |
| SloScores.ResultInUnit | internal/controller/experiment_controller.go:619-660 | with unique names, non-negative samples and weights that sum to 1, every score and the aggregate are in [0, 1] |
| SloScores.ReportedScore | internal/controller/experiment_controller.go:619-660 | in any result, the reported score of an SLO is the overshoot of the mean of its own samples |
| ResultFacts.ResultDescribes | internal/controller/experiment_controller.go:605-667 | with unique names each entry has its SLO's name, the number of samples and of those beyond the threshold, their mean and extremes (the largest never below zero), and as score the distance of the mean to the threshold as a share of the larger of the two if it is on the wrong side, else zero; the aggregate is the sum over the SLOs of weight times score |
| ResultFacts.WeightedPositiveIff | internal/controller/experiment_controller.go:657-659 | the aggregate is positive if and only if some SLO of positive weight has a mean on the wrong side of its threshold |
| ChaosRefs.DecodeEncode | internal/controller/chaosphase.go:68-73 | splitting an encoded reference in four gives the object back |
| ChaosRefs.EncodeDecode | internal/controller/chaosphase.go:68-73 | encoding what a reference decodes to gives the reference back |
| ChaosRefs.NamesAreNotRefs | internal/controller/chaosphase.go:68-72 | a name without slashes, as every owned ConfigMap has, is never decoded as a reference |
| ChaosRefs.SortedPairUnordered | internal/controller/topology_controller.go:378-380 | sorting the two zones forgets their order and nothing else |
| ChaosRefs.LinkRefsIdentify | internal/controller/topology_controller.go:374-478 | within a topology two link references are equal exactly when they name the same unordered pair of zones and the same action |
| LinkObjects.StringLeIff | internal/controller/topology_controller.go:378-380 | the order in which zones are sorted is alphabetical |
| LinkObjects.AllLinkKeysDeclared | internal/controller/topology_controller.go:374-478 | an object is ensured if and only if some link between exactly two zones has a non-empty text for its action: delay by latency, bandwidth by bandwidth, loss by packet loss; namespace and name are written out, with the zones in alphabetical order |
| LinkObjects.LinkKeysInOrder | internal/controller/topology_controller.go:387-478 | per link, delay is ensured before bandwidth and bandwidth before loss, each at most once |
| ChaosPhases.ApplyBalances | internal/controller/chaosphase.go:20-60 | after applying faults the objects are those before, those with a reference and what the failing fault left over, without overlap, and everything new is the experiment's own |
| ChaosPhases.RollbackLeavesLeftover | internal/controller/experiment_controller.go:443-449 | after a failure, cleaning up the collected references leaves the objects before plus exactly what the failing fault had created and what could not be deleted |
| ChaosPhases.RollbackCompleteIff | internal/controller/chaosphase.go:53-55 | rollback is complete if and only if none of its deletes fails and the failing fault is not a stress fault that could create its first object |
| ChaosPhases.DuplicateZoneLeaks | internal/controller/chaosphase.go:158-178 | a stress fault naming a zone twice leaves an object behind even if every delete succeeds |
| FaultObjects.AppliesIff | internal/controller/chaosphase.go:20-180 | applying a chaos phase succeeds if and only if the zones of every fault fit and nothing that is declared exists, is refused or is declared twice; it has then created exactly the declared objects, written out fault by fault, and its references decode to exactly them |
| ExperimentModel.StepKeepsValid | internal/controller/experiment_controller.go:354-361 | the measurement state is always empty or has one entry per SLO |
| Controllers.ExperimentReconciler.Reconcile | internal/controller/experiment_controller.go:69-131 | changes the cluster exactly as one experiment step does: nothing in a terminal phase, Succeeded once all repetitions are done, else the handler of the sub-phase |
| Controllers.ExperimentReconciler.ApplyManifests | internal/controller/experiment_controller.go:173-190 | succeeds exactly if no named manifest set is refused, and then owns one name per set in order |
| Controllers.ExperimentReconciler.HandleDeploying | internal/controller/experiment_controller.go:168-212 | replaces the references by the owned names and enters the topology delay or, without topology, the load delay |
| Controllers.ExperimentReconciler.AppendMeasurements | internal/controller/experiment_controller.go:752-803 | appends one line per recorded value, SLO by SLO |
| Controllers.ExperimentReconciler.QueryRound | internal/controller/experiment_controller.go:369-382 | every SLO whose query has a result records it, the others stay as they were |
| Controllers.ExperimentReconciler.HandleMeasurement | internal/controller/experiment_controller.go:340-425 | takes a round only on the sampling grid; at the end writes the lines, skips the chaos if there is none and resets the measurement before the chaos window; where it goes on to is ChaosWindows.ClosingLeadsToChaosIff |
| Controllers.ExperimentReconciler.ApplyFault | internal/controller/chaosphase.go:94-180 | creates the longest prefix of the fault's objects that can be created, with references only if all can |
| Controllers.ExperimentReconciler.ApplyChaosPhase | internal/controller/chaosphase.go:20-60 | applies the faults in order up to the first failure |
| Controllers.ExperimentReconciler.CleanupChaosPhase | internal/controller/chaosphase.go:65-86 | deletes exactly the objects the references decode to, passing over malformed references and failing deletes |
| Controllers.ExperimentReconciler.HandleApplyingChaos | internal/controller/experiment_controller.go:429-463 | adds the references and opens the chaos window, or rolls back and fails |
| Controllers.ExperimentReconciler.HandleCleanup | internal/controller/experiment_controller.go:468-519 | deletes the chaos, switches the topology off, appends the result and completes the repetition; fails if there is no finite result or it cannot be written |
| Controllers.TopologyReconciler.Reconcile | internal/controller/topology_controller.go:58-107 | changes the cluster exactly as one topology step does, including the second status write after a failure |
| Controllers.TopologyReconciler.ReconcileApply | internal/controller/topology_controller.go:111-144 | ensures the link objects in order up to the first failure, and only if all exist writes their references and Active |
| Controllers.TopologyReconciler.EnsureLinkChaos | internal/controller/topology_controller.go:374-481 | ensures one object per condition of the link, in order, and collects their references; which objects these are is LinkObjects.AllLinkKeysDeclared |
| Controllers.TopologyReconciler.ReconcileDeactivate | internal/controller/topology_controller.go:152-193 | deletes exactly what the stored references decode to, passing over failing deletes, then writes Inactive |
| ControllerRuns.ReconcileAll | internal/controller/experiment_controller.go:69-131 | reconciling one event after the other, with either controller, changes the cluster exactly as a run of the step functions does, so every theorem about runs holds of the reconcilers |
| ControllerRuns.RunControllers | internal/controller/experiment_controller.go:69-131 | both controllers on one cluster compute the run, and from a fresh experiment on their results are ordered and complete |
| ExperimentRuns.OnlyCleanupCompletes | internal/controller/experiment_controller.go:468-519 | no step but Cleanup touches the results or the count of completed repetitions |
| Itinerary.ItineraryFollowed | internal/controller/experiment_controller.go:105-131 | whatever fails, the sub-phases a run has visited are those of the completed repetitions in full, pauses only where asked for and another repetition follows, and a beginning of the next: topology sub-phases only with a topology, ApplyingChaos only and always with a chaos phase; never more repetitions than planned, and Succeeded only when all are completed; the phase is Pending before the first deployment and Running from then on until the run ends |
| Itinerary.LeavesOrFailsIff | internal/controller/experiment_controller.go:168-519 | at any point of any run a sub-phase is left if and only if the patch succeeds, what it waits for has come (by the lengths, defaults and the 300 seconds of the specification, on the sampling grid), and what it does then succeeds; the run fails if and only if that has come and does not succeed |
| Itinerary.ElapsedIsShown | internal/controller/experiment_controller.go:521-532 | the status shows zero seconds when a sub-phase begins, and afterwards the last reading patched in: in a measurement only those on the grid, in the wait for the topology only those of a successful read |
| ChaosWindows.RunRefsFit | internal/controller/experiment_controller.go:203-209 | at any point of any run the stored references are none before the deployment and between repetitions, then the names of the manifest sets, and in the chaos window and Cleanup also those returned by a chaos phase applied in full in this repetition; without a chaos phase ApplyingChaos is never entered |
| ChaosWindows.ClosingLeadsToChaosIff | internal/controller/experiment_controller.go:397-404 | the step that closes the window before the chaos enters ApplyingChaos if and only if the specification has a chaos phase, and else the chaos window |
| ChaosWindows.ReadingUnderChaos | internal/controller/experiment_controller.go:437-462 | with a chaos phase, a reading in a chaos window is only taken after an earlier event of the run has applied a chaos phase in full in the same repetition |
| ChaosWindows.ReadingsUnderChaos | internal/controller/experiment_controller.go:437-462 | so it is for all readings of a run |
| ChaosWindows.ChaosWindowHasChaos | internal/controller/chaosphase.go:20-180 | in every run, whichever calls fail: during a chaos window of a specification with a chaos phase every object exists that the chaos phase applied in this repetition declares |
| TopologySwitch.SwitchIff | internal/controller/experiment_controller.go:224-289 | at any point of any run only the end of the topology delay switches the topology on, and only a wait that fails and a Cleanup (lines 477-482) switch it off, each exactly if it can be read and, where the switch changes, patched |
| TopologySwitch.GenerationCounts | internal/controller/experiment_controller.go:224-289 | in every run the generation of the topology counts the changes of its switch |
| TopologySwitch.OffBetweenRepetitions | internal/controller/experiment_controller.go:477-482 | in every run whose Cleanups can read and patch the topology it is off whenever no repetition is under way |
| TopologySwitch.ReachesStateIff | internal/controller/topology_controller.go:80-106 | a topology without its finalizer only gets that; with it, one reconcile brings it to the state its switch asks for, for the current generation, if and only if it is there already or everything can be ensured and the update succeeds; otherwise Failed is recorded if that can be written, and nothing else |
| RepetitionResults.RunKeepsResults | internal/controller/experiment_controller.go:485-518 | in every run, whatever fails, the last entry is the last completed repetition or, in Cleanup, the very result that a retry would append again |
| RepetitionResults.ResultsUnderRetries | internal/controller/experiment_controller.go:86-99 | numbers start at 1 and rise without gaps, entries with the same number are identical, every completed repetition appears, only the one in Cleanup may be ahead, and Succeeded means all are completed |
| RepetitionResults.ResultsWithoutRetries | internal/controller/experiment_controller.go:689-743 | if no patch fails the results are exactly 1, 2, ..., up to the completed repetitions |
| MeasurementWindows.RoundExtendsSummaries | internal/controller/experiment_controller.go:369-382 | recording a round turns the summaries of a window into those of the window with one more reading |
| MeasurementWindows.ValuesGrow | internal/controller/experiment_controller.go:369-382 | a reading adds to the values of the i-th SLO the result of the i-th query, if it has one |
| MeasurementWindows.RunKeepsWindow | internal/controller/experiment_controller.go:354-361 | in every run the aggregates in the status are the folds over exactly the readings of the current window, and there is no reading of a window not yet opened; from the end of a repetition to the first window of the next there are none |
| MeasurementWindows.ResultIsOfChaosWindow | internal/controller/experiment_controller.go:397-409 | with or without chaos phase, a result is appended exactly by a Cleanup that has a finite result and whose write succeeds, and it is built from exactly the values read in that repetition's chaos window |
| MeasurementWindows.LinesAreOfWindow | internal/controller/experiment_controller.go:386-395 | lines are written exactly by the step that closes a window, one per value of that window |
| MeasurementLines.LinesOfClosedWindows | internal/controller/experiment_controller.go:752-803 | if no patch fails, the measurements ConfigMap holds exactly the lines of the windows that are over, repetition by repetition, each window once |
| MeasurementLines.LineAt | internal/controller/experiment_controller.go:777-795 | the lines of a window are the values of one SLO after the other, each with repetition, phase, name, its number from 0 within its SLO, and its value |
| SampleCounts.AtMostOneSamplePerInterval | internal/controller/experiment_controller.go:346-386 | with rising clock readings every window of a run holds at most ceil(D/I) + 1 values per SLO, at distinct multiples of I and only the last at or beyond D |
| SampleCounts.ExactlyOneSamplePerInterval | internal/controller/experiment_controller.go:346-386 | with one-second readings from 0 and succeeding queries every closed window holds exactly ceil(D/I) + 1 values per SLO, read at 0, I, 2I, ..., the last at the first multiple not below D |
| ReportedScores.ReportedInUnit | internal/controller/experiment_controller.go:605-667 | every score and aggregate any run ever reports is in [0, 1], if thresholds are valid, weights sum to 1 and samples are non-negative |
| ReportedScores.ReportedDescribes | internal/controller/experiment_controller.go:485-518 | every result that any run appends describes exactly the samples of that repetition's chaos window, SLO by SLO, with the aggregate weighted by the SLOs' own weights and positive exactly if an SLO that counts misses |
| ReportedScores.ReportedAgainstReference | internal/controller/experiment_controller.go:485 | the score a run reports stands to the per-tick reference over that chaos window's samples as the mean does: at most it where bigger is better; where smaller is better at least it if and only if the reciprocal of the mean is at most the mean of the reciprocals, so always if no sample is below the threshold |
| Termination.PollProgress | internal/controller/experiment_controller.go:105-131 | every poll ends the run, completes a repetition, moves to a later sub-phase or uses up one of the seconds left |
| Termination.RunTerminates | internal/controller/experiment_controller.go:69-131 | from any state, whatever others do to the topology and the objects, the run reaches Succeeded or Failed, if patches succeed, the topology can be read again and again, and within a sub-phase the clock rises from poll to poll, in measurement windows by exactly one second |
| Termination.GateStays | internal/controller/experiment_controller.go:255-297 | a measurement window or a wait for the topology lasts exactly until a poll passes it: a reading on the grid at or beyond the duration, or a successful read that finds the topology Active, failed or overdue |
| Termination.WindowClosesIff | internal/controller/experiment_controller.go:350-352 | an open window is closed by a poll if and only if that poll reads a multiple of the interval at or beyond the duration |
| Termination.RisingRunEndsIff | internal/controller/experiment_controller.go:69-131 | with succeeding patches and a clock that rises during timed waits, a run ends if and only if every window it opens meets a poll at a multiple of the interval at or beyond the duration, and every wait for the topology a poll that can read it and finds it Active, failed or overdue |
| Termination.OddReadingsNeverEnd | internal/controller/experiment_controller.go:350-352 | a two-second interval and odd, rising readings: the run never ends |
| Termination.FailingReadsNeverEnd | internal/controller/experiment_controller.go:255-259 | a topology that can never be read: the wait never ends, because the timeout is only looked at after a successful read |
| TwoControllers.CleanupSparesLinks | internal/controller/experiment_controller.go:474-475 | cleaning up the experiment's references never deletes a link object, whichever deletes fail |
| TwoControllers.OwnedNamesDecodeToNothing | internal/controller/experiment_controller.go:669-679 | the owned ConfigMap names decode to no object |
| TwoControllers.StepKeepsOwnRefs | internal/controller/experiment_controller.go:456 | the references of an experiment decode only to its own chaos objects |
| TwoControllers.TopologyStepSafeIff | internal/controller/topology_controller.go:58-107 | one topology reconcile keeps "Active means all link objects exist" if and only if it is not a deactivation of an Active topology that really deletes a link object and then loses both of its status writes |
| TwoControllers.LinksStayUp | internal/controller/experiment_controller.go:224-274 | in every interleaving, whichever patches, creations, updates and status writes fail, if no reconcile is that losing one: of an Active topology every object that any link declares exists, and from LoadDelay until Cleanup it stays switched on with all of them in place |
| TwoControllers.AlwaysUpIff | internal/controller/topology_controller.go:83-104 | "Active means all link objects exist" holds after every event of a run if and only if no reconcile of the run is that losing one |
| LinkLifetime.StoredRefsDecode | internal/controller/topology_controller.go:164-181 | what an application stores is exactly what a deactivation deletes |
| LinkLifetime.ActiveKnowsItsLinks | internal/controller/topology_controller.go:134-187 | at any point of any run the references of an Active topology decode to exactly the objects its links declare, and an Inactive one has none |
| LinkLifetime.DeactivationSafeIff | internal/controller/topology_controller.go:98-103 | a deactivation keeps "Active means up" if and only if it fails before the deletes, every delete fails, or one of its two status writes succeeds |
| LinkLifetime.InactiveMeansDownIff | internal/controller/topology_controller.go:163-187 | at any point of any run, a deactivation that reaches Inactive has removed all link objects if and only if there was none, or the topology had its references stored and no delete of an existing link object failed |
| LinkLifetime.HalfApplicationStays | internal/controller/topology_controller.go:122-135 | an application that stops half way stores no references: switched off afterwards, the topology is Inactive with a link object still in place |
| ChaosLifetime.ChaosAccounted | internal/controller/experiment_controller.go:429-519 | in every run, whichever patches, writes, creations and deletes fail and are retried, the experiment's chaos objects are exactly the held and the leaked ones: held are those of the last successful application, all that the references decode to during ChaosMeasurement, until Cleanup deletes them; leaked are those of a fault that failed half way, those of an application whose status patch was lost, and those that a rollback or a Cleanup that moved on could not delete; no reference ever decodes to a leaked one |
| ChaosLifetime.LostPatchLeaksIff | internal/controller/experiment_controller.go:455-461 | a status patch lost after a successful application leaves objects without a reference if and only if the chaos phase has a fault of a known type |
| ChaosLifetime.ChaosLivesBetween | internal/controller/chaosphase.go:29-86 | if patches, result writes and deletes succeed and thresholds are valid, the chaos objects are exactly those its references decode to in ChaosMeasurement and Cleanup, and none in any other sub-phase unless applying the chaos has just failed |
| ChaosLifetime.FailedApplicationIsCleanIff | internal/controller/experiment_controller.go:443-449 | a failed application leaves none of the experiment's objects if and only if no delete of its rollback fails and the failing fault could not create its first stress object |

## Left out

- PyFlink, Kafka, checkpoints, pickling and sinks: operators are methods over explicit state; the keyed case state is a map and the flush visits its cases in any order.
- `heuristics_miner.apply_dfg` is any function from counters to a net; nothing is said about the mined net but that it is well formed.
- Parallel arcs between one place and one transition are merged into one arc with the summed weight.
- The heap array is a set of entries with unique insertion numbers, so the heap's own sift operations are not modelled; popping takes the least by cost and insertion order.
- `ParseKafkaEvent`, the shard key, timestamp assigners and `CollectLatestScoresOperator`: they would only add easy members. `on_timer` is never registered in the source and is not modelled.
- The case table's `log_model_structure` output and all logging.
- Floating-point rounding, query results that are infinite or not a number, and `int32` overflow of counters and seconds.
- Kubernetes objects are reduced to their keys: the specs inside NetworkChaos and StressChaos, namespaces, resource quotas and labels are not modelled, nor are the objects that manifests deploy.
- Custom faults with raw manifests, whose object names are not the controller's own.
- Deletion of a Topology through its finalizer, and changes of its links or of any spec during a run.
- A call that reports an error after it took effect; here a failing call changes nothing.
- `ExperimentRuns.Step`: one reconcile is one atomic step that reads the current objects; stale caches and concurrent reconciles of one object are not modelled.
- The status fields CompletionTime, StartTime, Conditions, SloResults and AggregateScore, and the requeue times.
- A results ConfigMap whose JSON no longer parses, which the source silently starts anew.
- Ensuring the zones of a topology is one call that succeeds or fails.
