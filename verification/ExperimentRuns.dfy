/** Runs: any interleaving of reconciles of the two controllers on the shared cluster. */
module ExperimentRuns {
  import opened ChaosPhases
  import opened ExperimentModel
  import opened TopologyModel

  datatype Event = ExperimentReconcile(input: Input) | TopologyReconcile(topologyInput: TopologyInput)

  function Step(spec: Spec, tspec: TopologySpec, w: World, e: Event): World
    requires ValidSpec(spec) && ValidStatus(spec, w.status)
  {
    match e
    case ExperimentReconcile(input) => ExperimentStep(spec, w, input)
    case TopologyReconcile(input) => TopologyStep(tspec, w, input)
  }

  /** Topology reconciles leave the experiment alone. */
  lemma TopologyStepKeeps(tspec: TopologySpec, w: World, input: TopologyInput)
    ensures var w' := TopologyStep(tspec, w, input);
            w'.status == w.status && w'.results == w.results && w'.measurements == w.measurements
  {}

  lemma StepKeepsValid(spec: Spec, tspec: TopologySpec, w: World, e: Event)
    requires ValidSpec(spec) && ValidStatus(spec, w.status)
    ensures ValidStatus(spec, Step(spec, tspec, w, e).status)
  {
    hide ExperimentStep, TopologyStep;
    match e
    case ExperimentReconcile(input) => ExperimentModel.StepKeepsValid(spec, w, input);
    case TopologyReconcile(input) => TopologyStepKeeps(tspec, w, input);
  }

  function Run(spec: Spec, tspec: TopologySpec, w: World, events: seq<Event>): (r: World)
    requires ValidSpec(spec) && ValidStatus(spec, w.status)
    ensures ValidStatus(spec, r.status)
  {
    if events == [] then w else
      var before := Run(spec, tspec, w, events[..|events| - 1]);
      StepKeepsValid(spec, tspec, before, events[|events| - 1]);
      Step(spec, tspec, before, events[|events| - 1])
  }

  /** A freshly created experiment. */
  predicate Fresh(w: World) {
    && w.status.phase.Pending? && w.status.subPhase.Idle? && w.status.completed == 0
    && w.status.measurement == [] && w.status.refs == [] && w.status.experimentId == ""
    && w.results == [] && w.measurements == []
  }

  predicate Dispatches(spec: Spec, st: Status) {
    !Terminal(st) && st.completed < Repetitions(spec)
  }

  lemma DispatchedTo(spec: Spec, w: World, input: Input)
    requires ValidSpec(spec) && ValidStatus(spec, w.status) && Dispatches(spec, w.status)
    ensures w.status.subPhase.PreChaosMeasurement? ==>
              ExperimentStep(spec, w, input) == MeasurementStep(spec, w, input, ApplyingChaos)
    ensures w.status.subPhase.ApplyingChaos? ==> ExperimentStep(spec, w, input) == ApplyingChaosStep(spec, w, input)
    ensures w.status.subPhase.ChaosMeasurement? ==>
              ExperimentStep(spec, w, input) == MeasurementStep(spec, w, input, Cleanup)
    ensures w.status.subPhase.Cleanup? ==> ExperimentStep(spec, w, input) == CleanupStep(spec, w, input)
  {
    hide ApplyingChaosStep, CleanupStep, MeasurementStep, ValidSpec;
  }

  /** Apart from Cleanup, no step touches the results or the count of completed repetitions. */
  lemma OnlyCleanupCompletes(spec: Spec, w: World, input: Input)
    requires ValidSpec(spec) && ValidStatus(spec, w.status)
    requires !(Dispatches(spec, w.status) && w.status.subPhase.Cleanup?)
    ensures var w' := ExperimentStep(spec, w, input);
            && w'.results == w.results && w'.status.completed == w.status.completed
            && (w.status.subPhase.Cleanup? ==> w'.status == w.status.(phase := w'.status.phase))
            && (w'.status.phase.Succeeded? && !w.status.phase.Succeeded? ==> w.status.completed >= Repetitions(spec))
  {
    hide Deactivated, Activated, CanActivate, Samples, LinesOf, ApplyFaults, CleanupRefs, RecordRound, StatesOrInitial,
         OwnedNames, Deploys, ValidSpec;
  }
}
