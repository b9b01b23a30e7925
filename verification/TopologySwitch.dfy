/** When the topology is switched on and off, and what the topology controller then makes of it. */
module TopologySwitch {
  import opened Wrappers
  import opened ChaosPhases
  import opened ExperimentModel
  import opened TopologyModel
  import opened ExperimentRuns
  import opened Itinerary

  predicate SwitchedOn(w: World) {
    w.topology.Some? && w.topology.value.active
  }

  // ---------- the switch ----------

  /** The topology can be read, and patched if that changes the switch. */
  predicate CanSwitch(w: World, input: Input, on: bool) {
    input.topologyReadOk && w.topology.Some? && (w.topology.value.active == on || input.topologyPatchOk)
  }

  /** The switch after a reconcile. */
  ghost predicate SwitchFits(spec: Spec, w: World, input: Input, w': World)
    requires ValidSpec(spec)
  {
    SwitchedOn(w') <==>
      match w.status.subPhase
      case TopologyDelay => SwitchedOn(w) || (Due(spec, w, input) && CanSwitch(w, input, true))
      case WaitingForTopology =>
        SwitchedOn(w) && !(Due(spec, w, input) && !w.topology.value.phase.Active? && CanSwitch(w, input, false))
      case Cleanup => SwitchedOn(w) && !(spec.hasTopology && CanSwitch(w, input, false))
      case _ => SwitchedOn(w)
  }

  /** At any point of any run: only the end of the topology delay switches on, and only a wait that fails
      and a Cleanup switch off, each exactly if the topology can be read and patched. */
  lemma SwitchIff(spec: Spec, tspec: TopologySpec, w0: World, events: seq<Event>, input: Input)
    requires ValidSpec(spec) && Fresh(w0) && Dispatches(spec, Run(spec, tspec, w0, events).status)
    ensures var w := Run(spec, tspec, w0, events); SwitchFits(spec, w, input, ExperimentStep(spec, w, input))
  {
    hide Run, Visited, SwitchFits, UnderWay, Tours, ExperimentStep, TopologyDelayStep, WaitingStep, CleanupStep;
    RunStaysOnTour(spec, tspec, w0, events);
    var w := Run(spec, tspec, w0, events);
    Handled(spec, w, input);
    match w.status.subPhase {
      case TopologyDelay => TopologySwitches(spec, w, input);
      case WaitingForTopology => TopologySwitches(spec, w, input);
      case Cleanup => CleanupSwitches(spec, w, input);
      case _ => OthersSwitchNothing(spec, w, input);
    }
  }

  lemma TopologySwitches(spec: Spec, w: World, input: Input)
    requires ValidSpec(spec)
    ensures w.status.subPhase.TopologyDelay? && w.status.duration == Length(spec, TopologyDelay) ==>
              SwitchFits(spec, w, input, TopologyDelayStep(spec, w, input))
    ensures w.status.subPhase.WaitingForTopology? ==> SwitchFits(spec, w, input, WaitingStep(spec, w, input))
  {}

  lemma CleanupSwitches(spec: Spec, w: World, input: Input)
    requires ValidSpec(spec) && w.status.subPhase.Cleanup?
    ensures SwitchFits(spec, w, input, CleanupStep(spec, w, input))
  {
    hide CleanupRefs, CleanupResult;
  }

  lemma OthersSwitchNothing(spec: Spec, w: World, input: Input)
    requires ValidSpec(spec) && ValidStatus(spec, w.status) && Dispatches(spec, w.status)
    requires !w.status.subPhase.TopologyDelay? && !w.status.subPhase.WaitingForTopology? && !w.status.subPhase.Cleanup?
    ensures SwitchFits(spec, w, input, ExperimentStep(spec, w, input))
  {
    SwitchStays(spec, w, input);
    hide ExperimentStep;
  }

  /** Only a change of the switch makes a new generation of the topology. */
  ghost predicate GenerationFits(w: World, w': World) {
    w'.topology.Some? == w.topology.Some? &&
    (w.topology.Some? ==>
       w'.topology.value.generation == w.topology.value.generation + if SwitchedOn(w') != SwitchedOn(w) then 1 else 0)
  }

  lemma ReconcileGeneration(spec: Spec, w: World, input: Input)
    requires ValidSpec(spec) && ValidStatus(spec, w.status)
    ensures GenerationFits(w, ExperimentStep(spec, w, input))
  {
    if Dispatches(spec, w.status) {
      hide ExperimentStep, CleanupRefs, CleanupResult, GenerationFits;
      match w.status.subPhase {
        case TopologyDelay => Handled(spec, w, input); HandledGeneration(spec, w, input);
        case WaitingForTopology => Handled(spec, w, input); HandledGeneration(spec, w, input);
        case Cleanup => Handled(spec, w, input); HandledGeneration(spec, w, input);
        case _ => SwitchStays(spec, w, input); SameGeneration(w, ExperimentStep(spec, w, input));
      }
    } else {
      hide DispatchStep;
    }
  }

  lemma SameGeneration(w: World, w': World)
    requires w'.topology == w.topology
    ensures GenerationFits(w, w')
  {}

  lemma HandledGeneration(spec: Spec, w: World, input: Input)
    ensures GenerationFits(w, TopologyDelayStep(spec, w, input)) && GenerationFits(w, WaitingStep(spec, w, input))
    ensures GenerationFits(w, CleanupStep(spec, w, input))
  {
    hide CleanupRefs, CleanupResult;
  }

  /** How often a run has changed the switch. */
  function Switches(spec: Spec, tspec: TopologySpec, w0: World, events: seq<Event>): nat
    requires ValidSpec(spec) && ValidStatus(spec, w0.status)
  {
    if events == [] then 0 else
      var front := events[..|events| - 1];
      Switches(spec, tspec, w0, front) +
      if SwitchedOn(Run(spec, tspec, w0, events)) != SwitchedOn(Run(spec, tspec, w0, front)) then 1 else 0
  }

  /** In every run the generation counts the changes of the switch. */
  lemma {:induction false} GenerationCounts(spec: Spec, tspec: TopologySpec, w0: World, events: seq<Event>)
    requires ValidSpec(spec) && ValidStatus(spec, w0.status) && w0.topology.Some?
    ensures var w := Run(spec, tspec, w0, events);
            && w.topology.Some?
            && w.topology.value.generation == w0.topology.value.generation + Switches(spec, tspec, w0, events)
  {
    if events != [] {
      hide ExperimentStep, TopologyStep, SwitchedOn;
      var front, e := events[..|events| - 1], events[|events| - 1];
      GenerationCounts(spec, tspec, w0, front);
      var w := Run(spec, tspec, w0, front);
      match e
      case ExperimentReconcile(input) => ReconcileGeneration(spec, w, input);
      case TopologyReconcile(input) => TopologyKeepsSwitch(tspec, w, input);
    }
  }

  /** The sub-phases between two repetitions. */
  predicate Between(p: SubPhase) {
    p.Idle? || p.Deploying? || p.Pause?
  }

  /** The topology is off between repetitions, and always if the specification names none. */
  ghost predicate OffWhenIdle(spec: Spec, w: World) {
    && (Between(w.status.subPhase) || !spec.hasTopology ==> !SwitchedOn(w))
    && (w.status.subPhase.TopologyDelay? ==> spec.hasTopology)
  }

  /** If it is a Cleanup it can switch the topology off. */
  ghost predicate CanSwitchOff(w: World, e: Event) {
    e.ExperimentReconcile? && w.status.subPhase.Cleanup? ==> e.input.topologyReadOk && e.input.topologyPatchOk
  }

  ghost predicate SwitchesOff(spec: Spec, tspec: TopologySpec, w0: World, events: seq<Event>)
    requires ValidSpec(spec) && ValidStatus(spec, w0.status)
  {
    events == [] ||
      var front, e := events[..|events| - 1], events[|events| - 1];
      SwitchesOff(spec, tspec, w0, front) && CanSwitchOff(Run(spec, tspec, w0, front), e)
  }

  /** Only three sub-phases touch the switch. */
  lemma SwitchStays(spec: Spec, w: World, input: Input)
    requires ValidSpec(spec) && ValidStatus(spec, w.status) && Dispatches(spec, w.status)
    requires !w.status.subPhase.TopologyDelay? && !w.status.subPhase.WaitingForTopology? && !w.status.subPhase.Cleanup?
    ensures ExperimentStep(spec, w, input).topology == w.topology
  {
    hide RecordRound, StatesOrInitial, LinesOf, Samples, ApplyFaults, CleanupRefs, OwnedNames, RolesOf, Deploys,
         ValidSpec, TopologyDelayStep, WaitingStep, CleanupStep;
  }

  lemma CleanupKeepsOff(spec: Spec, w: World, input: Input)
    requires OffWhenIdle(spec, w) && w.status.subPhase.Cleanup? && input.topologyReadOk && input.topologyPatchOk
    ensures OffWhenIdle(spec, CleanupStep(spec, w, input))
  {
    hide CleanupRefs, CleanupResult;
  }

  lemma WaitKeepsOff(spec: Spec, w: World, input: Input)
    requires OffWhenIdle(spec, w)
    ensures w.status.subPhase.TopologyDelay? ==> OffWhenIdle(spec, TopologyDelayStep(spec, w, input))
    ensures w.status.subPhase.WaitingForTopology? ==> OffWhenIdle(spec, WaitingStep(spec, w, input))
  {}

  lemma ReconcileKeepsOff(spec: Spec, w: World, input: Input)
    requires ValidSpec(spec) && ValidStatus(spec, w.status) && OffWhenIdle(spec, w)
    requires CanSwitchOff(w, ExperimentReconcile(input))
    ensures OffWhenIdle(spec, ExperimentStep(spec, w, input))
  {
    if !Dispatches(spec, w.status) {
      hide DispatchStep;
    } else {
      hide TopologyDelayStep, WaitingStep, CleanupStep, StatusMoves, OffWhenIdle, ValidSpec, ExperimentStep;
      match w.status.subPhase {
        case TopologyDelay => WaitKeepsOff(spec, w, input); Handled(spec, w, input);
        case WaitingForTopology => WaitKeepsOff(spec, w, input); Handled(spec, w, input);
        case Cleanup => CleanupKeepsOff(spec, w, input); Handled(spec, w, input);
        case _ =>
          SwitchStays(spec, w, input);
          StepMoves(spec, w, input);
          StaysOff(spec, w, ExperimentStep(spec, w, input));
      }
    }
  }

  lemma Handled(spec: Spec, w: World, input: Input)
    requires ValidSpec(spec) && ValidStatus(spec, w.status) && Dispatches(spec, w.status)
    ensures w.status.subPhase.TopologyDelay? ==> ExperimentStep(spec, w, input) == TopologyDelayStep(spec, w, input)
    ensures w.status.subPhase.WaitingForTopology? ==> ExperimentStep(spec, w, input) == WaitingStep(spec, w, input)
    ensures w.status.subPhase.Cleanup? ==> ExperimentStep(spec, w, input) == CleanupStep(spec, w, input)
  {
    hide TopologyDelayStep, WaitingStep, CleanupStep, ValidSpec;
  }

  lemma StaysOff(spec: Spec, w: World, w': World)
    requires OffWhenIdle(spec, w) && w'.topology == w.topology && StatusMoves(spec, w.status, w'.status)
    requires !w.status.subPhase.TopologyDelay? && !w.status.subPhase.WaitingForTopology? && !w.status.subPhase.Cleanup?
    ensures OffWhenIdle(spec, w')
  {}

  lemma TopologyKeepsSwitch(tspec: TopologySpec, w: World, input: TopologyInput)
    ensures SwitchedOn(TopologyStep(tspec, w, input)) == SwitchedOn(w)
    ensures GenerationFits(w, TopologyStep(tspec, w, input))
  {
    hide AllLinkKeys, DecodedLinks, LinkRefs, KeySet;
  }

  /** In every run whose Cleanups can read and patch the topology, it is switched off whenever no repetition
      is under way. */
  lemma {:induction false} OffBetweenRepetitions(spec: Spec, tspec: TopologySpec, w0: World, events: seq<Event>)
    requires ValidSpec(spec) && Fresh(w0) && !SwitchedOn(w0) && SwitchesOff(spec, tspec, w0, events)
    ensures OffWhenIdle(spec, Run(spec, tspec, w0, events))
  {
    if events != [] {
      hide ExperimentStep, TopologyStep, OffWhenIdle;
      var front, e := events[..|events| - 1], events[|events| - 1];
      OffBetweenRepetitions(spec, tspec, w0, front);
      var w := Run(spec, tspec, w0, front);
      match e
      case ExperimentReconcile(input) => ReconcileKeepsOff(spec, w, input);
      case TopologyReconcile(input) =>
        TopologyKeepsSwitch(tspec, w, input);
        TopologyStepKeeps(tspec, w, input);
        SameWhenIdle(spec, w, TopologyStep(tspec, w, input));
    }
  }

  lemma SameWhenIdle(spec: Spec, w: World, w': World)
    requires OffWhenIdle(spec, w) && w'.status == w.status && SwitchedOn(w') == SwitchedOn(w)
    ensures OffWhenIdle(spec, w')
  {}

  // ---------- what the topology controller makes of it ----------

  /** The state that the switch asks for has been reached for the current generation. */
  predicate InState(t: Topology) {
    t.observedGeneration == t.generation && if t.active then t.phase.Active? else t.phase.Inactive?
  }

  /** The ensuring of zones and links succeeds; without a link to ensure none can fail. */
  predicate EnsuresAll(tspec: TopologySpec, t: Topology, input: TopologyInput) {
    input.zonesOk && (t.active ==> input.failAt.None? || input.failAt.value >= |AllLinkKeys(tspec.name, tspec.links)|)
  }

  /** A topology without its finalizer only gets that. With it, one reconcile reaches the state the switch
      asks for if and only if it was reached already, or everything can be ensured and the update succeeds;
      what fails is recorded if that can be written, and otherwise nothing is. */
  lemma ReachesStateIff(tspec: TopologySpec, w: World, input: TopologyInput)
    requires w.topology.Some?
    ensures TopologyStep(tspec, w, input).topology.Some?
    ensures !w.topology.value.hasFinalizer ==>
              TopologyStep(tspec, w, input) ==
                w.(topology := Some(w.topology.value.(hasFinalizer := input.updateOk)))
    ensures w.topology.value.hasFinalizer ==>
            var (t, t') := (w.topology.value, TopologyStep(tspec, w, input).topology.value);
            && t'.active == t.active && t'.generation == t.generation
            && (InState(t') <==> InState(t) || (EnsuresAll(tspec, t, input) && input.updateOk))
            && (InState(t) ==> TopologyStep(tspec, w, input) == w)
            && (!InState(t') && input.phaseOk ==> t'.phase.FailedToApply?)
            && (!InState(t') && !input.phaseOk ==> t' == t)
  {
    hide AllLinkKeys, DecodedLinks, LinkRefs, KeySet;
  }
}
