/** The order and the length of the sub-phases of a run, said by the specification alone. */
module Itinerary {
  import opened SloScores
  import opened ChaosPhases
  import opened FaultObjects
  import opened ExperimentModel
  import opened TopologyModel
  import opened ExperimentRuns
  import opened MeasurementWindows

  /** The sub-phases of one repetition: the topology is only waited for, and chaos only applied, if the
      specification names them. */
  function Course(spec: Spec): seq<SubPhase> {
    [Idle, Deploying] + (if spec.hasTopology then [TopologyDelay, WaitingForTopology] else []) +
    [LoadDelay, PreChaosMeasurement] + (if spec.hasChaosPhase then [ApplyingChaos] else []) +
    [ChaosMeasurement, Cleanup]
  }

  /** How many repetitions are asked for; none means one. */
  function Planned(spec: Spec): int {
    if spec.repetitions == 0 then 1 else spec.repetitions
  }

  /** The n-th repetition, and the pause after it if there is one and another repetition follows. */
  function Tour(spec: Spec, n: nat): seq<SubPhase> {
    Course(spec) + if n < Planned(spec) && spec.pauseBetweenRepetitions > 0 then [Pause] else []
  }

  function Tours(spec: Spec, n: nat): seq<SubPhase> {
    if n == 0 then [] else Tours(spec, n - 1) + Tour(spec, n)
  }

  /** The sub-phases that a run has been in, in order. */
  function Visited(spec: Spec, tspec: TopologySpec, w0: World, events: seq<Event>): seq<SubPhase>
    requires ValidSpec(spec) && ValidStatus(spec, w0.status)
  {
    if events == [] then [w0.status.subPhase] else
      var front := events[..|events| - 1];
      var p, p' := Run(spec, tspec, w0, front).status.subPhase, Run(spec, tspec, w0, events).status.subPhase;
      Visited(spec, tspec, w0, front) + if p' == p then [] else [p']
  }

  /** The length the specification gives a sub-phase. */
  function Length(spec: Spec, p: SubPhase): int {
    match p
    case TopologyDelay => spec.topologyDelay.GetOr(0)
    case LoadDelay => spec.loadDelay.GetOr(0)
    case PreChaosMeasurement => spec.chaosDelay.GetOr(0)
    case ChaosMeasurement => spec.measurementDuration.GetOr(60)
    case Pause => spec.pauseBetweenRepetitions
    case _ => 0
  }

  predicate HasLength(p: SubPhase) {
    p.TopologyDelay? || p.LoadDelay? || p.PreChaosMeasurement? || p.ChaosMeasurement? || p.Pause?
  }

  // ---------- one step ----------

  /** The sub-phase after `p` within a repetition. */
  predicate GoesTo(spec: Spec, p: SubPhase, p': SubPhase) {
    match p
    case Idle => p'.Deploying?
    case Deploying => if spec.hasTopology then p'.TopologyDelay? else p'.LoadDelay?
    case TopologyDelay => p'.WaitingForTopology?
    case WaitingForTopology => p'.LoadDelay?
    case LoadDelay => p'.PreChaosMeasurement?
    case PreChaosMeasurement => if spec.hasChaosPhase then p'.ApplyingChaos? else p'.ChaosMeasurement?
    case ApplyingChaos => p'.ChaosMeasurement?
    case ChaosMeasurement => p'.Cleanup?
    case Cleanup => false
    case Pause => p'.Idle?
  }

  /** The phase is Pending until the first deployment begins, then Running until the run ends. */
  predicate PhaseMoves(st: Status, st': Status) {
    if Terminal(st) then st'.phase == st.phase
    else if st'.subPhase != st.subPhase && st'.subPhase.Deploying? then st'.phase.Running?
    else st'.phase == st.phase || Terminal(st')
  }

  ghost predicate StatusMoves(spec: Spec, st: Status, st': Status) {
    || (st'.subPhase == st.subPhase && st'.completed == st.completed && st'.duration == st.duration)
    || (st'.completed == st.completed && GoesTo(spec, st.subPhase, st'.subPhase)
        && (HasLength(st'.subPhase) ==> st'.duration == Length(spec, st'.subPhase)))
    || (st'.completed == st.completed + 1 && st.subPhase.Cleanup? && st.completed < Planned(spec)
        && (if st'.completed < Planned(spec) && spec.pauseBetweenRepetitions > 0
            then st'.subPhase.Pause? && st'.duration == spec.pauseBetweenRepetitions
            else st'.subPhase.Idle?))
  }

  lemma RoundMoves(spec: Spec, w: World, input: Input, next: SubPhase)
    requires ValidSpec(spec) && ValidStatus(spec, w.status) && Measuring(w.status.subPhase)
    requires next == if w.status.subPhase.PreChaosMeasurement? then ApplyingChaos else Cleanup
    ensures var st' := MeasurementStep(spec, w, input, next).status;
            && StatusMoves(spec, w.status, st') && (st'.phase == w.status.phase || st'.phase.Failed?)
            && !st'.subPhase.Deploying?
  {
    hide RecordRound, StatesOrInitial, LinesOf, ValidSpec, SampleInterval, Samples;
  }

  lemma CleanupMoves(spec: Spec, w: World, input: Input)
    requires w.status.subPhase.Cleanup? && w.status.completed < Planned(spec)
    ensures var st' := CleanupStep(spec, w, input).status;
            && StatusMoves(spec, w.status, st') && (st'.phase == w.status.phase || st'.phase.Failed?)
            && !st'.subPhase.Deploying?
  {
    hide Deactivated, CleanupRefs, CleanupResult;
  }

  lemma OtherMoves(spec: Spec, w: World, input: Input)
    requires ValidSpec(spec) && ValidStatus(spec, w.status) && Dispatches(spec, w.status)
    requires !Measuring(w.status.subPhase) && !w.status.subPhase.Cleanup?
    ensures var st' := ExperimentStep(spec, w, input).status;
            StatusMoves(spec, w.status, st') && PhaseMoves(w.status, st') && !st'.phase.Succeeded?
  {
    hide Deactivated, Activated, CanActivate, ApplyFaults, CleanupRefs, OwnedNames, RolesOf, Deploys, ValidSpec,
         MeasurementStep, CleanupStep;
  }

  lemma StepMoves(spec: Spec, w: World, input: Input)
    requires ValidSpec(spec) && ValidStatus(spec, w.status)
    ensures StatusMoves(spec, w.status, ExperimentStep(spec, w, input).status)
    ensures PhaseMoves(w.status, ExperimentStep(spec, w, input).status)
    ensures ExperimentStep(spec, w, input).status.phase.Succeeded? ==>
              w.status.phase.Succeeded? || w.status.completed >= Planned(spec)
  {
    if Dispatches(spec, w.status) {
      hide ExperimentStep, MeasurementStep, CleanupStep, StatusMoves;
      if Measuring(w.status.subPhase) {
        DispatchedTo(spec, w, input);
        RoundMoves(spec, w, input, if w.status.subPhase.PreChaosMeasurement? then ApplyingChaos else Cleanup);
      } else if w.status.subPhase.Cleanup? {
        DispatchedTo(spec, w, input);
        CleanupMoves(spec, w, input);
      } else {
        OtherMoves(spec, w, input);
      }
    } else {
      hide DispatchStep;
    }
  }

  // ---------- whole runs ----------

  /** The j-th sub-phase of the course is the current one, after all completed tours. */
  ghost predicate UnderWay(spec: Spec, st: Status, visited: seq<SubPhase>, j: nat) {
    j < |Course(spec)| && Course(spec)[j] == st.subPhase && visited == Tours(spec, st.completed) + Course(spec)[..j + 1]
  }

  ghost predicate OnTour(spec: Spec, st: Status, visited: seq<SubPhase>) {
    && (if st.subPhase.Pause? then visited == Tours(spec, st.completed)
        else exists j: nat :: UnderWay(spec, st, visited, j))
    && (HasLength(st.subPhase) ==> st.duration == Length(spec, st.subPhase))
    && (st.completed > 0 ==> st.completed <= Planned(spec))
    && (st.phase.Succeeded? ==> st.completed >= Planned(spec))
    && visited != [] && visited[|visited| - 1] == st.subPhase
    && (st.phase.Pending? ==> visited == [Idle]) && (st.phase.Running? ==> |visited| > 1)
  }

  lemma CourseGoes(spec: Spec, j: nat, p': SubPhase)
    requires j < |Course(spec)| && GoesTo(spec, Course(spec)[j], p')
    ensures j + 1 < |Course(spec)| && Course(spec)[j + 1] == p'
  {}

  lemma CourseEnds(spec: Spec, j: nat)
    requires j < |Course(spec)| && Course(spec)[j].Cleanup?
    ensures j == |Course(spec)| - 1
  {}

  lemma CourseBegins(spec: Spec)
    ensures |Course(spec)| > 0 && Course(spec)[0].Idle? && Course(spec)[..1] == [Idle]
    ensures forall j | 0 <= j < |Course(spec)| :: !Course(spec)[j].Pause?
  {}

  /** Going on within a repetition, or from a pause into the next one. */
  lemma GoesOn(spec: Spec, st: Status, st': Status, visited: seq<SubPhase>)
    requires OnTour(spec, st, visited) && st'.completed == st.completed && GoesTo(spec, st.subPhase, st'.subPhase)
    ensures exists j: nat :: UnderWay(spec, st', visited + [st'.subPhase], j)
    ensures !st'.subPhase.Pause?
  {
    hide Course, Tours;
    CourseBegins(spec);
    if st.subPhase.Pause? {
      assert UnderWay(spec, st', visited + [st'.subPhase], 0);
    } else {
      var j: nat :| UnderWay(spec, st, visited, j);
      CourseGoes(spec, j, st'.subPhase);
      assert Course(spec)[..j + 2] == Course(spec)[..j + 1] + [Course(spec)[j + 1]];
      assert UnderWay(spec, st', visited + [st'.subPhase], j + 1);
    }
  }

  lemma Completes(spec: Spec, st: Status, st': Status, visited: seq<SubPhase>)
    requires OnTour(spec, st, visited) && st'.completed == st.completed + 1 && st.subPhase.Cleanup?
    requires if st'.completed < Planned(spec) && spec.pauseBetweenRepetitions > 0
             then st'.subPhase.Pause? else st'.subPhase.Idle?
    ensures if st'.subPhase.Pause? then visited + [st'.subPhase] == Tours(spec, st'.completed)
            else UnderWay(spec, st', visited + [st'.subPhase], 0)
  {
    hide Course;
    CourseBegins(spec);
    var j: nat :| UnderWay(spec, st, visited, j);
    CourseEnds(spec, j);
    var course := Course(spec);
    assert course[..|course|] == course && course + [] == course;
    if st'.subPhase.Pause? {
      assert Tours(spec, st.completed) + course + [Pause] == Tours(spec, st.completed) + (course + [Pause]);
    }
  }

  lemma StaysOnTour(spec: Spec, st: Status, st': Status, visited: seq<SubPhase>)
    requires OnTour(spec, st, visited) && StatusMoves(spec, st, st') && PhaseMoves(st, st')
    requires st'.phase.Succeeded? ==> st.phase.Succeeded? || st.completed >= Planned(spec)
    ensures OnTour(spec, st', visited + if st'.subPhase == st.subPhase then [] else [st'.subPhase])
  {
    hide Course, Tours, UnderWay;
    if st'.subPhase == st.subPhase && st'.completed == st.completed {
      assert visited + [] == visited;
      SameWay(spec, st, st', visited);
    } else if st'.completed == st.completed {
      GoesOn(spec, st, st', visited);
      assert st.subPhase != st'.subPhase;
    } else {
      Completes(spec, st, st', visited);
    }
  }

  lemma SameWay(spec: Spec, st: Status, st': Status, visited: seq<SubPhase>)
    requires st'.subPhase == st.subPhase && st'.completed == st.completed
    ensures forall j: nat :: UnderWay(spec, st, visited, j) <==> UnderWay(spec, st', visited, j)
  {}

  lemma {:induction false} RunStaysOnTour(spec: Spec, tspec: TopologySpec, w0: World, events: seq<Event>)
    requires ValidSpec(spec) && Fresh(w0)
    ensures OnTour(spec, Run(spec, tspec, w0, events).status, Visited(spec, tspec, w0, events))
  {
    if events == [] {
      CourseBegins(spec);
      assert UnderWay(spec, w0.status, [Idle], 0);
    } else {
      hide OnTour, Step, StatusMoves;
      var front, e := events[..|events| - 1], events[|events| - 1];
      RunStaysOnTour(spec, tspec, w0, front);
      var w, visited := Run(spec, tspec, w0, front), Visited(spec, tspec, w0, front);
      StepStaysOnTour(spec, tspec, w, e, visited);
    }
  }

  lemma StepStaysOnTour(spec: Spec, tspec: TopologySpec, w: World, e: Event, visited: seq<SubPhase>)
    requires ValidSpec(spec) && ValidStatus(spec, w.status) && OnTour(spec, w.status, visited)
    ensures var st' := Step(spec, tspec, w, e).status;
            OnTour(spec, st', visited + if st'.subPhase == w.status.subPhase then [] else [st'.subPhase])
  {
    hide OnTour, StatusMoves, ExperimentStep, TopologyStep;
    match e
    case TopologyReconcile(input) =>
      TopologyStepKeeps(tspec, w, input);
      assert visited + [] == visited;
    case ExperimentReconcile(input) =>
      StepMoves(spec, w, input);
      StaysOnTour(spec, w.status, ExperimentStep(spec, w, input).status, visited);
  }

  /** Whatever fails and whatever the topology controller does: a run visits the sub-phases of one
      repetition after the other in their order, each tour in full before the next begins; it never completes
      more repetitions than planned, and succeeds only when all are completed; it is Pending before its
      first deployment and Running from then on until it ends. */
  lemma ItineraryFollowed(spec: Spec, tspec: TopologySpec, w0: World, events: seq<Event>)
    requires ValidSpec(spec) && Fresh(w0)
    ensures var (st, visited) := (Run(spec, tspec, w0, events).status, Visited(spec, tspec, w0, events));
            && (if st.subPhase.Pause? then visited == Tours(spec, st.completed)
                else exists j: nat :: UnderWay(spec, st, visited, j))
            && (st.completed > 0 ==> st.completed <= Planned(spec))
            && (st.phase.Succeeded? ==> st.completed >= Planned(spec))
            && (st.phase.Pending? ==> visited == [Idle]) && (st.phase.Running? ==> |visited| > 1)
  {
    hide Run, Visited, UnderWay, Tours;
    RunStaysOnTour(spec, tspec, w0, events);
  }

  // ---------- when a sub-phase is left, and when a run fails ----------

  predicate OnGrid(spec: Spec, elapsed: nat)
    requires ValidSpec(spec)
  {
    elapsed == 0 || elapsed % spec.sampleInterval.GetOr(5) == 0
  }

  predicate Refuses(m: Manifests, refused: set<string>) {
    (m.sut && "sut" in refused) || (m.infra && "infra" in refused) || (m.monitor && "monitor" in refused)
    || (m.load && "load" in refused)
  }

  predicate CanSwitchOn(w: World, input: Input) {
    input.topologyReadOk && w.topology.Some? && (w.topology.value.active || input.topologyPatchOk)
  }

  ghost predicate CanApply(w: World, input: Input) {
    input.chaosPhase.Some? &&
    var cp := input.chaosPhase.value;
    Applicable(cp.topology, w.status.experimentId, cp.faults, w.objects, input.refused)
  }

  predicate CanReport(spec: Spec, st: Status, input: Input) {
    input.resultsOk && AllHaveScores(SloByName(spec.slos), st.measurement)
  }

  /** What this sub-phase waits for has come. */
  ghost predicate Due(spec: Spec, w: World, input: Input)
    requires ValidSpec(spec)
  {
    match w.status.subPhase
    case WaitingForTopology =>
      input.topologyReadOk
      && ((w.topology.Some? && (w.topology.value.phase.Active? || w.topology.value.phase.FailedToApply?))
          || input.elapsed > 300)
    case PreChaosMeasurement => OnGrid(spec, input.elapsed) && input.elapsed >= Length(spec, PreChaosMeasurement)
    case ChaosMeasurement => OnGrid(spec, input.elapsed) && input.elapsed >= Length(spec, ChaosMeasurement)
    case p => HasLength(p) ==> input.elapsed >= Length(spec, p)
  }

  /** What it then does succeeds. */
  ghost predicate Works(spec: Spec, w: World, input: Input) {
    match w.status.subPhase
    case Deploying => !Refuses(spec.manifests, input.refusedRoles)
    case TopologyDelay => CanSwitchOn(w, input)
    case WaitingForTopology => w.topology.Some? && w.topology.value.phase.Active?
    case PreChaosMeasurement => input.measurementsOk
    case ApplyingChaos => CanApply(w, input)
    case ChaosMeasurement => input.measurementsOk
    case Cleanup => CanReport(spec, w.status, input)
    case _ => true
  }

  /** The sub-phase is left if it is due and works, and the run fails if it is due and does not. */
  ghost predicate LeavesOrFails(spec: Spec, w: World, input: Input, st': Status)
    requires ValidSpec(spec)
  {
    && (st'.subPhase != w.status.subPhase <==> input.patchOk && Due(spec, w, input) && Works(spec, w, input))
    && (st'.phase.Failed? <==> input.patchOk && Due(spec, w, input) && !Works(spec, w, input))
  }

  lemma RoundLeaves(spec: Spec, w: World, input: Input, next: SubPhase)
    requires ValidSpec(spec) && ValidStatus(spec, w.status) && Measuring(w.status.subPhase) && !Terminal(w.status)
    requires next == if w.status.subPhase.PreChaosMeasurement? then ApplyingChaos else Cleanup
    requires w.status.duration == Length(spec, w.status.subPhase)
    ensures LeavesOrFails(spec, w, input, MeasurementStep(spec, w, input, next).status)
  {
    hide RecordRound, StatesOrInitial, LinesOf;
  }

  lemma ApplyingLeaves(spec: Spec, w: World, input: Input)
    requires ValidSpec(spec) && w.status.subPhase.ApplyingChaos? && !Terminal(w.status)
    ensures LeavesOrFails(spec, w, input, ApplyingChaosStep(spec, w, input).status)
  {
    if input.chaosPhase.Some? {
      var cp := input.chaosPhase.value;
      ApplyIff(cp.topology, w.status.experimentId, cp.faults, w.objects, input.refused);
    }
    hide ApplyFaults, Applicable, CleanupRefs, ValidSpec;
  }

  lemma CleanupLeaves(spec: Spec, w: World, input: Input)
    requires ValidSpec(spec) && w.status.subPhase.Cleanup? && !Terminal(w.status)
    ensures LeavesOrFails(spec, w, input, CleanupStep(spec, w, input).status)
  {
    hide Deactivated, CleanupRefs, AllHaveScores, ValidSpec;
  }

  lemma TopologyLeaves(spec: Spec, w: World, input: Input)
    requires ValidSpec(spec) && !Terminal(w.status)
    ensures w.status.subPhase.TopologyDelay? && w.status.duration == Length(spec, TopologyDelay) ==>
              LeavesOrFails(spec, w, input, TopologyDelayStep(spec, w, input).status)
    ensures w.status.subPhase.WaitingForTopology? ==> LeavesOrFails(spec, w, input, WaitingStep(spec, w, input).status)
  {
    hide Deactivated, Activated, ValidSpec;
  }

  lemma DeployingLeaves(spec: Spec, w: World, input: Input)
    requires ValidSpec(spec) && !Terminal(w.status) && w.status.subPhase.Deploying?
    ensures LeavesOrFails(spec, w, input, DeployingStep(spec, w, input).status)
  {
    DeploysIff(spec, input);
    hide OwnedNames, RolesOf, Deploys, ValidSpec;
  }

  lemma OtherLeaves(spec: Spec, w: World, input: Input)
    requires ValidSpec(spec) && ValidStatus(spec, w.status) && Dispatches(spec, w.status)
    requires !Measuring(w.status.subPhase) && !w.status.subPhase.ApplyingChaos? && !w.status.subPhase.Cleanup?
    requires HasLength(w.status.subPhase) ==> w.status.duration == Length(spec, w.status.subPhase)
    ensures LeavesOrFails(spec, w, input, ExperimentStep(spec, w, input).status)
  {
    hide TopologyDelayStep, WaitingStep, DeployingStep, ValidSpec, MeasurementStep, ApplyingChaosStep, CleanupStep,
         Refuses, CanSwitchOn, CanApply, CanReport, OnGrid;
    TopologyLeaves(spec, w, input);
    if w.status.subPhase.Deploying? {
      DeployingLeaves(spec, w, input);
    }
  }

  lemma StepLeaves(spec: Spec, w: World, input: Input)
    requires ValidSpec(spec) && ValidStatus(spec, w.status) && Dispatches(spec, w.status)
    requires HasLength(w.status.subPhase) ==> w.status.duration == Length(spec, w.status.subPhase)
    ensures LeavesOrFails(spec, w, input, ExperimentStep(spec, w, input).status)
  {
    hide ExperimentStep, MeasurementStep, ApplyingChaosStep, CleanupStep, LeavesOrFails, ValidSpec;
    DispatchedTo(spec, w, input);
    if Measuring(w.status.subPhase) {
      RoundLeaves(spec, w, input, if w.status.subPhase.PreChaosMeasurement? then ApplyingChaos else Cleanup);
    } else if w.status.subPhase.ApplyingChaos? {
      ApplyingLeaves(spec, w, input);
    } else if w.status.subPhase.Cleanup? {
      CleanupLeaves(spec, w, input);
    } else {
      OtherLeaves(spec, w, input);
    }
  }

  /** At any point of any run a reconcile leaves the current sub-phase if and only if what the sub-phase
      waits for has come, by the lengths in the specification, and what it then does succeeds; and the run
      fails if and only if that has come and does not succeed. A lost patch changes neither. */
  lemma LeavesOrFailsIff(spec: Spec, tspec: TopologySpec, w0: World, events: seq<Event>, input: Input)
    requires ValidSpec(spec) && Fresh(w0) && Dispatches(spec, Run(spec, tspec, w0, events).status)
    ensures var w := Run(spec, tspec, w0, events);
            LeavesOrFails(spec, w, input, ExperimentStep(spec, w, input).status)
  {
    hide Run, Visited, LeavesOrFails, UnderWay, Tours, ExperimentStep;
    RunStaysOnTour(spec, tspec, w0, events);
    StepLeaves(spec, Run(spec, tspec, w0, events), input);
  }

  // ---------- the seconds shown in the status ----------

  /** A reconcile that stays shows its reading: on the sampling grid, or with a topology it could read. */
  predicate ShowsReading(spec: Spec, w: World, input: Input)
    requires ValidSpec(spec)
  {
    input.patchOk
    && (Measuring(w.status.subPhase) ==> OnGrid(spec, input.elapsed))
    && (w.status.subPhase.WaitingForTopology? ==> input.topologyReadOk)
  }

  ghost predicate ElapsedFits(spec: Spec, w: World, input: Input, st': Status)
    requires ValidSpec(spec)
  {
    st'.elapsed == if st'.subPhase != w.status.subPhase then 0
                   else if ShowsReading(spec, w, input) && !st'.phase.Failed? then input.elapsed
                   else w.status.elapsed
  }

  lemma RoundShows(spec: Spec, w: World, input: Input, next: SubPhase)
    requires ValidSpec(spec) && ValidStatus(spec, w.status) && Measuring(w.status.subPhase) && !Terminal(w.status)
    requires next == if w.status.subPhase.PreChaosMeasurement? then ApplyingChaos else Cleanup
    ensures ElapsedFits(spec, w, input, MeasurementStep(spec, w, input, next).status)
  {
    hide RecordRound, StatesOrInitial, LinesOf;
  }

  lemma OtherShows(spec: Spec, w: World, input: Input)
    requires ValidSpec(spec) && ValidStatus(spec, w.status) && Dispatches(spec, w.status)
    requires !Measuring(w.status.subPhase)
    ensures ElapsedFits(spec, w, input, ExperimentStep(spec, w, input).status)
  {
    hide Deactivated, Activated, CanActivate, ApplyFaults, CleanupRefs, OwnedNames, RolesOf, Deploys, ValidSpec,
         MeasurementStep, CleanupResult, OnGrid;
  }

  /** While a run is under way the status shows zero seconds when a sub-phase begins, and afterwards the last
      reading that could be patched in. */
  lemma ElapsedIsShown(spec: Spec, w: World, input: Input)
    requires ValidSpec(spec) && ValidStatus(spec, w.status) && Dispatches(spec, w.status)
    ensures ElapsedFits(spec, w, input, ExperimentStep(spec, w, input).status)
  {
    hide ExperimentStep, MeasurementStep, ElapsedFits, ValidSpec;
    if Measuring(w.status.subPhase) {
      DispatchedTo(spec, w, input);
      RoundShows(spec, w, input, if w.status.subPhase.PreChaosMeasurement? then ApplyingChaos else Cleanup);
    } else {
      OtherShows(spec, w, input);
    }
  }
}
