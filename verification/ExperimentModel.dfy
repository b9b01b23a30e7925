/** The experiment controller as a function: what one reconcile does to the cluster, given the
    clock reading, the query results and the outcome of every API call. */
module ExperimentModel {
  import opened Wrappers
  import opened ChaosRefs
  import opened ChaosPhases
  import opened SloScores

  datatype Phase = Pending | Running | Succeeded | Failed

  datatype SubPhase =
    | Idle | Deploying | TopologyDelay | WaitingForTopology | LoadDelay
    | PreChaosMeasurement | ApplyingChaos | ChaosMeasurement | Cleanup | Pause

  /** The fixed specification; optional durations are None where the manifest omits them. */
  datatype Spec = Spec(
    repetitions: int, pauseBetweenRepetitions: int,
    loadDelay: Option<int>, topologyDelay: Option<int>, chaosDelay: Option<int>,
    measurementDuration: Option<int>, sampleInterval: Option<int>,
    manifests: Manifests, hasTopology: bool, hasChaosPhase: bool, slos: seq<Slo>)

  /** Which manifest sets the specification names. */
  datatype Manifests = Manifests(sut: bool, infra: bool, monitor: bool, load: bool)

  /** The persisted status. `refs` are the owned ConfigMap names and the chaos references. */
  datatype Status = Status(
    phase: Phase, subPhase: SubPhase, duration: int, elapsed: nat, measurement: seq<SloState>,
    experimentId: string, completed: nat, refs: seq<string>)

  datatype TopologyPhase = Unset | Inactive | Active | FailedToApply

  datatype Topology = Topology(active: bool, generation: nat, observedGeneration: nat, phase: TopologyPhase,
                               refs: seq<string>, hasFinalizer: bool)

  /** One line of the measurements ConfigMap. */
  datatype Line = Line(repetition: nat, phase: SubPhase, slo: string, index: nat, value: real)

  /** The part of the cluster that the controllers share: `objects` are all chaos objects. */
  datatype World = World(status: Status, topology: Option<Topology>, objects: set<ObjectKey>,
                         results: seq<RepetitionResult>, measurements: seq<Line>)

  /** What one reconcile meets: the seconds since the sub-phase began, a fresh random id, one
      query result per SLO, the ChaosPhase as read, and which API calls fail; `refused` are the objects
      whose creation fails, `undeleted` those whose deletion does. */
  datatype Input = Input(
    elapsed: nat, freshId: string, queries: seq<Option<real>>, chaosPhase: Option<ChaosPhase>,
    patchOk: bool, refusedRoles: set<string>, topologyReadOk: bool, topologyPatchOk: bool,
    measurementsOk: bool, refused: set<ObjectKey>, undeleted: set<ObjectKey>, resultsOk: bool)

  const TOPOLOGY_TIMEOUT := 300
  const DEFAULT_MEASUREMENT_DURATION := 60
  const DEFAULT_SAMPLE_INTERVAL := 5

  function Repetitions(spec: Spec): int {
    if spec.repetitions == 0 then 1 else spec.repetitions
  }

  function MeasurementDuration(spec: Spec): int {
    spec.measurementDuration.GetOr(DEFAULT_MEASUREMENT_DURATION)
  }

  /** The API server admits only sample intervals of at least one second. */
  ghost predicate ValidSpec(spec: Spec) {
    spec.sampleInterval.GetOr(DEFAULT_SAMPLE_INTERVAL) >= 1
  }

  function SampleInterval(spec: Spec): nat
    requires ValidSpec(spec)
  {
    spec.sampleInterval.GetOr(DEFAULT_SAMPLE_INTERVAL)
  }

  predicate ValidStatus(spec: Spec, st: Status) {
    st.measurement == [] || |st.measurement| == |spec.slos|
  }

  predicate Terminal(st: Status) {
    st.phase.Succeeded? || st.phase.Failed?
  }

  // ---------- building blocks ----------

  /** A status patch; when it fails the persisted status stays as it was. */
  function Patched(w: World, input: Input, st: Status): World {
    if input.patchOk then w.(status := st) else w
  }

  function FailStep(w: World, input: Input): World {
    Patched(w, input, w.status.(phase := Failed))
  }

  function Enter(st: Status, subPhase: SubPhase, duration: int): Status {
    st.(subPhase := subPhase, duration := duration, elapsed := 0)
  }

  function Deactivated(w: World, input: Input): (r: World)
    ensures r == w.(topology := r.topology)
    ensures r.topology.Some? ==> w.topology.Some? && r.topology.value.refs == w.topology.value.refs
                                 && r.topology.value.phase == w.topology.value.phase
  {
    if input.topologyReadOk && w.topology.Some? && w.topology.value.active && input.topologyPatchOk
    then w.(topology := Some(w.topology.value.(active := false, generation := w.topology.value.generation + 1)))
    else w
  }

  predicate CanActivate(w: World, input: Input) {
    input.topologyReadOk && w.topology.Some? && (w.topology.value.active || input.topologyPatchOk)
  }

  function Activated(w: World): (r: World)
    requires w.topology.Some?
    ensures r == w.(topology := r.topology)
    ensures r.topology.Some? ==> w.topology.Some? && r.topology.value.refs == w.topology.value.refs
                                 && r.topology.value.phase == w.topology.value.phase
  {
    var t := w.topology.value;
    if t.active then w else w.(topology := Some(t.(active := true, generation := t.generation + 1)))
  }

  function RolesOf(m: Manifests): seq<string> {
    (if m.sut then ["sut"] else []) + (if m.infra then ["infra"] else []) +
    (if m.monitor then ["monitor"] else []) + (if m.load then ["load"] else [])
  }

  function OwnedNames(experimentId: string, roles: seq<string>): seq<string> {
    seq(|roles|, i requires 0 <= i < |roles| => OwnedName(experimentId, roles[i]))
  }

  function InitialStates(slos: seq<Slo>): seq<SloState> {
    seq(|slos|, i requires 0 <= i < |slos| => SloState(slos[i].name, 0.0, 0, 0, 0.0, 0.0, false, []))
  }

  function QueryAt(queries: seq<Option<real>>, i: nat): Option<real> {
    if i < |queries| then queries[i] else None
  }

  function RecordQuery(slo: Slo, s: SloState, query: Option<real>): SloState {
    match query case None => s case Some(v) => Recorded(slo, s, v)
  }

  /** One round of queries: every SLO with a result records it. */
  function RecordRound(slos: seq<Slo>, states: seq<SloState>, queries: seq<Option<real>>): (r: seq<SloState>)
    requires |states| == |slos|
    ensures |r| == |slos|
  {
    seq(|slos|, i requires 0 <= i < |slos| => RecordQuery(slos[i], states[i], QueryAt(queries, i)))
  }

  function StatesOrInitial(spec: Spec, st: Status): (r: seq<SloState>)
    requires ValidStatus(spec, st)
    ensures |r| == |spec.slos|
  {
    if st.measurement == [] then InitialStates(spec.slos) else st.measurement
  }

  function ValueLines(repetition: nat, phase: SubPhase, slo: string, values: seq<real>): seq<Line> {
    seq(|values|, i requires 0 <= i < |values| => Line(repetition, phase, slo, i, values[i]))
  }

  function LinesOf(repetition: nat, phase: SubPhase, states: seq<SloState>): seq<Line> {
    if states == [] then [] else
      var s := states[|states| - 1];
      LinesOf(repetition, phase, states[..|states| - 1]) + ValueLines(repetition, phase, s.name, s.values)
  }

  // ---------- the handlers ----------

  function IdleStep(spec: Spec, w: World, input: Input): World {
    var st := w.status;
    var id := if st.experimentId == "" then input.freshId else st.experimentId;
    Patched(w, input, Enter(st.(experimentId := id, phase := Running, measurement := []), Deploying, 0))
  }

  predicate Deploys(spec: Spec, input: Input) {
    forall role | role in RolesOf(spec.manifests) :: role !in input.refusedRoles
  }

  lemma DeploysIff(spec: Spec, input: Input)
    ensures var m, refused := spec.manifests, input.refusedRoles;
            Deploys(spec, input) <==>
              && (m.sut ==> "sut" !in refused) && (m.infra ==> "infra" !in refused)
              && (m.monitor ==> "monitor" !in refused) && (m.load ==> "load" !in refused)
  {
    var roles := RolesOf(spec.manifests);
    assert forall role | role in roles :: role in ["sut", "infra", "monitor", "load"];
    assert spec.manifests.sut ==> "sut" in roles;
    assert spec.manifests.infra ==> "infra" in roles;
    assert spec.manifests.monitor ==> "monitor" in roles;
    assert spec.manifests.load ==> "load" in roles;
  }

  function DeployingStep(spec: Spec, w: World, input: Input): World {
    if !Deploys(spec, input) then FailStep(w, input) else
      var st := w.status.(refs := OwnedNames(w.status.experimentId, RolesOf(spec.manifests)));
      Patched(w, input, if spec.hasTopology then Enter(st, TopologyDelay, spec.topologyDelay.GetOr(0))
                        else Enter(st, LoadDelay, spec.loadDelay.GetOr(0)))
  }

  function TopologyDelayStep(spec: Spec, w: World, input: Input): World {
    if input.elapsed < w.status.duration then Patched(w, input, w.status.(elapsed := input.elapsed))
    else if !CanActivate(w, input) then FailStep(w, input)
    else Patched(Activated(w), input, Enter(w.status, WaitingForTopology, 0))
  }

  function WaitingStep(spec: Spec, w: World, input: Input): World {
    if !input.topologyReadOk then w
    else if w.topology.Some? && w.topology.value.phase.Active? then
      Patched(w, input, Enter(w.status, LoadDelay, spec.loadDelay.GetOr(0)))
    else if (w.topology.Some? && w.topology.value.phase.FailedToApply?) || input.elapsed > TOPOLOGY_TIMEOUT then
      FailStep(Deactivated(w, input), input)
    else Patched(w, input, w.status.(elapsed := input.elapsed))
  }

  function TimedWaitStep(w: World, input: Input, next: SubPhase, duration: int): World {
    Patched(w, input, if input.elapsed >= w.status.duration then Enter(w.status, next, duration)
                      else w.status.(elapsed := input.elapsed))
  }

  /** A measurement round is taken on the first second and on every multiple of the interval. */
  predicate Samples(spec: Spec, input: Input)
    requires ValidSpec(spec)
  {
    input.elapsed == 0 || input.elapsed % SampleInterval(spec) == 0
  }

  function AfterMeasurement(spec: Spec, next: SubPhase): SubPhase {
    if next.ApplyingChaos? && !spec.hasChaosPhase then ChaosMeasurement else next
  }

  /** A round that is taken: record it, and at the end of the window write the lines and move on. */
  function SampledStep(spec: Spec, w: World, input: Input, next: SubPhase): World
    requires ValidStatus(spec, w.status)
  {
    var st := w.status.(measurement := RecordRound(spec.slos, StatesOrInitial(spec, w.status), input.queries));
    if input.elapsed < w.status.duration then Patched(w, input, st.(elapsed := input.elapsed))
    else if !input.measurementsOk then FailStep(w, input)
    else
      var lines := LinesOf(w.status.completed + 1, w.status.subPhase, st.measurement);
      var after := AfterMeasurement(spec, next);
      var st' := if after.ChaosMeasurement? then st.(measurement := []) else st;
      Patched(w.(measurements := w.measurements + lines), input, Enter(st', after, MeasurementDuration(spec)))
  }

  function MeasurementStep(spec: Spec, w: World, input: Input, next: SubPhase): World
    requires ValidSpec(spec) && ValidStatus(spec, w.status)
  {
    if Samples(spec, input) then SampledStep(spec, w, input, next) else w
  }

  function ApplyingChaosStep(spec: Spec, w: World, input: Input): World {
    match input.chaosPhase
    case None => FailStep(w, input)
    case Some(cp) =>
      var a := ApplyFaults(cp.topology, w.status.experimentId, cp.faults, w.objects, input.refused);
      if !a.ok then FailStep(w.(objects := CleanupRefs(a.objects, a.refs, input.undeleted)), input) else
        Patched(w.(objects := a.objects), input,
                Enter(w.status.(refs := w.status.refs + a.refs, measurement := []), ChaosMeasurement,
                      MeasurementDuration(spec)))
  }

  function CleanupResult(spec: Spec, st: Status): Option<RepetitionResult> {
    ResultOf(st.completed + 1, spec.slos, st.measurement)
  }

  function CleanupStep(spec: Spec, w: World, input: Input): World {
    var cleaned := w.(objects := CleanupRefs(w.objects, w.status.refs, input.undeleted));
    var off := if spec.hasTopology then Deactivated(cleaned, input) else cleaned;
    var result := CleanupResult(spec, w.status);
    if result.None? || !input.resultsOk then FailStep(off, input) else
      var recorded := off.(results := off.results + [result.value]);
      var st := w.status.(completed := w.status.completed + 1, refs := [], measurement := []);
      Patched(recorded, input,
              if w.status.completed + 1 < Repetitions(spec) && spec.pauseBetweenRepetitions > 0
              then Enter(st, Pause, spec.pauseBetweenRepetitions) else Enter(st, Idle, 0))
  }

  function DispatchStep(spec: Spec, w: World, input: Input): World
    requires ValidSpec(spec) && ValidStatus(spec, w.status)
  {
    match w.status.subPhase
    case Idle => IdleStep(spec, w, input)
    case Deploying => DeployingStep(spec, w, input)
    case TopologyDelay => TopologyDelayStep(spec, w, input)
    case WaitingForTopology => WaitingStep(spec, w, input)
    case LoadDelay => TimedWaitStep(w, input, PreChaosMeasurement, spec.chaosDelay.GetOr(0))
    case PreChaosMeasurement => MeasurementStep(spec, w, input, ApplyingChaos)
    case ApplyingChaos => ApplyingChaosStep(spec, w, input)
    case ChaosMeasurement => MeasurementStep(spec, w, input, Cleanup)
    case Cleanup => CleanupStep(spec, w, input)
    case Pause => TimedWaitStep(w, input, Idle, 0)
  }

  /** One reconcile of the experiment controller. */
  function ExperimentStep(spec: Spec, w: World, input: Input): World
    requires ValidSpec(spec) && ValidStatus(spec, w.status)
  {
    if Terminal(w.status) then w
    else if w.status.completed >= Repetitions(spec) then Patched(w, input, w.status.(phase := Succeeded))
    else DispatchStep(spec, w, input)
  }

  lemma StepKeepsValid(spec: Spec, w: World, input: Input)
    requires ValidSpec(spec) && ValidStatus(spec, w.status)
    ensures ValidStatus(spec, ExperimentStep(spec, w, input).status)
  {
    hide ApplyFaults, CleanupRefs, LinesOf, ResultOf, OwnedNames, RolesOf, RecordRound, StatesOrInitial,
         Samples, SampleInterval, Deactivated, Activated, CanActivate, Deploys, ValidSpec;
  }
}
