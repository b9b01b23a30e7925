/** The two controllers as they act on the API server, each handler proved against the step
    function that specifies it. */
module Controllers {
  import opened Wrappers
  import opened ChaosRefs
  import opened ChaosPhases
  import opened SloScores
  import opened ExperimentModel
  import opened TopologyModel

  /** The persisted objects. */
  class ApiServer {
    var status: Status
    var topology: Option<Topology>
    var objects: set<ObjectKey>
    var results: seq<RepetitionResult>
    var measurements: seq<Line>

    function Cluster(): World
      reads this
    {
      World(status, topology, objects, results, measurements)
    }

    constructor (w: World)
      ensures Cluster() == w
    {
      status, topology, objects := w.status, w.topology, w.objects;
      results, measurements := w.results, w.measurements;
    }

    method PatchStatus(st: Status, ok: bool)
      modifies this`status
      ensures status == if ok then st else old(status)
    {
      if ok {
        status := st;
      }
    }

    method CreateObject(k: ObjectKey, refused: set<ObjectKey>) returns (ok: bool)
      modifies this`objects
      ensures ok == Creatable(old(objects), k, refused)
      ensures objects == if ok then old(objects) + {k} else old(objects)
    {
      ok := k !in objects && k !in refused;
      if ok {
        objects := objects + {k};
      }
    }

    /** Neither a missing object nor a failing delete is reported. */
    method DeleteObject(k: ObjectKey, undeleted: set<ObjectKey>)
      modifies this`objects
      ensures objects == old(objects) - ({k} - undeleted)
    {
      if k !in undeleted {
        objects := objects - {k};
      }
    }
  }

  class ExperimentReconciler {
    const spec: Spec
    const api: ApiServer

    constructor (spec: Spec, api: ApiServer)
      ensures this.spec == spec && this.api == api
    {
      this.spec, this.api := spec, api;
    }

    method Reconcile(input: Input)
      requires ValidSpec(spec) && ValidStatus(spec, api.status)
      modifies api
      ensures api.Cluster() == ExperimentStep(spec, old(api.Cluster()), input)
      ensures ValidStatus(spec, api.status)
    {
      hide IdleStep, DeployingStep, TopologyDelayStep, WaitingStep, TimedWaitStep, MeasurementStep,
           ApplyingChaosStep, CleanupStep, ValidSpec;
      StepKeepsValid(spec, api.Cluster(), input);
      var experiment := api.status;
      if experiment.phase.Succeeded? || experiment.phase.Failed? {
        return;
      }
      var repetitions := spec.repetitions;
      if repetitions == 0 {
        repetitions := 1;
      }
      if experiment.completed >= repetitions {
        api.PatchStatus(experiment.(phase := Succeeded), input.patchOk);
        return;
      }
      match experiment.subPhase {
        case Idle => HandleIdle(input);
        case Deploying => HandleDeploying(input);
        case TopologyDelay => HandleTopologyDelay(input);
        case WaitingForTopology => HandleWaitingForTopology(input);
        case LoadDelay => HandleTimedWait(input, PreChaosMeasurement, spec.chaosDelay.GetOr(0));
        case PreChaosMeasurement => HandleMeasurement(input, ApplyingChaos);
        case ApplyingChaos => HandleApplyingChaos(input);
        case ChaosMeasurement => HandleMeasurement(input, Cleanup);
        case Cleanup => HandleCleanup(input);
        case Pause => HandleTimedWait(input, Idle, 0);
      }
    }

    method FailExperiment(input: Input)
      modifies api
      ensures api.Cluster() == FailStep(old(api.Cluster()), input)
    {
      api.PatchStatus(api.status.(phase := Failed), input.patchOk);
    }

    method HandleIdle(input: Input)
      modifies api
      ensures api.Cluster() == IdleStep(spec, old(api.Cluster()), input)
    {
      var experiment := api.status;
      if experiment.experimentId == "" {
        experiment := experiment.(experimentId := input.freshId);
      }
      experiment := experiment.(phase := Running, measurement := []);
      experiment := experiment.(subPhase := Deploying, duration := 0, elapsed := 0);
      api.PatchStatus(experiment, input.patchOk);
    }

    /** Deploys one manifest set, if the specification names it, and records its owned name.
        `roles` are those deployed before. */
    method ApplyManifestSet(named: bool, role: string, input: Input, owned: seq<string>, ghost roles: seq<string>)
      returns (ok: bool, owned': seq<string>)
      requires owned == OwnedNames(api.status.experimentId, roles)
      ensures ok == (named ==> role !in input.refusedRoles)
      ensures ok ==> owned' == OwnedNames(api.status.experimentId, roles + if named then [role] else [])
    {
      ok, owned' := true, owned;
      if !named {
        assert roles + [] == roles;
        return;
      }
      if role in input.refusedRoles {
        return false, owned;
      }
      owned' := owned + [OwnedName(api.status.experimentId, role)];
    }

    /** Deploys the four manifest sets in order; the first refusal ends it. */
    method ApplyManifests(input: Input) returns (ok: bool, owned: seq<string>)
      ensures ok == Deploys(spec, input)
      ensures ok ==> owned == OwnedNames(api.status.experimentId, RolesOf(spec.manifests))
    {
      var m := spec.manifests;
      ok, owned := true, [];
      ghost var sut, infra := if m.sut then ["sut"] else [], if m.infra then ["infra"] else [];
      ghost var monitor, load := if m.monitor then ["monitor"] else [], if m.load then ["load"] else [];
      assert owned == OwnedNames(api.status.experimentId, []);
      assert [] + sut + infra + monitor + load == RolesOf(m);
      DeploysIff(spec, input);
      hide OwnedNames, Deploys, RolesOf;
      ok, owned := ApplyManifestSet(m.sut, "sut", input, owned, []);
      if ok {
        ok, owned := ApplyManifestSet(m.infra, "infra", input, owned, [] + sut);
      }
      if ok {
        ok, owned := ApplyManifestSet(m.monitor, "monitor", input, owned, [] + sut + infra);
      }
      if ok {
        ok, owned := ApplyManifestSet(m.load, "load", input, owned, [] + sut + infra + monitor);
      }
    }

    method HandleDeploying(input: Input)
      modifies api
      ensures api.Cluster() == DeployingStep(spec, old(api.Cluster()), input)
    {
      hide OwnedNames, Deploys, RolesOf;
      var ok, owned := ApplyManifests(input);
      if !ok {
        FailExperiment(input);
        return;
      }
      var experiment := api.status.(refs := owned);
      if spec.hasTopology {
        experiment := Enter(experiment, TopologyDelay, spec.topologyDelay.GetOr(0));
      } else {
        experiment := Enter(experiment, LoadDelay, spec.loadDelay.GetOr(0));
      }
      api.PatchStatus(experiment, input.patchOk);
    }

    method ActivateTopology(input: Input) returns (ok: bool)
      modifies api`topology
      ensures ok == CanActivate(old(api.Cluster()), input)
      ensures api.Cluster() == if ok then Activated(old(api.Cluster())) else old(api.Cluster())
    {
      if !input.topologyReadOk || api.topology.None? {
        return false;
      }
      var t := api.topology.value;
      if t.active {
        return true;
      }
      ok := input.topologyPatchOk;
      if ok {
        api.topology := Some(t.(active := true, generation := t.generation + 1));
      }
    }

    method DeactivateTopology(input: Input)
      modifies api`topology
      ensures api.Cluster() == Deactivated(old(api.Cluster()), input)
    {
      if !input.topologyReadOk || api.topology.None? || !api.topology.value.active {
        return;
      }
      var t := api.topology.value;
      if input.topologyPatchOk {
        api.topology := Some(t.(active := false, generation := t.generation + 1));
      }
    }

    method HandleTopologyDelay(input: Input)
      modifies api
      ensures api.Cluster() == TopologyDelayStep(spec, old(api.Cluster()), input)
    {
      var experiment := api.status.(elapsed := input.elapsed);
      if input.elapsed >= experiment.duration {
        var ok := ActivateTopology(input);
        if !ok {
          FailExperiment(input);
          return;
        }
        experiment := Enter(experiment, WaitingForTopology, 0);
      }
      api.PatchStatus(experiment, input.patchOk);
    }

    method HandleWaitingForTopology(input: Input)
      modifies api
      ensures api.Cluster() == WaitingStep(spec, old(api.Cluster()), input)
    {
      if !input.topologyReadOk {
        return;
      }
      var experiment := api.status.(elapsed := input.elapsed);
      if api.topology.Some? {
        match api.topology.value.phase {
          case Active =>
            api.PatchStatus(Enter(experiment, LoadDelay, spec.loadDelay.GetOr(0)), input.patchOk);
            return;
          case FailedToApply =>
            DeactivateTopology(input);
            FailExperiment(input);
            return;
          case _ =>
        }
      }
      if input.elapsed > TOPOLOGY_TIMEOUT {
        DeactivateTopology(input);
        FailExperiment(input);
        return;
      }
      api.PatchStatus(experiment, input.patchOk);
    }

    method HandleTimedWait(input: Input, next: SubPhase, duration: int)
      modifies api
      ensures api.Cluster() == TimedWaitStep(old(api.Cluster()), input, next, duration)
    {
      var experiment := api.status.(elapsed := input.elapsed);
      if input.elapsed >= experiment.duration {
        experiment := Enter(experiment, next, duration);
      }
      api.PatchStatus(experiment, input.patchOk);
    }

    method LinesForSlo(repetition: nat, phase: SubPhase, s: SloState) returns (lines: seq<Line>)
      ensures lines == ValueLines(repetition, phase, s.name, s.values)
    {
      lines := [];
      for j := 0 to |s.values|
        invariant |lines| == j
        invariant forall k | 0 <= k < j :: lines[k] == Line(repetition, phase, s.name, k, s.values[k])
      {
        lines := lines + [Line(repetition, phase, s.name, j, s.values[j])];
      }
    }

    /** Appends one line per recorded value; the ConfigMap is a sequence of lines. */
    method AppendMeasurements(states: seq<SloState>, phase: SubPhase)
      modifies api`measurements
      ensures api.measurements == old(api.measurements) + LinesOf(api.status.completed + 1, phase, states)
    {
      hide ValueLines;
      var repetition := api.status.completed + 1;
      var lines: seq<Line>, i := [], 0;
      while i < |states|
        invariant 0 <= i <= |states|
        invariant unchanged(api)
        invariant lines == LinesOf(repetition, phase, states[..i])
      {
        var more := LinesForSlo(repetition, phase, states[i]);
        lines := lines + more;
        assert states[..i + 1][..i] == states[..i];
        i := i + 1;
      }
      assert states[..i] == states;
      api.measurements := api.measurements + lines;
    }

    /** Fires one query per SLO and records the values found. */
    method QueryRound(before: seq<SloState>, input: Input) returns (states: seq<SloState>)
      requires ValidSpec(spec) && |before| == |spec.slos|
      requires Samples(spec, input)
      ensures states == RecordRound(spec.slos, before, input.queries)
    {
      states := before;
      var i := 0;
      while i < |spec.slos|
        invariant 0 <= i <= |spec.slos| == |states|
        invariant forall k | 0 <= k < i ::
                    states[k] == RecordQuery(spec.slos[k], before[k], QueryAt(input.queries, k))
        invariant forall k | i <= k < |states| :: states[k] == before[k]
      {
        var query := QueryAt(input.queries, i);
        if query.Some? {
          var s := RecordMeasurement(states[i], query.value, spec.slos[i], input.elapsed, SampleInterval(spec));
          states := states[i := s];
        }
        i := i + 1;
      }
    }

    method HandleMeasurement(input: Input, nextSubPhase: SubPhase)
      requires ValidSpec(spec) && ValidStatus(spec, api.status)
      modifies api
      ensures api.Cluster() == MeasurementStep(spec, old(api.Cluster()), input, nextSubPhase)
    {
      hide SampledStep;
      var sampleInterval: nat := spec.sampleInterval.GetOr(DEFAULT_SAMPLE_INTERVAL);
      if input.elapsed != 0 && input.elapsed % sampleInterval != 0 {
        return;
      }
      Sample(input, nextSubPhase);
    }

    /** Takes one round, and moves on at the end of the window. */
    method Sample(input: Input, nextSubPhase: SubPhase)
      requires ValidSpec(spec) && ValidStatus(spec, api.status) && Samples(spec, input)
      modifies api
      ensures api.Cluster() == SampledStep(spec, old(api.Cluster()), input, nextSubPhase)
    {
      hide Samples, ValidSpec, LinesOf, RecordRound, InitialStates;
      var experiment := api.status;
      var states := experiment.measurement;
      if states == [] {
        states := InitialStates(spec.slos);
      }
      assert states == StatesOrInitial(spec, experiment);
      states := QueryRound(states, input);
      experiment := experiment.(measurement := states, elapsed := input.elapsed);
      if input.elapsed >= experiment.duration {
        if !input.measurementsOk {
          FailExperiment(input);
          return;
        }
        AppendMeasurements(states, experiment.subPhase);
        var actualNext := nextSubPhase;
        if nextSubPhase.ApplyingChaos? && !spec.hasChaosPhase {
          actualNext := ChaosMeasurement;
        }
        experiment := Enter(experiment, actualNext, MeasurementDuration(spec));
        if actualNext.ChaosMeasurement? {
          experiment := experiment.(measurement := []);
        }
      }
      api.PatchStatus(experiment, input.patchOk);
    }

    /** Creates the object of a network fault, or the objects of a stress fault zone by zone. */
    method ApplyFault(cp: ChaosPhase, f: Fault, refused: set<ObjectKey>) returns (refs: seq<string>, ok: bool)
      modifies api`objects
      ensures var keys := KeysOf(cp.topology, api.status.experimentId, f);
              if keys.None? then !ok && api.objects == old(api.objects) else
                var n := CreatedCount(old(api.objects), keys.value, refused);
                && api.objects == old(api.objects) + Elements(keys.value[..n])
                && ok == (n == |keys.value|)
                && (ok ==> refs == RefsOf(keys.value))
    {
      var id := api.status.experimentId;
      refs, ok := [], true;
      if f.kind.UnknownFault? {
        return;
      }
      if IsNetworkFault(f.kind) {
        if |f.zones| != 2 {
          return [], false;
        }
        var key := FaultKey(cp.topology, id, f.zones[0], f.zones[1], ActionOf(f.kind));
        CreateOne(api.objects, key, refused);
        ok := api.CreateObject(key, refused);
        if ok {
          refs := [EncodeRef(key)];
        }
        return;
      }
      if f.zones == [] {
        return [], false;
      }
      ghost var keys, objects := StressKeys(cp.topology, id, f.zones, Variant(f.kind)), api.objects;
      var i := 0;
      while i < |f.zones|
        invariant 0 <= i <= |f.zones|
        invariant CreatedCount(objects, keys[..i], refused) == i
        invariant api.objects == objects + Elements(keys[..i])
        invariant refs == RefsOf(keys[..i])
      {
        var key := StressKey(cp.topology, id, f.zones[i], Variant(f.kind));
        CreateNext(objects, keys, refused, i);
        ok := api.CreateObject(key, refused);
        if !ok {
          return;
        }
        refs := refs + [EncodeRef(key)];
        i := i + 1;
      }
      assert keys[..i] == keys;
    }

    method ApplyChaosPhase(cp: ChaosPhase, refused: set<ObjectKey>) returns (refs: seq<string>, ok: bool)
      modifies api`objects
      ensures Applied(api.objects, refs, ok) ==
                ApplyFaults(cp.topology, api.status.experimentId, cp.faults, old(api.objects), refused)
    {
      refs, ok := [], true;
      ghost var id := api.status.experimentId;
      var i := 0;
      while i < |cp.faults|
        invariant 0 <= i <= |cp.faults|
        invariant Applied(api.objects, refs, true) ==
                    ApplyFaults(cp.topology, id, cp.faults[..i], old(api.objects), refused)
      {
        FaultsContinue(cp.topology, id, cp.faults, old(api.objects), refused, i);
        var created;
        created, ok := ApplyFault(cp, cp.faults[i], refused);
        if !ok {
          return;
        }
        refs := refs + created;
        i := i + 1;
      }
      assert cp.faults[..i] == cp.faults;
      ok := true;
    }

    /** Deletes whatever the references decode to; the others are skipped. */
    method CleanupChaosPhase(refs: seq<string>, undeleted: set<ObjectKey>)
      modifies api`objects
      ensures api.objects == CleanupRefs(old(api.objects), refs, undeleted)
    {
      var i := 0;
      assert refs[..0] == [];
      while i < |refs|
        invariant 0 <= i <= |refs|
        invariant api.objects == CleanupRefs(old(api.objects), refs[..i], undeleted)
      {
        assert refs[..i + 1] == refs[..i] + [refs[i]];
        DecodedConcat(refs[..i], [refs[i]]);
        var key := DecodeRef(refs[i]);
        if key.Some? {
          api.DeleteObject(key.value, undeleted);
        }
        i := i + 1;
      }
      assert refs[..i] == refs;
    }

    method HandleApplyingChaos(input: Input)
      modifies api
      ensures api.Cluster() == ApplyingChaosStep(spec, old(api.Cluster()), input)
    {
      if input.chaosPhase.None? {
        FailExperiment(input);
        return;
      }
      var refs, ok := ApplyChaosPhase(input.chaosPhase.value, input.refused);
      if !ok {
        CleanupChaosPhase(refs, input.undeleted);
        FailExperiment(input);
        return;
      }
      var experiment := api.status;
      experiment := experiment.(refs := experiment.refs + refs, measurement := []);
      experiment := Enter(experiment, ChaosMeasurement, MeasurementDuration(spec));
      api.PatchStatus(experiment, input.patchOk);
    }

    method HandleCleanup(input: Input)
      modifies api
      ensures api.Cluster() == CleanupStep(spec, old(api.Cluster()), input)
    {
      var experiment := api.status;
      var repetition := experiment.completed + 1;
      CleanupChaosPhase(experiment.refs, input.undeleted);
      if spec.hasTopology {
        DeactivateTopology(input);
      }
      var result := BuildRepetitionResult(repetition, spec.slos, experiment.measurement);
      if result.None? || !input.resultsOk {
        FailExperiment(input);
        return;
      }
      api.results := api.results + [result.value];
      experiment := experiment.(completed := repetition, refs := [], measurement := []);
      if repetition < Repetitions(spec) && spec.pauseBetweenRepetitions > 0 {
        experiment := Enter(experiment, Pause, spec.pauseBetweenRepetitions);
      } else {
        experiment := Enter(experiment, Idle, 0);
      }
      api.PatchStatus(experiment, input.patchOk);
    }
  }

  class TopologyReconciler {
    const spec: TopologySpec
    const api: ApiServer

    constructor (spec: TopologySpec, api: ApiServer)
      ensures this.spec == spec && this.api == api
    {
      this.spec, this.api := spec, api;
    }

    method Reconcile(input: TopologyInput)
      modifies api
      ensures api.Cluster() == TopologyStep(spec, old(api.Cluster()), input)
    {
      if api.topology.None? {
        return;
      }
      var topology := api.topology.value;
      if !topology.hasFinalizer {
        UpdateTopology(topology.(hasFinalizer := true), input.updateOk);
        return;
      }
      if topology.observedGeneration == topology.generation {
        if topology.active && topology.phase.Active? {
          return;
        }
        if !topology.active && topology.phase.Inactive? {
          return;
        }
      }
      var ok;
      if topology.active {
        topology, ok := ReconcileApply(topology, input);
      } else {
        topology, ok := ReconcileDeactivate(topology, input);
      }
      if !ok {
        UpdateTopology(topology.(phase := FailedToApply), input.phaseOk);
      }
    }

    method UpdateTopology(t: Topology, ok: bool)
      modifies api`topology
      ensures api.Cluster() == Updated(old(api.Cluster()), ok, t)
    {
      if ok {
        api.topology := Some(t);
      }
    }

    /** Returns the topology as changed in memory, for the caller to record a failure on it. */
    method ReconcileApply(topology: Topology, input: TopologyInput) returns (t: Topology, ok: bool)
      modifies api
      ensures ApplyStep(spec, old(api.Cluster()), topology, input) ==
              if ok then api.Cluster() else Updated(api.Cluster(), input.phaseOk, t.(phase := FailedToApply))
    {
      hide LinkKeys, AllLinkKeys, KeySet, LinkRefs, Ensured, EnsuredCount;
      t, ok := topology, input.zonesOk;
      if !ok {
        return;
      }
      var refs: seq<string>, i := [], 0;
      ghost var before, keys: seq<ObjectKey> := api.objects, [];
      ghost var all := AllLinkKeys(spec.name, spec.links);
      EnsuredStarts(spec.name, spec.links, before, input.failAt);
      while i < |spec.links|
        invariant 0 <= i <= |spec.links|
        invariant unchanged(api`status, api`topology, api`results, api`measurements)
        invariant keys == AllLinkKeys(spec.name, spec.links[..i])
        invariant Ensured(before, api.objects, keys, refs, input.failAt, true)
      {
        LinkKeysSoFar(spec.name, spec.links, i);
        var link := spec.links[i];
        if |link.zones| == 2 {
          refs, ok := EnsureLinkChaos(link, input, refs, before, keys);
          if !ok {
            EnsuredStops(before, api.objects, keys + LinkKeys(spec.name, link), refs, input.failAt, all);
            EnsuredEnds(before, api.objects, all, refs, input.failAt, false);
            return;
          }
        } else {
          NoKeys(spec.name, link);
          assert keys + [] == keys;
        }
        keys := keys + LinkKeys(spec.name, link);
        i := i + 1;
      }
      assert spec.links[..i] == spec.links;
      EnsuredEnds(before, api.objects, all, refs, input.failAt, true);
      t := t.(refs := refs, phase := Active, observedGeneration := t.generation);
      ok := input.updateOk;
      UpdateTopology(t, ok);
    }

    /** Ensures the objects of one link; `refs` are the references collected before, for `keys`. */
    method EnsureLinkChaos(link: Link, input: TopologyInput, refs: seq<string>, ghost before: set<ObjectKey>,
                           ghost keys: seq<ObjectKey>)
      returns (refs': seq<string>, ok: bool)
      requires |link.zones| == 2 && Ensured(before, api.objects, keys, refs, input.failAt, true)
      modifies api`objects
      ensures Ensured(before, api.objects, keys + LinkKeys(spec.name, link), refs', input.failAt, ok)
    {
      hide Ensured, LinkKey;
      var a, b := link.zones[0], link.zones[1];
      ghost var delay := if link.latency != "" then [LinkKey(spec.name, a, b, Delay)] else [];
      ghost var rate := if link.bandwidth != "" then [LinkKey(spec.name, a, b, Bandwidth)] else [];
      ghost var loss := if link.packetLoss != "" then [LinkKey(spec.name, a, b, Loss)] else [];
      ghost var all := keys + LinkKeys(spec.name, link);
      assert all == keys + delay + rate + loss;
      hide LinkKeys;
      refs', ok := EnsureIf(link.latency != "", LinkKey(spec.name, a, b, Delay), input, refs, before, keys);
      if !ok {
        EnsuredStops(before, api.objects, keys + delay, refs', input.failAt, all);
        return;
      }
      refs', ok := EnsureIf(link.bandwidth != "", LinkKey(spec.name, a, b, Bandwidth), input, refs', before,
                            keys + delay);
      if !ok {
        EnsuredStops(before, api.objects, keys + delay + rate, refs', input.failAt, all);
        return;
      }
      refs', ok := EnsureIf(link.packetLoss != "", LinkKey(spec.name, a, b, Loss), input, refs', before,
                            keys + delay + rate);
    }

    /** Ensures one condition of a link, where the link asks for it. */
    method EnsureIf(wanted: bool, key: ObjectKey, input: TopologyInput, refs: seq<string>,
                    ghost before: set<ObjectKey>, ghost keys: seq<ObjectKey>)
      returns (refs': seq<string>, ok: bool)
      requires Ensured(before, api.objects, keys, refs, input.failAt, true)
      modifies api`objects
      ensures Ensured(before, api.objects, keys + if wanted then [key] else [], refs', input.failAt, ok)
    {
      refs', ok := refs, true;
      if wanted {
        assert (keys + [key])[..|keys|] == keys[..|keys|];
        assert keys[..|keys|] == keys && (keys + [key])[..|keys| + 1] == keys + [key];
        ok := EnsureNetworkChaos(key, input, |refs|);
        if ok {
          refs' := refs + [LinkRef(key)];
        }
      } else {
        assert keys + [] == keys;
      }
    }

    /** Creates or updates one object; `n` is how many link objects this reconcile ensured before. */
    method EnsureNetworkChaos(key: ObjectKey, input: TopologyInput, n: nat) returns (ok: bool)
      modifies api`objects
      ensures ok == (input.failAt != Some(n))
      ensures api.objects == if ok then old(api.objects) + {key} else old(api.objects)
    {
      ok := input.failAt != Some(n);
      if ok {
        api.objects := api.objects + {key};
      }
    }

    method ReconcileDeactivate(topology: Topology, input: TopologyInput) returns (t: Topology, ok: bool)
      modifies api
      ensures DeactivateStep(old(api.Cluster()), topology, input) ==
              if ok then api.Cluster() else Updated(api.Cluster(), input.phaseOk, t.(phase := FailedToApply))
    {
      t, ok := topology, input.zonesOk;
      if !ok {
        return;
      }
      var i := 0;
      assert t.refs[..0] == [];
      while i < |t.refs|
        invariant 0 <= i <= |t.refs|
        invariant unchanged(api`status, api`topology, api`results, api`measurements)
        invariant api.objects == old(api.objects) - (DecodedLinks(t.refs[..i]) - input.undeleted)
      {
        assert t.refs[..i + 1] == t.refs[..i] + [t.refs[i]];
        var key := DecodeLinkRef(t.refs[i]);
        if key.Some? {
          api.DeleteObject(key.value, input.undeleted);
        }
        i := i + 1;
      }
      assert t.refs[..i] == t.refs;
      t := t.(refs := [], phase := Inactive, observedGeneration := t.generation);
      ok := input.updateOk;
      UpdateTopology(t, ok);
    }
  }

  /** Where ensuring `keys` one after the other has led: `ok` if none failed, and then with all
      references collected. */
  ghost predicate Ensured(before: set<ObjectKey>, objects: set<ObjectKey>, keys: seq<ObjectKey>, refs: seq<string>,
                          failAt: Option<nat>, ok: bool) {
    var n := EnsuredCount(failAt, |keys|);
    && ok == (n == |keys|)
    && objects == before + KeySet(keys[..n])
    && (ok ==> refs == LinkRefs(keys))
  }

  lemma EnsuredStops(before: set<ObjectKey>, objects: set<ObjectKey>, keys: seq<ObjectKey>, refs: seq<string>,
                     failAt: Option<nat>, all: seq<ObjectKey>)
    requires Ensured(before, objects, keys, refs, failAt, false) && keys <= all
    ensures Ensured(before, objects, all, refs, failAt, false)
  {
    var n := EnsuredCount(failAt, |keys|);
    assert keys[..n] == all[..n];
  }

  lemma EnsuredStarts(topology: string, links: seq<Link>, objects: set<ObjectKey>, failAt: Option<nat>)
    ensures AllLinkKeys(topology, links[..0]) == [] && Ensured(objects, objects, [], [], failAt, true)
  {}

  lemma EnsuredEnds(before: set<ObjectKey>, objects: set<ObjectKey>, keys: seq<ObjectKey>, refs: seq<string>,
                    failAt: Option<nat>, ok: bool)
    requires Ensured(before, objects, keys, refs, failAt, ok)
    ensures var n := EnsuredCount(failAt, |keys|);
            && objects == before + KeySet(keys[..n])
            && (ok ==> n == |keys| && refs == LinkRefs(keys))
            && (!ok ==> n < |keys|)
  {}

  lemma NoKeys(topology: string, link: Link)
    requires |link.zones| != 2
    ensures LinkKeys(topology, link) == []
  {}

  /** The keys of the first links are a prefix of all keys. */
  lemma {:induction false} LinkKeysSoFar(topology: string, links: seq<Link>, i: nat)
    requires i < |links|
    ensures AllLinkKeys(topology, links[..i + 1]) == AllLinkKeys(topology, links[..i]) + LinkKeys(topology, links[i])
    ensures AllLinkKeys(topology, links[..i + 1]) <= AllLinkKeys(topology, links)
  {
    hide LinkKeys;
    assert links[..i + 1][..i] == links[..i];
    if i == |links| - 1 {
      assert links[..i + 1] == links;
    } else {
      var front := links[..|links| - 1];
      assert front[..i] == links[..i] && front[..i + 1] == links[..i + 1];
      LinkKeysSoFar(topology, front, i);
    }
  }

  lemma CreateOne(objects: set<ObjectKey>, key: ObjectKey, refused: set<ObjectKey>)
    ensures CreatedCount(objects, [key], refused) == if Creatable(objects, key, refused) then 1 else 0
    ensures Elements([key][..1]) == {key} && Elements([key][..0]) == {}
    ensures RefsOf([key]) == [EncodeRef(key)]
  {
    assert [key][..0] == [] && [key][..1] == [key];
    assert objects + Elements([]) == objects;
  }

  /** After the first `i` creations, whether the next succeeds decides how many there are. */
  lemma {:induction false} CreateNext(objects: set<ObjectKey>, keys: seq<ObjectKey>, refused: set<ObjectKey>, i: nat)
    requires i < |keys| && CreatedCount(objects, keys[..i], refused) == i
    ensures var created := Creatable(objects + Elements(keys[..i]), keys[i], refused);
            && (created ==> CreatedCount(objects, keys[..i + 1], refused) == i + 1)
            && (!created ==> CreatedCount(objects, keys, refused) == i)
    ensures Elements(keys[..i + 1]) == Elements(keys[..i]) + {keys[i]}
    ensures RefsOf(keys[..i + 1]) == RefsOf(keys[..i]) + [EncodeRef(keys[i])]
  {
    assert keys[..i + 1][..i] == keys[..i];
    if !Creatable(objects + Elements(keys[..i]), keys[i], refused) {
      StopsAt(objects, keys, refused, i);
    }
  }

  lemma {:induction false} StopsAt(objects: set<ObjectKey>, keys: seq<ObjectKey>, refused: set<ObjectKey>, i: nat)
    requires i < |keys| && CreatedCount(objects, keys[..i], refused) == i
    requires !Creatable(objects + Elements(keys[..i]), keys[i], refused)
    ensures CreatedCount(objects, keys, refused) == i
  {
    var n := |keys| - 1;
    if i < n {
      assert keys[..n][..i] == keys[..i];
      StopsAt(objects, keys[..n], refused, i);
    }
  }

  /** The faults after a failing one are not looked at. */
  lemma {:induction false} FaultsContinue(t: string, id: string, faults: seq<Fault>, objects: set<ObjectKey>,
                                          refused: set<ObjectKey>, i: nat)
    requires i < |faults| && ApplyFaults(t, id, faults[..i], objects, refused).ok
    ensures var a := ApplyFaults(t, id, faults[..i], objects, refused);
            var b := ApplyFaults(t, id, faults[..i + 1], objects, refused);
            && (!b.ok ==> ApplyFaults(t, id, faults, objects, refused) == b)
            && b == (match KeysOf(t, id, faults[i])
                     case None => a.(ok := false)
                     case Some(keys) =>
                       var n := CreatedCount(a.objects, keys, refused);
                       Applied(a.objects + Elements(keys[..n]),
                               if n == |keys| then a.refs + RefsOf(keys) else a.refs, n == |keys|))
  {
    assert faults[..i + 1][..i] == faults[..i];
    if i == |faults| - 1 {
      assert faults[..i + 1] == faults;
    } else {
      var front := faults[..|faults| - 1];
      assert front[..i] == faults[..i] && front[..i + 1] == faults[..i + 1];
      FaultsContinue(t, id, front, objects, refused, i);
    }
  }
}
