/** Every chaos window really runs under the declared chaos: which references a status carries, and what
    was applied before a chaos window is measured. */
module ChaosWindows {
  import opened ChaosRefs
  import opened ChaosPhases
  import opened FaultObjects
  import opened ExperimentModel
  import opened TopologyModel
  import opened ExperimentRuns
  import opened MeasurementWindows
  import opened TwoControllers
  import opened LinkLifetime
  import opened ChaosLifetime
  import opened Itinerary

  /** The names of the deployed manifest sets, in the order in which they are deployed. */
  function ManifestNames(m: Manifests, id: string): seq<string> {
    (if m.sut then ["ecoscape-" + id + "-sut"] else []) + (if m.infra then ["ecoscape-" + id + "-infra"] else []) +
    (if m.monitor then ["ecoscape-" + id + "-monitor"] else []) + (if m.load then ["ecoscape-" + id + "-load"] else [])
  }

  lemma OwnedNamesAre(m: Manifests, id: string)
    ensures OwnedNames(id, RolesOf(m)) == ManifestNames(m, id)
  {
    assert OwnedName(id, "sut") == "ecoscape-" + id + "-sut";
    assert OwnedName(id, "infra") == "ecoscape-" + id + "-infra";
    assert OwnedName(id, "monitor") == "ecoscape-" + id + "-monitor";
    assert OwnedName(id, "load") == "ecoscape-" + id + "-load";
  }

  /** Event k of the run applied all faults of its chaos phase in this repetition, and the status carries
      the references it returned after the names of the manifest sets. */
  ghost predicate AppliedAt(spec: Spec, tspec: TopologySpec, w0: World, events: seq<Event>, k: nat, st: Status)
    requires ValidSpec(spec) && ValidStatus(spec, w0.status)
  {
    k < |events| &&
    var (v, e) := (Run(spec, tspec, w0, events[..k]), events[k]);
    && AppliesChaos(spec, v, e) && Attempt(v, e.input.chaosPhase.value, e.input).ok
    && v.status.completed == st.completed && v.status.experimentId == st.experimentId
    && st.refs == ManifestNames(spec.manifests, st.experimentId) + Attempt(v, e.input.chaosPhase.value, e.input).refs
  }

  ghost predicate SomeApplied(spec: Spec, tspec: TopologySpec, w0: World, events: seq<Event>, st: Status)
    requires ValidSpec(spec) && ValidStatus(spec, w0.status)
  {
    exists k: nat :: AppliedAt(spec, tspec, w0, events, k, st)
  }

  /** The references of a status, by its sub-phase. */
  ghost predicate RefsFit(spec: Spec, tspec: TopologySpec, w0: World, events: seq<Event>, st: Status)
    requires ValidSpec(spec) && ValidStatus(spec, w0.status)
  {
    match st.subPhase
    case Idle => st.refs == []
    case Deploying => st.refs == []
    case Pause => st.refs == []
    case ChaosMeasurement => if spec.hasChaosPhase then SomeApplied(spec, tspec, w0, events, st)
                             else st.refs == ManifestNames(spec.manifests, st.experimentId)
    case Cleanup => if spec.hasChaosPhase then SomeApplied(spec, tspec, w0, events, st)
                    else st.refs == ManifestNames(spec.manifests, st.experimentId)
    case ApplyingChaos => spec.hasChaosPhase && st.refs == ManifestNames(spec.manifests, st.experimentId)
    case _ => st.refs == ManifestNames(spec.manifests, st.experimentId)
  }

  // ---------- one step ----------

  /** What a step does to the references and to the id. */
  ghost predicate RefsMove(spec: Spec, w: World, input: Input, st': Status) {
    var (st, e) := (w.status, ExperimentReconcile(input));
    && (st.experimentId != "" || !st.subPhase.Idle? ==> st'.experimentId == st.experimentId)
    && if st'.subPhase == st.subPhase then st'.refs == st.refs && st'.experimentId == st.experimentId else
         match st.subPhase
         case Deploying => st'.refs == ManifestNames(spec.manifests, st.experimentId)
         case ApplyingChaos =>
           && AppliesChaos(spec, w, e) && Attempt(w, input.chaosPhase.value, input).ok
           && st'.refs == st.refs + Attempt(w, input.chaosPhase.value, input).refs
         case Cleanup => st'.refs == []
         case _ => st'.refs == st.refs
  }

  lemma SomeRefsMove(spec: Spec, w: World, input: Input)
    requires ValidSpec(spec) && ValidStatus(spec, w.status) && Dispatches(spec, w.status)
    requires !Measuring(w.status.subPhase) && !w.status.subPhase.ApplyingChaos? && !w.status.subPhase.Cleanup?
    ensures RefsMove(spec, w, input, ExperimentStep(spec, w, input).status)
  {
    OwnedNamesAre(spec.manifests, w.status.experimentId);
    hide Deactivated, Activated, CanActivate, OwnedNames, RolesOf, Deploys, ValidSpec, MeasurementStep,
         ApplyingChaosStep, CleanupStep, ManifestNames;
  }

  lemma ApplyingRefsMove(spec: Spec, w: World, input: Input)
    requires Dispatches(spec, w.status) && w.status.subPhase.ApplyingChaos?
    ensures RefsMove(spec, w, input, ApplyingChaosStep(spec, w, input).status)
  {
    hide ApplyFaults, CleanupRefs, ManifestNames;
  }

  lemma CleanupRefsMove(spec: Spec, w: World, input: Input)
    requires w.status.subPhase.Cleanup?
    ensures RefsMove(spec, w, input, CleanupStep(spec, w, input).status)
  {
    hide Deactivated, CleanupRefs, CleanupResult, ManifestNames;
  }

  lemma StepRefsMove(spec: Spec, w: World, input: Input)
    requires ValidSpec(spec) && ValidStatus(spec, w.status)
    ensures RefsMove(spec, w, input, ExperimentStep(spec, w, input).status)
  {
    if Dispatches(spec, w.status) {
      hide ExperimentStep, MeasurementStep, ApplyingChaosStep, CleanupStep, ValidSpec, ManifestNames, Attempt;
      if Measuring(w.status.subPhase) {
        MeasuringKeepsRefs(spec, w, input);
      } else if w.status.subPhase.ApplyingChaos? {
        DispatchedTo(spec, w, input);
        ApplyingRefsMove(spec, w, input);
      } else if w.status.subPhase.Cleanup? {
        DispatchedTo(spec, w, input);
        CleanupRefsMove(spec, w, input);
      } else {
        SomeRefsMove(spec, w, input);
      }
    } else {
      hide DispatchStep;
    }
  }

  lemma AppliedEarlier(spec: Spec, tspec: TopologySpec, w0: World, events: seq<Event>, e: Event, st: Status,
                       st': Status)
    requires ValidSpec(spec) && ValidStatus(spec, w0.status) && SomeApplied(spec, tspec, w0, events, st)
    requires st'.refs == st.refs && st'.completed == st.completed && st'.experimentId == st.experimentId
    ensures SomeApplied(spec, tspec, w0, events + [e], st')
  {
    hide Run, Attempt, AppliesChaos, ManifestNames;
    var k: nat :| AppliedAt(spec, tspec, w0, events, k, st);
    assert (events + [e])[..k] == events[..k] && (events + [e])[k] == events[k];
    assert AppliedAt(spec, tspec, w0, events + [e], k, st');
  }

  lemma AppliedNow(spec: Spec, tspec: TopologySpec, w0: World, events: seq<Event>, input: Input, st': Status)
    requires ValidSpec(spec) && ValidStatus(spec, w0.status)
    requires var w := Run(spec, tspec, w0, events);
             && w.status.subPhase.ApplyingChaos? && st'.subPhase.ChaosMeasurement?
             && RefsMove(spec, w, input, st') && st'.completed == w.status.completed
             && w.status.refs == ManifestNames(spec.manifests, w.status.experimentId)
    ensures SomeApplied(spec, tspec, w0, events + [ExperimentReconcile(input)], st')
  {
    hide Run, Attempt, AppliesChaos, ManifestNames;
    var e := ExperimentReconcile(input);
    assert (events + [e])[..|events|] == events;
    assert AppliedAt(spec, tspec, w0, events + [e], |events|, st');
  }

  lemma StepFits(spec: Spec, tspec: TopologySpec, w0: World, events: seq<Event>, e: Event)
    requires ValidSpec(spec) && ValidStatus(spec, w0.status)
    requires RefsFit(spec, tspec, w0, events, Run(spec, tspec, w0, events).status)
    ensures RefsFit(spec, tspec, w0, events + [e], Step(spec, tspec, Run(spec, tspec, w0, events), e).status)
  {
    hide Run, SomeApplied, ManifestNames, ExperimentStep, TopologyStep, ValidSpec, Attempt, AppliesChaos;
    var w := Run(spec, tspec, w0, events);
    var st, st' := w.status, Step(spec, tspec, w, e).status;
    match e {
      case TopologyReconcile(input) => TopologyStepKeeps(tspec, w, input);
      case ExperimentReconcile(input) =>
        StepMoves(spec, w, input);
        StepRefsMove(spec, w, input);
        if st.subPhase.ApplyingChaos? && st'.subPhase.ChaosMeasurement? {
          AppliedNow(spec, tspec, w0, events, input, st');
        }
    }
    if UnderChaos(st.subPhase) && spec.hasChaosPhase && UnderChaos(st'.subPhase) {
      AppliedEarlier(spec, tspec, w0, events, e, st, st');
    }
  }

  /** In every run and at every point of it the references are: none before the deployment and after a
      repetition; the names of the manifest sets from then on; and in a chaos window and its Cleanup also
      the references of a chaos phase that was applied in full in this repetition, if the specification
      has one. Without one the run never enters ApplyingChaos. */
  lemma {:induction false} RunRefsFit(spec: Spec, tspec: TopologySpec, w0: World, events: seq<Event>)
    requires ValidSpec(spec) && Fresh(w0)
    ensures RefsFit(spec, tspec, w0, events, Run(spec, tspec, w0, events).status)
  {
    if events != [] {
      hide RefsFit, Step;
      var front, e := events[..|events| - 1], events[|events| - 1];
      RunRefsFit(spec, tspec, w0, front);
      StepFits(spec, tspec, w0, front, e);
      assert front + [e] == events;
    }
  }

  // ---------- the window before, and the readings of, the chaos ----------

  /** The step that closes the window before the chaos goes on to apply it if and only if the specification
      has a chaos phase. */
  lemma ClosingLeadsToChaosIff(spec: Spec, w: World, input: Input)
    requires ValidSpec(spec) && ValidStatus(spec, w.status) && w.status.subPhase.PreChaosMeasurement?
    requires !ExperimentStep(spec, w, input).status.subPhase.PreChaosMeasurement?
    ensures ExperimentStep(spec, w, input).status.subPhase.ApplyingChaos? <==> spec.hasChaosPhase
    ensures ExperimentStep(spec, w, input).status.subPhase.ChaosMeasurement? <==> !spec.hasChaosPhase
  {
    hide ExperimentStep;
    StepMoves(spec, w, input);
  }

  /** An earlier event applied all faults of a chaos phase in the repetition of this reading. */
  ghost predicate AppliedBefore(spec: Spec, tspec: TopologySpec, w0: World, events: seq<Event>, n: nat, k: nat)
    requires ValidSpec(spec) && ValidStatus(spec, w0.status)
  {
    k < |events| &&
    var (v, e) := (Run(spec, tspec, w0, events[..k]), events[k]);
    AppliesChaos(spec, v, e) && Attempt(v, e.input.chaosPhase.value, e.input).ok && v.status.completed + 1 == n
  }

  ghost predicate UnderAppliedChaos(spec: Spec, tspec: TopologySpec, w0: World, events: seq<Event>, n: nat)
    requires ValidSpec(spec) && ValidStatus(spec, w0.status)
  {
    exists k: nat :: AppliedBefore(spec, tspec, w0, events, n, k)
  }

  lemma StillApplied(spec: Spec, tspec: TopologySpec, w0: World, events: seq<Event>, e: Event, n: nat)
    requires ValidSpec(spec) && ValidStatus(spec, w0.status) && UnderAppliedChaos(spec, tspec, w0, events, n)
    ensures UnderAppliedChaos(spec, tspec, w0, events + [e], n)
  {
    hide Run, Attempt, AppliesChaos;
    var k: nat :| AppliedBefore(spec, tspec, w0, events, n, k);
    assert (events + [e])[..k] == events[..k] && (events + [e])[k] == events[k];
    assert AppliedBefore(spec, tspec, w0, events + [e], n, k);
  }

  lemma AppliedInRepetition(spec: Spec, tspec: TopologySpec, w0: World, events: seq<Event>, st: Status)
    requires ValidSpec(spec) && ValidStatus(spec, w0.status) && SomeApplied(spec, tspec, w0, events, st)
    ensures UnderAppliedChaos(spec, tspec, w0, events, st.completed + 1)
  {
    hide Run, Attempt, AppliesChaos, ManifestNames;
    var k: nat :| AppliedAt(spec, tspec, w0, events, k, st);
    assert AppliedBefore(spec, tspec, w0, events, st.completed + 1, k);
  }

  lemma TakenIs(spec: Spec, w: World, e: Event)
    requires ValidSpec(spec)
    ensures forall r | r in Taken(spec, w, e) :: r.repetition == w.status.completed + 1 && r.phase == w.status.subPhase
  {}

  lemma ReadingsSnoc(spec: Spec, tspec: TopologySpec, w0: World, events: seq<Event>, e: Event)
    requires ValidSpec(spec) && ValidStatus(spec, w0.status)
    ensures Readings(spec, tspec, w0, events + [e]) ==
            Readings(spec, tspec, w0, events) + Taken(spec, Run(spec, tspec, w0, events), e)
  {
    hide Run, Taken;
    assert (events + [e])[..|events|] == events;
  }

  lemma ReadingUnderChaos(spec: Spec, tspec: TopologySpec, w0: World, events: seq<Event>, e: Event, r: Reading)
    requires ValidSpec(spec) && Fresh(w0) && spec.hasChaosPhase
    requires r in Taken(spec, Run(spec, tspec, w0, events), e) && r.phase.ChaosMeasurement?
    ensures UnderAppliedChaos(spec, tspec, w0, events, r.repetition)
  {
    hide Run, UnderAppliedChaos, SomeApplied, Taken;
    var w := Run(spec, tspec, w0, events);
    TakenIs(spec, w, e);
    RunRefsFit(spec, tspec, w0, events);
    AppliedInRepetition(spec, tspec, w0, events, w.status);
  }

  /** With a chaos phase in the specification, every reading that a run takes in a chaos window was taken
      after a chaos phase had been applied in full in that same repetition. */
  lemma {:induction false} ReadingsUnderChaos(spec: Spec, tspec: TopologySpec, w0: World, events: seq<Event>)
    requires ValidSpec(spec) && Fresh(w0) && spec.hasChaosPhase
    ensures forall r | r in Readings(spec, tspec, w0, events) && r.phase.ChaosMeasurement? ::
              UnderAppliedChaos(spec, tspec, w0, events, r.repetition)
  {
    if events == [] {
      assert Readings(spec, tspec, w0, events) == [];
    } else {
      hide Run, UnderAppliedChaos, Taken, Readings;
      var front, e := events[..|events| - 1], events[|events| - 1];
      assert front + [e] == events;
      ReadingsUnderChaos(spec, tspec, w0, front);
      ReadingsSnoc(spec, tspec, w0, front, e);
      forall r | r in Readings(spec, tspec, w0, events) && r.phase.ChaosMeasurement?
        ensures UnderAppliedChaos(spec, tspec, w0, events, r.repetition)
      {
        if r !in Readings(spec, tspec, w0, front) {
          ReadingUnderChaos(spec, tspec, w0, front, e, r);
        }
        StillApplied(spec, tspec, w0, front, e, r.repetition);
      }
    }
  }

  // ---------- the objects during the chaos ----------

  /** Every object that this chaos phase declares exists. */
  ghost predicate ChaosUp(cp: ChaosPhase, id: string, objects: set<ObjectKey>) {
    forall k | Declared(cp.topology, id, cp.faults, k) :: k in objects
  }

  /** In every run, whichever calls fail: as long as a chaos window of a specification with a chaos phase is
      measured, all objects exist that the chaos phase applied in this repetition declares, fault by fault. */
  lemma ChaosWindowHasChaos(spec: Spec, tspec: TopologySpec, w0: World, events: seq<Event>) returns (k: nat)
    requires ValidSpec(spec) && Fresh(w0) && PlainLinks(tspec) && Owned(w0.objects) == {} && TopologyRefs(w0)
    requires forall e | e in events :: PlainEvent(e)
    requires spec.hasChaosPhase && Run(spec, tspec, w0, events).status.subPhase.ChaosMeasurement?
    ensures var w := Run(spec, tspec, w0, events);
            && AppliedAt(spec, tspec, w0, events, k, w.status)
            && ChaosUp(events[k].input.chaosPhase.value, w.status.experimentId, w.objects)
  {
    hide Run, Owned, PlainEvent, TopologyRefs, PlainLinks, Leaked, Held, ManifestNames, Decoded, Declared;
    RunRefsFit(spec, tspec, w0, events);
    var w := Run(spec, tspec, w0, events);
    k :| AppliedAt(spec, tspec, w0, events, k, w.status);
    ChaosAccounted(spec, tspec, w0, events);
    assert PlainEvent(events[k]);
    AppliedAreDeclared(Run(spec, tspec, w0, events[..k]), events[k]);
    DecodedConcat(ManifestNames(spec.manifests, w.status.experimentId),
                  Attempt(Run(spec, tspec, w0, events[..k]), events[k].input.chaosPhase.value, events[k].input).refs);
    OwnedExist(w.objects);
  }

  lemma OwnedExist(objects: set<ObjectKey>)
    ensures Owned(objects) <= objects
  {}

  lemma AppliedAreDeclared(v: World, e: Event)
    requires PlainEvent(e) && e.ExperimentReconcile? && e.input.chaosPhase.Some?
    requires Attempt(v, e.input.chaosPhase.value, e.input).ok
    ensures var cp := e.input.chaosPhase.value;
            forall k | Declared(cp.topology, v.status.experimentId, cp.faults, k) ::
              k in Decoded(Attempt(v, cp, e.input).refs)
  {
    AppliesIff(e.input.chaosPhase.value, v.status.experimentId, v.objects, e.input.refused);
  }
}
