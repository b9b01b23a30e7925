/** When the chaos objects of an experiment exist, and which of them are left behind. */
module ChaosLifetime {
  import opened SloScores
  import opened ChaosRefs
  import opened ChaosPhases
  import opened ExperimentModel
  import opened TopologyModel
  import opened ExperimentRuns
  import opened MeasurementWindows
  import opened TwoControllers
  import opened LinkLifetime

  function Owned(objects: set<ObjectKey>): set<ObjectKey> {
    set k | k in objects && ExperimentOwned(k)
  }

  predicate UnderChaos(p: SubPhase) {
    p.ChaosMeasurement? || p.Cleanup?
  }

  /** The references of the topology decode to nothing of the experiment's. */
  ghost predicate TopologyRefs(w: World) {
    w.topology.Some? ==> forall k | k in DecodedLinks(w.topology.value.refs) :: !ExperimentOwned(k)
  }

  /** What the chaos phase of this input would do to the cluster. */
  function Attempt(w: World, cp: ChaosPhase, input: Input): Applied {
    ApplyFaults(cp.topology, w.status.experimentId, cp.faults, w.objects, input.refused)
  }

  predicate AppliesChaos(spec: Spec, w: World, e: Event) {
    && e.ExperimentReconcile? && Dispatches(spec, w.status) && w.status.subPhase.ApplyingChaos?
    && e.input.chaosPhase.Some?
  }

  /** This Cleanup completes the repetition and drops its references. */
  predicate MovesOn(spec: Spec, w: World, e: Event) {
    && e.ExperimentReconcile? && Dispatches(spec, w.status) && w.status.subPhase.Cleanup?
    && CleanupResult(spec, w.status).Some? && e.input.resultsOk && e.input.patchOk
  }

  /** The objects a reconcile leaves without any reference: if applying fails, those of the failing
      fault and those that the rollback could not delete; all that were created if applying succeeds
      but the status patch is lost; and what a Cleanup that moves on could not delete. */
  function Leak(spec: Spec, w: World, e: Event): set<ObjectKey> {
    if AppliesChaos(spec, w, e) then
      var cp, a := e.input.chaosPhase.value, Attempt(w, e.input.chaosPhase.value, e.input);
      if !a.ok then
        Leftover(cp.topology, w.status.experimentId, cp.faults, w.objects, e.input.refused) +
        Decoded(a.refs) * e.input.undeleted
      else if e.input.patchOk then {} else Decoded(a.refs)
    else if MovesOn(spec, w, e) then Decoded(w.status.refs) * w.objects * e.input.undeleted
    else {}
  }

  function Leaked(spec: Spec, tspec: TopologySpec, w0: World, events: seq<Event>): set<ObjectKey>
    requires ValidSpec(spec) && ValidStatus(spec, w0.status)
  {
    if events == [] then {} else
      var front, e := events[..|events| - 1], events[|events| - 1];
      Leaked(spec, tspec, w0, front) + Leak(spec, Run(spec, tspec, w0, front), e)
  }

  /** The objects with a reference: those of the last successful application, less what Cleanup
      could delete. */
  function Held(spec: Spec, tspec: TopologySpec, w0: World, events: seq<Event>): set<ObjectKey>
    requires ValidSpec(spec) && ValidStatus(spec, w0.status)
  {
    if events == [] then {} else
      var front, e := events[..|events| - 1], events[|events| - 1];
      NextHeld(spec, Run(spec, tspec, w0, front), e, Held(spec, tspec, w0, front))
  }

  function NextHeld(spec: Spec, w: World, e: Event, held: set<ObjectKey>): set<ObjectKey> {
    if AppliesChaos(spec, w, e) && Attempt(w, e.input.chaosPhase.value, e.input).ok && e.input.patchOk then
      Decoded(Attempt(w, e.input.chaosPhase.value, e.input).refs)
    else if e.ExperimentReconcile? && Dispatches(spec, w.status) && w.status.subPhase.Cleanup? then
      if MovesOn(spec, w, e) then {} else held * e.input.undeleted
    else held
  }

  /** The books: the experiment's objects are the held ones and the leaked ones, without overlap. */
  ghost predicate Accounted(w: World, leaked: set<ObjectKey>, held: set<ObjectKey>) {
    && OwnRefs(w.status) && TopologyRefs(w)
    && (UnderChaos(w.status.subPhase) || Decoded(w.status.refs) == {})
    && held <= Decoded(w.status.refs)
    && (w.status.subPhase.ChaosMeasurement? ==> held == Decoded(w.status.refs))
    && leaked !! Decoded(w.status.refs)
    && Owned(w.objects) == leaked + held
  }

  // ---------- each step keeps the books ----------

  lemma LinkKeysNotOwned(tspec: TopologySpec)
    requires PlainLinks(tspec)
    ensures var keys := AllLinkKeys(tspec.name, tspec.links);
            && (forall k | k in keys :: !ExperimentOwned(k))
            && (forall k | k in DecodedLinks(LinkRefs(keys)) :: !ExperimentOwned(k))
  {
    hide AllLinkKeys, DecodedLinks, LinkRefs, ExperimentOwned;
    LinkKeysOwned(tspec.name, tspec.links);
    StoredRefsDecode(tspec);
  }

  lemma TopologyKeepsOwned(tspec: TopologySpec, w: World, input: TopologyInput)
    requires TopologyRefs(w) && PlainLinks(tspec)
    ensures var w' := TopologyStep(tspec, w, input);
            Owned(w'.objects) == Owned(w.objects) && TopologyRefs(w') && w'.status == w.status
  {
    hide AllLinkKeys, LinkRefs, ExperimentOwned, DecodedLinks, PlainLinks;
    LinkKeysNotOwned(tspec);
    NothingStored();
    var keys := AllLinkKeys(tspec.name, tspec.links);
    var n := EnsuredCount(input.failAt, |keys|);
    assert forall k | k in keys[..n] :: k in keys;
    assert Owned(w.objects + KeySet(keys[..n])) == Owned(w.objects);
    if w.topology.Some? {
      assert Owned(w.objects - DecodedLinks(w.topology.value.refs)) == Owned(w.objects);
    }
  }

  /** Applying and, after a failure, rolling back adds exactly these objects of the experiment's. */
  lemma AttemptOwns(w: World, cp: ChaosPhase, input: Input)
    requires PlainNames(cp)
    ensures var a := Attempt(w, cp, input);
            var left := Leftover(cp.topology, w.status.experimentId, cp.faults, w.objects, input.refused);
            && (a.ok ==> Owned(a.objects) == Owned(w.objects) + Decoded(a.refs) && Decoded(a.refs) !! Owned(w.objects))
            && (!a.ok ==> Owned(CleanupRefs(a.objects, a.refs, input.undeleted)) ==
                            Owned(w.objects) + (left + Decoded(a.refs) * input.undeleted))
  {
    hide ApplyFaults, Leftover, Decoded, ExperimentOwned;
    forall f | f in cp.faults ensures PlainFault(f) {}
    ApplyBalances(cp.topology, w.status.experimentId, cp.faults, w.objects, input.refused);
    assert forall k | k in Owned(w.objects) :: k in w.objects;
  }

  lemma ApplyingKeepsBooks(spec: Spec, w: World, input: Input, leaked: set<ObjectKey>, held: set<ObjectKey>)
    requires Accounted(w, leaked, held) && Dispatches(spec, w.status) && w.status.subPhase.ApplyingChaos?
    requires PlainEvent(ExperimentReconcile(input)) && OwnRefs(ApplyingChaosStep(spec, w, input).status)
    ensures var e := ExperimentReconcile(input);
            Accounted(ApplyingChaosStep(spec, w, input), leaked + Leak(spec, w, e), NextHeld(spec, w, e, held))
  {
    hide ApplyFaults, Leftover, OwnRefs, PlainNames, Owned, Decoded, CleanupRefs, NoSlash, DecodedLinks,
         ExperimentOwned, CleanupResult;
    if input.chaosPhase.Some? {
      var cp := input.chaosPhase.value;
      AttemptOwns(w, cp, input);
      DecodedConcat(w.status.refs, Attempt(w, cp, input).refs);
    }
  }

  lemma CleanupKeepsBooks(spec: Spec, w: World, input: Input, leaked: set<ObjectKey>, held: set<ObjectKey>)
    requires Accounted(w, leaked, held) && Dispatches(spec, w.status) && w.status.subPhase.Cleanup?
    requires OwnRefs(CleanupStep(spec, w, input).status)
    ensures var e := ExperimentReconcile(input);
            Accounted(CleanupStep(spec, w, input), leaked + Leak(spec, w, e), NextHeld(spec, w, e, held))
  {
    hide Decoded, ExperimentOwned, OwnRefs, DecodedLinks, CleanupResult, NoSlash;
    NothingDecoded();
    UndeletedStay(w, input, leaked, held);
  }

  lemma UndeletedStay(w: World, input: Input, leaked: set<ObjectKey>, held: set<ObjectKey>)
    requires Accounted(w, leaked, held)
    ensures var decoded := Decoded(w.status.refs);
            && Owned(CleanupRefs(w.objects, w.status.refs, input.undeleted)) == leaked + held * input.undeleted
            && decoded * w.objects * input.undeleted == held * input.undeleted
  {
    hide Decoded, ExperimentOwned, DecodedLinks, NoSlash;
    var decoded := Decoded(w.status.refs);
    forall k | k in decoded * w.objects ensures k in held {
      assert k in Owned(w.objects);
    }
    forall k | k in held ensures k in w.objects {
      assert k in Owned(w.objects);
    }
    assert forall k | k in leaked :: k in Owned(w.objects);
  }

  /** What the handlers that neither create nor delete chaos objects do. */
  lemma WaitsFacts(spec: Spec, w: World, input: Input)
    requires ValidSpec(spec) && ValidStatus(spec, w.status)
    requires !Dispatches(spec, w.status)
             || !(Measuring(w.status.subPhase) || w.status.subPhase.ApplyingChaos? || w.status.subPhase.Cleanup?)
    ensures var (w', st) := (ExperimentStep(spec, w, input), w.status);
            && w'.objects == w.objects
            && (w'.topology.Some? ==> w.topology.Some? && w'.topology.value.refs == w.topology.value.refs)
            && (w'.status.refs == st.refs || w'.status.refs == OwnedNames(st.experimentId, RolesOf(spec.manifests)))
            && (w'.status.refs != st.refs ==> st.subPhase.Deploying?)
            && (UnderChaos(w'.status.subPhase) <==> UnderChaos(st.subPhase))
            && (w'.status.subPhase.Cleanup? <==> st.subPhase.Cleanup?)
            && (FailedApplying(st) ==> FailedApplying(w'.status))
  {
    hide OwnedNames, RolesOf, Deploys, MeasurementStep, ApplyingChaosStep, CleanupStep, ValidSpec,
         Deactivated, Activated, CanActivate;
  }

  lemma WaitsKeepBooks(spec: Spec, w: World, input: Input, leaked: set<ObjectKey>, held: set<ObjectKey>)
    requires ValidSpec(spec) && ValidStatus(spec, w.status) && Accounted(w, leaked, held)
    requires !Dispatches(spec, w.status)
             || !(Measuring(w.status.subPhase) || w.status.subPhase.ApplyingChaos? || w.status.subPhase.Cleanup?)
    requires OwnRefs(ExperimentStep(spec, w, input).status)
    ensures Accounted(ExperimentStep(spec, w, input), leaked, held)
  {
    WaitsFacts(spec, w, input);
    OwnedNamesDecodeToNothing(w.status.experimentId, spec.manifests);
    hide OwnRefs, Owned, Decoded, DecodedLinks, OwnedNames, RolesOf, ExperimentStep, ValidSpec;
  }

  lemma MeasuringGoesOn(spec: Spec, w: World, input: Input)
    requires ValidSpec(spec) && ValidStatus(spec, w.status) && Measuring(w.status.subPhase)
    ensures var st' := ExperimentStep(spec, w, input).status;
            && (UnderChaos(w.status.subPhase) ==> UnderChaos(st'.subPhase))
            && (st'.subPhase.Cleanup? ==> w.status.subPhase.ChaosMeasurement?)
  {
    hide RecordRound, StatesOrInitial, LinesOf, Samples, ValidSpec;
  }

  lemma MeasuringKeepsBooks(spec: Spec, w: World, input: Input, leaked: set<ObjectKey>, held: set<ObjectKey>)
    requires ValidSpec(spec) && ValidStatus(spec, w.status)
    requires Accounted(w, leaked, held) && Measuring(w.status.subPhase)
    ensures Accounted(ExperimentStep(spec, w, input), leaked, held)
  {
    MeasuringKeepsRefs(spec, w, input);
    MeasuringGoesOn(spec, w, input);
    hide ExperimentStep, Owned, Decoded, DecodedLinks, ValidSpec;
  }

  lemma ExperimentKeepsBooks(spec: Spec, w: World, input: Input, leaked: set<ObjectKey>, held: set<ObjectKey>)
    requires ValidSpec(spec) && ValidStatus(spec, w.status) && Accounted(w, leaked, held)
    requires PlainEvent(ExperimentReconcile(input)) && OwnRefs(ExperimentStep(spec, w, input).status)
    ensures var e := ExperimentReconcile(input);
            Accounted(ExperimentStep(spec, w, input), leaked + Leak(spec, w, e), NextHeld(spec, w, e, held))
  {
    assert leaked + {} == leaked;
    hide OwnRefs, ExperimentStep, ApplyingChaosStep, CleanupStep, Accounted, ValidSpec, PlainEvent, CleanupResult;
    if Measuring(w.status.subPhase) {
      MeasuringKeepsBooks(spec, w, input, leaked, held);
    } else if Dispatches(spec, w.status) && w.status.subPhase.ApplyingChaos? {
      DispatchedTo(spec, w, input);
      ApplyingKeepsBooks(spec, w, input, leaked, held);
    } else if Dispatches(spec, w.status) && w.status.subPhase.Cleanup? {
      DispatchedTo(spec, w, input);
      CleanupKeepsBooks(spec, w, input, leaked, held);
    } else {
      WaitsKeepBooks(spec, w, input, leaked, held);
    }
  }

  lemma {:induction false} RunKeepsBooks(spec: Spec, tspec: TopologySpec, w: World, events: seq<Event>)
    requires ValidSpec(spec) && Fresh(w) && PlainLinks(tspec) && Owned(w.objects) == {} && TopologyRefs(w)
    requires forall e | e in events :: PlainEvent(e)
    ensures Accounted(Run(spec, tspec, w, events), Leaked(spec, tspec, w, events), Held(spec, tspec, w, events))
  {
    if events == [] {
      NothingDecoded();
    } else {
      hide Accounted, PlainEvent, Step, TopologyRefs, PlainLinks, Owned, NextHeld, Leak, Fresh;
      var front, e := events[..|events| - 1], events[|events| - 1];
      FreshIsValid(spec, w);
      RunKeepsBooks(spec, tspec, w, front);
      StepKeepsBooks(spec, tspec, Run(spec, tspec, w, front), e, Leaked(spec, tspec, w, front),
                     Held(spec, tspec, w, front));
    }
  }

  lemma FreshIsValid(spec: Spec, w: World)
    requires Fresh(w)
    ensures ValidStatus(spec, w.status)
  {}

  lemma StepKeepsBooks(spec: Spec, tspec: TopologySpec, w: World, e: Event, leaked: set<ObjectKey>,
                       held: set<ObjectKey>)
    requires ValidSpec(spec) && ValidStatus(spec, w.status) && PlainLinks(tspec)
    requires Accounted(w, leaked, held) && PlainEvent(e)
    ensures Accounted(Step(spec, tspec, w, e), leaked + Leak(spec, w, e), NextHeld(spec, w, e, held))
  {
    match e
    case ExperimentReconcile(input) =>
      StepKeepsOwnRefs(spec, w, input);
      hide ExperimentStep, ValidSpec, Accounted, Leak, NextHeld;
      ExperimentKeepsBooks(spec, w, input, leaked, held);
    case TopologyReconcile(input) =>
      hide TopologyStep, Owned, PlainLinks, TopologyRefs, Decoded, OwnRefs;
      assert leaked + {} == leaked;
      TopologyKeepsOwned(tspec, w, input);
  }

  /** Exact accounting over every run, whichever patches, writes, creations and deletes fail and are
      retried: the experiment's objects are the held ones and, besides them, exactly the leaked ones,
      which nothing ever refers to again. The held ones are all that the references decode to during
      ChaosMeasurement, and none outside ChaosMeasurement and Cleanup. */
  lemma ChaosAccounted(spec: Spec, tspec: TopologySpec, w0: World, events: seq<Event>)
    requires ValidSpec(spec) && Fresh(w0) && PlainLinks(tspec) && Owned(w0.objects) == {} && TopologyRefs(w0)
    requires forall e | e in events :: PlainEvent(e)
    ensures var w := Run(spec, tspec, w0, events);
            var (leaked, held) := (Leaked(spec, tspec, w0, events), Held(spec, tspec, w0, events));
            && Owned(w.objects) == leaked + held
            && leaked !! Decoded(w.status.refs) && held <= Decoded(w.status.refs)
            && (w.status.subPhase.ChaosMeasurement? ==> held == Decoded(w.status.refs))
            && (!UnderChaos(w.status.subPhase) ==> held == {})
            && (forall k | k in Decoded(w.status.refs) :: ExperimentOwned(k))
  {
    hide Run, Leaked, Held, PlainEvent, TopologyRefs, PlainLinks, Owned;
    RunKeepsBooks(spec, tspec, w0, events);
  }

  // ---------- when nothing is lost ----------

  ghost predicate FailedApplying(st: Status) {
    st.phase.Failed? && st.subPhase.ApplyingChaos?
  }

  /** Patches, result writes and deletes succeed. */
  ghost predicate Succeeds(e: Event) {
    PlainEvent(e) && (e.ExperimentReconcile? ==> e.input.patchOk && e.input.resultsOk && e.input.undeleted == {})
  }

  lemma SucceedingStep(spec: Spec, tspec: TopologySpec, w: World, e: Event, held: set<ObjectKey>)
    requires ValidSpec(spec) && ValidStatus(spec, w.status) && ValidThresholds(spec.slos) && Succeeds(e)
    ensures var st' := Step(spec, tspec, w, e).status;
            && (st'.subPhase.Cleanup? ==> st'.refs == w.status.refs && NextHeld(spec, w, e, held) == held
                                          && UnderChaos(w.status.subPhase))
            && (Leak(spec, w, e) != {} ==> FailedApplying(st'))
            && (FailedApplying(w.status) ==> FailedApplying(st') && Leak(spec, w, e) == {})
  {
    match e
    case TopologyReconcile(input) =>
      hide TopologyStep;
      TopologyStepKeeps(tspec, w, input);
    case ExperimentReconcile(input) =>
      hide ExperimentStep, ApplyFaults, Leftover, Decoded, CleanupRefs, PlainEvent, ValidSpec, Deactivated,
           MeasurementStep;
      if Dispatches(spec, w.status) && w.status.subPhase.ApplyingChaos? {
        DispatchedTo(spec, w, input);
      } else if Dispatches(spec, w.status) && w.status.subPhase.Cleanup? {
        DispatchedTo(spec, w, input);
        ValidThresholdsScore(spec.slos, w.status.measurement);
      } else if Measuring(w.status.subPhase) {
        MeasuringKeepsRefs(spec, w, input);
        MeasuringGoesOn(spec, w, input);
      } else {
        WaitsFacts(spec, w, input);
      }
  }

  lemma {:induction false} SucceedingRun(spec: Spec, tspec: TopologySpec, w0: World, events: seq<Event>)
    requires ValidSpec(spec) && Fresh(w0) && PlainLinks(tspec) && Owned(w0.objects) == {} && TopologyRefs(w0)
    requires ValidThresholds(spec.slos) && forall e | e in events :: Succeeds(e)
    ensures UnderChaos(Run(spec, tspec, w0, events).status.subPhase) ==>
              Held(spec, tspec, w0, events) == Decoded(Run(spec, tspec, w0, events).status.refs)
    ensures FailedApplying(Run(spec, tspec, w0, events).status) || Leaked(spec, tspec, w0, events) == {}
  {
    if events != [] {
      hide Step, ValidThresholds, NextHeld, Leak, FailedApplying, Owned, TopologyRefs, PlainLinks, PlainEvent;
      var front, e := events[..|events| - 1], events[|events| - 1];
      SucceedingRun(spec, tspec, w0, front);
      SucceedingStep(spec, tspec, Run(spec, tspec, w0, front), e, Held(spec, tspec, w0, front));
      ChaosAccounted(spec, tspec, w0, events);
    }
  }

  /** If nothing fails but creations: in every interleaving with a topology controller whose calls may
      fail, the experiment's chaos objects are exactly those its references decode to during
      ChaosMeasurement and Cleanup, and in every other sub-phase there are none, unless applying the
      chaos has just failed for good. */
  lemma ChaosLivesBetween(spec: Spec, tspec: TopologySpec, w0: World, events: seq<Event>)
    requires ValidSpec(spec) && Fresh(w0) && PlainLinks(tspec) && Owned(w0.objects) == {} && TopologyRefs(w0)
    requires ValidThresholds(spec.slos) && forall e | e in events :: Succeeds(e)
    ensures var w := Run(spec, tspec, w0, events);
            && (UnderChaos(w.status.subPhase) ==> Owned(w.objects) == Decoded(w.status.refs))
            && (!UnderChaos(w.status.subPhase) && !FailedApplying(w.status) ==> Owned(w.objects) == {})
            && (forall k | k in Decoded(w.status.refs) :: ExperimentOwned(k))
  {
    hide Run, Leaked, Held, PlainEvent, TopologyRefs, PlainLinks, Owned, ValidThresholds;
    forall e | e in events ensures PlainEvent(e) {
      assert Succeeds(e);
    }
    ChaosAccounted(spec, tspec, w0, events);
    SucceedingRun(spec, tspec, w0, events);
  }

  // ---------- what leaks ----------

  lemma NoKeysIff(topology: string, id: string, f: Fault)
    requires KeysOf(topology, id, f).Some?
    ensures var keys := KeysOf(topology, id, f).value;
            (keys == [] <==> f.kind.UnknownFault?) && |RefsOf(keys)| == |keys|
  {}

  /** What a successful application creates is nothing exactly if it has no fault of a known type. */
  lemma {:induction false} NothingAppliedIff(topology: string, id: string, faults: seq<Fault>, objects: set<ObjectKey>,
                                             refused: set<ObjectKey>)
    requires ApplyFaults(topology, id, faults, objects, refused).ok
    ensures ApplyFaults(topology, id, faults, objects, refused).refs == [] <==>
              forall i | 0 <= i < |faults| :: faults[i].kind.UnknownFault?
  {
    if faults != [] {
      hide KeysOf, CreatedCount, RefsOf, Elements;
      var n := |faults| - 1;
      NothingAppliedIff(topology, id, faults[..n], objects, refused);
      NoKeysIff(topology, id, faults[n]);
    }
  }

  /** If the status patch after a successful application is lost, objects without a reference are
      left behind if and only if the chaos phase has a fault of a known type. */
  lemma LostPatchLeaksIff(spec: Spec, w: World, input: Input)
    requires AppliesChaos(spec, w, ExperimentReconcile(input)) && PlainNames(input.chaosPhase.value)
    requires Attempt(w, input.chaosPhase.value, input).ok && !input.patchOk
    ensures Leak(spec, w, ExperimentReconcile(input)) != {} <==>
              exists f :: f in input.chaosPhase.value.faults && !f.kind.UnknownFault?
  {
    var cp := input.chaosPhase.value;
    NothingAppliedIff(cp.topology, w.status.experimentId, cp.faults, w.objects, input.refused);
    RefsDecode(cp, w.status.experimentId, w.objects, input.refused);
    hide ApplyFaults, Decoded, PlainNames;
  }

  lemma {:induction false} RefsDecodeAll(topology: string, id: string, faults: seq<Fault>, objects: set<ObjectKey>,
                                         refused: set<ObjectKey>)
    requires NoSlash(topology) && forall f | f in faults :: PlainFault(f)
    ensures forall r | r in ApplyFaults(topology, id, faults, objects, refused).refs :: DecodeRef(r).Some?
  {
    if faults != [] {
      hide DecodeRef, EncodeRef, KeysOf, PlainFault, CreatedCount, NoSlash, Plain;
      var front, f := faults[..|faults| - 1], faults[|faults| - 1];
      RefsDecodeAll(topology, id, front, objects, refused);
      if KeysOf(topology, id, f).Some? {
        KeysArePlain(topology, id, f);
        forall k | k in KeysOf(topology, id, f).value ensures DecodeRef(EncodeRef(k)).Some? {
          DecodeEncode(k);
        }
      }
    }
  }

  lemma RefsDecode(cp: ChaosPhase, id: string, objects: set<ObjectKey>, refused: set<ObjectKey>)
    requires PlainNames(cp)
    ensures var refs := ApplyFaults(cp.topology, id, cp.faults, objects, refused).refs;
            Decoded(refs) == {} <==> refs == []
  {
    hide ApplyFaults, DecodeRef;
    forall f | f in cp.faults ensures PlainFault(f) {}
    RefsDecodeAll(cp.topology, id, cp.faults, objects, refused);
    var refs := ApplyFaults(cp.topology, id, cp.faults, objects, refused).refs;
    if refs != [] {
      assert DecodeRef(refs[0]).value in Decoded(refs);
    }
  }

  /** When applying the chaos fails at the i-th fault, nothing of the experiment's is left behind
      if and only if no delete of the rollback fails and that fault could not create even its first
      stress object. */
  lemma FailedApplicationIsCleanIff(spec: Spec, w: World, input: Input, i: nat)
    requires Owned(w.objects) == {} && w.status.subPhase.ApplyingChaos?
    requires input.chaosPhase.Some? && PlainNames(input.chaosPhase.value)
    requires var cp := input.chaosPhase.value;
             i < |cp.faults| && FailsAt(cp.topology, w.status.experimentId, cp.faults, w.objects, input.refused, i)
    ensures var (cp, id) := (input.chaosPhase.value, w.status.experimentId);
            var before := ApplyFaults(cp.topology, id, cp.faults[..i], w.objects, input.refused);
            var f := cp.faults[i];
            Owned(ApplyingChaosStep(spec, w, input).objects) == {} <==>
              && input.undeleted * Decoded(Attempt(w, cp, input).refs) == {}
              && (IsNetworkFault(f.kind) || f.zones == []
                  || !Creatable(before.objects, StressKey(cp.topology, id, f.zones[0], Variant(f.kind)), input.refused))
  {
    var (cp, id) := (input.chaosPhase.value, w.status.experimentId);
    RollbackCompleteIff(cp, id, w.objects, input.refused, input.undeleted, i);
    LeftIsOwned(cp, id, w.objects, input.refused, input.undeleted);
    LeftoverOfFailing(cp.topology, id, cp.faults, w.objects, input.refused, i);
    hide ApplyFaults, Leftover, StressKey, Creatable, Decoded, CleanupRefs, FailsAt, ExperimentOwned, PlainNames;
    var a := ApplyFaults(cp.topology, id, cp.faults, w.objects, input.refused);
    var left := CleanupRefs(a.objects, a.refs, input.undeleted);
    if Owned(left) == {} {
      forall k | k in left ensures k in w.objects {
        assert k !in Owned(left);
      }
    }
  }

  lemma LeftIsOwned(cp: ChaosPhase, id: string, objects: set<ObjectKey>, refused: set<ObjectKey>,
                    undeleted: set<ObjectKey>)
    requires PlainNames(cp)
    ensures var a := ApplyFaults(cp.topology, id, cp.faults, objects, refused);
            var left := CleanupRefs(a.objects, a.refs, undeleted);
            objects <= left && forall k | k in left && k !in objects :: ExperimentOwned(k)
  {
    forall f | f in cp.faults ensures PlainFault(f) {}
    ApplyBalances(cp.topology, id, cp.faults, objects, refused);
    hide ApplyFaults, Decoded, ExperimentOwned, Leftover;
  }
}
