/** Safety of the two controllers running side by side on one cluster. */
module TwoControllers {
  import opened Wrappers
  import opened ChaosRefs
  import opened ChaosPhases
  import opened ExperimentModel
  import opened TopologyModel
  import opened LinkObjects
  import opened ExperimentRuns
  import opened MeasurementWindows

  /** An Active topology has all its link objects. */
  ghost predicate ActiveMeansUp(tspec: TopologySpec, w: World) {
    w.topology.Some? && w.topology.value.phase.Active? ==> LinksUp(tspec, w.objects)
  }

  /** The sub-phases from the entry to LoadDelay until Cleanup. */
  predicate UnderLoad(p: SubPhase) {
    p.LoadDelay? || p.PreChaosMeasurement? || p.ApplyingChaos? || p.ChaosMeasurement?
  }

  /** The references of the experiment decode to nothing but the experiment's own objects. */
  ghost predicate OwnRefs(st: Status) {
    && NoSlash(st.experimentId)
    && forall k | k in Decoded(st.refs) :: ExperimentOwned(k)
  }

  ghost predicate SafeInv(spec: Spec, tspec: TopologySpec, w: World) {
    && ActiveMeansUp(tspec, w)
    && OwnRefs(w.status)
    && (w.status.subPhase.WaitingForTopology? ==>
          w.topology.Some? && (w.topology.value.active || !w.topology.value.phase.Active?))
    && (UnderLoad(w.status.subPhase) && spec.hasTopology ==>
          w.topology.Some? && w.topology.value.active && LinksUp(tspec, w.objects))
    && (w.status.subPhase.WaitingForTopology? || w.status.subPhase.TopologyDelay? ==> spec.hasTopology)
  }

  /** Names are as Kubernetes admits them. */
  ghost predicate PlainEvent(e: Event) {
    e.ExperimentReconcile? ==>
      && NoSlash(e.input.freshId)
      && (e.input.chaosPhase.Some? ==> PlainNames(e.input.chaosPhase.value))
  }

  /** The one reconcile that breaks the promise: a deactivation deletes a link object of an Active
      topology, and both attempts to write its status fail. */
  ghost predicate LosesLinks(tspec: TopologySpec, w: World, input: TopologyInput) {
    && w.topology.Some?
    && var t := w.topology.value;
       && t.hasFinalizer && !t.active && t.phase.Active?
       && input.zonesOk && !input.updateOk && !input.phaseOk
       && (DecodedLinks(t.refs) - input.undeleted) * KeySet(AllLinkKeys(tspec.name, tspec.links)) != {}
  }

  /** No event of the run is such a reconcile. */
  ghost predicate NothingLost(spec: Spec, tspec: TopologySpec, w0: World, events: seq<Event>)
    requires ValidSpec(spec) && ValidStatus(spec, w0.status)
  {
    events == [] ||
      var front, e := events[..|events| - 1], events[|events| - 1];
      && NothingLost(spec, tspec, w0, front)
      && (e.TopologyReconcile? ==> !LosesLinks(tspec, Run(spec, tspec, w0, front), e.topologyInput))
  }

  // ---------- who owns what ----------

  lemma LinkKeyOwned(topology: string, zone: string, zone': string, action: LinkAction)
    ensures !ExperimentOwned(LinkKey(topology, zone, zone', action))
  {
    assert LinkKey(topology, zone, zone', action).name[0] == 't';
  }

  lemma {:induction false} LinkKeysOwned(topology: string, links: seq<Link>)
    ensures forall k | k in AllLinkKeys(topology, links) :: !ExperimentOwned(k)
  {
    hide LinkKey, ExperimentOwned;
    if links != [] {
      LinkKeysOwned(topology, links[..|links| - 1]);
      var link := links[|links| - 1];
      if |link.zones| == 2 {
        LinkKeyOwned(topology, link.zones[0], link.zones[1], Delay);
        LinkKeyOwned(topology, link.zones[0], link.zones[1], Bandwidth);
        LinkKeyOwned(topology, link.zones[0], link.zones[1], Loss);
      }
    }
  }

  /** Cleaning up the experiment's references never deletes a link object. */
  lemma CleanupSparesLinks(tspec: TopologySpec, objects: set<ObjectKey>, refs: seq<string>, undeleted: set<ObjectKey>)
    requires forall k | k in Decoded(refs) :: ExperimentOwned(k)
    ensures LinksUp(tspec, objects) ==> LinksUp(tspec, CleanupRefs(objects, refs, undeleted))
  {
    hide Decoded, ExperimentOwned;
    LinkKeysOwned(tspec.name, tspec.links);
    LinksUpOrDownIff(tspec, objects);
    LinksUpOrDownIff(tspec, CleanupRefs(objects, refs, undeleted));
    hide LinksUp, AllLinkKeys;
  }

  lemma OwnedNameHasNoSlash(experimentId: string, role: string)
    requires NoSlash(experimentId) && NoSlash(role)
    ensures NoSlash(OwnedName(experimentId, role))
  {}

  lemma OwnedNamesDecodeToNothing(experimentId: string, m: Manifests)
    requires NoSlash(experimentId)
    ensures Decoded(OwnedNames(experimentId, RolesOf(m))) == {}
  {
    hide OwnedName, DecodeRef;
    var roles := RolesOf(m);
    forall i | 0 <= i < |roles| ensures DecodeRef(OwnedName(experimentId, roles[i])) == None {
      assert roles[i] in ["sut", "infra", "monitor", "load"];
      OwnedNameHasNoSlash(experimentId, roles[i]);
      NamesAreNotRefs(OwnedName(experimentId, roles[i]));
    }
  }

  /** What applying and, after a failure, rolling back a chaos phase can do to the objects. */
  lemma ChaosIsOwned(cp: ChaosPhase, id: string, objects: set<ObjectKey>, refused: set<ObjectKey>)
    requires PlainNames(cp)
    ensures var a := ApplyFaults(cp.topology, id, cp.faults, objects, refused);
            && objects <= a.objects && (forall undeleted :: objects <= CleanupRefs(a.objects, a.refs, undeleted))
            && forall k | k in Decoded(a.refs) :: ExperimentOwned(k)
  {
    hide ApplyFaults, Decoded, ExperimentOwned;
    forall f | f in cp.faults ensures PlainFault(f) {}
    ApplyBalances(cp.topology, id, cp.faults, objects, refused);
  }

  // ---------- each controller keeps the invariant ----------

  lemma StepKeepsOwnRefs(spec: Spec, w: World, input: Input)
    requires ValidSpec(spec) && ValidStatus(spec, w.status)
    requires OwnRefs(w.status) && PlainEvent(ExperimentReconcile(input))
    ensures OwnRefs(ExperimentStep(spec, w, input).status)
  {
    hide Deactivated, Activated, CanActivate, MeasurementStep, OwnedNames, RolesOf, Deploys, ValidSpec, CleanupResult,
         NoSlash, Decoded, ApplyFaults, PlainNames, ExperimentOwned;
    if w.status.subPhase.Deploying? {
      OwnedNamesDecodeToNothing(w.status.experimentId, spec.manifests);
    } else if w.status.subPhase.ApplyingChaos? && input.chaosPhase.Some? {
      var cp := input.chaosPhase.value;
      ChaosIsOwned(cp, w.status.experimentId, w.objects, input.refused);
      var a := ApplyFaults(cp.topology, w.status.experimentId, cp.faults, w.objects, input.refused);
      DecodedConcat(w.status.refs, a.refs);
    } else if w.status.subPhase.Cleanup? {
      NothingDecoded();
    } else if Measuring(w.status.subPhase) {
      MeasuringKeepsRefs(spec, w, input);
    }
  }

  lemma NothingDecoded()
    ensures Decoded([]) == {}
  {}

  lemma MeasuringKeepsRefs(spec: Spec, w: World, input: Input)
    requires ValidSpec(spec) && ValidStatus(spec, w.status) && Measuring(w.status.subPhase)
    ensures var w' := ExperimentStep(spec, w, input);
            && w'.objects == w.objects && w'.topology == w.topology
            && w'.status.refs == w.status.refs && w'.status.experimentId == w.status.experimentId
            && UnderLoad(w.status.subPhase)
            && (UnderLoad(w'.status.subPhase) || w'.status.subPhase.Cleanup?)
  {
    hide RecordRound, StatesOrInitial, LinesOf, Samples, ValidSpec;
  }

  lemma CleanupKeepsSafe(spec: Spec, tspec: TopologySpec, w: World, input: Input)
    requires ValidSpec(spec) && SafeInv(spec, tspec, w) && w.status.subPhase.Cleanup?
    requires var w' := CleanupStep(spec, w, input); OwnRefs(w'.status)
    ensures SafeInv(spec, tspec, CleanupStep(spec, w, input))
  {
    CleanupSparesLinks(tspec, w.objects, w.status.refs, input.undeleted);
    hide CleanupResult, CleanupRefs, OwnRefs, LinksUp, ValidSpec;
  }

  lemma ApplyingKeepsSafe(spec: Spec, tspec: TopologySpec, w: World, input: Input)
    requires SafeInv(spec, tspec, w) && w.status.subPhase.ApplyingChaos? && PlainEvent(ExperimentReconcile(input))
    requires var w' := ApplyingChaosStep(spec, w, input); OwnRefs(w'.status)
    ensures SafeInv(spec, tspec, ApplyingChaosStep(spec, w, input))
  {
    hide OwnRefs, PlainNames, ApplyFaults, CleanupRefs, Declares, NoSlash;
    if input.chaosPhase.Some? {
      ChaosIsOwned(input.chaosPhase.value, w.status.experimentId, w.objects, input.refused);
    }
  }

  /** The other handlers leave the objects alone. */
  lemma WaitsKeepSafe(spec: Spec, tspec: TopologySpec, w: World, input: Input)
    requires ValidSpec(spec) && ValidStatus(spec, w.status) && SafeInv(spec, tspec, w)
    requires !Dispatches(spec, w.status)
             || !(Measuring(w.status.subPhase) || w.status.subPhase.ApplyingChaos? || w.status.subPhase.Cleanup?)
    requires var w' := ExperimentStep(spec, w, input); OwnRefs(w'.status)
    ensures SafeInv(spec, tspec, ExperimentStep(spec, w, input))
  {
    hide OwnRefs, LinksUp, OwnedNames, RolesOf, Deploys, MeasurementStep, ApplyingChaosStep, CleanupStep, ValidSpec;
  }

  lemma ExperimentKeepsSafe(spec: Spec, tspec: TopologySpec, w: World, input: Input)
    requires ValidSpec(spec) && ValidStatus(spec, w.status) && SafeInv(spec, tspec, w)
    requires PlainEvent(ExperimentReconcile(input))
    ensures SafeInv(spec, tspec, ExperimentStep(spec, w, input))
  {
    StepKeepsOwnRefs(spec, w, input);
    hide ExperimentStep, ApplyingChaosStep, CleanupStep, OwnRefs, ValidSpec, PlainEvent, LinksUp;
    if Measuring(w.status.subPhase) {
      MeasuringKeepsRefs(spec, w, input);
    } else if Dispatches(spec, w.status) && w.status.subPhase.ApplyingChaos? {
      DispatchedTo(spec, w, input);
      ApplyingKeepsSafe(spec, tspec, w, input);
    } else if Dispatches(spec, w.status) && w.status.subPhase.Cleanup? {
      DispatchedTo(spec, w, input);
      CleanupKeepsSafe(spec, tspec, w, input);
    } else {
      WaitsKeepSafe(spec, tspec, w, input);
    }
  }

  /** One topology reconcile keeps "Active means up" if and only if it is not the losing one. */
  lemma TopologyStepSafeIff(tspec: TopologySpec, w: World, input: TopologyInput)
    requires ActiveMeansUp(tspec, w)
    ensures ActiveMeansUp(tspec, TopologyStep(tspec, w, input)) <==> !LosesLinks(tspec, w, input)
  {
    hide AllLinkKeys, DecodedLinks, LinkRefs, KeySet, LinksUp;
    var keys, w' := AllLinkKeys(tspec.name, tspec.links), TopologyStep(tspec, w, input);
    assert keys[..|keys|] == keys;
    LinksUpOrDownIff(tspec, w.objects);
    LinksUpOrDownIff(tspec, w'.objects);
    if w.topology.Some? && LinksUp(tspec, w.objects) {
      DeletingHits(KeySet(keys), w.objects, DecodedLinks(w.topology.value.refs) - input.undeleted);
    }
  }

  lemma DeletingHits(all: set<ObjectKey>, objects: set<ObjectKey>, deleted: set<ObjectKey>)
    requires all <= objects
    ensures all <= objects - deleted <==> deleted * all == {}
  {
    if k :| k in deleted * all {
      assert k in all && k !in objects - deleted;
    } else {
      forall k | k in all ensures k in objects - deleted {
        assert k !in deleted * all;
      }
    }
  }

  /** A topology reconcile neither switches on nor off, only writes Active where it is on, and then
      leaves all objects in place. */
  lemma ActiveTopologyStays(tspec: TopologySpec, w: World, input: TopologyInput)
    ensures var w' := TopologyStep(tspec, w, input);
            && w'.topology.Some? == w.topology.Some?
            && (w.topology.Some? ==>
                  var (t, t') := (w.topology.value, w'.topology.value);
                  && t'.active == t.active
                  && (t'.phase.Active? ==> t.active || t.phase.Active?)
                  && (t.active && LinksUp(tspec, w.objects) ==> LinksUp(tspec, w'.objects)))
  {
    hide AllLinkKeys, DecodedLinks, LinkRefs, KeySet, Declares;
  }

  lemma TopologyKeepsSafe(spec: Spec, tspec: TopologySpec, w: World, input: TopologyInput)
    requires SafeInv(spec, tspec, w) && !LosesLinks(tspec, w, input)
    ensures SafeInv(spec, tspec, TopologyStep(tspec, w, input))
  {
    TopologyStepSafeIff(tspec, w, input);
    ActiveTopologyStays(tspec, w, input);
    hide OwnRefs, TopologyStep, ActiveMeansUp, LosesLinks, LinksUp;
    TopologyStepKeeps(tspec, w, input);
  }

  lemma StepKeepsSafe(spec: Spec, tspec: TopologySpec, w: World, e: Event)
    requires ValidSpec(spec) && ValidStatus(spec, w.status) && SafeInv(spec, tspec, w) && PlainEvent(e)
    requires e.TopologyReconcile? ==> !LosesLinks(tspec, w, e.topologyInput)
    ensures SafeInv(spec, tspec, Step(spec, tspec, w, e))
  {
    hide SafeInv, PlainEvent, LosesLinks, ExperimentStep, TopologyStep, ValidSpec;
    match e
    case ExperimentReconcile(input) => ExperimentKeepsSafe(spec, tspec, w, input);
    case TopologyReconcile(input) => TopologyKeepsSafe(spec, tspec, w, input);
  }

  lemma {:induction false} RunKeepsSafe(spec: Spec, tspec: TopologySpec, w: World, events: seq<Event>)
    requires ValidSpec(spec) && Fresh(w) && ActiveMeansUp(tspec, w)
    requires (forall e | e in events :: PlainEvent(e)) && NothingLost(spec, tspec, w, events)
    ensures SafeInv(spec, tspec, Run(spec, tspec, w, events))
  {
    hide ActiveMeansUp;
    if events == [] {
      NothingDecoded();
    } else {
      hide SafeInv, PlainEvent, LosesLinks, Step;
      var front, e := events[..|events| - 1], events[|events| - 1];
      RunKeepsSafe(spec, tspec, w, front);
      StepKeepsSafe(spec, tspec, Run(spec, tspec, w, front), e);
    }
  }

  /** In any interleaving, whichever patches, creations, updates and status writes fail, if none of
      them loses links: an Active topology has all its link objects, and from the entry to LoadDelay
      until Cleanup the topology stays switched on with all of them in place. */
  lemma LinksStayUp(spec: Spec, tspec: TopologySpec, w0: World, events: seq<Event>)
    requires ValidSpec(spec) && Fresh(w0) && ActiveMeansUp(tspec, w0)
    requires (forall e | e in events :: PlainEvent(e)) && NothingLost(spec, tspec, w0, events)
    ensures var w := Run(spec, tspec, w0, events);
            && (w.topology.Some? && w.topology.value.phase.Active? ==> LinksUp(tspec, w.objects))
            && (UnderLoad(w.status.subPhase) && spec.hasTopology ==>
                  w.topology.Some? && w.topology.value.active && LinksUp(tspec, w.objects))
  {
    hide Run, PlainEvent, NothingLost, LinksUp;
    RunKeepsSafe(spec, tspec, w0, events);
  }

  /** "Active means up" holds after every event. */
  ghost predicate AlwaysUp(spec: Spec, tspec: TopologySpec, w0: World, events: seq<Event>)
    requires ValidSpec(spec) && ValidStatus(spec, w0.status)
  {
    && ActiveMeansUp(tspec, Run(spec, tspec, w0, events))
    && (events == [] || AlwaysUp(spec, tspec, w0, events[..|events| - 1]))
  }

  /** And that condition is exact: the promise holds all along a run if and only if nothing is lost. */
  lemma {:induction false} AlwaysUpIff(spec: Spec, tspec: TopologySpec, w0: World, events: seq<Event>)
    requires ValidSpec(spec) && Fresh(w0) && ActiveMeansUp(tspec, w0) && forall e | e in events :: PlainEvent(e)
    ensures AlwaysUp(spec, tspec, w0, events) <==> NothingLost(spec, tspec, w0, events)
  {
    if events != [] {
      var front, e := events[..|events| - 1], events[|events| - 1];
      AlwaysUpIff(spec, tspec, w0, front);
      if NothingLost(spec, tspec, w0, front) {
        RunKeepsSafe(spec, tspec, w0, front);
        var v := Run(spec, tspec, w0, front);
        assert SafeInv(spec, tspec, v) ==> ActiveMeansUp(tspec, v);
        hide PlainEvent, LosesLinks, ExperimentStep, TopologyStep, ValidSpec, Fresh, ActiveMeansUp, OwnRefs, LinksUp;
        match e
        case ExperimentReconcile(input) => ExperimentKeepsSafe(spec, tspec, v, input);
        case TopologyReconcile(input) => TopologyStepSafeIff(tspec, v, input);
      }
    }
  }
}
