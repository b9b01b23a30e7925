/** The link objects of a topology: what its references stand for, and what a deactivation leaves. */
module LinkLifetime {
  import opened Wrappers
  import opened ChaosRefs
  import opened ChaosPhases
  import opened ExperimentModel
  import opened TopologyModel
  import opened LinkObjects
  import opened ExperimentRuns
  import opened MeasurementWindows
  import opened TwoControllers

  ghost predicate PlainLinks(tspec: TopologySpec) {
    NoSlash(tspec.name) && forall link, z | link in tspec.links && z in link.zones :: NoSlash(z)
  }

  lemma LinkKeyDecodes(topology: string, zone: string, zone': string, action: LinkAction)
    requires NoSlash(topology) && NoSlash(zone) && NoSlash(zone')
    ensures var k := LinkKey(topology, zone, zone', action); DecodeLinkRef(LinkRef(k)) == Some(k)
  {
    hide DecodeLinkRef, LinkRef, SortedPair;
    SortedIsPair(zone, zone');
    DecodeLinkRefOfKey(LinkKey(topology, zone, zone', action));
  }

  lemma SortedIsPair(a: string, b: string)
    ensures SortedPair(a, b) == (a, b) || SortedPair(a, b) == (b, a)
  {}

  lemma {:induction false} LinkKeysDecode(topology: string, links: seq<Link>)
    requires PlainLinks(TopologySpec(topology, links))
    ensures forall k | k in AllLinkKeys(topology, links) :: DecodeLinkRef(LinkRef(k)) == Some(k)
  {
    hide LinkKey, DecodeLinkRef, LinkRef, NoSlash;
    if links != [] {
      LinkKeysDecode(topology, links[..|links| - 1]);
      var link := links[|links| - 1];
      if |link.zones| == 2 {
        LinkKeyDecodes(topology, link.zones[0], link.zones[1], Delay);
        LinkKeyDecodes(topology, link.zones[0], link.zones[1], Bandwidth);
        LinkKeyDecodes(topology, link.zones[0], link.zones[1], Loss);
      }
    }
  }

  /** The references an application stores are exactly what a deactivation deletes. */
  lemma StoredRefsDecode(tspec: TopologySpec)
    requires PlainLinks(tspec)
    ensures var keys := AllLinkKeys(tspec.name, tspec.links); DecodedLinks(LinkRefs(keys)) == KeySet(keys)
  {
    hide DecodeLinkRef, LinkRef, AllLinkKeys;
    var keys := AllLinkKeys(tspec.name, tspec.links);
    LinkKeysDecode(tspec.name, tspec.links);
    forall k | k in keys ensures k in DecodedLinks(LinkRefs(keys)) {
      var i :| 0 <= i < |keys| && keys[i] == k;
      assert LinkRefs(keys)[i] in LinkRefs(keys);
    }
  }

  // ---------- when a deactivation breaks a promise ----------

  /** Deactivating an Active topology with links keeps "Active means up" if and only if it fails
      before the deletes, every delete fails, or one of its two status updates succeeds. */
  lemma DeactivationSafeIff(tspec: TopologySpec, w: World, input: TopologyInput)
    requires w.topology.Some? && PlainLinks(tspec) && LinksUp(tspec, w.objects)
    requires AllLinkKeys(tspec.name, tspec.links) != []
    requires var t := w.topology.value; t.phase.Active? && t.refs == LinkRefs(AllLinkKeys(tspec.name, tspec.links))
    ensures ActiveMeansUp(tspec, DeactivateStep(w, w.topology.value, input)) <==>
              || !input.zonesOk || input.updateOk || input.phaseOk
              || KeySet(AllLinkKeys(tspec.name, tspec.links)) <= input.undeleted
  {
    hide AllLinkKeys, DecodedLinks, LinkRefs, LinksUp;
    StoredRefsDecode(tspec);
    LinksUpOrDownIff(tspec, w.objects);
    LinksUpOrDownIff(tspec, DeactivateStep(w, w.topology.value, input).objects);
    var keys := AllLinkKeys(tspec.name, tspec.links);
    assert keys[0] in KeySet(keys);
  }

  /** The topology refers to all of its link objects or to none. */
  ghost predicate AllOrNone(tspec: TopologySpec, w: World) {
    w.topology.Some? ==>
      w.topology.value.refs == [] || w.topology.value.refs == LinkRefs(AllLinkKeys(tspec.name, tspec.links))
  }

  lemma ExperimentKeepsLinkRefs(spec: Spec, w: World, input: Input)
    requires ValidSpec(spec) && ValidStatus(spec, w.status)
    ensures var t' := ExperimentStep(spec, w, input).topology;
            t'.Some? ==> w.topology.Some? && t'.value.refs == w.topology.value.refs
                         && t'.value.phase == w.topology.value.phase
  {
    if Measuring(w.status.subPhase) {
      hide ExperimentStep;
      MeasuringKeepsRefs(spec, w, input);
    } else {
      hide Deactivated, Activated, CanActivate, MeasurementStep, ApplyFaults, CleanupRefs, OwnedNames, RolesOf, Deploys,
           CleanupResult, ValidSpec;
    }
  }

  lemma TopologyKeepsAllOrNone(tspec: TopologySpec, w: World, input: TopologyInput)
    requires AllOrNone(tspec, w)
    ensures AllOrNone(tspec, TopologyStep(tspec, w, input))
  {
    hide AllLinkKeys, LinkRefs, KeySet, DecodedLinks;
  }

  lemma {:induction false} RunKeepsAllOrNone(spec: Spec, tspec: TopologySpec, w: World, events: seq<Event>)
    requires ValidSpec(spec) && ValidStatus(spec, w.status) && AllOrNone(tspec, w)
    ensures AllOrNone(tspec, Run(spec, tspec, w, events))
  {
    if events != [] {
      hide ExperimentStep, TopologyStep, ValidSpec, AllLinkKeys, LinkRefs;
      var front, e := events[..|events| - 1], events[|events| - 1];
      RunKeepsAllOrNone(spec, tspec, w, front);
      match e
      case ExperimentReconcile(input) => ExperimentKeepsLinkRefs(spec, Run(spec, tspec, w, front), input);
      case TopologyReconcile(input) => TopologyKeepsAllOrNone(tspec, Run(spec, tspec, w, front), input);
    }
  }

  // ---------- what the stored references are ----------

  /** An Active topology refers to all objects its links ensure, an Inactive one to none, and one that has
      never been reconciled to none. */
  ghost predicate RefsByPhase(tspec: TopologySpec, w: World) {
    w.topology.Some? ==>
      match w.topology.value.phase
      case Active => w.topology.value.refs == LinkRefs(AllLinkKeys(tspec.name, tspec.links))
      case Inactive => w.topology.value.refs == []
      case Unset => w.topology.value.refs == []
      case FailedToApply => true
  }

  lemma TopologyKeepsRefs(tspec: TopologySpec, w: World, input: TopologyInput)
    requires RefsByPhase(tspec, w)
    ensures RefsByPhase(tspec, TopologyStep(tspec, w, input))
  {
    hide AllLinkKeys, LinkRefs, KeySet, DecodedLinks;
  }

  lemma {:induction false} RunKeepsRefs(spec: Spec, tspec: TopologySpec, w: World, events: seq<Event>)
    requires ValidSpec(spec) && ValidStatus(spec, w.status) && RefsByPhase(tspec, w)
    ensures RefsByPhase(tspec, Run(spec, tspec, w, events))
  {
    if events != [] {
      hide ExperimentStep, TopologyStep, ValidSpec, AllLinkKeys, LinkRefs;
      var front, e := events[..|events| - 1], events[|events| - 1];
      RunKeepsRefs(spec, tspec, w, front);
      match e
      case ExperimentReconcile(input) => ExperimentKeepsLinkRefs(spec, Run(spec, tspec, w, front), input);
      case TopologyReconcile(input) => TopologyKeepsRefs(tspec, Run(spec, tspec, w, front), input);
    }
  }

  /** At any point of any run the references of an Active topology decode to exactly the objects its links
      declare, and those of an Inactive one to nothing. */
  lemma ActiveKnowsItsLinks(spec: Spec, tspec: TopologySpec, w0: World, events: seq<Event>)
    requires ValidSpec(spec) && ValidStatus(spec, w0.status) && PlainLinks(tspec) && RefsByPhase(tspec, w0)
    requires Run(spec, tspec, w0, events).topology.Some?
    ensures var t := Run(spec, tspec, w0, events).topology.value;
            && (t.phase.Active? ==>
                  forall k :: k in DecodedLinks(t.refs) <==>
                                exists link | link in tspec.links :: Declares(tspec.name, link, k))
            && (t.phase.Inactive? ==> DecodedLinks(t.refs) == {} && t.refs == [])
  {
    RunKeepsRefs(spec, tspec, w0, events);
    StoredRefsDecode(tspec);
    NothingStored();
    hide Run, AllLinkKeys, DecodedLinks, LinkRefs, PlainLinks, ValidSpec, Declares;
    forall k
      ensures k in AllLinkKeys(tspec.name, tspec.links) <==>
                exists link | link in tspec.links :: Declares(tspec.name, link, k)
    {
      AllLinkKeysDeclared(tspec.name, tspec.links, k);
    }
  }

  /** A deactivation is due and succeeds. */
  predicate Deactivates(w: World, input: TopologyInput) {
    && w.topology.Some? && w.topology.value.hasFinalizer && !w.topology.value.active && !UpToDate(w.topology.value)
    && input.zonesOk && input.updateOk
  }

  lemma DownAfterDeletes(all: set<ObjectKey>, objects: set<ObjectKey>, undeleted: set<ObjectKey>)
    ensures all !! objects - (all - undeleted) <==> undeleted * all * objects == {}
  {
    if k :| k in all && k in objects && k in undeleted {
      assert k in undeleted * all * objects && k in objects - (all - undeleted);
    }
  }

  /** At any point of any run, a deactivation that reaches Inactive has removed all link objects if
      and only if there was none, or the topology had its references stored and no delete of an
      existing link object failed. */
  lemma InactiveMeansDownIff(spec: Spec, tspec: TopologySpec, w0: World, events: seq<Event>, input: TopologyInput)
    requires ValidSpec(spec) && ValidStatus(spec, w0.status) && PlainLinks(tspec) && AllOrNone(tspec, w0)
    requires Deactivates(Run(spec, tspec, w0, events), input)
    ensures var w := Run(spec, tspec, w0, events);
            var w' := TopologyStep(tspec, w, input);
            && w'.topology.Some? && w'.topology.value.phase.Inactive?
            && (LinksDown(tspec, w'.objects) <==>
                  || LinksDown(tspec, w.objects)
                  || (w.topology.value.refs != []
                      && input.undeleted * KeySet(AllLinkKeys(tspec.name, tspec.links)) * w.objects == {}))
  {
    RunKeepsAllOrNone(spec, tspec, w0, events);
    StoredRefsDecode(tspec);
    NothingStored();
    var w := Run(spec, tspec, w0, events);
    LinksUpOrDownIff(tspec, w.objects);
    LinksUpOrDownIff(tspec, TopologyStep(tspec, w, input).objects);
    DownAfterDeletes(KeySet(AllLinkKeys(tspec.name, tspec.links)), w.objects, input.undeleted);
    assert w.objects - ({} - input.undeleted) == w.objects;
    hide Run, AllLinkKeys, DecodedLinks, LinkRefs, KeySet, PlainLinks, ValidSpec, LinksUp, LinksDown;
  }

  lemma NothingStored()
    ensures DecodedLinks([]) == {}
  {}

  /** An application that stops half way stores no references: when the topology is then switched
      off, it becomes Inactive with the objects created so far still in place. */
  lemma HalfApplicationStays(tspec: TopologySpec, w: World, n: nat)
    requires 0 < n < |AllLinkKeys(tspec.name, tspec.links)| && w.topology.Some?
    requires var t := w.topology.value; t.active && t.hasFinalizer && t.refs == [] && !UpToDate(t)
    ensures var half := TopologyStep(tspec, w, TopologyInput(true, Some(n), true, true, {}));
            half.topology.Some? &&
            var t := half.topology.value;
            var off := half.(topology := Some(t.(active := false, generation := t.generation + 1)));
            var end := TopologyStep(tspec, off, TopologyInput(true, None, true, true, {}));
            && end.topology.Some? && end.topology.value.phase.Inactive?
            && AllLinkKeys(tspec.name, tspec.links)[0] in end.objects
  {
    hide AllLinkKeys, DecodedLinks, LinkRefs;
    NothingStored();
    var keys := AllLinkKeys(tspec.name, tspec.links);
    assert keys[0] == keys[..n][0] && keys[..n][0] in KeySet(keys[..n]);
  }
}
