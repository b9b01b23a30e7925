/** The topology controller as a function on the shared cluster. */
module TopologyModel {
  import opened Wrappers
  import opened ChaosRefs
  import opened ExperimentModel

  /** A symmetric link; empty texts switch the corresponding condition off. */
  datatype Link = Link(zones: seq<string>, latency: string, bandwidth: string, packetLoss: string)

  datatype TopologySpec = TopologySpec(name: string, links: seq<Link>)

  /** Which calls fail: ensuring the zones, ensuring the n-th link object, the update at the end,
      the second update that records a failure, and the deletion of `undeleted` objects. */
  datatype TopologyInput = TopologyInput(zonesOk: bool, failAt: Option<nat>, updateOk: bool, phaseOk: bool,
                                         undeleted: set<ObjectKey>)

  /** The chaos objects of one link, in the order in which they are ensured. */
  function LinkKeys(topology: string, link: Link): seq<ObjectKey> {
    if |link.zones| != 2 then [] else
      var (a, b) := (link.zones[0], link.zones[1]);
      (if link.latency != "" then [LinkKey(topology, a, b, Delay)] else []) +
      (if link.bandwidth != "" then [LinkKey(topology, a, b, Bandwidth)] else []) +
      (if link.packetLoss != "" then [LinkKey(topology, a, b, Loss)] else [])
  }

  function AllLinkKeys(topology: string, links: seq<Link>): seq<ObjectKey> {
    if links == [] then [] else
      AllLinkKeys(topology, links[..|links| - 1]) + LinkKeys(topology, links[|links| - 1])
  }

  function LinkRefs(keys: seq<ObjectKey>): seq<string> {
    seq(|keys|, i requires 0 <= i < |keys| => LinkRef(keys[i]))
  }

  function KeySet(keys: seq<ObjectKey>): set<ObjectKey> {
    set k | k in keys
  }

  function DecodedLinks(refs: seq<string>): set<ObjectKey> {
    set r | r in refs && DecodeLinkRef(r).Some? :: DecodeLinkRef(r).value
  }

  /** Nothing to do: the observed generation and phase already match the spec. */
  predicate UpToDate(t: Topology) {
    t.observedGeneration == t.generation && ((t.active && t.phase.Active?) || (!t.active && t.phase.Inactive?))
  }

  /** An update of the topology; when it fails the persisted topology stays as it was. */
  function Updated(w: World, ok: bool, t: Topology): World {
    if ok then w.(topology := Some(t)) else w
  }

  /** How many of `count` link objects are ensured before one fails. */
  function EnsuredCount(failAt: Option<nat>, count: nat): (n: nat)
    ensures n <= count
  {
    if failAt.Some? && failAt.value < count then failAt.value else count
  }

  /** The final status update; if it fails, the same status is written once more as failed. */
  function Finish(w: World, t: Topology, input: TopologyInput): World {
    if input.updateOk then Updated(w, true, t) else Updated(w, input.phaseOk, t.(phase := FailedToApply))
  }

  function ApplyStep(tspec: TopologySpec, w: World, t: Topology, input: TopologyInput): World {
    if !input.zonesOk then Updated(w, input.phaseOk, t.(phase := FailedToApply)) else
      var keys := AllLinkKeys(tspec.name, tspec.links);
      var n := EnsuredCount(input.failAt, |keys|);
      var w' := w.(objects := w.objects + KeySet(keys[..n]));
      if n < |keys| then Updated(w', input.phaseOk, t.(phase := FailedToApply))
      else Finish(w', t.(refs := LinkRefs(keys), phase := Active, observedGeneration := t.generation), input)
  }

  function DeactivateStep(w: World, t: Topology, input: TopologyInput): World {
    if !input.zonesOk then Updated(w, input.phaseOk, t.(phase := FailedToApply)) else
      Finish(w.(objects := w.objects - (DecodedLinks(t.refs) - input.undeleted)),
             t.(refs := [], phase := Inactive, observedGeneration := t.generation), input)
  }

  /** One reconcile of the topology controller. */
  function TopologyStep(tspec: TopologySpec, w: World, input: TopologyInput): World {
    if w.topology.None? then w else
      var t := w.topology.value;
      if !t.hasFinalizer then Updated(w, input.updateOk, t.(hasFinalizer := true))
      else if UpToDate(t) then w
      else if t.active then ApplyStep(tspec, w, t, input)
      else DeactivateStep(w, t, input)
  }
}
