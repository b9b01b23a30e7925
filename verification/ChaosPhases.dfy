/** Applying the faults of a ChaosPhase, and rolling them back. */
module ChaosPhases {
  import opened Wrappers
  import opened ChaosRefs

  datatype FaultType =
    | NetworkDelay | NetworkBandwidth | NetworkLoss | NetworkPartition
    | CPUStress | MemoryStress | UnknownFault

  datatype Fault = Fault(kind: FaultType, zones: seq<string>)
  datatype ChaosPhase = ChaosPhase(topology: string, faults: seq<Fault>)

  /** An object can be created if it does not exist yet and the API server does not refuse it. */
  predicate Creatable(objects: set<ObjectKey>, k: ObjectKey, refused: set<ObjectKey>) {
    k !in objects && k !in refused
  }

  function ActionOf(kind: FaultType): LinkAction {
    match kind
    case NetworkBandwidth => Bandwidth
    case NetworkLoss => Loss
    case NetworkPartition => Partition
    case _ => Delay
  }

  predicate IsNetworkFault(kind: FaultType) {
    kind.NetworkDelay? || kind.NetworkBandwidth? || kind.NetworkLoss? || kind.NetworkPartition?
  }

  function StressKeys(topology: string, id: string, zones: seq<string>, variant: string): seq<ObjectKey> {
    seq(|zones|, i requires 0 <= i < |zones| => StressKey(topology, id, zones[i], variant))
  }

  function Variant(kind: FaultType): string {
    if kind.CPUStress? then "cpu" else "memory"
  }

  /** The objects a fault asks for, in order; None where its zones are wrong. */
  function KeysOf(topology: string, id: string, f: Fault): Option<seq<ObjectKey>> {
    if f.kind.UnknownFault? then Some([])
    else if IsNetworkFault(f.kind) then
      if |f.zones| != 2 then None
      else Some([FaultKey(topology, id, f.zones[0], f.zones[1], ActionOf(f.kind))])
    else if f.zones == [] then None
    else Some(StressKeys(topology, id, f.zones, Variant(f.kind)))
  }

  /** How many of `keys` are created, in order, before one fails. */
  function CreatedCount(objects: set<ObjectKey>, keys: seq<ObjectKey>, refused: set<ObjectKey>): (n: nat)
    ensures n <= |keys|
  {
    if keys == [] then 0 else
      var n := CreatedCount(objects, keys[..|keys| - 1], refused);
      if n == |keys| - 1 && Creatable(objects + Elements(keys[..n]), keys[n], refused) then n + 1 else n
  }

  function Elements(keys: seq<ObjectKey>): set<ObjectKey> {
    set k | k in keys
  }

  function RefsOf(keys: seq<ObjectKey>): seq<string> {
    seq(|keys|, i requires 0 <= i < |keys| => EncodeRef(keys[i]))
  }

  datatype Applied = Applied(objects: set<ObjectKey>, refs: seq<string>, ok: bool)

  /** Applies the faults in order. On the first error the references collected so far are
      returned; those of the failing fault itself are lost. */
  function ApplyFaults(topology: string, id: string, faults: seq<Fault>, objects: set<ObjectKey>,
                       refused: set<ObjectKey>): Applied {
    if faults == [] then Applied(objects, [], true) else
      var a := ApplyFaults(topology, id, faults[..|faults| - 1], objects, refused);
      if !a.ok then a else
        match KeysOf(topology, id, faults[|faults| - 1])
        case None => a.(ok := false)
        case Some(keys) =>
          var n := CreatedCount(a.objects, keys, refused);
          Applied(a.objects + Elements(keys[..n]),
                  if n == |keys| then a.refs + RefsOf(keys) else a.refs, n == |keys|)
  }

  /** What the failing fault had created before it failed. */
  function Leftover(topology: string, id: string, faults: seq<Fault>, objects: set<ObjectKey>,
                    refused: set<ObjectKey>): set<ObjectKey> {
    if faults == [] then {} else
      var a := ApplyFaults(topology, id, faults[..|faults| - 1], objects, refused);
      if !a.ok then Leftover(topology, id, faults[..|faults| - 1], objects, refused) else
        match KeysOf(topology, id, faults[|faults| - 1])
        case None => {}
        case Some(keys) =>
          var n := CreatedCount(a.objects, keys, refused);
          if n == |keys| then {} else Elements(keys[..n])
  }

  function Decoded(refs: seq<string>): set<ObjectKey> {
    set r | r in refs && DecodeRef(r).Some? :: DecodeRef(r).value
  }

  /** Deletes whatever the references decode to; a delete that fails is passed over. */
  function CleanupRefs(objects: set<ObjectKey>, refs: seq<string>, undeleted: set<ObjectKey>): set<ObjectKey> {
    objects - (Decoded(refs) - undeleted)
  }

  /** Names as Kubernetes admits them. */
  predicate PlainNames(cp: ChaosPhase) {
    NoSlash(cp.topology) && forall f, z | f in cp.faults && z in f.zones :: NoSlash(z)
  }

  predicate PlainFault(f: Fault) {
    forall z | z in f.zones :: NoSlash(z)
  }

  lemma DecodedConcat(r: seq<string>, r': seq<string>)
    ensures Decoded(r + r') == Decoded(r) + Decoded(r')
  {}

  lemma {:induction false} CreatedAreNew(objects: set<ObjectKey>, keys: seq<ObjectKey>, refused: set<ObjectKey>)
    ensures Elements(keys[..CreatedCount(objects, keys, refused)]) !! objects
    ensures CreatedCount(objects, keys, refused) > 0 <==> keys != [] && Creatable(objects, keys[0], refused)
  {
    if keys != [] {
      var front := keys[..|keys| - 1];
      var n := CreatedCount(objects, front, refused);
      CreatedAreNew(objects, front, refused);
      assert front[..n] == keys[..n];
      if n == |keys| - 1 {
        assert Elements(keys[..n + 1]) == Elements(keys[..n]) + {keys[n]};
      }
      if |keys| == 1 {
        assert objects + Elements(keys[..0]) == objects;
      }
    }
  }

  lemma StressKeyIsPlain(topology: string, id: string, zone: string, variant: string)
    requires NoSlash(topology) && NoSlash(zone)
    ensures Plain(StressKey(topology, id, zone, variant)) && ExperimentOwned(StressKey(topology, id, zone, variant))
  {}

  lemma FaultKeyIsPlain(topology: string, id: string, zone: string, zone': string, action: LinkAction)
    requires NoSlash(topology) && NoSlash(zone) && NoSlash(zone')
    ensures Plain(FaultKey(topology, id, zone, zone', action)) &&
            ExperimentOwned(FaultKey(topology, id, zone, zone', action))
  {}

  lemma KeysArePlain(topology: string, id: string, f: Fault)
    requires NoSlash(topology) && PlainFault(f) && KeysOf(topology, id, f).Some?
    ensures forall k | k in KeysOf(topology, id, f).value :: Plain(k) && ExperimentOwned(k)
  {
    hide Plain, ExperimentOwned, FaultKey, StressKey;
    if IsNetworkFault(f.kind) {
      FaultKeyIsPlain(topology, id, f.zones[0], f.zones[1], ActionOf(f.kind));
    } else {
      forall i | 0 <= i < |f.zones|
        ensures Plain(StressKey(topology, id, f.zones[i], Variant(f.kind)))
        ensures ExperimentOwned(StressKey(topology, id, f.zones[i], Variant(f.kind)))
      {
        StressKeyIsPlain(topology, id, f.zones[i], Variant(f.kind));
      }
    }
  }

  lemma DecodedRefsOf(keys: seq<ObjectKey>)
    requires forall k | k in keys :: Plain(k)
    ensures Decoded(RefsOf(keys)) == Elements(keys)
  {
    forall i | 0 <= i < |keys| ensures DecodeRef(RefsOf(keys)[i]) == Some(keys[i]) {
      DecodeEncode(keys[i]);
    }
    forall k | k in keys ensures k in Decoded(RefsOf(keys)) {
      var i :| 0 <= i < |keys| && keys[i] == k;
      assert RefsOf(keys)[i] in RefsOf(keys);
    }
  }

  /** The books balance: the objects afterwards are those before, those with a reference, and what
      the failing fault left over, without overlap. */
  ghost predicate Balanced(objects: set<ObjectKey>, a: Applied, left: set<ObjectKey>) {
    && a.objects == objects + Decoded(a.refs) + left
    && Decoded(a.refs) !! objects && left !! objects && left !! Decoded(a.refs)
    && (a.ok ==> left == {})
    && (forall k | k in Decoded(a.refs) || k in left :: ExperimentOwned(k))
  }

  lemma BalanceStep(objects: set<ObjectKey>, a: Applied, keys: seq<ObjectKey>, refused: set<ObjectKey>)
    requires a.ok && Balanced(objects, a, {})
    requires forall k | k in keys :: Plain(k) && ExperimentOwned(k)
    ensures var n := CreatedCount(a.objects, keys, refused);
            Balanced(objects,
                     Applied(a.objects + Elements(keys[..n]),
                             if n == |keys| then a.refs + RefsOf(keys) else a.refs, n == |keys|),
                     if n == |keys| then {} else Elements(keys[..n]))
  {
    hide Decoded, RefsOf, CreatedCount, Creatable, Plain, ExperimentOwned;
    CreatedAreNew(a.objects, keys, refused);
    DecodedRefsOf(keys);
    DecodedConcat(a.refs, RefsOf(keys));
    assert keys[..|keys|] == keys;
  }

  lemma {:induction false} ApplyBalances(topology: string, id: string, faults: seq<Fault>, objects: set<ObjectKey>,
                                         refused: set<ObjectKey>)
    requires NoSlash(topology) && forall f | f in faults :: PlainFault(f)
    ensures Balanced(objects, ApplyFaults(topology, id, faults, objects, refused),
                     Leftover(topology, id, faults, objects, refused))
  {
    if faults == [] {
      assert Decoded([]) == {};
    } else {
      hide Decoded, RefsOf, CreatedCount, Elements, KeysOf, PlainFault, ExperimentOwned;
      var front, f := faults[..|faults| - 1], faults[|faults| - 1];
      ApplyBalances(topology, id, front, objects, refused);
      var a := ApplyFaults(topology, id, front, objects, refused);
      if a.ok && KeysOf(topology, id, f).Some? {
        KeysArePlain(topology, id, f);
        BalanceStep(objects, a, KeysOf(topology, id, f).value, refused);
      }
    }
  }

  /** After a failure, rolling back the collected references leaves exactly what the failing
      fault had already created and what could not be deleted. */
  lemma RollbackLeavesLeftover(cp: ChaosPhase, id: string, objects: set<ObjectKey>, refused: set<ObjectKey>,
                               undeleted: set<ObjectKey>)
    requires PlainNames(cp)
    ensures var a := ApplyFaults(cp.topology, id, cp.faults, objects, refused);
            CleanupRefs(a.objects, a.refs, undeleted) ==
              objects + Leftover(cp.topology, id, cp.faults, objects, refused) + Decoded(a.refs) * undeleted
  {
    forall f | f in cp.faults ensures PlainFault(f) {}
    ApplyBalances(cp.topology, id, cp.faults, objects, refused);
  }

  /** The i-th fault is the one that fails. */
  ghost predicate FailsAt(topology: string, id: string, faults: seq<Fault>, objects: set<ObjectKey>,
                          refused: set<ObjectKey>, i: nat)
    requires i < |faults|
  {
    && ApplyFaults(topology, id, faults[..i], objects, refused).ok
    && !ApplyFaults(topology, id, faults[..i + 1], objects, refused).ok
  }

  lemma {:induction false} LeftoverOfFailing(topology: string, id: string, faults: seq<Fault>,
                                             objects: set<ObjectKey>, refused: set<ObjectKey>, i: nat)
    requires i < |faults| && FailsAt(topology, id, faults, objects, refused, i)
    ensures !ApplyFaults(topology, id, faults, objects, refused).ok
    ensures Leftover(topology, id, faults, objects, refused) ==
            Leftover(topology, id, faults[..i + 1], objects, refused)
  {
    if i == |faults| - 1 {
      assert faults[..i + 1] == faults;
    } else {
      var front := faults[..|faults| - 1];
      assert front[..i] == faults[..i] && front[..i + 1] == faults[..i + 1];
      LeftoverOfFailing(topology, id, front, objects, refused, i);
    }
  }

  lemma NothingAdded(objects: set<ObjectKey>, left: set<ObjectKey>, kept: set<ObjectKey>)
    requires left !! objects && kept !! objects
    ensures objects + left + kept == objects <==> left == {} && kept == {}
  {
    if objects + left + kept == objects {
      assert left <= objects && kept <= objects;
    }
  }

  /** Rollback is complete exactly when no delete of what was created fails and the failing fault
      could not even create its first object: always for network faults and wrong zones, not for a
      stress fault that fails at a later zone. */
  lemma RollbackCompleteIff(cp: ChaosPhase, id: string, objects: set<ObjectKey>, refused: set<ObjectKey>,
                            undeleted: set<ObjectKey>, i: nat)
    requires PlainNames(cp) && i < |cp.faults| && FailsAt(cp.topology, id, cp.faults, objects, refused, i)
    ensures var a := ApplyFaults(cp.topology, id, cp.faults, objects, refused);
            var before := ApplyFaults(cp.topology, id, cp.faults[..i], objects, refused);
            var f := cp.faults[i];
            CleanupRefs(a.objects, a.refs, undeleted) == objects <==>
              && undeleted * Decoded(a.refs) == {}
              && (IsNetworkFault(f.kind) || f.zones == []
                  || !Creatable(before.objects, StressKey(cp.topology, id, f.zones[0], Variant(f.kind)), refused))
  {
    var faults, f := cp.faults, cp.faults[i];
    RollbackLeavesLeftover(cp, id, objects, refused, undeleted);
    forall g | g in cp.faults ensures PlainFault(g) {}
    ApplyBalances(cp.topology, id, faults, objects, refused);
    LeftoverOfFailing(cp.topology, id, faults, objects, refused, i);
    NothingAdded(objects, Leftover(cp.topology, id, faults, objects, refused),
                 Decoded(ApplyFaults(cp.topology, id, faults, objects, refused).refs) * undeleted);
    var before := ApplyFaults(cp.topology, id, faults[..i], objects, refused);
    assert faults[..i + 1][..i] == faults[..i];
    if KeysOf(cp.topology, id, f).Some? {
      var keys := KeysOf(cp.topology, id, f).value;
      CreatedAreNew(before.objects, keys, refused);
      var n := CreatedCount(before.objects, keys, refused);
      if n > 0 {
        assert keys[0] in Elements(keys[..n]);
      }
    }
  }

  /** A stress fault that names a zone twice: its first object survives even a rollback in which
      every delete succeeds. */
  lemma DuplicateZoneLeaks()
    ensures exists cp: ChaosPhase, id ::
              && PlainNames(cp)
              && var a := ApplyFaults(cp.topology, id, cp.faults, {}, {});
                 !a.ok && CleanupRefs(a.objects, a.refs, {}) != {}
  {
    var f := Fault(CPUStress, ["z", "z"]);
    var cp := ChaosPhase("t", [f]);
    var key := StressKey("t", "x", "z", "cpu");
    var keys := KeysOf("t", "x", f).value;
    assert keys == [key, key] && keys[..1] == [key] && [key][..0] == [];
    assert Elements([]) == {};
    assert CreatedCount({}, [key], {}) == 1;
    assert key in Elements([key]);
    assert CreatedCount({}, keys, {}) == 1;
    assert cp.faults[..|cp.faults| - 1] == [] && cp.faults[|cp.faults| - 1] == f;
    assert ApplyFaults("t", "x", [], {}, {}) == Applied({}, [], true);
    var a := ApplyFaults("t", "x", cp.faults, {}, {});
    assert !a.ok && a.refs == [] && key in CleanupRefs(a.objects, a.refs, {});
    assert PlainNames(cp);
  }
}
