/** The chaos objects that a chaos phase declares, fault by fault and written out in full, and when
    applying it succeeds. */
module FaultObjects {
  import opened ChaosRefs
  import opened ChaosPhases
  import opened LinkObjects

  /** A network fault needs two zones, a stress fault at least one. */
  predicate ZonesFit(f: Fault) {
    match f.kind
    case UnknownFault => true
    case CPUStress => f.zones != []
    case MemoryStress => f.zones != []
    case _ => |f.zones| == 2
  }

  /** One object between the two zones, in the namespace of the one that comes first. */
  ghost predicate BetweenZones(topology: string, id: string, zones: seq<string>, action: string, k: ObjectKey) {
    exists first, second :: ZonesInOrder(zones, first, second) && k == FaultObject(topology, id, first, second, action)
  }

  function FaultObject(topology: string, id: string, first: string, second: string, action: string): ObjectKey {
    ObjectKey("chaos-mesh.org", "NetworkChaos", topology + "-" + first,
              "cp-" + id + "-" + first + "-" + second + "-" + action)
  }

  /** One object in every zone. */
  ghost predicate InSomeZone(topology: string, id: string, zones: seq<string>, variant: string, k: ObjectKey) {
    exists zone | zone in zones :: k == StressObject(topology, id, zone, variant)
  }

  function StressObject(topology: string, id: string, zone: string, variant: string): ObjectKey {
    ObjectKey("chaos-mesh.org", "StressChaos", topology + "-" + zone, "cp-" + id + "-" + zone + "-" + variant)
  }

  ghost predicate FaultDeclares(topology: string, id: string, f: Fault, k: ObjectKey) {
    match f.kind
    case NetworkDelay => BetweenZones(topology, id, f.zones, "delay", k)
    case NetworkBandwidth => BetweenZones(topology, id, f.zones, "bandwidth", k)
    case NetworkLoss => BetweenZones(topology, id, f.zones, "loss", k)
    case NetworkPartition => BetweenZones(topology, id, f.zones, "partition", k)
    case CPUStress => InSomeZone(topology, id, f.zones, "cpu", k)
    case MemoryStress => InSomeZone(topology, id, f.zones, "memory", k)
    case UnknownFault => false
  }

  // ---------- one fault ----------

  lemma BetweenZonesIff(topology: string, id: string, zones: seq<string>, action: LinkAction, k: ObjectKey)
    requires |zones| == 2
    ensures BetweenZones(topology, id, zones, ActionName(action), k) <==>
              k == FaultKey(topology, id, zones[0], zones[1], action)
  {
    hide ActionName;
    var (first, second) := SortedPair(zones[0], zones[1]);
    SortedInOrder(zones, first, second);
    assert FaultKey(topology, id, zones[0], zones[1], action) ==
           FaultObject(topology, id, first, second, ActionName(action));
    if BetweenZones(topology, id, zones, ActionName(action), k) {
      var x, y :| ZonesInOrder(zones, x, y) && k == FaultObject(topology, id, x, y, ActionName(action));
      SortedInOrder(zones, x, y);
    }
  }

  lemma InSomeZoneIff(topology: string, id: string, zones: seq<string>, variant: string, k: ObjectKey)
    ensures InSomeZone(topology, id, zones, variant, k) <==> k in StressKeys(topology, id, zones, variant)
  {
    assert forall zone :: StressKey(topology, id, zone, variant) == StressObject(topology, id, zone, variant);
    hide StressKey, StressObject;
    var keys := StressKeys(topology, id, zones, variant);
    if InSomeZone(topology, id, zones, variant, k) {
      var zone :| zone in zones && k == StressObject(topology, id, zone, variant);
      var i :| 0 <= i < |zones| && zones[i] == zone;
      assert keys[i] == k;
    }
  }

  lemma KeysDeclared(topology: string, id: string, f: Fault, k: ObjectKey)
    ensures KeysOf(topology, id, f).Some? <==> ZonesFit(f)
    ensures ZonesFit(f) ==> (k in KeysOf(topology, id, f).value <==> FaultDeclares(topology, id, f, k))
  {
    hide BetweenZones, InSomeZone, FaultKey, StressKeys;
    if ZonesFit(f) {
      if IsNetworkFault(f.kind) {
        BetweenZonesIff(topology, id, f.zones, ActionOf(f.kind), k);
      } else {
        InSomeZoneIff(topology, id, f.zones, Variant(f.kind), k);
      }
    }
  }

  // ---------- all faults, in order ----------

  /** Some fault declares `k`. */
  ghost predicate Declared(topology: string, id: string, faults: seq<Fault>, k: ObjectKey) {
    exists f | f in faults :: FaultDeclares(topology, id, f, k)
  }

  ghost predicate Distinct<T(!new)>(s: seq<T>) {
    forall i, j | 0 <= i < j < |s| :: s[i] != s[j]
  }

  /** Nothing declared exists, is refused, or is declared twice, and the zones fit. */
  ghost predicate Applicable(topology: string, id: string, faults: seq<Fault>, objects: set<ObjectKey>,
                             refused: set<ObjectKey>)
  {
    && (forall f | f in faults :: ZonesFit(f))
    && (forall f, k | f in faults && FaultDeclares(topology, id, f, k) :: k !in objects && k !in refused)
    && Apart(topology, id, faults)
    && (forall f | f in faults && IsStressFault(f) :: Distinct(f.zones))
  }

  lemma {:induction false} AllCreatedIff(objects: set<ObjectKey>, keys: seq<ObjectKey>, refused: set<ObjectKey>)
    ensures CreatedCount(objects, keys, refused) == |keys| <==>
              Distinct(keys) && forall k | k in keys :: k !in objects && k !in refused
  {
    if keys != [] {
      var n := |keys| - 1;
      AllCreatedIff(objects, keys[..n], refused);
      assert keys == keys[..n] + [keys[n]];
      assert Distinct(keys) <==> Distinct(keys[..n]) && keys[n] !in keys[..n];
    }
  }

  lemma StressKeysDistinct(topology: string, id: string, zones: seq<string>, variant: string)
    ensures Distinct(StressKeys(topology, id, zones, variant)) <==> Distinct(zones)
  {
    var keys := StressKeys(topology, id, zones, variant);
    forall i, j | 0 <= i < j < |zones| ensures keys[i] == keys[j] <==> zones[i] == zones[j] {
      if keys[i] == keys[j] {
        SamePrefix(topology + "-", zones[i], zones[j]);
      }
    }
  }

  predicate IsStressFault(f: Fault) {
    f.kind.CPUStress? || f.kind.MemoryStress?
  }

  /** All objects of one fault can be created. */
  lemma FaultCreatedIff(topology: string, id: string, f: Fault, objects: set<ObjectKey>, refused: set<ObjectKey>)
    requires ZonesFit(f) && KeysOf(topology, id, f).Some?
    ensures var keys := KeysOf(topology, id, f).value;
            CreatedCount(objects, keys, refused) == |keys| <==>
              && (IsStressFault(f) ==> Distinct(f.zones))
              && forall k | FaultDeclares(topology, id, f, k) :: k !in objects && k !in refused
  {
    var keys := KeysOf(topology, id, f).value;
    AllCreatedIff(objects, keys, refused);
    if IsStressFault(f) {
      StressKeysDistinct(topology, id, f.zones, Variant(f.kind));
    }
    assert Distinct(keys) <==> (IsStressFault(f) ==> Distinct(f.zones));
    hide Distinct, FaultDeclares, KeysOf, CreatedCount;
    forall k ensures k in keys <==> FaultDeclares(topology, id, f, k) {
      KeysDeclared(topology, id, f, k);
    }
  }

  lemma DeclaredSnoc(topology: string, id: string, faults: seq<Fault>, k: ObjectKey)
    requires faults != []
    ensures var n := |faults| - 1;
            Declared(topology, id, faults, k) <==>
              Declared(topology, id, faults[..n], k) || FaultDeclares(topology, id, faults[n], k)
  {
    hide FaultDeclares;
    FrontOrLast(faults);
  }

  /** No two of these faults declare the same object. */
  ghost predicate Apart(topology: string, id: string, faults: seq<Fault>) {
    forall i, j, k | 0 <= i < j < |faults| ::
      !(FaultDeclares(topology, id, faults[i], k) && FaultDeclares(topology, id, faults[j], k))
  }

  lemma ApartSnoc(topology: string, id: string, faults: seq<Fault>)
    requires faults != []
    ensures var n := |faults| - 1;
            Apart(topology, id, faults) <==>
              && Apart(topology, id, faults[..n])
              && forall k | FaultDeclares(topology, id, faults[n], k) :: !Declared(topology, id, faults[..n], k)
  {
    hide FaultDeclares;
    var n := |faults| - 1;
    assert forall i | 0 <= i < n :: faults[..n][i] == faults[i];
    if Apart(topology, id, faults) {
      forall k, i | FaultDeclares(topology, id, faults[n], k) && 0 <= i < n
        ensures !FaultDeclares(topology, id, faults[..n][i], k)
      {}
    }
  }

  lemma ApplicableSnoc(topology: string, id: string, faults: seq<Fault>, objects: set<ObjectKey>,
                       refused: set<ObjectKey>)
    requires faults != []
    ensures var n := |faults| - 1;
            Applicable(topology, id, faults, objects, refused) <==>
              && Applicable(topology, id, faults[..n], objects, refused)
              && ZonesFit(faults[n]) && (IsStressFault(faults[n]) ==> Distinct(faults[n].zones))
              && forall k | FaultDeclares(topology, id, faults[n], k) ::
                   k !in objects && k !in refused && !Declared(topology, id, faults[..n], k)
  {
    hide FaultDeclares, Declared, ZonesFit, Distinct, Apart;
    ApartSnoc(topology, id, faults);
    FrontOrLast(faults);
  }

  lemma {:induction false} ApplyIff(topology: string, id: string, faults: seq<Fault>, objects: set<ObjectKey>,
                                    refused: set<ObjectKey>)
    ensures var a := ApplyFaults(topology, id, faults, objects, refused);
            && (a.ok <==> Applicable(topology, id, faults, objects, refused))
            && (a.ok ==> forall k :: k in a.objects <==> k in objects || Declared(topology, id, faults, k))
  {
    if faults != [] {
      hide FaultDeclares, Declared, ZonesFit, Distinct, Applicable, KeysOf, CreatedCount;
      var front, f := faults[..|faults| - 1], faults[|faults| - 1];
      ApplyIff(topology, id, front, objects, refused);
      ApplicableSnoc(topology, id, faults, objects, refused);
      var a := ApplyFaults(topology, id, front, objects, refused);
      forall k
        ensures KeysOf(topology, id, f).Some? <==> ZonesFit(f)
        ensures ZonesFit(f) ==> (k in KeysOf(topology, id, f).value <==> FaultDeclares(topology, id, f, k))
        ensures Declared(topology, id, faults, k) <==>
                  Declared(topology, id, front, k) || FaultDeclares(topology, id, f, k)
      {
        KeysDeclared(topology, id, f, k);
        DeclaredSnoc(topology, id, faults, k);
      }
      if KeysOf(topology, id, f).Some? {
        FaultCreatedIff(topology, id, f, a.objects, refused);
        assert forall keys: seq<ObjectKey> :: keys[..|keys|] == keys;
      }
    }
  }

  /** Applying a chaos phase succeeds if and only if nothing it declares exists already, is refused or is
      declared twice, and the zones of its faults fit; it then has created exactly what it declares, and
      its references decode to exactly that. */
  lemma AppliesIff(cp: ChaosPhase, id: string, objects: set<ObjectKey>, refused: set<ObjectKey>)
    requires PlainNames(cp)
    ensures var a := ApplyFaults(cp.topology, id, cp.faults, objects, refused);
            && (a.ok <==> Applicable(cp.topology, id, cp.faults, objects, refused))
            && (a.ok ==>
                  && a.objects == objects + Decoded(a.refs)
                  && forall k :: k in Decoded(a.refs) <==> Declared(cp.topology, id, cp.faults, k))
  {
    ApplyIff(cp.topology, id, cp.faults, objects, refused);
    forall f | f in cp.faults ensures PlainFault(f) {}
    ApplyBalances(cp.topology, id, cp.faults, objects, refused);
    hide ApplyFaults, Decoded, FaultDeclares, ZonesFit, Distinct, PlainFault, PlainNames;
    if Applicable(cp.topology, id, cp.faults, objects, refused) {
      forall k | Declared(cp.topology, id, cp.faults, k) ensures k !in objects {}
    }
  }
}
