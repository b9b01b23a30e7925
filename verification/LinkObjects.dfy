/** The chaos objects that a topology declares, link by link and written out in full. */
module LinkObjects {
  import opened ChaosRefs
  import opened TopologyModel

  /** After `n` common letters `a` ends, or has the smaller letter. */
  predicate SmallerAfter(a: string, b: string, n: nat) {
    n <= |a| && n <= |b| && a[..n] == b[..n] && (n == |a| || (n < |b| && a[n] < b[n]))
  }

  /** Alphabetical order: a prefix comes first, and otherwise the first difference decides. */
  ghost predicate Alphabetical(a: string, b: string) {
    exists n: nat :: SmallerAfter(a, b, n)
  }

  /** `first` and `second` are the two zones in alphabetical order. */
  ghost predicate ZonesInOrder(zones: seq<string>, first: string, second: string) {
    && |zones| == 2 && Alphabetical(first, second)
    && ((first, second) == (zones[0], zones[1]) || (first, second) == (zones[1], zones[0]))
  }

  /** The text of the link that asks for this action. */
  function ConditionText(link: Link, action: string): string {
    if action == "delay" then link.latency
    else if action == "bandwidth" then link.bandwidth
    else if action == "loss" then link.packetLoss
    else ""
  }

  /** A link between two zones declares one object for each of its non-empty conditions, in the namespace
      of the zone that comes first, so that the order of the two zones does not matter. */
  ghost predicate Declares(topology: string, link: Link, k: ObjectKey) {
    exists first, second, action ::
      && ZonesInOrder(link.zones, first, second) && ConditionText(link, action) != ""
      && k == LinkObject(topology, first, second, action)
  }

  function LinkObject(topology: string, first: string, second: string, action: string): ObjectKey {
    ObjectKey("chaos-mesh.org", "NetworkChaos", topology + "-" + first,
              "top-" + topology + "-" + first + "-" + second + "-" + action)
  }

  // ---------- the order of the zones ----------

  lemma SmallerAfterTail(a: string, b: string, n: nat)
    requires a != [] && b != [] && a[0] == b[0]
    ensures SmallerAfter(a, b, n + 1) <==> SmallerAfter(a[1..], b[1..], n)
    ensures !SmallerAfter(a, b, 0)
  {
    if n < |a| && n < |b| {
      assert a[..n + 1] == [a[0]] + a[1..][..n] && b[..n + 1] == [b[0]] + b[1..][..n];
      assert a[..n + 1][1..] == a[1..][..n] && b[..n + 1][1..] == b[1..][..n];
    }
  }

  lemma SmallerAtOnce(a: string, b: string, n: nat)
    requires a != [] && b != [] && a[0] != b[0]
    ensures SmallerAfter(a, b, n) <==> n == 0 && a[0] < b[0]
  {
    if n > 0 && n <= |a| && n <= |b| {
      assert a[..n][0] == a[0] && b[..n][0] == b[0];
    }
  }

  lemma AlphabeticalTail(a: string, b: string)
    requires a != [] && b != []
    ensures Alphabetical(a, b) <==> a[0] < b[0] || (a[0] == b[0] && Alphabetical(a[1..], b[1..]))
  {
    hide SmallerAfter;
    if a[0] == b[0] {
      forall n: nat ensures SmallerAfter(a, b, n + 1) <==> SmallerAfter(a[1..], b[1..], n) {
        SmallerAfterTail(a, b, n);
      }
      SmallerAfterTail(a, b, 0);
      if Alphabetical(a, b) {
        var n: nat :| SmallerAfter(a, b, n);
        assert SmallerAfter(a[1..], b[1..], n - 1);
      }
      if Alphabetical(a[1..], b[1..]) {
        var n: nat :| SmallerAfter(a[1..], b[1..], n);
        assert SmallerAfter(a, b, n + 1);
      }
    } else {
      forall n: nat ensures SmallerAfter(a, b, n) <==> n == 0 && a[0] < b[0] {
        SmallerAtOnce(a, b, n);
      }
      assert a[0] < b[0] ==> SmallerAfter(a, b, 0);
    }
  }

  lemma {:induction false} StringLeIff(a: string, b: string)
    ensures StringLe(a, b) <==> Alphabetical(a, b)
  {
    if a == [] {
      assert SmallerAfter(a, b, 0);
    } else if b != [] {
      StringLeIff(a[1..], b[1..]);
      AlphabeticalTail(a, b);
    }
  }

  lemma SortedInOrder(zones: seq<string>, first: string, second: string)
    requires |zones| == 2
    ensures ZonesInOrder(zones, first, second) <==> (first, second) == SortedPair(zones[0], zones[1])
  {
    StringLeIff(zones[0], zones[1]);
    StringLeIff(zones[1], zones[0]);
    StringLeTotal(zones[0], zones[1]);
  }

  // ---------- the keys of a link ----------

  lemma LinkKeyIs(topology: string, zones: seq<string>, first: string, second: string, action: LinkAction)
    requires ZonesInOrder(zones, first, second)
    ensures LinkKey(topology, zones[0], zones[1], action) == LinkObject(topology, first, second, ActionName(action))
  {
    SortedInOrder(zones, first, second);
  }

  /** A key of the link belongs to an action whose text is not empty. */
  lemma KeyOfAction(topology: string, link: Link, k: ObjectKey) returns (action: LinkAction)
    requires k in LinkKeys(topology, link)
    ensures |link.zones| == 2 && k == LinkKey(topology, link.zones[0], link.zones[1], action)
    ensures ConditionText(link, ActionName(action)) != ""
  {
    var (a, b) := (link.zones[0], link.zones[1]);
    hide LinkKey;
    if link.latency != "" && k == LinkKey(topology, a, b, Delay) {
      action := Delay;
    } else if link.bandwidth != "" && k == LinkKey(topology, a, b, Bandwidth) {
      action := Bandwidth;
    } else {
      action := Loss;
    }
  }

  lemma ActionHasKey(topology: string, link: Link, text: string) returns (action: LinkAction)
    requires |link.zones| == 2 && ConditionText(link, text) != ""
    ensures ActionName(action) == text
    ensures LinkKey(topology, link.zones[0], link.zones[1], action) in LinkKeys(topology, link)
  {
    hide LinkKey;
    action := if text == "delay" then Delay else if text == "bandwidth" then Bandwidth else Loss;
  }

  /** The order in which the conditions of a link are ensured. */
  function Turn(action: string): nat {
    if action == "delay" then 0 else if action == "bandwidth" then 1 else 2
  }

  ghost predicate IsKeyOf(topology: string, link: Link, k: ObjectKey, action: LinkAction) {
    |link.zones| == 2 && action != Partition && k == LinkKey(topology, link.zones[0], link.zones[1], action)
  }

  /** Delay comes before bandwidth, and bandwidth before loss; none comes twice. */
  lemma LinkKeysInOrder(topology: string, link: Link, i: nat, j: nat) returns (action: LinkAction, action': LinkAction)
    requires i < j < |LinkKeys(topology, link)|
    ensures IsKeyOf(topology, link, LinkKeys(topology, link)[i], action)
    ensures IsKeyOf(topology, link, LinkKeys(topology, link)[j], action')
    ensures Turn(ActionName(action)) < Turn(ActionName(action'))
  {
    hide LinkKey;
    action := if i == 0 && link.latency != "" then Delay else Bandwidth;
    action' := if j == |LinkKeys(topology, link)| - 1 && link.packetLoss != "" then Loss else Bandwidth;
  }

  lemma LinkKeysDeclared(topology: string, link: Link, k: ObjectKey)
    ensures k in LinkKeys(topology, link) <==> Declares(topology, link, k)
  {
    hide LinkKey, ConditionText, LinkKeys, ActionName, ZonesInOrder, LinkObject;
    if k in LinkKeys(topology, link) {
      var action := KeyOfAction(topology, link, k);
      var (first, second) := SortedPair(link.zones[0], link.zones[1]);
      SortedInOrder(link.zones, first, second);
      LinkKeyIs(topology, link.zones, first, second, action);
    }
    if Declares(topology, link, k) {
      var first, second, text :| ZonesInOrder(link.zones, first, second) && ConditionText(link, text) != ""
                                 && k == LinkObject(topology, first, second, text);
      TwoZones(link.zones, first, second);
      var action := ActionHasKey(topology, link, text);
      LinkKeyIs(topology, link.zones, first, second, action);
    }
  }

  lemma TwoZones(zones: seq<string>, first: string, second: string)
    requires ZonesInOrder(zones, first, second)
    ensures |zones| == 2
  {}

  lemma FrontOrLast<T>(s: seq<T>)
    requires s != []
    ensures forall x :: x in s <==> x in s[..|s| - 1] || x == s[|s| - 1]
  {
    assert s == s[..|s| - 1] + [s[|s| - 1]];
  }

  /** What the controller ensures is exactly what the links declare. */
  lemma {:induction false} AllLinkKeysDeclared(topology: string, links: seq<Link>, k: ObjectKey)
    ensures k in AllLinkKeys(topology, links) <==> exists link | link in links :: Declares(topology, link, k)
  {
    if links != [] {
      hide LinkKeys, Declares;
      var front, link := links[..|links| - 1], links[|links| - 1];
      AllLinkKeysDeclared(topology, front, k);
      LinkKeysDeclared(topology, link, k);
      FrontOrLast(links);
    }
  }

  /** Every object that any link declares exists; or none of them does. */
  ghost predicate LinksUp(tspec: TopologySpec, objects: set<ObjectKey>) {
    forall link, k | link in tspec.links && Declares(tspec.name, link, k) :: k in objects
  }

  ghost predicate LinksDown(tspec: TopologySpec, objects: set<ObjectKey>) {
    forall link, k | link in tspec.links && Declares(tspec.name, link, k) :: k !in objects
  }

  lemma LinksUpOrDownIff(tspec: TopologySpec, objects: set<ObjectKey>)
    ensures KeySet(AllLinkKeys(tspec.name, tspec.links)) <= objects <==> LinksUp(tspec, objects)
    ensures KeySet(AllLinkKeys(tspec.name, tspec.links)) !! objects <==> LinksDown(tspec, objects)
  {
    hide Declares, AllLinkKeys;
    forall k
      ensures k in KeySet(AllLinkKeys(tspec.name, tspec.links)) <==>
                exists link | link in tspec.links :: Declares(tspec.name, link, k)
    {
      AllLinkKeysDeclared(tspec.name, tspec.links, k);
    }
  }
}
