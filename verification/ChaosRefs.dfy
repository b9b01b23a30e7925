/** Names of chaos objects, and references to them as strings. */
module ChaosRefs {
  import opened Wrappers

  datatype ObjectKey = ObjectKey(group: string, kind: string, namespace: string, name: string)

  const CHAOS_MESH_GROUP := "chaos-mesh.org"

  predicate NoSlash(s: string) {
    '/' !in s
  }

  // ---------- splitting at slashes ----------

  function Join(head: string, tail: string): string {
    head + "/" + tail
  }

  /** The position of the first slash, or the length if there is none. */
  function FirstSlash(s: string): (i: nat)
    ensures i <= |s| && NoSlash(s[..i]) && (i < |s| ==> s[i] == '/')
    ensures i == |s| <==> NoSlash(s)
  {
    if s == [] || s[0] == '/' then 0 else
      assert s[..1 + FirstSlash(s[1..])] == [s[0]] + s[1..][..FirstSlash(s[1..])];
      1 + FirstSlash(s[1..])
  }

  /** Go's strings.SplitN(s, "/", n): at most n parts, the last one unsplit. */
  function SplitN(s: string, n: nat): seq<string>
    requires n >= 1
  {
    var i := FirstSlash(s);
    if n == 1 || i == |s| then [s] else [s[..i]] + SplitN(s[i + 1..], n - 1)
  }

  lemma {:induction false} FirstSlashOf(head: string, tail: string)
    requires NoSlash(head)
    ensures FirstSlash(Join(head, tail)) == |head|
  {
    var s := Join(head, tail);
    if head == [] {
      assert s[0] == '/';
    } else {
      assert s[1..] == Join(head[1..], tail);
      assert s[0] == head[0];
      FirstSlashOf(head[1..], tail);
    }
  }

  lemma SplitFirst(head: string, tail: string, n: nat)
    requires NoSlash(head) && n >= 2
    ensures SplitN(Join(head, tail), n) == [head] + SplitN(tail, n - 1)
  {
    FirstSlashOf(head, tail);
    var s := Join(head, tail);
    assert s[..|head|] == head && s[|head| + 1..] == tail;
  }

  lemma SplitNone(s: string, n: nat)
    requires NoSlash(s) && n >= 1
    ensures SplitN(s, n) == [s]
  {}

  /** Where a text is cut at its first slash, both halves are determined. */
  lemma CutAtSlash(head: string, tail: string, head': string, tail': string)
    requires NoSlash(head) && NoSlash(head') && Join(head, tail) == Join(head', tail')
    ensures head == head' && tail == tail'
  {
    var s := Join(head, tail);
    FirstSlashOf(head, tail);
    FirstSlashOf(head', tail');
    assert s[..|head|] == head && s[|head| + 1..] == tail;
    assert s[..|head'|] == head' && s[|head'| + 1..] == tail';
  }

  // ---------- references of the experiment controller ----------

  function EncodeRef(k: ObjectKey): string {
    Join(k.group, Join(k.kind, Join(k.namespace, k.name)))
  }

  function DecodeRef(ref: string): Option<ObjectKey> {
    var parts := SplitN(ref, 4);
    if |parts| == 4 then Some(ObjectKey(parts[0], parts[1], parts[2], parts[3])) else None
  }

  predicate Plain(k: ObjectKey) {
    NoSlash(k.group) && NoSlash(k.kind) && NoSlash(k.namespace)
  }

  lemma DecodeEncode(k: ObjectKey)
    requires Plain(k)
    ensures DecodeRef(EncodeRef(k)) == Some(k)
  {
    assert SplitN(k.name, 1) == [k.name];
    hide Join, SplitN, NoSlash;
    var r2 := Join(k.namespace, k.name);
    var r1 := Join(k.kind, r2);
    SplitFirst(k.namespace, k.name, 2);
    SplitFirst(k.kind, r2, 3);
    SplitFirst(k.group, r1, 4);
    FourParts(k.group, k.kind, k.namespace, k.name, SplitN(EncodeRef(k), 4));
  }

  lemma FourParts(a: string, b: string, c: string, d: string, parts: seq<string>)
    requires parts == [a] + ([b] + ([c] + [d]))
    ensures parts == [a, b, c, d]
  {}

  lemma SplitTail(s: string, n: nat) returns (tail: string)
    requires n >= 2 && |SplitN(s, n)| == n
    ensures SplitN(s, n) == [SplitN(s, n)[0]] + SplitN(tail, n - 1)
    ensures s == Join(SplitN(s, n)[0], tail) && NoSlash(SplitN(s, n)[0])
  {
    var i := FirstSlash(s);
    tail := s[i + 1..];
    assert s == s[..i] + [s[i]] + tail;
  }

  /** Whatever can be decoded is the encoding of the key it decodes to. */
  lemma EncodeDecode(ref: string)
    requires DecodeRef(ref).Some?
    ensures EncodeRef(DecodeRef(ref).value) == ref && Plain(DecodeRef(ref).value)
  {
    hide NoSlash, Join;
    var r1 := SplitTail(ref, 4);
    var r2 := SplitTail(r1, 3);
    var r3 := SplitTail(r2, 2);
    assert SplitN(r3, 1) == [r3];
  }

  /** A name without a slash, such as that of an owned ConfigMap, is never taken for a reference. */
  lemma NamesAreNotRefs(name: string)
    requires NoSlash(name)
    ensures DecodeRef(name) == None
  {
    SplitNone(name, 4);
  }

  function OwnedName(experimentId: string, role: string): string {
    "ecoscape-" + experimentId + "-" + role
  }

  // ---------- zone and link names ----------

  /** Byte-wise order of strings, as sort.Strings uses it. */
  predicate StringLe(a: string, b: string) {
    a == [] || (b != [] && (a[0] < b[0] || (a[0] == b[0] && StringLe(a[1..], b[1..]))))
  }

  lemma {:induction false} StringLeTotal(a: string, b: string)
    ensures StringLe(a, b) || StringLe(b, a)
    ensures StringLe(a, b) && StringLe(b, a) ==> a == b
  {
    if a != [] && b != [] {
      StringLeTotal(a[1..], b[1..]);
      if a[0] == b[0] && a[1..] == b[1..] {
        assert a == [a[0]] + a[1..] && b == [b[0]] + b[1..];
      }
    }
  }

  function SortedPair(a: string, b: string): (string, string) {
    if StringLe(a, b) then (a, b) else (b, a)
  }

  /** Sorting forgets the order of the two zones and nothing else. */
  lemma SortedPairUnordered(a: string, b: string, c: string, d: string)
    ensures SortedPair(a, b) == SortedPair(c, d) <==> multiset{a, b} == multiset{c, d}
  {
    StringLeTotal(a, b);
    StringLeTotal(c, d);
    if multiset{a, b} == multiset{c, d} {
      assert a in multiset{c, d} && b in multiset{c, d} && c in multiset{a, b} && d in multiset{a, b};
    }
  }

  function ZoneName(topology: string, zone: string): string {
    topology + "-" + zone
  }

  function LinkBaseName(topology: string, zoneA: string, zoneB: string): string {
    "top-" + topology + "-" + zoneA + "-" + zoneB
  }

  datatype LinkAction = Delay | Bandwidth | Loss | Partition

  function ActionName(action: LinkAction): string {
    match action
    case Delay => "delay"
    case Bandwidth => "bandwidth"
    case Loss => "loss"
    case Partition => "partition"
  }

  /** The NetworkChaos object of a topology link. */
  function LinkKey(topology: string, zone: string, zone': string, action: LinkAction): ObjectKey {
    var (a, b) := SortedPair(zone, zone');
    ObjectKey(CHAOS_MESH_GROUP, "NetworkChaos", ZoneName(topology, a),
              LinkBaseName(topology, a, b) + "-" + ActionName(action))
  }

  /** The topology controller's own two-part reference. */
  function LinkRef(k: ObjectKey): string {
    Join(k.namespace, k.name)
  }

  function DecodeLinkRef(ref: string): Option<ObjectKey> {
    var parts := SplitN(ref, 2);
    if |parts| == 2 then Some(ObjectKey(CHAOS_MESH_GROUP, "NetworkChaos", parts[0], parts[1])) else None
  }

  lemma DecodeLinkRefOfKey(k: ObjectKey)
    requires NoSlash(k.namespace) && k.group == CHAOS_MESH_GROUP && k.kind == "NetworkChaos"
    ensures DecodeLinkRef(LinkRef(k)) == Some(k)
  {
    SplitFirst(k.namespace, k.name, 2);
  }

  /** The NetworkChaos object of a network fault, and the StressChaos object of a stressed zone. */
  function FaultKey(topology: string, experimentId: string, zone: string, zone': string,
                    action: LinkAction): ObjectKey {
    var (a, b) := SortedPair(zone, zone');
    ObjectKey(CHAOS_MESH_GROUP, "NetworkChaos", ZoneName(topology, a),
              "cp-" + experimentId + "-" + a + "-" + b + "-" + ActionName(action))
  }

  function StressKey(topology: string, experimentId: string, zone: string, variant: string): ObjectKey {
    ObjectKey(CHAOS_MESH_GROUP, "StressChaos", ZoneName(topology, zone),
              "cp-" + experimentId + "-" + zone + "-" + variant)
  }

  predicate ExperimentOwned(k: ObjectKey) {
    "cp-" <= k.name
  }

  lemma SamePrefix(p: string, x: string, y: string)
    requires p + x == p + y
    ensures x == y
  {
    assert (p + x)[|p|..] == x && (p + y)[|p|..] == y;
  }

  lemma SameSuffix(p: string, x: string, y: string)
    requires x + p == y + p
    ensures x == y
  {
    assert (x + p)[..|x + p| - |p|] == x && (y + p)[..|y + p| - |p|] == y;
  }

  function LastLetter(action: LinkAction): char {
    match action case Delay => 'y' case Bandwidth => 'h' case Loss => 's' case Partition => 'n'
  }

  lemma EndsInLastLetter(x: string, action: LinkAction)
    ensures var s := x + "-" + ActionName(action); s[|s| - 1] == LastLetter(action)
  {}

  /** The action can be read off the last letter, so it and the text before it are determined. */
  lemma SameAction(x: string, action: LinkAction, y: string, action': LinkAction)
    requires x + "-" + ActionName(action) == y + "-" + ActionName(action')
    ensures x == y && action == action'
  {
    hide ActionName;
    EndsInLastLetter(x, action);
    EndsInLastLetter(y, action');
    SameSuffix(ActionName(action), x + "-", y + "-");
    SameSuffix("-", x, y);
  }

  /** Within a topology two link references are equal exactly when they name the same unordered
      pair of zones and the same action. */
  lemma LinkRefsIdentify(t: string, a: string, b: string, action: LinkAction, c: string, d: string, action': LinkAction)
    requires NoSlash(t) && NoSlash(a) && NoSlash(b) && NoSlash(c) && NoSlash(d)
    ensures LinkRef(LinkKey(t, a, b, action)) == LinkRef(LinkKey(t, c, d, action')) <==>
              multiset{a, b} == multiset{c, d} && action == action'
  {
    SortedPairUnordered(a, b, c, d);
    var k, k' := LinkKey(t, a, b, action), LinkKey(t, c, d, action');
    if LinkRef(k) == LinkRef(k') {
      var (x, y) := SortedPair(a, b);
      var (x', y') := SortedPair(c, d);
      CutAtSlash(k.namespace, k.name, k'.namespace, k'.name);
      assert ZoneName(t, x) == t + "-" + x && ZoneName(t, x') == t + "-" + x';
      SamePrefix(t + "-", x, x');
      SameAction(LinkBaseName(t, x, y), action, LinkBaseName(t, x', y'), action');
      SamePrefix("top-" + t + "-" + x + "-", y, y');
    }
  }
}
