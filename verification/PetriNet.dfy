/** Weighted Petri nets with the token game of pm4py: a marking counts the tokens on every
    place, and an arc of weight w is w copies of its place. */
module PetriNet {
  import opened Wrappers

  type Marking = multiset<string>

  /** `activity` is the transition's label; None makes the transition silent. */
  datatype Transition = Transition(name: string, activity: Option<string>,
                                   pre: multiset<string>, post: multiset<string>)

  /** Places and transitions in name order, the order in which the search visits them. */
  datatype Net = Net(places: seq<string>, transitions: seq<Transition>)

  /** Every arc ends at a place of the net. */
  ghost predicate WellFormed(net: Net) {
    forall t, p | t in net.transitions && (p in t.pre || p in t.post) :: p in net.places
  }

  predicate Enabled(t: Transition, m: Marking) {
    t.pre <= m
  }

  function Fire(t: Transition, m: Marking): Marking
    requires Enabled(t, m)
  {
    m - t.pre + t.post
  }

  /** The marking as the tuple of token counts used in table keys. */
  function Counts(net: Net, m: Marking): seq<nat> {
    seq(|net.places|, k requires 0 <= k < |net.places| => m[net.places[k]])
  }

  /** Markings that agree on places foreign to the net; no firing can change those. */
  ghost predicate SameOutside(net: Net, m: Marking, m': Marking) {
    forall p | p !in net.places :: m[p] == m'[p]
  }

  lemma FireSameOutside(net: Net, m0: Marking, m: Marking, t: Transition)
    requires WellFormed(net) && t in net.transitions && Enabled(t, m) && SameOutside(net, m0, m)
    ensures SameOutside(net, m0, Fire(t, m))
  {
    forall p | p !in net.places ensures m0[p] == Fire(t, m)[p] {
      assert p !in t.pre && p !in t.post;
    }
  }

  /** The tuple of counts identifies a marking among those that agree outside the net. */
  lemma CountsIdentify(net: Net, m: Marking, m': Marking)
    requires SameOutside(net, m, m') && Counts(net, m) == Counts(net, m')
    ensures m == m'
  {
    forall p: string ensures m[p] == m'[p] {
      if p in net.places {
        var k :| 0 <= k < |net.places| && net.places[k] == p;
        assert Counts(net, m)[k] == Counts(net, m')[k];
      }
    }
  }
}
