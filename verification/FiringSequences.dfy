/** Sequences of transitions that a net can fire, and the state equation: whether a sequence can be
    fired, and which marking it reaches, by counting tokens place by place. */
module FiringSequences {
  import opened Wrappers
  import opened PetriNet

  /** The marking after firing `ts` in turn, or None where one was not enabled. */
  function FireAll(net: Net, m: Marking, ts: seq<Transition>): Option<Marking> {
    if ts == [] then Some(m) else
      match FireAll(net, m, ts[..|ts| - 1])
      case None => None
      case Some(v) =>
        var t := ts[|ts| - 1];
        if t in net.transitions && Enabled(t, v) then Some(Fire(t, v)) else None
  }

  lemma FireOneMore(net: Net, m: Marking, ts: seq<Transition>, t: Transition)
    requires FireAll(net, m, ts).Some? && t in net.transitions && Enabled(t, FireAll(net, m, ts).value)
    ensures FireAll(net, m, ts + [t]) == Some(Fire(t, FireAll(net, m, ts).value))
  {
    assert (ts + [t])[..|ts + [t]| - 1] == ts;
  }

  lemma LastFiring(net: Net, m: Marking, ts: seq<Transition>)
    requires ts != [] && FireAll(net, m, ts).Some?
    ensures var (front, t) := (ts[..|ts| - 1], ts[|ts| - 1]);
            && FireAll(net, m, front).Some? && t in net.transitions && Enabled(t, FireAll(net, m, front).value)
            && FireAll(net, m, ts) == Some(Fire(t, FireAll(net, m, front).value))
  {}

  /** The tokens that `ts` takes from a place in all. */
  function Consumed(ts: seq<Transition>, place: string): nat {
    if ts == [] then 0 else Consumed(ts[..|ts| - 1], place) + ts[|ts| - 1].pre[place]
  }

  /** The tokens that `ts` puts on a place in all. */
  function Produced(ts: seq<Transition>, place: string): nat {
    if ts == [] then 0 else Produced(ts[..|ts| - 1], place) + ts[|ts| - 1].post[place]
  }

  /** The tokens at the start and those produced before the last firing cover, on this place, those
      consumed up to and including it. */
  ghost predicate Covers(m0: Marking, ts: seq<Transition>, place: string)
    requires ts != []
  {
    m0[place] + Produced(ts[..|ts| - 1], place) >= Consumed(ts, place)
  }

  /** So it is at every firing and on every place. */
  ghost predicate Playable(net: Net, m0: Marking, ts: seq<Transition>) {
    && (forall t | t in ts :: t in net.transitions)
    && forall i, place | 0 < i <= |ts| :: Covers(m0, ts[..i], place)
  }

  /** No token appears or vanishes: what is left is what was there, plus what was produced, less what
      was consumed. */
  ghost predicate StateEquation(m0: Marking, ts: seq<Transition>, m: Marking) {
    forall place :: m[place] + Consumed(ts, place) == m0[place] + Produced(ts, place)
  }

  lemma PlayableFront(net: Net, m0: Marking, ts: seq<Transition>)
    requires ts != []
    ensures var n := |ts| - 1;
            Playable(net, m0, ts) <==>
              Playable(net, m0, ts[..n]) && ts[n] in net.transitions && forall place :: Covers(m0, ts, place)
  {
    hide Covers;
    var n := |ts| - 1;
    assert ts[..n + 1] == ts && ts == ts[..n] + [ts[n]];
    assert forall i | 0 < i <= n :: ts[..n][..i] == ts[..i];
  }

  lemma SolutionUnique(m0: Marking, ts: seq<Transition>, m: Marking, m': Marking)
    requires StateEquation(m0, ts, m) && StateEquation(m0, ts, m')
    ensures m == m'
  {
    forall place ensures m[place] == m'[place] {
      assert m[place] + Consumed(ts, place) == m0[place] + Produced(ts, place);
    }
  }

  lemma FiresIff(m0: Marking, ts: seq<Transition>, v: Marking)
    requires ts != [] && StateEquation(m0, ts[..|ts| - 1], v)
    ensures var t := ts[|ts| - 1];
            && (Enabled(t, v) <==> forall place :: Covers(m0, ts, place))
            && (Enabled(t, v) ==> StateEquation(m0, ts, Fire(t, v)))
  {
    var t := ts[|ts| - 1];
    forall place ensures t.pre[place] <= v[place] <==> Covers(m0, ts, place) {
      assert v[place] + Consumed(ts[..|ts| - 1], place) == m0[place] + Produced(ts[..|ts| - 1], place);
    }
  }

  lemma {:induction false} FireAllSolves(net: Net, m0: Marking, ts: seq<Transition>)
    ensures FireAll(net, m0, ts).Some? <==> Playable(net, m0, ts)
    ensures FireAll(net, m0, ts).Some? ==> StateEquation(m0, ts, FireAll(net, m0, ts).value)
  {
    if ts != [] {
      hide Playable, StateEquation, Covers, Enabled, Fire;
      var front := ts[..|ts| - 1];
      FireAllSolves(net, m0, front);
      PlayableFront(net, m0, ts);
      if FireAll(net, m0, front).Some? {
        FiresIff(m0, ts, FireAll(net, m0, front).value);
      }
    }
  }

  /** A sequence can be fired if and only if it is playable, and it reaches exactly the marking that
      solves the state equation. */
  lemma FireAllIff(net: Net, m0: Marking, ts: seq<Transition>)
    ensures FireAll(net, m0, ts).Some? <==> Playable(net, m0, ts)
    ensures forall m :: FireAll(net, m0, ts) == Some(m) <==> Playable(net, m0, ts) && StateEquation(m0, ts, m)
  {
    hide Playable, StateEquation, FireAll;
    FireAllSolves(net, m0, ts);
    forall m | Playable(net, m0, ts) && StateEquation(m0, ts, m) ensures FireAll(net, m0, ts) == Some(m) {
      SolutionUnique(m0, ts, m, FireAll(net, m0, ts).value);
    }
  }
}
