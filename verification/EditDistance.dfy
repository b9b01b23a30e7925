/** What a conformance score measures, said without moves, markings or a search: the least number of
    activities to delete and labels to insert that turn a trace into one the net can play. */
module EditDistance {
  import opened Wrappers
  import opened PetriNet
  import opened FiringSequences
  import opened PrefixAlignment

  /** The labels that a firing sequence shows; silent transitions show none. */
  function Visible(ts: seq<Transition>): seq<string> {
    if ts == [] then [] else
      var shown := ts[|ts| - 1].activity;
      Visible(ts[..|ts| - 1]) + if shown.Some? then [shown.value] else []
  }

  /** Pairs of positions with the same text, rising in both sequences. */
  ghost predicate Matches(acts: seq<string>, labels: seq<string>, pairs: seq<(nat, nat)>) {
    && (forall k | 0 <= k < |pairs| ::
          pairs[k].0 < |acts| && pairs[k].1 < |labels| && acts[pairs[k].0] == labels[pairs[k].1])
    && forall j, k | 0 <= j < k < |pairs| :: pairs[j].0 < pairs[k].0 && pairs[j].1 < pairs[k].1
  }

  /** What is not matched: activities to delete and labels to insert. */
  function Edits(acts: seq<string>, labels: seq<string>, pairs: seq<(nat, nat)>): int {
    |acts| - |pairs| + |labels| - |pairs|
  }

  ghost predicate EditsTo(model: Model, acts: seq<string>, ts: seq<Transition>, pairs: seq<(nat, nat)>, k: int) {
    && Playable(model.net, model.initial, ts)
    && Matches(acts, Visible(ts), pairs) && Edits(acts, Visible(ts), pairs) == k
  }

  // ---------- from an alignment to a matching ----------

  lemma {:induction false} MatchesMore(acts: seq<string>, labels: seq<string>, pairs: seq<(nat, nat)>,
                                       acts': seq<string>, labels': seq<string>)
    requires Matches(acts, labels, pairs) && acts <= acts' && labels <= labels'
    ensures Matches(acts', labels', pairs)
  {}

  lemma {:induction false} MatchesSnoc(acts: seq<string>, labels: seq<string>, pairs: seq<(nat, nat)>, x: string)
    requires Matches(acts, labels, pairs)
    ensures Matches(acts + [x], labels + [x], pairs + [(|acts|, |labels|)])
  {}

  /** These pairs match the first activities with these labels, at this number of edits. */
  ghost predicate Matched(acts: seq<string>, index: nat, labels: seq<string>, pairs: seq<(nat, nat)>, edits: int) {
    index <= |acts| && Matches(acts[..index], labels, pairs) && Edits(acts[..index], labels, pairs) == edits
  }

  function Shown(mv: Move): seq<string> {
    if mv.LogMove? || mv.transition.activity.None? then [] else [mv.transition.activity.value]
  }

  /** One move more: what it matches, and what it costs. */
  lemma {:induction false} MoveMatches(net: Net, acts: seq<string>, s: State, mv: Move, labels: seq<string>,
                                       pairs: seq<(nat, nat)>, cost: nat)
    requires CanMove(net, acts, s, mv) && Matched(acts, s.index, labels, pairs, cost)
    ensures Matched(acts, After(net, acts, s, mv).index, labels + Shown(mv),
                    if mv.SyncMove? then pairs + [(s.index, |labels|)] else pairs, cost + MoveCost(mv))
  {
    hide Enabled, Fire, Matches;
    var index := After(net, acts, s, mv).index;
    if index == s.index + 1 {
      assert acts[..index] == acts[..s.index] + [acts[s.index]];
    }
    if mv.SyncMove? {
      MatchesSnoc(acts[..s.index], labels, pairs, acts[s.index]);
    } else {
      MatchesMore(acts[..s.index], labels, pairs, acts[..index], labels + Shown(mv));
    }
  }

  lemma {:induction false} VisibleMore(ts: seq<Transition>, mv: Move)
    ensures Visible(ts + if mv.LogMove? then [] else [mv.transition]) == Visible(ts) + Shown(mv)
  {
    if mv.LogMove? {
      assert ts + [] == ts && Visible(ts) + [] == Visible(ts);
    } else {
      assert (ts + [mv.transition])[..|ts|] == ts;
    }
  }

  lemma {:induction false} MatchOneMore(net: Net, acts: seq<string>, m0: Marking, moves: seq<Move>,
                                        pairs: seq<(nat, nat)>) returns (pairs': seq<(nat, nat)>)
    requires moves != [] && Execute(net, acts, State(0, m0), moves).Some?
    requires var front := moves[..|moves| - 1];
             && Execute(net, acts, State(0, m0), front).Some?
             && Matched(acts, Execute(net, acts, State(0, m0), front).value.index, Visible(Firings(front)), pairs,
                        Cost(front))
    ensures Matched(acts, Execute(net, acts, State(0, m0), moves).value.index, Visible(Firings(moves)), pairs',
                    Cost(moves))
  {
    hide *;
    var front, mv := moves[..|moves| - 1], moves[|moves| - 1];
    LastMove(net, acts, State(0, m0), moves);
    var s, labels := Execute(net, acts, State(0, m0), front).value, Visible(Firings(front));
    MoveMatches(net, acts, s, mv, labels, pairs, Cost(front));
    VisibleMore(Firings(front), mv);
    pairs' := if mv.SyncMove? then pairs + [(s.index, |labels|)] else pairs;
  }

  /** The synchronous moves of an alignment match what it explains with what it fires. */
  lemma {:induction false} MatchingOf(net: Net, acts: seq<string>, m0: Marking, moves: seq<Move>)
    returns (pairs: seq<(nat, nat)>)
    requires Execute(net, acts, State(0, m0), moves).Some?
    ensures Matched(acts, Execute(net, acts, State(0, m0), moves).value.index, Visible(Firings(moves)), pairs,
                    Cost(moves))
  {
    if moves == [] {
      pairs := [];
    } else {
      hide Matched, Visible, Firings, Cost, CanMove, After;
      pairs := MatchingOf(net, acts, m0, moves[..|moves| - 1]);
      pairs := MatchOneMore(net, acts, m0, moves, pairs);
    }
  }

  // ---------- from a matching to an alignment ----------

  ghost predicate Leads(model: Model, acts: seq<string>, moves: seq<Move>, ts: seq<Transition>, cost: int) {
    && FireAll(model.net, model.initial, ts).Some?
    && Execute(model.net, acts, State(0, model.initial), moves) ==
         Some(State(|acts|, FireAll(model.net, model.initial, ts).value))
    && Cost(moves) == cost
  }

  lemma {:induction false} LeadsByLog(model: Model, acts: seq<string>, moves: seq<Move>, ts: seq<Transition>, cost: int)
    requires acts != [] && Leads(model, acts[..|acts| - 1], moves, ts, cost)
    ensures Leads(model, acts, moves + [LogMove(acts[|acts| - 1])], ts, cost + 1)
  {
    hide FireAll, Execute, Cost;
    MoreActivities(model.net, acts[..|acts| - 1], acts, State(0, model.initial), moves);
    OneMoreMove(model.net, acts, State(0, model.initial), moves, LogMove(acts[|acts| - 1]));
  }

  lemma {:induction false} LeadsByModel(model: Model, acts: seq<string>, moves: seq<Move>, ts: seq<Transition>,
                                        cost: int)
    requires ts != [] && Leads(model, acts, moves, ts[..|ts| - 1], cost)
    requires FireAll(model.net, model.initial, ts).Some?
    ensures var t := ts[|ts| - 1];
            Leads(model, acts, moves + [ModelMove(t)], ts, cost + if t.activity.None? then 0 else 1)
  {
    hide FireAll, Execute, Cost, Enabled, Fire;
    LastFiring(model.net, model.initial, ts);
    OneMoreMove(model.net, acts, State(0, model.initial), moves, ModelMove(ts[|ts| - 1]));
  }

  lemma {:induction false} LeadsBySync(model: Model, acts: seq<string>, moves: seq<Move>, ts: seq<Transition>,
                                       cost: int)
    requires acts != [] && ts != [] && ts[|ts| - 1].activity == Some(acts[|acts| - 1])
    requires Leads(model, acts[..|acts| - 1], moves, ts[..|ts| - 1], cost)
    requires FireAll(model.net, model.initial, ts).Some?
    ensures Leads(model, acts, moves + [SyncMove(ts[|ts| - 1])], ts, cost)
  {
    hide FireAll, Execute, Cost, Enabled, Fire;
    MoreActivities(model.net, acts[..|acts| - 1], acts, State(0, model.initial), moves);
    LastFiring(model.net, model.initial, ts);
    OneMoreMove(model.net, acts, State(0, model.initial), moves, SyncMove(ts[|ts| - 1]));
  }

  lemma {:induction false} MatchesLess(acts: seq<string>, labels: seq<string>, pairs: seq<(nat, nat)>)
    requires Matches(acts, labels, pairs)
    ensures acts == [] || labels == [] ==> pairs == []
    ensures acts != [] && (pairs == [] || pairs[|pairs| - 1].0 < |acts| - 1) ==>
              Matches(acts[..|acts| - 1], labels, pairs)
    ensures labels != [] && (pairs == [] || pairs[|pairs| - 1].1 < |labels| - 1) ==>
              Matches(acts, labels[..|labels| - 1], pairs)
    ensures pairs != [] ==> pairs[|pairs| - 1].0 < |acts| && pairs[|pairs| - 1].1 < |labels|
    ensures pairs != [] ==> Matches(acts[..|acts| - 1], labels[..|labels| - 1], pairs[..|pairs| - 1])
    ensures pairs != [] && pairs[|pairs| - 1].0 == |acts| - 1 && pairs[|pairs| - 1].1 == |labels| - 1 ==>
              acts[|acts| - 1] == labels[|labels| - 1]
  {
    assert pairs != [] ==> pairs[0].0 < |acts| && pairs[0].1 < |labels|;
    if pairs != [] {
      var n := |pairs| - 1;
      forall k | 0 <= k < n ensures pairs[k].0 < |acts| - 1 && pairs[k].1 < |labels| - 1 {
        assert pairs[k].0 < pairs[n].0 && pairs[k].1 < pairs[n].1;
      }
      forall k | 0 <= k <= n ensures pairs[k].0 <= pairs[n].0 && pairs[k].1 <= pairs[n].1 {}
    }
  }

  lemma {:induction false} VisibleLast(ts: seq<Transition>)
    ensures ts == [] ==> Visible(ts) == []
    ensures ts != [] ==>
              var (labels, before, t) := (Visible(ts), Visible(ts[..|ts| - 1]), ts[|ts| - 1]);
              if t.activity.None? then labels == before
              else labels != [] && labels[..|labels| - 1] == before && labels[|labels| - 1] == t.activity.value
  {}

  /** Any firing sequence and any matching of its labels is an alignment: unmatched activities become
      log moves, unmatched labels and silent transitions model moves, matched pairs synchronous ones. */
  lemma {:induction false} MovesOf(model: Model, acts: seq<string>, ts: seq<Transition>, pairs: seq<(nat, nat)>)
    returns (moves: seq<Move>)
    requires FireAll(model.net, model.initial, ts).Some? && Matches(acts, Visible(ts), pairs)
    ensures Leads(model, acts, moves, ts, Edits(acts, Visible(ts), pairs))
    decreases |acts| + |ts|
  {
    hide Matches, Leads, FireAll, Visible;
    var labels, n := Visible(ts), |pairs| - 1;
    MatchesLess(acts, labels, pairs);
    VisibleLast(ts);
    if acts != [] && (pairs == [] || pairs[n].0 < |acts| - 1) {
      var front := MovesOf(model, acts[..|acts| - 1], ts, pairs);
      LeadsByLog(model, acts, front, ts, Edits(acts[..|acts| - 1], labels, pairs));
      moves := front + [LogMove(acts[|acts| - 1])];
    } else if ts == [] {
      moves := NothingLeads(model);
    } else {
      LastFiring(model.net, model.initial, ts);
      var before, t := ts[..|ts| - 1], ts[|ts| - 1];
      if t.activity.None? || pairs == [] || pairs[n].1 < |labels| - 1 {
        var front := MovesOf(model, acts, before, pairs);
        LeadsByModel(model, acts, front, ts, Edits(acts, Visible(before), pairs));
        moves := front + [ModelMove(t)];
      } else {
        var front := MovesOf(model, acts[..|acts| - 1], before, pairs[..n]);
        LeadsBySync(model, acts, front, ts, Edits(acts[..|acts| - 1], Visible(before), pairs[..n]));
        moves := front + [SyncMove(t)];
      }
    }
  }

  lemma {:induction false} NothingLeads(model: Model) returns (moves: seq<Move>)
    ensures Leads(model, [], moves, [], 0)
  {
    moves := [];
  }

  // ---------- the score ----------

  lemma {:induction false} CostIsReached(model: Model, acts: seq<string>)
    returns (ts: seq<Transition>, pairs: seq<(nat, nat)>)
    ensures EditsTo(model, acts, ts, pairs, OptimalCost(model, acts))
  {
    hide Matches, Playable, Edits;
    assert HasCost(model, acts, OptimalCost(model, acts));
    var moves :| IsAlignment(model, acts, moves) && Cost(moves) == OptimalCost(model, acts);
    pairs := MatchingOf(model.net, acts, model.initial, moves);
    ts := Firings(moves);
    assert acts[..|acts|] == acts;
    FiringsFire(model.net, acts, model.initial, moves);
    FireAllIff(model.net, model.initial, ts);
  }

  lemma {:induction false} CostIsLeast(model: Model, acts: seq<string>, ts: seq<Transition>, pairs: seq<(nat, nat)>)
    requires Playable(model.net, model.initial, ts) && Matches(acts, Visible(ts), pairs)
    ensures OptimalCost(model, acts) <= Edits(acts, Visible(ts), pairs)
  {
    hide Matches, Playable, Edits, FireAll;
    FireAllIff(model.net, model.initial, ts);
    var moves := MovesOf(model, acts, ts, pairs);
    assert IsAlignment(model, acts, moves) && HasCost(model, acts, Cost(moves));
  }

  /** The least cost of a prefix alignment is the least number of deletions and insertions that turn
      the trace into the visible part of a sequence the net can fire from its initial marking. */
  lemma {:induction false} CostIsEditDistance(model: Model, acts: seq<string>)
    ensures exists ts, pairs :: EditsTo(model, acts, ts, pairs, OptimalCost(model, acts))
    ensures forall ts, pairs, k | EditsTo(model, acts, ts, pairs, k) :: OptimalCost(model, acts) <= k
  {
    hide Matches, Playable, Edits;
    var ts, pairs := CostIsReached(model, acts);
    forall ts, pairs, k | EditsTo(model, acts, ts, pairs, k) ensures OptimalCost(model, acts) <= k {
      CostIsLeast(model, acts, ts, pairs);
    }
  }
}
