/** Prefix alignments of an activity sequence and a Petri net, defined independently of any
    search: what a sequence of moves is, what it costs and which two paths it shows. */
module PrefixAlignment {
  import opened Wrappers
  import opened PetriNet
  import opened FiringSequences

  /** How many activities are explained, and where the token game stands. */
  datatype State = State(index: nat, marking: Marking)

  datatype Move =
    | LogMove(activity: string)
    | ModelMove(transition: Transition)
    | SyncMove(transition: Transition)

  datatype Model = Model(net: Net, initial: Marking)

  predicate CanMove(net: Net, acts: seq<string>, s: State, mv: Move) {
    match mv
    case LogMove(a) => s.index < |acts| && acts[s.index] == a
    case ModelMove(t) => t in net.transitions && Enabled(t, s.marking)
    case SyncMove(t) =>
      && t in net.transitions && Enabled(t, s.marking)
      && s.index < |acts| && t.activity == Some(acts[s.index])
  }

  function After(net: Net, acts: seq<string>, s: State, mv: Move): State
    requires CanMove(net, acts, s, mv)
  {
    match mv
    case LogMove(_) => State(s.index + 1, s.marking)
    case ModelMove(t) => State(s.index, Fire(t, s.marking))
    case SyncMove(t) => State(s.index + 1, Fire(t, s.marking))
  }

  /** Log moves and labelled model moves cost one, silent and synchronous moves nothing. */
  function MoveCost(mv: Move): nat {
    match mv
    case LogMove(_) => 1
    case ModelMove(t) => if t.activity.None? then 0 else 1
    case SyncMove(_) => 0
  }

  function Cost(moves: seq<Move>): nat {
    if moves == [] then 0 else Cost(moves[..|moves| - 1]) + MoveCost(moves[|moves| - 1])
  }

  /** The state after `moves`, or None where one of them was not possible. */
  function Execute(net: Net, acts: seq<string>, s: State, moves: seq<Move>): Option<State> {
    if moves == [] then Some(s) else
      match Execute(net, acts, s, moves[..|moves| - 1])
      case None => None
      case Some(v) =>
        var mv := moves[|moves| - 1];
        if CanMove(net, acts, v, mv) then Some(After(net, acts, v, mv)) else None
  }

  /** A prefix alignment explains all activities; the final marking is not a target. */
  ghost predicate IsAlignment(model: Model, acts: seq<string>, moves: seq<Move>) {
    var end := Execute(model.net, acts, State(0, model.initial), moves);
    end.Some? && end.value.index == |acts|
  }

  ghost predicate HasCost(model: Model, acts: seq<string>, k: nat) {
    exists moves :: IsAlignment(model, acts, moves) && Cost(moves) == k
  }

  ghost predicate IsMinimum(model: Model, acts: seq<string>, k: nat) {
    HasCost(model, acts, k) && forall j: nat | HasCost(model, acts, j) :: k <= j
  }

  // ---------- what a caller reads off the two paths ----------

  function StepName(t: Transition): string {
    t.activity.GetOr(t.name)
  }

  function LogStep(mv: Move): Option<string> {
    match mv
    case LogMove(a) => Some(a)
    case ModelMove(_) => None
    case SyncMove(t) => t.activity
  }

  function ModelStep(mv: Move): Option<string> {
    match mv
    case LogMove(_) => None
    case ModelMove(t) => Some(StepName(t))
    case SyncMove(t) => Some(StepName(t))
  }

  function LogPath(moves: seq<Move>): seq<Option<string>> {
    if moves == [] then [] else LogPath(moves[..|moves| - 1]) + [LogStep(moves[|moves| - 1])]
  }

  function ModelPath(moves: seq<Move>): seq<Option<string>> {
    if moves == [] then [] else ModelPath(moves[..|moves| - 1]) + [ModelStep(moves[|moves| - 1])]
  }

  /** A path without its gaps. */
  function Present(path: seq<Option<string>>): seq<string> {
    if path == [] then [] else
      Present(path[..|path| - 1]) +
      (match path[|path| - 1] case None => [] case Some(x) => [x])
  }

  /** The transitions fired, in order. */
  function Firings(moves: seq<Move>): seq<Transition> {
    if moves == [] then [] else
      Firings(moves[..|moves| - 1]) +
      (match moves[|moves| - 1]
       case LogMove(_) => []
       case ModelMove(t) => [t]
       case SyncMove(t) => [t])
  }

  function Names(ts: seq<Transition>): seq<string> {
    if ts == [] then [] else Names(ts[..|ts| - 1]) + [StepName(ts[|ts| - 1])]
  }

  lemma OneMoreMove(net: Net, acts: seq<string>, s0: State, moves: seq<Move>, mv: Move)
    requires Execute(net, acts, s0, moves).Some? && CanMove(net, acts, Execute(net, acts, s0, moves).value, mv)
    ensures var s := Execute(net, acts, s0, moves).value;
            Execute(net, acts, s0, moves + [mv]) == Some(After(net, acts, s, mv))
    ensures Cost(moves + [mv]) == Cost(moves) + MoveCost(mv)
    ensures LogPath(moves + [mv]) == LogPath(moves) + [LogStep(mv)]
    ensures ModelPath(moves + [mv]) == ModelPath(moves) + [ModelStep(mv)]
  {
    assert (moves + [mv])[..|moves + [mv]| - 1] == moves;
  }

  lemma LastMove(net: Net, acts: seq<string>, s0: State, moves: seq<Move>)
    requires moves != [] && Execute(net, acts, s0, moves).Some?
    ensures var (front, mv) := (moves[..|moves| - 1], moves[|moves| - 1]);
            && Execute(net, acts, s0, front).Some? && CanMove(net, acts, Execute(net, acts, s0, front).value, mv)
            && Execute(net, acts, s0, moves) == Some(After(net, acts, Execute(net, acts, s0, front).value, mv))
            && Cost(moves) == Cost(front) + MoveCost(mv)
            && Firings(moves) == Firings(front) + if mv.LogMove? then [] else [mv.transition]
  {
    assert Firings(moves[..|moves| - 1]) + [] == Firings(moves[..|moves| - 1]);
  }

  /** Steps that are neither silent nor synchronous, read from the two paths and the moves. */
  function Deviations(moves: seq<Move>): set<nat> {
    set k: nat | k < |moves| && !moves[k].SyncMove? && !(moves[k].ModelMove? && moves[k].transition.activity.None?)
  }

  lemma PresentSnoc(path: seq<Option<string>>, x: Option<string>)
    ensures Present(path + [x]) == Present(path) + (match x case None => [] case Some(a) => [a])
  {
    assert (path + [x])[..|path|] == path;
  }

  /** One move explains at most the next activity, and shows it. */
  lemma MoveShows(net: Net, acts: seq<string>, s: State, mv: Move)
    requires s.index <= |acts| && CanMove(net, acts, s, mv)
    ensures var s' := After(net, acts, s, mv);
            && s'.index <= |acts|
            && acts[..s'.index] == acts[..s.index] + (match LogStep(mv) case None => [] case Some(a) => [a])
  {
    hide Enabled, Fire;
    if s.index < |acts| {
      assert acts[..s.index + 1] == acts[..s.index] + [acts[s.index]];
    }
    assert acts[..s.index] + [] == acts[..s.index];
  }

  /** The log path without its gaps is the explained part of the activities. */
  lemma {:induction false} LogPathShows(net: Net, acts: seq<string>, m0: Marking, moves: seq<Move>)
    requires Execute(net, acts, State(0, m0), moves).Some?
    ensures var s := Execute(net, acts, State(0, m0), moves).value;
            s.index <= |acts| && Present(LogPath(moves)) == acts[..s.index]
  {
    if moves != [] {
      hide CanMove, After, LogStep, Present;
      var front, mv := moves[..|moves| - 1], moves[|moves| - 1];
      LogPathShows(net, acts, m0, front);
      PresentSnoc(LogPath(front), LogStep(mv));
      MoveShows(net, acts, Execute(net, acts, State(0, m0), front).value, mv);
    }
  }

  /** The fired transitions are enabled one after the other and lead to the final marking. */
  lemma {:induction false} FiringsFire(net: Net, acts: seq<string>, m0: Marking, moves: seq<Move>)
    requires Execute(net, acts, State(0, m0), moves).Some?
    ensures FireAll(net, m0, Firings(moves)) == Some(Execute(net, acts, State(0, m0), moves).value.marking)
  {
    if moves != [] {
      var front := moves[..|moves| - 1];
      FiringsFire(net, acts, m0, front);
      if !moves[|moves| - 1].LogMove? {
        FireOneMore(net, m0, Firings(front), moves[|moves| - 1].transition);
      } else {
        assert Firings(moves) == Firings(front);
      }
    }
  }

  /** The model path without its gaps is the trace of the fired transitions. */
  lemma {:induction false} ModelPathShows(moves: seq<Move>)
    ensures |LogPath(moves)| == |ModelPath(moves)| == |moves|
    ensures Present(ModelPath(moves)) == Names(Firings(moves))
  {
    if moves != [] {
      var front := moves[..|moves| - 1];
      ModelPathShows(front);
      assert ModelPath(moves)[..|ModelPath(moves)| - 1] == ModelPath(front);
      if moves[|moves| - 1].LogMove? {
        assert Firings(moves) == Firings(front);
      } else {
        assert Firings(moves)[..|Firings(moves)| - 1] == Firings(front);
      }
    }
  }

  /** The cost counts the steps that are neither silent nor synchronous. */
  lemma {:induction false} CostCountsDeviations(moves: seq<Move>)
    ensures Cost(moves) == |Deviations(moves)|
  {
    if moves == [] {
      assert Deviations(moves) == {};
    } else {
      var n := |moves| - 1;
      CostCountsDeviations(moves[..n]);
      assert Deviations(moves) == Deviations(moves[..n]) + (if MoveCost(moves[n]) == 1 then {n} else {});
    }
  }

  // ---------- the least cost exists and is unique ----------

  /** Skipping every activity is an alignment, so the least cost is at most their number. */
  function AllLogMoves(acts: seq<string>): seq<Move> {
    if acts == [] then [] else AllLogMoves(acts[..|acts| - 1]) + [LogMove(acts[|acts| - 1])]
  }

  /** What explains a prefix of the activities also explains it when more follow. */
  lemma {:induction false} MoreActivities(net: Net, acts: seq<string>, acts': seq<string>, s: State, moves: seq<Move>)
    requires acts <= acts' && Execute(net, acts, s, moves).Some?
    ensures Execute(net, acts', s, moves) == Execute(net, acts, s, moves)
  {
    if moves != [] {
      MoreActivities(net, acts, acts', s, moves[..|moves| - 1]);
    }
  }

  lemma {:induction false} AllLogMovesAlign(model: Model, acts: seq<string>)
    ensures IsAlignment(model, acts, AllLogMoves(acts)) && Cost(AllLogMoves(acts)) == |acts|
  {
    if acts != [] {
      var front := acts[..|acts| - 1];
      AllLogMovesAlign(model, front);
      MoreActivities(model.net, front, acts, State(0, model.initial), AllLogMoves(front));
      assert AllLogMoves(acts)[..|AllLogMoves(acts)| - 1] == AllLogMoves(front);
    }
  }

  lemma {:induction false} MinimumBelow(model: Model, acts: seq<string>, k: nat) returns (least: nat)
    requires HasCost(model, acts, k)
    ensures least <= k && IsMinimum(model, acts, least)
    decreases k
  {
    if j: nat :| j < k && HasCost(model, acts, j) {
      least := MinimumBelow(model, acts, j);
    } else {
      least := k;
    }
  }

  /** The least cost of any prefix alignment: the meaning of a conformance score. */
  ghost function OptimalCost(model: Model, acts: seq<string>): (k: nat)
    ensures IsMinimum(model, acts, k) && k <= |acts|
  {
    AllLogMovesAlign(model, acts);
    assert HasCost(model, acts, |acts|);
    assert exists k: nat :: IsMinimum(model, acts, k) && k <= |acts| by {
      var least := MinimumBelow(model, acts, |acts|);
    }
    var k: nat :| IsMinimum(model, acts, k) && k <= |acts|;
    k
  }

  // ---------- appending an activity ----------

  /** Cutting an alignment of `acts + [a]` where it consumes `a` leaves one of `acts`. */
  lemma {:induction false} CutLastActivity(model: Model, acts: seq<string>, a: string, moves: seq<Move>)
    returns (cut: seq<Move>)
    requires Execute(model.net, acts + [a], State(0, model.initial), moves).Some?
    ensures var end := Execute(model.net, acts + [a], State(0, model.initial), moves).value;
            if end.index <= |acts|
            then Execute(model.net, acts, State(0, model.initial), moves) == Some(end)
            else IsAlignment(model, acts, cut) && Cost(cut) <= Cost(moves)
  {
    cut := [];
    if moves != [] {
      var front := moves[..|moves| - 1];
      cut := CutLastActivity(model, acts, a, front);
      var v := Execute(model.net, acts + [a], State(0, model.initial), front).value;
      LogPathShows(model.net, acts + [a], model.initial, front);
      if v.index == |acts| {
        cut := front;
      }
    }
  }

  /** Under one model a longer trace costs the same or exactly one more. */
  lemma AppendingCostsZeroOrOne(model: Model, acts: seq<string>, a: string)
    ensures OptimalCost(model, acts) <= OptimalCost(model, acts + [a]) <= OptimalCost(model, acts) + 1
  {
    var s0 := State(0, model.initial);
    var k, k' := OptimalCost(model, acts), OptimalCost(model, acts + [a]);
    var moves :| IsAlignment(model, acts, moves) && Cost(moves) == k;
    MoreActivities(model.net, acts, acts + [a], s0, moves);
    var longer := moves + [LogMove(a)];
    assert longer[..|longer| - 1] == moves;
    assert IsAlignment(model, acts + [a], longer) && Cost(longer) == k + 1;
    assert HasCost(model, acts + [a], k + 1);
    var moves' :| IsAlignment(model, acts + [a], moves') && Cost(moves') == k';
    var cut := CutLastActivity(model, acts, a, moves');
    assert HasCost(model, acts, Cost(cut));
  }
}
