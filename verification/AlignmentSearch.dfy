/** The least-cost search over pairs (activity index, marking), with its heap of possibly stale
    entries, its best-cost table and its cap on explored states. */
module AlignmentSearch {
  import opened Wrappers
  import opened PetriNet
  import opened FiringSequences
  import opened PrefixAlignment

  const MAX_EXPLORED_STATES: nat := 100_000

  type Path = seq<Option<string>>
  type StateKey = (nat, seq<nat>)
  type CostTable = map<StateKey, nat>

  datatype Problem = Problem(model: Model, acts: seq<string>)
  datatype Entry = Entry(cost: nat, order: nat, state: State, logPath: Path, modelPath: Path)
  datatype Outcome =
    | Found(cost: nat, logPath: Path, modelPath: Path)
    | StateLimitExceeded
    | NoAlignmentFound

  function KeyOf(p: Problem, s: State): StateKey {
    (s.index, Counts(p.model.net, s.marking))
  }

  function Start(p: Problem): State {
    State(0, p.model.initial)
  }

  /** The heap order: cost first, insertion order among equals. */
  predicate Before(a: Entry, b: Entry) {
    a.cost < b.cost || (a.cost == b.cost && a.order <= b.order)
  }

  ghost predicate Reachable(p: Problem, s: State) {
    exists moves :: Execute(p.model.net, p.acts, Start(p), moves) == Some(s)
  }

  ghost predicate Explains(p: Problem, moves: seq<Move>, s: State, cost: nat, logPath: Path, modelPath: Path) {
    && Execute(p.model.net, p.acts, Start(p), moves) == Some(s)
    && Cost(moves) == cost && LogPath(moves) == logPath && ModelPath(moves) == modelPath
  }

  ghost predicate Justified(p: Problem, s: State, cost: nat, logPath: Path, modelPath: Path) {
    exists moves :: Explains(p, moves, s, cost, logPath, modelPath)
  }

  /** What the result promises: the returned paths are those of a cheapest alignment. */
  ghost predicate Optimal(p: Problem, cost: nat, logPath: Path, modelPath: Path) {
    && (exists moves ::
          && IsAlignment(p.model, p.acts, moves)
          && Cost(moves) == cost && LogPath(moves) == logPath && ModelPath(moves) == modelPath)
    && forall moves | IsAlignment(p.model, p.acts, moves) :: cost <= Cost(moves)
  }

  // ---------- reachable states and their keys ----------

  lemma {:induction false} ReachableIsTracked(p: Problem, moves: seq<Move>)
    requires WellFormed(p.model.net) && Execute(p.model.net, p.acts, Start(p), moves).Some?
    ensures var s := Execute(p.model.net, p.acts, Start(p), moves).value;
            s.index <= |p.acts| && SameOutside(p.model.net, p.model.initial, s.marking)
  {
    if moves != [] {
      var front, mv := moves[..|moves| - 1], moves[|moves| - 1];
      ReachableIsTracked(p, front);
      if !mv.LogMove? {
        var v := Execute(p.model.net, p.acts, Start(p), front).value;
        FireSameOutside(p.model.net, p.model.initial, v.marking, mv.transition);
      }
    }
  }

  /** The table key identifies a reachable state. */
  lemma KeyIdentifiesReachableState(p: Problem, s: State, s': State)
    requires WellFormed(p.model.net) && Reachable(p, s) && Reachable(p, s') && KeyOf(p, s) == KeyOf(p, s')
    ensures s == s'
  {
    var moves :| Execute(p.model.net, p.acts, Start(p), moves) == Some(s);
    var moves' :| Execute(p.model.net, p.acts, Start(p), moves') == Some(s');
    ReachableIsTracked(p, moves);
    ReachableIsTracked(p, moves');
    CountsIdentify(p.model.net, s.marking, s'.marking);
  }

  // ---------- the invariant of the search ----------

  /** The entry carries the recorded cost of its key; any other entry is stale. */
  predicate Live(p: Problem, table: CostTable, e: Entry) {
    KeyOf(p, e.state) in table && e.cost == table[KeyOf(p, e.state)]
  }

  ghost predicate Sound(p: Problem, table: CostTable, done: set<StateKey>, e: Entry) {
    && Justified(p, e.state, e.cost, e.logPath, e.modelPath)
    && KeyOf(p, e.state) in table
    && table[KeyOf(p, e.state)] <= e.cost
    && (KeyOf(p, e.state) in done ==> !Live(p, table, e))
  }

  /** Some live entry waits for `k`. */
  ghost predicate Open(p: Problem, queue: set<Entry>, table: CostTable, k: StateKey) {
    exists e | e in queue :: KeyOf(p, e.state) == k && Live(p, table, e)
  }

  /** An expanded key: not at the end of the activities, and no queued entry is cheaper. */
  ghost predicate Settled(p: Problem, queue: set<Entry>, table: CostTable, k: StateKey) {
    k in table && k.0 < |p.acts| && forall e | e in queue :: table[k] <= e.cost
  }

  ghost predicate NotAbove(table: CostTable, done: set<StateKey>, cost: nat) {
    forall k | k in done :: k in table && table[k] <= cost
  }

  ghost predicate AllSound(p: Problem, queue: set<Entry>, table: CostTable, done: set<StateKey>) {
    forall e | e in queue :: Sound(p, table, done, e)
  }

  ghost predicate OneLivePerKey(p: Problem, queue: set<Entry>, table: CostTable) {
    forall e, e' | e in queue && e' in queue && Live(p, table, e) && Live(p, table, e') ::
      KeyOf(p, e.state) == KeyOf(p, e'.state) ==> e == e'
  }

  ghost predicate AllOpen(p: Problem, queue: set<Entry>, table: CostTable, done: set<StateKey>) {
    forall k | k in table && k !in done :: Open(p, queue, table, k)
  }

  /** `done` are the expanded keys: their costs are final and entries still queued for them are
      stale. Every other recorded key waits in the queue exactly once at its recorded cost. */
  ghost predicate QueueInv(p: Problem, queue: set<Entry>, table: CostTable, done: set<StateKey>) {
    && AllSound(p, queue, table, done)
    && (forall k | k in done :: Settled(p, queue, table, k))
    && OneLivePerKey(p, queue, table)
    && AllOpen(p, queue, table, done)
    && KeyOf(p, Start(p)) in table && table[KeyOf(p, Start(p))] == 0
  }

  /** The move `mv` out of `s`, entered at cost `c`, has been offered to the table. */
  ghost predicate Relaxed(p: Problem, table: CostTable, s: State, c: nat, mv: Move)
    requires CanMove(p.model.net, p.acts, s, mv)
  {
    var k := KeyOf(p, After(p.model.net, p.acts, s, mv));
    k in table && table[k] <= c + MoveCost(mv)
  }

  ghost predicate AllRelaxed(p: Problem, table: CostTable, s: State, c: nat) {
    forall mv | CanMove(p.model.net, p.acts, s, mv) :: Relaxed(p, table, s, c, mv)
  }

  ghost predicate Closed(p: Problem, table: CostTable, done: set<StateKey>) {
    forall s: State | Reachable(p, s) && KeyOf(p, s) in done ::
      KeyOf(p, s) in table && AllRelaxed(p, table, s, table[KeyOf(p, s)])
  }

  /** The table only ever improves, and not at expanded keys. */
  ghost predicate Improves(table: CostTable, table': CostTable, done: set<StateKey>) {
    && (forall k | k in table :: k in table' && table'[k] <= table[k])
    && (forall k | k in done && k in table :: table'[k] == table[k])
  }

  lemma RelaxedImproves(p: Problem, table: CostTable, table': CostTable, done: set<StateKey>, s: State, c: nat,
                        mv: Move)
    requires CanMove(p.model.net, p.acts, s, mv) && Relaxed(p, table, s, c, mv) && Improves(table, table', done)
    ensures Relaxed(p, table', s, c, mv)
  {}

  lemma ClosedImproves(p: Problem, table: CostTable, table': CostTable, done: set<StateKey>)
    requires Closed(p, table, done) && Improves(table, table', done)
    ensures Closed(p, table', done)
  {
    forall s: State | Reachable(p, s) && KeyOf(p, s) in done
      ensures KeyOf(p, s) in table' && AllRelaxed(p, table', s, table'[KeyOf(p, s)])
    {
      forall mv | CanMove(p.model.net, p.acts, s, mv)
        ensures Relaxed(p, table', s, table'[KeyOf(p, s)], mv)
      {
        RelaxedImproves(p, table, table', done, s, table[KeyOf(p, s)], mv);
      }
    }
  }

  lemma ClosedGrows(p: Problem, table: CostTable, done: set<StateKey>, s: State)
    requires WellFormed(p.model.net) && Reachable(p, s)
    requires Closed(p, table, done) && KeyOf(p, s) in table
    requires AllRelaxed(p, table, s, table[KeyOf(p, s)])
    ensures Closed(p, table, done + {KeyOf(p, s)})
  {
    forall v: State | Reachable(p, v) && KeyOf(p, v) == KeyOf(p, s) ensures v == s {
      KeyIdentifiesReachableState(p, v, s);
    }
  }

  /** Dijkstra's argument. Whatever is reachable below the cost of every queued entry has been
      expanded, at a recorded cost that is no worse. Zero-cost cycles do not disturb it. */
  lemma {:induction false} CheaperIsDone(p: Problem, queue: set<Entry>, table: CostTable, done: set<StateKey>,
                                         bound: nat, moves: seq<Move>)
    requires QueueInv(p, queue, table, done) && Closed(p, table, done)
    requires forall e | e in queue :: bound <= e.cost
    requires Execute(p.model.net, p.acts, Start(p), moves).Some? && Cost(moves) < bound
    ensures var k := KeyOf(p, Execute(p.model.net, p.acts, Start(p), moves).value);
            k in done && k in table && table[k] <= Cost(moves)
  {
    var u := Execute(p.model.net, p.acts, Start(p), moves).value;
    if moves != [] {
      var front, mv := moves[..|moves| - 1], moves[|moves| - 1];
      CheaperIsDone(p, queue, table, done, bound, front);
      var v := Execute(p.model.net, p.acts, Start(p), front).value;
      assert Reachable(p, v);
      assert Relaxed(p, table, v, table[KeyOf(p, v)], mv);
    }
    assert KeyOf(p, u) in done || Open(p, queue, table, KeyOf(p, u));
  }

  /** An expanded key never lies at the end of the activities, so no alignment is cheaper. */
  lemma NoCheaperAlignment(p: Problem, queue: set<Entry>, table: CostTable, done: set<StateKey>,
                           bound: nat, moves: seq<Move>)
    requires QueueInv(p, queue, table, done) && Closed(p, table, done)
    requires forall e | e in queue :: bound <= e.cost
    requires IsAlignment(p.model, p.acts, moves)
    ensures bound <= Cost(moves)
  {
    if Cost(moves) < bound {
      CheaperIsDone(p, queue, table, done, bound, moves);
    }
  }

  /** The queue never runs empty before a result: skipping all activities stays possible. */
  lemma QueueNeverEmpty(p: Problem, queue: set<Entry>, table: CostTable, done: set<StateKey>)
    requires QueueInv(p, queue, table, done) && Closed(p, table, done)
    ensures queue != {}
  {
    if queue == {} {
      AllLogMovesAlign(p.model, p.acts);
      NoCheaperAlignment(p, queue, table, done, |p.acts| + 1, AllLogMoves(p.acts));
    }
  }

  // ---------- what each step does to the invariant ----------

  lemma {:induction false} LeastExists(queue: set<Entry>) returns (e: Entry)
    requires queue != {}
    ensures e in queue && forall e' | e' in queue :: Before(e, e')
    decreases queue
  {
    e :| e in queue;
    if queue != {e} {
      var rest := queue - {e};
      assert rest != {};
      var least := LeastExists(rest);
      assert queue == rest + {e};
      e := if Before(e, least) then e else least;
    }
  }

  /** Dropping a stale entry. */
  lemma DropStale(p: Problem, queue: set<Entry>, table: CostTable, done: set<StateKey>, e: Entry)
    requires QueueInv(p, queue, table, done) && !Live(p, table, e)
    ensures QueueInv(p, queue - {e}, table, done)
  {
    forall k | k in table && k !in done ensures Open(p, queue - {e}, table, k) {
      assert Open(p, queue, table, k);
      var o :| o in queue && KeyOf(p, o.state) == k && Live(p, table, o);
      assert o in queue - {e};
    }
  }

  /** A queued entry is justified; if it is live its state is reachable and not yet expanded. */
  lemma QueuedIsSound(p: Problem, queue: set<Entry>, table: CostTable, done: set<StateKey>, e: Entry)
    requires WellFormed(p.model.net) && QueueInv(p, queue, table, done) && e in queue
    ensures Sound(p, table, done, e) && Reachable(p, e.state) && e.state.index <= |p.acts|
  {
    assert Sound(p, table, done, e);
    var moves :| Explains(p, moves, e.state, e.cost, e.logPath, e.modelPath);
    ReachableIsTracked(p, moves);
  }

  /** A live entry of least cost at the end of the activities is an optimal result. */
  lemma LeastAtEndIsOptimal(p: Problem, queue: set<Entry>, table: CostTable, done: set<StateKey>, e: Entry)
    requires QueueInv(p, queue, table, done) && Closed(p, table, done) && e in queue
    requires forall e' | e' in queue :: Before(e, e')
    requires e.state.index == |p.acts|
    ensures Optimal(p, e.cost, e.logPath, e.modelPath)
  {
    assert Sound(p, table, done, e);
    var moves :| Explains(p, moves, e.state, e.cost, e.logPath, e.modelPath);
    assert IsAlignment(p.model, p.acts, moves);
    forall moves' | IsAlignment(p.model, p.acts, moves') ensures e.cost <= Cost(moves') {
      NoCheaperAlignment(p, queue, table, done, e.cost, moves');
    }
  }

  /** Popping a least live entry makes its key an expanded one, for the first time. */
  lemma Expand(p: Problem, queue: set<Entry>, table: CostTable, done: set<StateKey>, e: Entry)
    requires QueueInv(p, queue, table, done) && e in queue && Live(p, table, e)
    requires forall e' | e' in queue :: Before(e, e')
    requires e.state.index < |p.acts|
    ensures KeyOf(p, e.state) !in done && NotAbove(table, done + {KeyOf(p, e.state)}, e.cost)
    ensures QueueInv(p, queue - {e}, table, done + {KeyOf(p, e.state)})
  {
    hide Justified;
    var rest, done' := queue - {e}, done + {KeyOf(p, e.state)};
    assert Sound(p, table, done, e);
    forall e' | e' in rest ensures Sound(p, table, done', e') {
      assert Sound(p, table, done, e');
    }
    forall k | k in done' ensures Settled(p, rest, table, k) {
      assert k in done ==> Settled(p, queue, table, k);
    }
    forall k | k in table && k !in done' ensures Open(p, rest, table, k) {
      assert Open(p, queue, table, k);
      var o :| o in queue && KeyOf(p, o.state) == k && Live(p, table, o);
      assert o in rest;
    }
  }

  /** A better cost for its key makes a queued entry stale and touches no other entry. */
  lemma PushKeepsSound(p: Problem, table: CostTable, done: set<StateKey>, key: StateKey, cost: nat, e: Entry)
    requires Sound(p, table, done, e) && key !in done
    requires key in table ==> cost < table[key]
    ensures Sound(p, table[key := cost], done, e)
    ensures Live(p, table[key := cost], e) <==> Live(p, table, e) && KeyOf(p, e.state) != key
  {}

  /** Recording a better cost together with an entry for it. */
  lemma PushKeepsInv(p: Problem, queue: set<Entry>, table: CostTable, done: set<StateKey>, e: Entry)
    requires QueueInv(p, queue, table, done)
    requires Justified(p, e.state, e.cost, e.logPath, e.modelPath)
    requires NotAbove(table, done, e.cost)
    requires KeyOf(p, e.state) in table ==> e.cost < table[KeyOf(p, e.state)]
    ensures QueueInv(p, queue + {e}, table[KeyOf(p, e.state) := e.cost], done)
  {
    hide KeyOf, Justified;
    var key := KeyOf(p, e.state);
    var queue', table' := queue + {e}, table[key := e.cost];
    assert key !in done;
    forall e' | e' in queue
      ensures Sound(p, table', done, e')
      ensures Live(p, table', e') <==> Live(p, table, e') && KeyOf(p, e'.state) != key
    {
      PushKeepsSound(p, table, done, key, e.cost, e');
    }
    forall k | k in done ensures Settled(p, queue', table', k) {
      assert Settled(p, queue, table, k);
    }
    forall k | k in table' && k !in done ensures Open(p, queue', table', k) {
      if k == key {
        assert e in queue' && Live(p, table', e);
      } else {
        assert Open(p, queue, table, k);
        var o :| o in queue && KeyOf(p, o.state) == k && Live(p, table, o);
        assert o in queue' && Live(p, table', o);
      }
    }
  }

  /** Extending a justified entry by a possible move. */
  lemma JustifiedMove(p: Problem, e: Entry, mv: Move)
    requires Justified(p, e.state, e.cost, e.logPath, e.modelPath) && CanMove(p.model.net, p.acts, e.state, mv)
    ensures Justified(p, After(p.model.net, p.acts, e.state, mv), e.cost + MoveCost(mv),
                      e.logPath + [LogStep(mv)], e.modelPath + [ModelStep(mv)])
  {
    var moves :| Explains(p, moves, e.state, e.cost, e.logPath, e.modelPath);
    OneMoreMove(p.model.net, p.acts, Start(p), moves, mv);
    assert Explains(p, moves + [mv], After(p.model.net, p.acts, e.state, mv), e.cost + MoveCost(mv),
                    e.logPath + [LogStep(mv)], e.modelPath + [ModelStep(mv)]);
  }

  // ---------- the search ----------

  class Search {
    const p: Problem
    var queue: set<Entry>
    var lowestCost: CostTable
    var nextOrder: nat

    ghost predicate Valid(done: set<StateKey>)
      reads this
    {
      && WellFormed(p.model.net)
      && QueueInv(p, queue, lowestCost, done)
      && forall e | e in queue :: e.order < nextOrder
    }

    constructor (p: Problem)
      requires WellFormed(p.model.net)
      ensures this.p == p && Valid({}) && Closed(p, lowestCost, {})
    {
      this.p := p;
      queue := {Entry(0, 0, Start(p), [], [])};
      lowestCost := map[KeyOf(p, Start(p)) := 0];
      nextOrder := 1;
      new;
      assert Explains(p, [], Start(p), 0, [], []);
      assert Live(p, lowestCost, Entry(0, 0, Start(p), [], []));
      assert Open(p, queue, lowestCost, KeyOf(p, Start(p)));
    }

    /** Records and queues a state unless an entry at least as cheap is known. */
    method AddSearchState(s: State, cost: nat, logPath: Path, modelPath: Path, ghost done: set<StateKey>)
      requires Valid(done) && Justified(p, s, cost, logPath, modelPath)
      requires NotAbove(lowestCost, done, cost)
      modifies this
      ensures Valid(done) && Improves(old(lowestCost), lowestCost, done)
      ensures KeyOf(p, s) in lowestCost && lowestCost[KeyOf(p, s)] <= cost
      ensures if KeyOf(p, s) in old(lowestCost) && old(lowestCost)[KeyOf(p, s)] <= cost
              then queue == old(queue) && lowestCost == old(lowestCost)
              else && queue == old(queue) + {Entry(cost, old(nextOrder), s, logPath, modelPath)}
                   && lowestCost == old(lowestCost)[KeyOf(p, s) := cost]
    {
      hide QueueInv, KeyOf, Justified;
      var key := KeyOf(p, s);
      if key in lowestCost && cost >= lowestCost[key] {
        return;
      }
      var e := Entry(cost, nextOrder, s, logPath, modelPath);
      PushKeepsInv(p, queue, lowestCost, done, e);
      lowestCost := lowestCost[key := cost];
      nextOrder := nextOrder + 1;
      queue := queue + {e};
    }

    /** Removes the entry that comes first in the heap order. */
    method PopLeast() returns (e: Entry)
      requires queue != {}
      modifies this`queue
      ensures e in old(queue) && queue == old(queue) - {e}
      ensures forall e' | e' in old(queue) :: e.cost < e'.cost || (e.cost == e'.cost && e.order <= e'.order)
    {
      ghost var least := LeastExists(queue);
      e :| e in queue && forall e' | e' in queue :: Before(e, e');
      forall e' | e' in queue ensures e.cost < e'.cost || (e.cost == e'.cost && e.order <= e'.order) {
        assert Before(e, e');
      }
      queue := queue - {e};
    }

    /** Offers the model move of an enabled transition, and the synchronous move if it matches. */
    method OfferTransition(e: Entry, t: Transition, ghost done: set<StateKey>)
      requires Valid(done) && e.state.index < |p.acts| && t in p.model.net.transitions
      requires Justified(p, e.state, e.cost, e.logPath, e.modelPath)
      requires NotAbove(lowestCost, done, e.cost)
      modifies this
      ensures Valid(done) && Improves(old(lowestCost), lowestCost, done)
      ensures TransitionRelaxed(p, lowestCost, e, t)
    {
      hide QueueInv, KeyOf, Justified;
      var s, a := e.state, p.acts[e.state.index];
      if !Enabled(t, s.marking) {
        return;
      }
      var next := Fire(t, s.marking);
      var modelMoveCost := if t.activity.None? then 0 else 1;
      JustifiedMove(p, e, ModelMove(t));
      AddSearchState(State(s.index, next), e.cost + modelMoveCost,
                     e.logPath + [None], e.modelPath + [Some(StepName(t))], done);
      if t.activity == Some(a) {
        JustifiedMove(p, e, SyncMove(t));
        AddSearchState(State(s.index + 1, next), e.cost,
                       e.logPath + [Some(a)], e.modelPath + [Some(StepName(t))], done);
      }
    }

    /** Offers every move out of the popped state to the table. */
    method ExpandState(e: Entry, ghost done: set<StateKey>)
      requires Valid(done) && e.state.index < |p.acts|
      requires Justified(p, e.state, e.cost, e.logPath, e.modelPath)
      requires NotAbove(lowestCost, done, e.cost)
      modifies this
      ensures Valid(done) && Improves(old(lowestCost), lowestCost, done)
      ensures AllRelaxed(p, lowestCost, e.state, e.cost)
    {
      hide QueueInv, KeyOf, Justified;
      var transitions, s, a := p.model.net.transitions, e.state, p.acts[e.state.index];
      JustifiedMove(p, e, LogMove(a));
      AddSearchState(State(s.index + 1, s.marking), e.cost + 1, e.logPath + [Some(a)], e.modelPath + [None], done);
      var i := 0;
      while i < |transitions|
        invariant 0 <= i <= |transitions|
        invariant Valid(done) && Improves(old(lowestCost), lowestCost, done)
        invariant Relaxed(p, lowestCost, s, e.cost, LogMove(a))
        invariant forall j | 0 <= j < i :: TransitionRelaxed(p, lowestCost, e, transitions[j])
      {
        ghost var before := lowestCost;
        OfferTransition(e, transitions[i], done);
        forall j | 0 <= j < i ensures TransitionRelaxed(p, lowestCost, e, transitions[j]) {
          TransitionRelaxedImproves(p, before, lowestCost, done, e, transitions[j]);
        }
        i := i + 1;
      }
      forall mv | CanMove(p.model.net, p.acts, s, mv) ensures Relaxed(p, lowestCost, s, e.cost, mv) {
        if !mv.LogMove? {
          assert TransitionRelaxed(p, lowestCost, e, mv.transition);
        }
      }
    }
  }

  /** Both moves that fire `t` have been offered. */
  ghost predicate TransitionRelaxed(p: Problem, table: CostTable, e: Entry, t: Transition) {
    && (CanMove(p.model.net, p.acts, e.state, ModelMove(t)) ==> Relaxed(p, table, e.state, e.cost, ModelMove(t)))
    && (CanMove(p.model.net, p.acts, e.state, SyncMove(t)) ==> Relaxed(p, table, e.state, e.cost, SyncMove(t)))
  }

  lemma TransitionRelaxedImproves(p: Problem, table: CostTable, table': CostTable, done: set<StateKey>, e: Entry,
                                  t: Transition)
    requires TransitionRelaxed(p, table, e, t) && Improves(table, table', done)
    ensures TransitionRelaxed(p, table', e, t)
  {}

  // ---------- how many states the search explores ----------

  /** `s` can be reached at no more than the given cost. */
  ghost predicate ReachedWithin(p: Problem, s: State, cost: nat) {
    exists moves :: Execute(p.model.net, p.acts, Start(p), moves) == Some(s) && Cost(moves) <= cost
  }

  /** `s` can be reached at less than the cost of a cheapest alignment. */
  ghost predicate ReachedBelow(p: Problem, s: State) {
    OptimalCost(p.model, p.acts) > 0 && ReachedWithin(p, s, OptimalCost(p.model, p.acts) - 1)
  }

  /** Evidence for giving up: more states than the cap, each no more costly than a cheapest alignment. */
  ghost predicate TooManyStates(p: Problem) {
    exists states: set<State> ::
      && |states| == MAX_EXPLORED_STATES + 1
      && forall s | s in states :: ReachedWithin(p, s, OptimalCost(p.model, p.acts))
  }

  /** So many states below the cost of a cheapest alignment that the search cannot get past them. */
  ghost predicate CapFilled(p: Problem) {
    exists states: set<State> :: |states| == MAX_EXPLORED_STATES && forall s | s in states :: ReachedBelow(p, s)
  }

  /** What is popped is no more costly than any alignment. */
  lemma PoppedIsCheap(p: Problem, queue: set<Entry>, table: CostTable, done: set<StateKey>, e: Entry)
    requires QueueInv(p, queue, table, done) && Closed(p, table, done) && e in queue
    requires forall e' | e' in queue :: Before(e, e')
    ensures ReachedWithin(p, e.state, OptimalCost(p.model, p.acts))
  {
    hide QueueInv, Closed, Execute;
    assert Sound(p, table, done, e) by { SoundEntry(p, queue, table, done, e); }
    var moves :| Explains(p, moves, e.state, e.cost, e.logPath, e.modelPath);
    assert HasCost(p.model, p.acts, OptimalCost(p.model, p.acts));
    var best :| IsAlignment(p.model, p.acts, best) && Cost(best) == OptimalCost(p.model, p.acts);
    NoCheaperAlignment(p, queue, table, done, e.cost, best);
  }

  lemma SoundEntry(p: Problem, queue: set<Entry>, table: CostTable, done: set<StateKey>, e: Entry)
    requires QueueInv(p, queue, table, done) && e in queue
    ensures Sound(p, table, done, e)
  {}

  /** Reachable states are told apart by their keys. */
  lemma {:induction false} NoMoreThanKeys(p: Problem, states: set<State>, keys: set<StateKey>)
    requires WellFormed(p.model.net) && forall s | s in states :: Reachable(p, s) && KeyOf(p, s) in keys
    ensures |states| <= |keys|
    decreases states
  {
    hide Reachable, WellFormed, KeyOf;
    if s :| s in states {
      forall s' | s' in states - {s} ensures KeyOf(p, s') in keys - {KeyOf(p, s)} {
        if KeyOf(p, s') == KeyOf(p, s) {
          KeyIdentifiesReachableState(p, s', s);
        }
      }
      NoMoreThanKeys(p, states - {s}, keys - {KeyOf(p, s)});
    }
  }

  /** When an end is popped, everything cheaper has been expanded. */
  lemma CapNotFilled(p: Problem, queue: set<Entry>, table: CostTable, done: set<StateKey>, e: Entry)
    requires WellFormed(p.model.net) && QueueInv(p, queue, table, done) && Closed(p, table, done)
    requires forall e' | e' in queue :: e.cost <= e'.cost
    requires e.cost == OptimalCost(p.model, p.acts) && |done| < MAX_EXPLORED_STATES
    ensures !CapFilled(p)
  {
    forall states: set<State> | forall s | s in states :: ReachedBelow(p, s) ensures |states| < MAX_EXPLORED_STATES {
      hide QueueInv, Closed, Execute, KeyOf, WellFormed;
      forall s | s in states ensures Reachable(p, s) && KeyOf(p, s) in done {
        assert ReachedBelow(p, s);
        var moves :| Execute(p.model.net, p.acts, Start(p), moves) == Some(s) && Cost(moves) < e.cost;
        CheaperIsDone(p, queue, table, done, e.cost, moves);
      }
      NoMoreThanKeys(p, states, done);
    }
  }

  /** Computes a cheapest prefix alignment, or gives up after MAX_EXPLORED_STATES expansions. It only
      gives up if more states than that are no more costly than a cheapest alignment, and always if
      that many are cheaper. The "no alignment" error cannot occur. */
  method CalculateAlignment(activities: seq<string>, model: Model) returns (r: Outcome)
    requires WellFormed(model.net)
    ensures r.Found? ==> Optimal(Problem(model, activities), r.cost, r.logPath, r.modelPath)
    ensures r.StateLimitExceeded? ==> TooManyStates(Problem(model, activities))
    ensures r.Found? ==> !CapFilled(Problem(model, activities))
    ensures !r.NoAlignmentFound?
  {
    hide QueueInv, KeyOf, Justified, Closed, Execute, Optimal, AllRelaxed, ReachedWithin, CapFilled;
    var p := Problem(model, activities);
    var search := new Search(p);
    var exploredStates := 0;
    ghost var done: set<StateKey>, states: set<State> := {}, {};
    r := StateLimitExceeded;
    while search.queue != {}
      invariant search.p == p && search.Valid(done) && Closed(p, search.lowestCost, done)
      invariant exploredStates == |states| == |done| <= MAX_EXPLORED_STATES
      invariant forall s | s in states :: KeyOf(p, s) in done && ReachedWithin(p, s, OptimalCost(model, activities))
      decreases MAX_EXPLORED_STATES - exploredStates, |search.queue|
    {
      ghost var queue, table := search.queue, search.lowestCost;
      var e := search.PopLeast();
      QueuedIsSound(p, queue, table, done, e);
      var key := KeyOf(p, e.state);
      if e.cost != search.lowestCost[key] {
        DropStale(p, queue, table, done, e);
        continue;
      }
      exploredStates := exploredStates + 1;
      states := states + {e.state};
      PoppedIsCheap(p, queue, table, done, e);
      if exploredStates > MAX_EXPLORED_STATES {
        return StateLimitExceeded;
      }
      if e.state.index == |activities| {
        LeastAtEndIsOptimal(p, queue, table, done, e);
        FoundCostIsOptimalCost(p, e.cost, e.logPath, e.modelPath);
        CapNotFilled(p, queue, table, done, e);
        return Found(e.cost, e.logPath, e.modelPath);
      }
      Expand(p, queue, table, done, e);
      ghost var done' := done + {key};
      search.ExpandState(e, done');
      ClosedImproves(p, table, search.lowestCost, done);
      ClosedGrows(p, search.lowestCost, done, e.state);
      done := done';
    }
    QueueNeverEmpty(p, search.queue, search.lowestCost, done);
    assert false;
  }

  // ---------- what a found alignment is worth, and when one is found ----------

  /** The returned cost is the least cost of any prefix alignment. */
  lemma FoundCostIsOptimalCost(p: Problem, cost: nat, logPath: Path, modelPath: Path)
    requires Optimal(p, cost, logPath, modelPath)
    ensures cost == OptimalCost(p.model, p.acts)
  {
    assert HasCost(p.model, p.acts, cost);
    var best :| IsAlignment(p.model, p.acts, best) && Cost(best) == OptimalCost(p.model, p.acts);
  }

  /** What one step shows: a log move its activity on the log path only, a model move its label, or its
      name if it is silent, on the model path only, a synchronous move its label on both. */
  ghost predicate Shows(mv: Move, logStep: Option<string>, modelStep: Option<string>) {
    match mv
    case LogMove(a) => logStep == Some(a) && modelStep == None
    case ModelMove(t) => logStep == None && modelStep == Some(if t.activity.Some? then t.activity.value else t.name)
    case SyncMove(t) => t.activity.Some? && logStep == modelStep == t.activity
  }

  /** The returned paths are equally long; without its gaps the one is the activities and the other the
      trace of the fired transitions, which the state equation shows to be playable from the initial
      marking; and the cost counts the steps that are neither silent nor synchronous. */
  ghost predicate PathsWitness(p: Problem, moves: seq<Move>, cost: nat, logPath: Path, modelPath: Path) {
    && |logPath| == |modelPath| == |moves|
    && (forall k | 0 <= k < |moves| :: Shows(moves[k], logPath[k], modelPath[k]))
    && Present(logPath) == p.acts
    && Present(modelPath) == Names(Firings(moves))
    && Playable(p.model.net, p.model.initial, Firings(moves))
    && cost == |Deviations(moves)|
  }

  lemma FoundPathsAreWitness(p: Problem, cost: nat, logPath: Path, modelPath: Path)
    requires Optimal(p, cost, logPath, modelPath)
    ensures exists moves :: PathsWitness(p, moves, cost, logPath, modelPath)
  {
    hide Playable;
    var moves :| IsAlignment(p.model, p.acts, moves)
                 && Cost(moves) == cost && LogPath(moves) == logPath && ModelPath(moves) == modelPath;
    LogPathShows(p.model.net, p.acts, p.model.initial, moves);
    FiringsFire(p.model.net, p.acts, p.model.initial, moves);
    FireAllIff(p.model.net, p.model.initial, Firings(moves));
    ModelPathShows(moves);
    StepsShow(p.model.net, p.acts, p.model.initial, moves);
    CostCountsDeviations(moves);
    assert p.acts[..|p.acts|] == p.acts;
    assert PathsWitness(p, moves, cost, logPath, modelPath);
  }

  lemma {:induction false} StepsShow(net: Net, acts: seq<string>, m0: Marking, moves: seq<Move>)
    requires Execute(net, acts, State(0, m0), moves).Some?
    ensures |LogPath(moves)| == |ModelPath(moves)| == |moves|
    ensures forall k | 0 <= k < |moves| :: Shows(moves[k], LogPath(moves)[k], ModelPath(moves)[k])
  {
    if moves != [] {
      StepsShow(net, acts, m0, moves[..|moves| - 1]);
    }
  }

  ghost predicate ClosedUnderFiring(net: Net, markings: set<Marking>) {
    forall m, t | m in markings && t in net.transitions && Enabled(t, m) :: Fire(t, m) in markings
  }

  lemma {:induction false} ReachableMarkings(p: Problem, markings: set<Marking>, moves: seq<Move>)
    requires p.model.initial in markings && ClosedUnderFiring(p.model.net, markings)
    requires Execute(p.model.net, p.acts, Start(p), moves).Some?
    ensures var s := Execute(p.model.net, p.acts, Start(p), moves).value;
            s.index <= |p.acts| && s.marking in markings
  {
    if moves != [] {
      ReachableMarkings(p, markings, moves[..|moves| - 1]);
    }
  }

  /** At most one state per index and marking. */
  lemma {:induction false} CountStates(states: set<State>, markings: set<Marking>, indices: nat)
    requires forall s | s in states :: s.index < indices && s.marking in markings
    ensures |states| <= indices * |markings|
  {
    if indices == 0 {
      assert states == {};
    } else {
      var last := set s | s in states && s.index == indices - 1;
      CountStates(states - last, markings, indices - 1);
      SameIndex(last, markings, indices - 1);
      assert states == (states - last) + last;
      assert indices * |markings| == (indices - 1) * |markings| + |markings|;
    }
  }

  lemma {:induction false} SameIndex(states: set<State>, markings: set<Marking>, index: nat)
    requires forall s | s in states :: s.index == index && s.marking in markings
    ensures |states| <= |markings|
    decreases states
  {
    if s :| s in states {
      forall s' | s' in states - {s} ensures s'.marking in markings - {s.marking} {
        assert s' != s && s'.index == s.index;
      }
      SameIndex(states - {s}, markings - {s.marking}, index);
    }
  }

  lemma SubsetSize(a: set<State>, b: set<State>)
    requires a <= b
    ensures |a| <= |b|
  {
    assert b == a + (b - a);
  }

  /** Bounded net or not: if the states that are no more costly than a cheapest alignment are at most
      as many as the cap, the search answers. */
  lemma CheapStatesAreAnswered(p: Problem, cheap: set<State>)
    requires forall s | ReachedWithin(p, s, OptimalCost(p.model, p.acts)) :: s in cheap
    requires |cheap| <= MAX_EXPLORED_STATES
    ensures !TooManyStates(p)
  {
    hide ReachedWithin;
    forall states: set<State> | forall s | s in states :: ReachedWithin(p, s, OptimalCost(p.model, p.acts))
      ensures |states| <= MAX_EXPLORED_STATES
    {
      SubsetSize(states, cheap);
    }
  }

  /** A bounded net is always answered: the search gives up only when the activities plus one,
      times the reachable markings, exceed the cap. */
  lemma BoundedNetIsAnswered(p: Problem, markings: set<Marking>)
    requires p.model.initial in markings && ClosedUnderFiring(p.model.net, markings)
    requires (|p.acts| + 1) * |markings| <= MAX_EXPLORED_STATES
    ensures !TooManyStates(p)
  {
    hide ClosedUnderFiring;
    forall states: set<State> | forall s | s in states :: ReachedWithin(p, s, OptimalCost(p.model, p.acts))
      ensures |states| <= MAX_EXPLORED_STATES
    {
      forall s | s in states ensures s.index < |p.acts| + 1 && s.marking in markings {
        var moves :| Execute(p.model.net, p.acts, Start(p), moves) == Some(s);
        ReachableMarkings(p, markings, moves);
      }
      CountStates(states, markings, |p.acts| + 1);
    }
  }
}
