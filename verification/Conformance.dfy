/** The operator that joins the event stream of one shard with the broadcast model stream. */
module Conformance {
  import opened Wrappers
  import opened Events
  import opened PetriNet
  import opened PrefixAlignment
  import opened AlignmentSearch

  type Models = map<nat, Model>
  datatype CaseState = CaseState(pending: seq<ProcessEvent>, processed: seq<ProcessEvent>)
  datatype Score = Score(case_: string, event: nat, score: nat)

  // ---------- what reprocessing a case means ----------

  ghost function ScoreOf(models: Models, before: seq<ProcessEvent>, e: ProcessEvent): Score
    requires e.modelVersion.Some? && e.modelVersion.value in models
  {
    Score(e.case_, e.sequence, OptimalCost(models[e.modelVersion.value], Activities(before) + [e.activity]))
  }

  datatype Reprocessed = Reprocessed(state: CaseState, scores: seq<Score>)

  /** Pending events are scored in order until one waits for a model; events without a model
      version stay pending and are passed over. */
  ghost function Reprocess(models: Models, processed: seq<ProcessEvent>, pending: seq<ProcessEvent>): Reprocessed
    decreases |pending|
  {
    if pending == [] then Reprocessed(CaseState([], processed), []) else
      var e := pending[0];
      if e.modelVersion.None? then
        var r := Reprocess(models, processed, pending[1..]);
        Reprocessed(CaseState([e] + r.state.pending, r.state.processed), r.scores)
      else if e.modelVersion.value !in models then
        Reprocessed(CaseState(pending, processed), [])
      else
        var r := Reprocess(models, processed + [e], pending[1..]);
        Reprocessed(r.state, [ScoreOf(models, processed, e)] + r.scores)
  }

  ghost function FlushCase(models: Models, s: CaseState): Reprocessed {
    Reprocess(models, s.processed, s.pending)
  }

  function ByCase(scores: seq<Score>, c: string): seq<Score> {
    if scores == [] then [] else
      ByCase(scores[..|scores| - 1], c) +
      (if scores[|scores| - 1].case_ == c then [scores[|scores| - 1]] else [])
  }

  lemma {:induction false} ByCaseConcat(s: seq<Score>, t: seq<Score>, c: string)
    ensures ByCase(s + t, c) == ByCase(s, c) + ByCase(t, c)
  {
    if t == [] {
      assert s + t == s;
    } else {
      assert (s + t)[..|s + t| - 1] == s + t[..|t| - 1];
      ByCaseConcat(s, t[..|t| - 1], c);
    }
  }

  lemma {:induction false} ByCaseOfOne(s: seq<Score>, owner: string, c: string)
    requires forall i | 0 <= i < |s| :: s[i].case_ == owner
    ensures ByCase(s, c) == if c == owner then s else []
  {
    if s != [] {
      ByCaseOfOne(s[..|s| - 1], owner, c);
    }
  }

  ghost predicate OfCase(events: seq<ProcessEvent>, c: string) {
    forall e | e in events :: e.case_ == c
  }

  lemma {:induction false} ReprocessKeepsCase(models: Models, processed: seq<ProcessEvent>,
                                              pending: seq<ProcessEvent>, c: string)
    requires OfCase(processed, c) && OfCase(pending, c)
    ensures var r := Reprocess(models, processed, pending);
            && OfCase(r.state.processed, c) && OfCase(r.state.pending, c)
            && forall i | 0 <= i < |r.scores| :: r.scores[i].case_ == c
    decreases |pending|
  {
    if pending != [] {
      if pending[0].modelVersion.None? {
        ReprocessKeepsCase(models, processed, pending[1..], c);
      } else {
        ReprocessKeepsCase(models, processed + [pending[0]], pending[1..], c);
      }
    }
  }

  // ---------- the operator as a state machine ----------

  datatype OperatorState = OperatorState(models: Models, cases: map<string, CaseState>)

  ghost predicate ValidState(st: OperatorState) {
    && (forall v | v in st.models :: WellFormed(st.models[v].net))
    && (forall c | c in st.cases :: OfCase(st.cases[c].pending, c) && OfCase(st.cases[c].processed, c))
  }

  /** An event of an unknown case is dropped when it carries no model version. */
  predicate Accepts(st: OperatorState, e: ProcessEvent) {
    e.case_ in st.cases || e.modelVersion.Some?
  }

  function CaseOf(st: OperatorState, c: string): CaseState {
    if c in st.cases then st.cases[c] else CaseState([], [])
  }

  function Enqueue(st: OperatorState, e: ProcessEvent): OperatorState {
    var s := CaseOf(st, e.case_);
    st.(cases := st.cases[e.case_ := s.(pending := s.pending + [e])])
  }

  ghost function Flush(st: OperatorState): OperatorState {
    st.(cases := map c | c in st.cases :: FlushCase(st.models, st.cases[c]).state)
  }

  ghost function FlushScores(st: OperatorState, c: string): seq<Score> {
    FlushCase(st.models, CaseOf(st, c)).scores
  }

  datatype Step = Publish(version: nat, model: Model) | Arrive(event: ProcessEvent)

  ghost function Next(st: OperatorState, step: Step): OperatorState {
    match step
    case Publish(v, m) => st.(models := st.models[v := m])
    case Arrive(e) => if Accepts(st, e) then Flush(Enqueue(st, e)) else st
  }

  /** The scores a step emits for one case, in order. */
  ghost function Emits(st: OperatorState, step: Step, c: string): seq<Score> {
    match step
    case Publish(_, _) => []
    case Arrive(e) => if Accepts(st, e) then FlushScores(Enqueue(st, e), c) else []
  }

  // ---------- when a search gives up ----------

  /** The events that can be scored at all. */
  function Versioned(events: seq<ProcessEvent>): seq<ProcessEvent> {
    if events == [] then [] else
      (if events[0].modelVersion.Some? then [events[0]] else []) + Versioned(events[1..])
  }

  lemma VersionedCons(e: ProcessEvent, rest: seq<ProcessEvent>)
    ensures Versioned([e] + rest) == (if e.modelVersion.Some? then [e] else []) + Versioned(rest)
  {
    assert ([e] + rest)[1..] == rest;
  }

  lemma {:induction false} VersionedConcat(s: seq<ProcessEvent>, t: seq<ProcessEvent>)
    ensures Versioned(s + t) == Versioned(s) + Versioned(t)
  {
    if s == [] {
      assert s + t == t;
    } else {
      hide Versioned;
      var e, rest := s[0], s[1..];
      VersionedConcat(rest, t);
      VersionedCons(e, rest);
      VersionedCons(e, rest + t);
      assert [e] + rest == s && [e] + (rest + t) == s + t;
    }
  }

  lemma VersionedOne(e: ProcessEvent)
    ensures Versioned([e]) == if e.modelVersion.Some? then [e] else []
  {}

  lemma {:induction false} VersionedLength(s: seq<ProcessEvent>)
    ensures |Versioned(s)| <= |s|
  {
    if s != [] {
      VersionedLength(s[1..]);
    }
  }

  lemma VersionedSnoc(s: seq<ProcessEvent>, i: nat)
    requires i < |s|
    ensures Versioned(s[..i + 1]) == Versioned(s[..i]) + if s[i].modelVersion.Some? then [s[i]] else []
  {
    assert s[..i + 1] == s[..i] + [s[i]];
    VersionedConcat(s[..i], [s[i]]);
    VersionedOne(s[i]);
  }

  /** The pending events before the i-th and the i-th itself can be scored. */
  ghost predicate Attempted(models: Models, pending: seq<ProcessEvent>, i: nat) {
    && i < |pending| && pending[i].modelVersion.Some?
    && forall k | 0 <= k <= i && pending[k].modelVersion.Some? :: pending[k].modelVersion.value in models
  }

  /** The alignment problem of the i-th pending event: everything of the case before it, then itself. */
  ghost function ProblemOf(models: Models, s: CaseState, i: nat): Problem
    requires Attempted(models, s.pending, i)
  {
    Problem(models[s.pending[i].modelVersion.value],
            Activities(s.processed + Versioned(s.pending[..i])) + [s.pending[i].activity])
  }

  /** The search of some pending event, on its own problem, has more states than it may explore. */
  ghost predicate CapReached(models: Models, s: CaseState) {
    exists i: nat :: Attempted(models, s.pending, i) && TooManyStates(ProblemOf(models, s, i))
  }

  ghost predicate BoundedBy(model: Model, markings: set<Marking>) {
    model.initial in markings && ClosedUnderFiring(model.net, markings)
  }

  /** Every model has so few markings that any prefix of the case stays within the cap. */
  ghost predicate WithinCap(models: Models, s: CaseState) {
    forall v | v in models ::
      exists markings :: BoundedBy(models[v], markings)
                         && (|s.processed| + |s.pending| + 1) * |markings| <= MAX_EXPLORED_STATES
  }

  ghost predicate ShardWithinCap(st: OperatorState) {
    forall c | c in st.cases :: WithinCap(st.models, st.cases[c])
  }

  lemma FewerStates(n: nat, n': nat, m: nat)
    requires n <= n' && n' * m <= MAX_EXPLORED_STATES
    ensures n * m <= MAX_EXPLORED_STATES
  {
    assert (n' - n) * m >= 0;
    assert n' * m == n * m + (n' - n) * m;
  }

  /** Bounded models never make a search give up. */
  lemma WithinCapIsScored(models: Models, s: CaseState)
    requires WithinCap(models, s)
    ensures !CapReached(models, s)
  {
    hide TooManyStates;
    forall i: nat | Attempted(models, s.pending, i) ensures !TooManyStates(ProblemOf(models, s, i)) {
      var p := ProblemOf(models, s, i);
      VersionedLength(s.pending[..i]);
      var markings :| BoundedBy(p.model, markings)
                      && (|s.processed| + |s.pending| + 1) * |markings| <= MAX_EXPLORED_STATES;
      FewerStates(|p.acts| + 1, |s.processed| + |s.pending| + 1, |markings|);
      BoundedNetIsAnswered(p, markings);
    }
  }

  /** What is left to do: `r` is what reprocessing the remaining events will still yield. */
  ghost predicate LeadsTo(whole: Reprocessed, remaining: seq<ProcessEvent>, scores: seq<Score>, r: Reprocessed) {
    whole == Reprocessed(CaseState(remaining + r.state.pending, r.state.processed), scores + r.scores)
  }

  /** Reprocessing, one pending event at a time. */
  lemma LeadsOn(models: Models, whole: Reprocessed, remaining: seq<ProcessEvent>, scores: seq<Score>,
                processed: seq<ProcessEvent>, pending: seq<ProcessEvent>, i: nat)
    requires i < |pending| && LeadsTo(whole, remaining, scores, Reprocess(models, processed, pending[i..]))
    ensures var e := pending[i];
            if e.modelVersion.None?
            then LeadsTo(whole, remaining + [e], scores, Reprocess(models, processed, pending[i + 1..]))
            else if e.modelVersion.value !in models
            then whole == Reprocessed(CaseState(remaining + pending[i..], processed), scores)
            else LeadsTo(whole, remaining, scores + [ScoreOf(models, processed, e)],
                         Reprocess(models, processed + [e], pending[i + 1..]))
  {
    assert pending[i..][1..] == pending[i + 1..];
    assert scores + [] == scores;
  }

  lemma LeadsToEnd(models: Models, whole: Reprocessed, remaining: seq<ProcessEvent>, scores: seq<Score>,
                   processed: seq<ProcessEvent>, pending: seq<ProcessEvent>)
    requires LeadsTo(whole, remaining, scores, Reprocess(models, processed, pending[|pending|..]))
    ensures whole == Reprocessed(CaseState(remaining, processed), scores)
  {
    assert remaining + [] == remaining && scores + [] == scores;
  }

  lemma LeadsToStart(models: Models, s: CaseState)
    ensures LeadsTo(FlushCase(models, s), [], [], Reprocess(models, s.processed, s.pending[0..]))
  {
    var r := FlushCase(models, s);
    assert s.pending[0..] == s.pending;
    assert [] + r.state.pending == r.state.pending && [] + r.scores == r.scores;
  }

  class ConformanceOperator {
    var caseStates: map<string, CaseState>
    var models: Models

    ghost function State(): OperatorState
      reads this
    {
      OperatorState(models, caseStates)
    }

    constructor ()
      ensures State() == OperatorState(map[], map[])
    {
      caseStates, models := map[], map[];
    }

    method ProcessBroadcastElement(version: nat, model: Model)
      requires WellFormed(model.net) && ValidState(State())
      modifies this
      ensures State() == Next(old(State()), Publish(version, model)) && ValidState(State())
      ensures models == old(models)[version := model] && caseStates == old(caseStates)
    {
      models := models[version := model];
    }

    /** Scores the pending events of a case; `ok` is false where a search hit its cap. */
    method ReprocessPendingEvents(s: CaseState) returns (s': CaseState, scores: seq<Score>, ok: bool)
      requires forall v | v in models :: WellFormed(models[v].net)
      ensures ok ==> Reprocessed(s', scores) == FlushCase(models, s)
      ensures !ok ==> CapReached(models, s)
      ensures WithinCap(models, s) ==> ok
    {
      hide TooManyStates, Optimal, WithinCap, Versioned, Reprocess, FlushCase, LeadsTo;
      if WithinCap(models, s) {
        WithinCapIsScored(models, s);
      }
      NothingVersioned(s.pending);
      LeadsToStart(models, s);
      scores, ok := [], true;
      var remaining, processed: seq<ProcessEvent>, i := [], s.processed, 0;
      while i < |s.pending|
        invariant 0 <= i <= |s.pending| && ok
        invariant processed == s.processed + Versioned(s.pending[..i])
        invariant forall k | 0 <= k < i && s.pending[k].modelVersion.Some? :: s.pending[k].modelVersion.value in models
        invariant LeadsTo(FlushCase(models, s), remaining, scores, Reprocess(models, processed, s.pending[i..]))
      {
        var e := s.pending[i];
        LeadsOn(models, FlushCase(models, s), remaining, scores, processed, s.pending, i);
        VersionedSnoc(s.pending, i);
        if e.modelVersion == None {
          remaining := remaining + [e];
          i := i + 1;
          continue;
        }
        if e.modelVersion.value !in models {
          remaining := remaining + s.pending[i..];
          break;
        }
        var model := models[e.modelVersion.value];
        var outcome := CalculateAlignment(Activities(processed) + [e.activity], model);
        if outcome.StateLimitExceeded? {
          assert Attempted(models, s.pending, i) && TooManyStates(ProblemOf(models, s, i));
          return s, scores, false;
        }
        FoundCostIsOptimalCost(Problem(model, Activities(processed) + [e.activity]),
                               outcome.cost, outcome.logPath, outcome.modelPath);
        scores := scores + [Score(e.case_, e.sequence, outcome.cost)];
        processed := processed + [e];
        i := i + 1;
      }
      if i == |s.pending| {
        LeadsToEnd(models, FlushCase(models, s), remaining, scores, processed, s.pending);
      }
      s' := CaseState(remaining, processed);
    }

    /** Reprocesses every case of the shard that has pending events, in any order. */
    method FlushCases() returns (scores: seq<Score>, ok: bool)
      requires ValidState(State())
      modifies this`caseStates
      ensures ok ==> State() == Flush(old(State())) && ValidState(State())
      ensures ok ==> forall c :: ByCase(scores, c) == FlushScores(old(State()), c)
      ensures !ok ==> exists c | c in old(caseStates) :: CapReached(models, old(caseStates)[c])
      ensures ShardWithinCap(old(State())) ==> ok
    {
      hide ByCase, Reprocess, ValidState, CapReached, WithinCap;
      scores, ok := [], true;
      ghost var start := State();
      NothingEmitted(start);
      var cases := caseStates.Keys;
      while cases != {}
        invariant cases <= caseStates.Keys == start.cases.Keys && models == start.models
        invariant forall c | c in caseStates ::
                    caseStates[c] == if c in cases then start.cases[c] else FlushCase(models, start.cases[c]).state
        invariant EmittedSoFar(start, scores, cases)
        decreases cases
      {
        var c :| c in cases;
        assert caseStates[c] == start.cases[c];
        if caseStates[c].pending == [] {
          NothingPending(models, caseStates[c]);
          CaseEmitted(start, scores, [], cases, c);
          assert scores + [] == scores;
        } else {
          ModelsWellFormed(start);
          var flushed, emitted;
          flushed, emitted, ok := ReprocessPendingEvents(caseStates[c]);
          if !ok {
            return;
          }
          CaseEmitted(start, scores, emitted, cases, c);
          scores := scores + emitted;
          caseStates := caseStates[c := flushed];
        }
        cases := cases - {c};
      }
      assert State() == Flush(start);
      FlushKeepsValid(start);
    }

    /** Queues the event, then flushes the shard. */
    method ProcessElement(event: ProcessEvent) returns (scores: seq<Score>, ok: bool)
      requires ValidState(State())
      modifies this`caseStates
      ensures ok ==> State() == Next(old(State()), Arrive(event)) && ValidState(State())
      ensures ok ==> forall c :: ByCase(scores, c) == Emits(old(State()), Arrive(event), c)
      ensures !ok ==> Accepts(old(State()), event) &&
                      var st := Enqueue(old(State()), event);
                      exists c | c in st.cases :: CapReached(models, st.cases[c])
      ensures ShardWithinCap(Enqueue(old(State()), event)) ==> ok
    {
      hide CapReached, ShardWithinCap, Flush;
      var caseState := CaseState([], []);
      if event.case_ in caseStates {
        caseState := caseStates[event.case_];
      } else if event.modelVersion.None? {
        return [], true;
      }
      caseStates := caseStates[event.case_ := caseState.(pending := caseState.pending + [event])];
      assert State() == Enqueue(old(State()), event) && ValidState(State());
      scores, ok := FlushCases();
    }
  }

  lemma NothingVersioned(s: seq<ProcessEvent>)
    ensures Versioned(s[..0]) == []
  {}

  lemma ModelsWellFormed(st: OperatorState)
    requires ValidState(st)
    ensures forall v | v in st.models :: WellFormed(st.models[v].net)
  {}

  lemma NothingPending(models: Models, s: CaseState)
    requires s.pending == []
    ensures FlushCase(models, s) == Reprocessed(s, [])
  {}

  /** The cases in `todo` have emitted nothing yet, every other case all its scores. */
  ghost predicate EmittedSoFar(st: OperatorState, scores: seq<Score>, todo: set<string>) {
    forall c :: ByCase(scores, c) == if c in todo then [] else FlushScores(st, c)
  }

  lemma NothingEmitted(st: OperatorState)
    ensures EmittedSoFar(st, [], st.cases.Keys)
  {}

  lemma CaseEmitted(st: OperatorState, scores: seq<Score>, emitted: seq<Score>, todo: set<string>, c: string)
    requires ValidState(st) && c in todo && c in st.cases && EmittedSoFar(st, scores, todo)
    requires emitted == FlushCase(st.models, st.cases[c]).scores
    ensures EmittedSoFar(st, scores + emitted, todo - {c})
  {
    ReprocessKeepsCase(st.models, st.cases[c].processed, st.cases[c].pending, c);
    assert FlushScores(st, c) == emitted;
    hide Reprocess, ByCase, OfCase, FlushScores, FlushCase, ValidState;
    forall d ensures ByCase(scores + emitted, d) == if d in todo - {c} then [] else FlushScores(st, d) {
      ByCaseConcat(scores, emitted, d);
      ByCaseOfOne(emitted, c, d);
      assert ByCase(scores, d) == if d in todo then [] else FlushScores(st, d);
      assert [] + emitted == emitted && ByCase(scores, d) + [] == ByCase(scores, d);
    }
  }

  lemma FlushKeepsValid(st: OperatorState)
    requires ValidState(st)
    ensures ValidState(Flush(st))
  {
    forall c | c in st.cases
      ensures OfCase(FlushCase(st.models, st.cases[c]).state.pending, c)
      ensures OfCase(FlushCase(st.models, st.cases[c]).state.processed, c)
    {
      ReprocessKeepsCase(st.models, st.cases[c].processed, st.cases[c].pending, c);
    }
  }
}
