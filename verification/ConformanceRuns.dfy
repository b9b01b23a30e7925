/** Whole runs of the conformance operator: any interleaving of model broadcasts and events. */
module ConformanceRuns {
  import opened Events
  import opened PrefixAlignment
  import opened Conformance

  ghost function Run(steps: seq<Step>): OperatorState {
    if steps == [] then OperatorState(map[], map[]) else
      Next(Run(steps[..|steps| - 1]), steps[|steps| - 1])
  }

  /** All scores emitted for a case, in order. */
  ghost function RunScores(steps: seq<Step>, c: string): seq<Score> {
    if steps == [] then [] else
      RunScores(steps[..|steps| - 1], c) + Emits(Run(steps[..|steps| - 1]), steps[|steps| - 1], c)
  }

  function Arriving(step: Step, c: string): seq<ProcessEvent> {
    if step.Arrive? && step.event.case_ == c && step.event.modelVersion.Some? then [step.event] else []
  }

  /** The events of a case that can be scored at all, in order of arrival. */
  function ArrivalsOf(steps: seq<Step>, c: string): seq<ProcessEvent> {
    if steps == [] then [] else
      ArrivalsOf(steps[..|steps| - 1], c) + Arriving(steps[|steps| - 1], c)
  }

  ghost predicate PublishedOnce(steps: seq<Step>) {
    forall i, j | 0 <= i < j < |steps| && steps[i].Publish? && steps[j].Publish? ::
      steps[i].version != steps[j].version
  }

  ghost predicate Available(models: Models, events: seq<ProcessEvent>) {
    forall e | e in events :: e.modelVersion.Some? && e.modelVersion.value in models
  }

  /** The first event that could be scored next still waits for its model. */
  ghost predicate Blocked(models: Models, pending: seq<ProcessEvent>) {
    Versioned(pending) == [] || Versioned(pending)[0].modelVersion.GetOr(0) !in models
  }

  /** Each event aligned together with everything before it, under the event's own model. */
  ghost function ScoreList(models: Models, events: seq<ProcessEvent>): seq<Score>
    requires Available(models, events)
  {
    if events == [] then [] else
      var n := |events| - 1;
      ScoreList(models, events[..n]) + [ScoreOf(models, events[..n], events[n])]
  }

  lemma {:induction false} VersionedHaveVersions(s: seq<ProcessEvent>)
    ensures forall e | e in Versioned(s) :: e.modelVersion.Some?
  {
    if s != [] {
      VersionedHaveVersions(s[1..]);
    }
  }

  lemma ScoreListSnoc(models: Models, events: seq<ProcessEvent>, e: ProcessEvent)
    requires Available(models, events + [e])
    ensures Available(models, events) && e.modelVersion.Some? && e.modelVersion.value in models
    ensures ScoreList(models, events + [e]) == ScoreList(models, events) + [ScoreOf(models, events, e)]
  {
    assert (events + [e])[..|events|] == events;
    assert e in events + [e];
  }

  /** Reprocessing keeps the order of a case, emits the scores of what it moves, and stops only
      where a model is missing. */
  ghost predicate Accounted(models: Models, processed: seq<ProcessEvent>, pending: seq<ProcessEvent>, r: Reprocessed) {
    && Available(models, processed)
    && Available(models, r.state.processed)
    && r.state.processed + Versioned(r.state.pending) == processed + Versioned(pending)
    && ScoreList(models, r.state.processed) == ScoreList(models, processed) + r.scores
    && Blocked(models, r.state.pending)
  }

  lemma {:induction false} ReprocessFacts(models: Models, processed: seq<ProcessEvent>, pending: seq<ProcessEvent>)
    requires Available(models, processed)
    ensures Accounted(models, processed, pending, Reprocess(models, processed, pending))
    decreases |pending|
  {
    hide ScoreOf, ScoreList;
    if pending != [] {
      var e, rest := pending[0], pending[1..];
      assert pending == [e] + rest;
      VersionedCons(e, rest);
      if e.modelVersion.None? {
        ReprocessFacts(models, processed, rest);
        var waiting := Reprocess(models, processed, rest).state.pending;
        VersionedCons(e, waiting);
        assert [] + Versioned(rest) == Versioned(rest) && [] + Versioned(waiting) == Versioned(waiting);
      } else if e.modelVersion.value in models {
        ReprocessFacts(models, processed + [e], rest);
        ScoreListSnoc(models, processed, e);
        assert processed + [e] + Versioned(rest) == processed + Versioned(pending);
      }
    }
  }

  /** A case's processed events followed by its pending ones are its arrivals in order; what it
      has emitted are exactly the scores of its processed events. */
  ghost predicate CaseInv(st: OperatorState, arrivals: seq<ProcessEvent>, scores: seq<Score>, c: string) {
    var s := CaseOf(st, c);
    && Available(st.models, s.processed)
    && s.processed + Versioned(s.pending) == arrivals
    && scores == ScoreList(st.models, s.processed)
  }

  lemma {:induction false} ScoreListGrows(models: Models, models': Models, events: seq<ProcessEvent>)
    requires Available(models, events)
    requires forall v | v in models :: v in models' && models'[v] == models[v]
    ensures Available(models', events) && ScoreList(models', events) == ScoreList(models, events)
  {
    if events != [] {
      ScoreListGrows(models, models', events[..|events| - 1]);
    }
  }

  lemma {:induction false} PublishedVersions(steps: seq<Step>)
    ensures forall v | v in Run(steps).models :: exists i | 0 <= i < |steps| ::
              steps[i].Publish? && steps[i].version == v
  {
    if steps != [] {
      var front := steps[..|steps| - 1];
      PublishedVersions(front);
      forall v | v in Run(steps).models
        ensures exists i | 0 <= i < |steps| :: steps[i].Publish? && steps[i].version == v
      {
        if v in Run(front).models {
          var i :| 0 <= i < |front| && front[i].Publish? && front[i].version == v;
          assert steps[i] == front[i];
        } else {
          assert steps[|steps| - 1].Publish?;
        }
      }
    }
  }

  lemma EventKeepsCase(st: OperatorState, e: ProcessEvent, arrivals: seq<ProcessEvent>, scores: seq<Score>, c: string)
    requires CaseInv(st, arrivals, scores, c)
    ensures CaseInv(Next(st, Arrive(e)), arrivals + Arriving(Arrive(e), c), scores + Emits(st, Arrive(e), c), c)
    ensures Accepts(st, e) ==> Blocked(st.models, CaseOf(Next(st, Arrive(e)), c).pending)
  {
    hide Reprocess, ScoreList, ScoreOf, Versioned;
    VersionedConcat(CaseOf(st, c).pending, [e]);
    VersionedOne(e);
    VersionedNone();
    if Accepts(st, e) {
      var queued := CaseOf(Enqueue(st, e), c);
      ReprocessFacts(st.models, queued.processed, queued.pending);
      EmptyFlush(st.models);
      assert CaseOf(Next(st, Arrive(e)), c) == FlushCase(st.models, queued).state;
    }
  }

  lemma VersionedNone()
    ensures Versioned([]) == []
  {}

  lemma EmptyFlush(models: Models)
    ensures FlushCase(models, CaseState([], [])) == Reprocessed(CaseState([], []), [])
  {}

  lemma PublishKeepsCase(st: OperatorState, v: nat, m: Model, arrivals: seq<ProcessEvent>, scores: seq<Score>,
                         c: string)
    requires CaseInv(st, arrivals, scores, c) && v !in st.models
    ensures CaseInv(Next(st, Publish(v, m)), arrivals, scores, c)
  {
    hide ScoreList, Versioned;
    ScoreListGrows(st.models, st.models[v := m], CaseOf(st, c).processed);
  }

  lemma PublishIsNew(steps: seq<Step>)
    requires PublishedOnce(steps) && steps != [] && steps[|steps| - 1].Publish?
    ensures steps[|steps| - 1].version !in Run(steps[..|steps| - 1]).models
  {
    var n := |steps| - 1;
    PublishedVersions(steps[..n]);
    assert forall i | 0 <= i < n :: steps[i] == steps[..n][i];
  }

  /** In every run that publishes each version once. */
  lemma {:induction false} RunKeepsCase(steps: seq<Step>, c: string)
    requires PublishedOnce(steps)
    ensures CaseInv(Run(steps), ArrivalsOf(steps, c), RunScores(steps, c), c)
  {
    if steps == [] {
      VersionedNone();
    } else {
      hide CaseInv, Next, Emits;
      var n := |steps| - 1;
      var front, last := steps[..n], steps[n];
      RunKeepsCase(front, c);
      var st, arrivals, scores := Run(front), ArrivalsOf(front, c), RunScores(front, c);
      match last {
        case Publish(v, m) =>
          PublishIsNew(steps);
          PublishKeepsCase(st, v, m, arrivals, scores, c);
          PublishEmitsNothing(st, v, m, c);
          assert arrivals + [] == arrivals && scores + [] == scores;
        case Arrive(e) =>
          EventKeepsCase(st, e, arrivals, scores, c);
      }
    }
  }

  lemma PublishEmitsNothing(st: OperatorState, v: nat, m: Model, c: string)
    ensures Emits(st, Publish(v, m), c) == []
  {}

  /** The operator knows a case from the first of its events with a model version on. */
  lemma {:induction false} KnownCaseIff(steps: seq<Step>, c: string)
    ensures c in Run(steps).cases <==> ArrivalsOf(steps, c) != []
  {
    if steps != [] {
      hide FlushCase;
      KnownCaseIff(steps[..|steps| - 1], c);
      if steps[|steps| - 1].Arrive? {
        KnownCaseIff(steps[..|steps| - 1], steps[|steps| - 1].event.case_);
      }
    }
  }

  /** An event is taken in if it has a model version or its case is known; otherwise it is dropped. */
  predicate TakenIn(steps: seq<Step>, e: ProcessEvent) {
    e.modelVersion.Some? || ArrivalsOf(steps, e.case_) != []
  }

  lemma TakenInIff(steps: seq<Step>, e: ProcessEvent)
    ensures TakenIn(steps, e) <==> Accepts(Run(steps), e)
    ensures !TakenIn(steps, e) ==> Run(steps + [Arrive(e)]) == Run(steps)
  {
    KnownCaseIff(steps, e.case_);
    assert (steps + [Arrive(e)])[..|steps|] == steps;
  }

  /** After an event that is taken in no case of the shard has a scorable head left. */
  lemma NoScorableHeadLeft(steps: seq<Step>, e: ProcessEvent, c: string)
    requires PublishedOnce(steps) && TakenIn(steps, e)
    ensures var st := Run(steps + [Arrive(e)]); Blocked(st.models, CaseOf(st, c).pending)
  {
    assert (steps + [Arrive(e)])[..|steps|] == steps;
    TakenInIff(steps, e);
    RunKeepsCase(steps, c);
    EventKeepsCase(Run(steps), e, ArrivalsOf(steps, c), RunScores(steps, c), c);
  }

  // ---------- exactly what has been scored, and what waits ----------

  ghost predicate Published(steps: seq<Step>, version: nat) {
    exists k | 0 <= k < |steps| :: steps[k].Publish? && steps[k].version == version
  }

  lemma {:induction false} ModelsArePublished(steps: seq<Step>, v: nat)
    ensures v in Run(steps).models <==> Published(steps, v)
  {
    if steps != [] {
      var n := |steps| - 1;
      ModelsArePublished(steps[..n], v);
      assert forall k | 0 <= k < n :: steps[..n][k] == steps[k];
      if steps[n].Publish? && steps[n].version == v {
        assert Published(steps, v);
      } else if Published(steps, v) {
        var k :| 0 <= k < |steps| && steps[k].Publish? && steps[k].version == v;
        assert steps[..n][k] == steps[k];
      }
    }
  }

  /** The model of a version is the one published last. */
  lemma {:induction false} LastPublished(steps: seq<Step>, v: nat) returns (k: nat)
    requires Published(steps, v)
    ensures v in Run(steps).models && k < |steps| && steps[k] == Publish(v, Run(steps).models[v])
    ensures forall l | k < l < |steps| && steps[l].Publish? :: steps[l].version != v
  {
    ModelsArePublished(steps, v);
    k := |steps| - 1;
    if !(steps[k].Publish? && steps[k].version == v) {
      var n := k;
      ModelsArePublished(steps[..n], v);
      k := LastPublished(steps[..n], v);
    }
  }

  /** The first `n` arrivals wait for nothing. */
  ghost predicate AllPublished(steps: seq<Step>, arrivals: seq<ProcessEvent>, n: nat)
    requires n <= |arrivals|
  {
    forall j | 0 <= j < n :: arrivals[j].modelVersion.Some? && Published(steps, arrivals[j].modelVersion.value)
  }

  /** Right after an event that was taken in, a case has been scored exactly as far as the models of its
      arrivals have been published without a gap. */
  lemma ScoredIff(steps: seq<Step>, e: ProcessEvent, c: string, n: nat)
    requires PublishedOnce(steps) && TakenIn(steps, e) && n <= |ArrivalsOf(steps + [Arrive(e)], c)|
    ensures var run := steps + [Arrive(e)];
            n <= |RunScores(run, c)| <==> AllPublished(run, ArrivalsOf(run, c), n)
  {
    hide Run, RunScores, ArrivalsOf, Versioned, ScoreList, Published;
    var run := steps + [Arrive(e)];
    AppendEvent(steps, e);
    NoScorableHeadLeft(steps, e, c);
    RunKeepsCase(run, c);
    var st, s, arrivals := Run(run), CaseOf(Run(run), c), ArrivalsOf(run, c);
    ScoreListLength(st.models, s.processed);
    VersionedHaveVersions(s.pending);
    forall v ensures v in st.models <==> Published(run, v) {
      ModelsArePublished(run, v);
    }
    forall j | 0 <= j < |s.processed|
      ensures arrivals[j].modelVersion.Some? && Published(run, arrivals[j].modelVersion.value)
    {
      assert arrivals[j] == s.processed[j];
    }
    if n > |s.processed| {
      assert arrivals[|s.processed|] == Versioned(s.pending)[0];
    }
  }

  /** The events of a case that are taken in, in order of arrival. */
  function TakenInOf(steps: seq<Step>, c: string): seq<ProcessEvent> {
    if steps == [] then [] else
      var front, last := steps[..|steps| - 1], steps[|steps| - 1];
      TakenInOf(front, c) +
      if last.Arrive? && last.event.case_ == c && TakenIn(front, last.event) then [last.event] else []
  }

  /** These events without the first `n` of those that can be scored. */
  function Without(events: seq<ProcessEvent>, n: nat): seq<ProcessEvent> {
    if events == [] then []
    else if n > 0 && events[0].modelVersion.Some? then Without(events[1..], n - 1)
    else [events[0]] + Without(events[1..], n)
  }

  lemma {:induction false} WithoutNone(events: seq<ProcessEvent>)
    ensures Without(events, 0) == events
  {
    if events != [] {
      WithoutNone(events[1..]);
    }
  }

  lemma {:induction false} WithoutSnoc(events: seq<ProcessEvent>, n: nat, e: ProcessEvent)
    requires n <= |Versioned(events)|
    ensures Without(events + [e], n) == Without(events, n) + [e]
  {
    if events == [] {
      assert [e][1..] == [];
    } else {
      assert (events + [e])[1..] == events[1..] + [e];
      WithoutSnoc(events[1..], if n > 0 && events[0].modelVersion.Some? then n - 1 else n, e);
    }
  }

  lemma WithoutCons(e: ProcessEvent, rest: seq<ProcessEvent>, n: nat)
    ensures Without([e] + rest, n) ==
            if n > 0 && e.modelVersion.Some? then Without(rest, n - 1) else [e] + Without(rest, n)
  {
    assert ([e] + rest)[1..] == rest;
  }

  lemma {:induction false} WithoutMore(events: seq<ProcessEvent>, n: nat, m: nat)
    ensures Without(Without(events, n), m) == Without(events, n + m)
  {
    if events != [] {
      hide Without;
      var e, rest := events[0], events[1..];
      assert events == [e] + rest;
      WithoutCons(e, rest, n);
      WithoutCons(e, rest, n + m);
      if n > 0 && e.modelVersion.Some? {
        WithoutMore(rest, n - 1, m);
      } else {
        WithoutCons(e, Without(rest, n), m);
        WithoutMore(rest, n, if m > 0 && e.modelVersion.Some? then m - 1 else m);
      }
    }
  }

  lemma {:induction false} ReprocessWithout(models: Models, processed: seq<ProcessEvent>, pending: seq<ProcessEvent>)
    ensures var r := Reprocess(models, processed, pending).state;
            |r.processed| >= |processed| && r.pending == Without(pending, |r.processed| - |processed|)
    decreases |pending|
  {
    if pending != [] {
      if pending[0].modelVersion.None? {
        ReprocessWithout(models, processed, pending[1..]);
      } else if pending[0].modelVersion.value in models {
        ReprocessWithout(models, processed + [pending[0]], pending[1..]);
      } else {
        WithoutNone(pending);
      }
    }
  }

  ghost predicate PendingFits(st: OperatorState, taken: seq<ProcessEvent>, c: string) {
    var s := CaseOf(st, c);
    |s.processed| <= |Versioned(taken)| && s.pending == Without(taken, |s.processed|)
  }

  lemma FlushFits(st: OperatorState, e: ProcessEvent, taken: seq<ProcessEvent>, c: string)
    requires PendingFits(st, taken, c) && Accepts(st, e)
    ensures var s := CaseOf(Flush(Enqueue(st, e)), c);
            s.pending == Without(taken + if e.case_ == c then [e] else [], |s.processed|)
  {
    hide Reprocess, Versioned, Without;
    var s, queued := CaseOf(st, c), CaseOf(Enqueue(st, e), c);
    WithoutSnoc(taken, |s.processed|, e);
    assert taken + [] == taken;
    var taken' := taken + if e.case_ == c then [e] else [];
    assert queued.pending == Without(taken', |s.processed|);
    ReprocessWithout(st.models, queued.processed, queued.pending);
    EmptyFlush(st.models);
    var r := CaseOf(Flush(Enqueue(st, e)), c);
    assert r == FlushCase(st.models, queued).state;
    WithoutMore(taken', |s.processed|, |r.processed| - |s.processed|);
  }

  lemma {:induction false} VersionedTakenIn(steps: seq<Step>, c: string)
    ensures Versioned(TakenInOf(steps, c)) == ArrivalsOf(steps, c)
  {
    if steps == [] {
      VersionedNone();
    } else {
      hide Versioned;
      var front, last := steps[..|steps| - 1], steps[|steps| - 1];
      VersionedTakenIn(front, c);
      VersionedNone();
      if last.Arrive? {
        VersionedOne(last.event);
        VersionedConcat(TakenInOf(front, c), [last.event]);
      }
      assert TakenInOf(front, c) + [] == TakenInOf(front, c) && ArrivalsOf(front, c) + [] == ArrivalsOf(front, c);
    }
  }

  /** What waits in a case is exactly what was taken in, in order, without the events that have been
      scored, which are the first ones that can be. */
  lemma {:induction false} RunKeepsPending(steps: seq<Step>, c: string)
    requires PublishedOnce(steps)
    ensures PendingFits(Run(steps), TakenInOf(steps, c), c)
  {
    if steps != [] {
      hide Versioned, Without, Flush, Enqueue, Accepts;
      var front, last := steps[..|steps| - 1], steps[|steps| - 1];
      RunKeepsPending(front, c);
      VersionedTakenIn(steps, c);
      RunKeepsCase(steps, c);
      assert TakenInOf(front, c) + [] == TakenInOf(front, c);
      if last.Arrive? {
        TakenInIff(front, last.event);
        if TakenIn(front, last.event) {
          FlushFits(Run(front), last.event, TakenInOf(front, c), c);
        }
      }
    } else {
      VersionedNone();
    }
  }

  /** What is processed once nothing scorable is left is fixed by arrivals and models alone. */
  lemma ProcessedIsDetermined(models: Models, p: seq<ProcessEvent>, q: seq<ProcessEvent>,
                              p': seq<ProcessEvent>, q': seq<ProcessEvent>)
    requires Available(models, p) && Available(models, p')
    requires p + Versioned(q) == p' + Versioned(q')
    requires Blocked(models, q) && Blocked(models, q')
    ensures p == p'
  {
    if |p| <= |p'| {
      NotShorter(models, p, q, p', q');
    } else {
      NotShorter(models, p', q', p, q);
    }
  }

  lemma NotShorter(models: Models, p: seq<ProcessEvent>, q: seq<ProcessEvent>, p': seq<ProcessEvent>,
                   q': seq<ProcessEvent>)
    requires Available(models, p') && Blocked(models, q) && |p| <= |p'|
    requires p + Versioned(q) == p' + Versioned(q')
    ensures p == p'
  {
    var v, all := Versioned(q), p + Versioned(q);
    assert p == all[..|p|] && p' == all[..|p'|];
    if |p| < |p'| {
      InPrefix(all, p', |p|);
    }
  }

  lemma InPrefix(all: seq<ProcessEvent>, p: seq<ProcessEvent>, k: nat)
    requires |p| <= |all| && p == all[..|p|] && k < |p|
    ensures all[k] in p
  {
    assert p[k] == all[k];
  }

  /** However events and broadcasts interleave: same arrivals per case, same models, and one more
      event to flush the shard give the same score sequence for every case. */
  lemma InterleavingIndependence(steps: seq<Step>, steps': seq<Step>, e: ProcessEvent, c: string)
    requires PublishedOnce(steps) && PublishedOnce(steps')
    requires Run(steps).models == Run(steps').models
    requires ArrivalsOf(steps, c) == ArrivalsOf(steps', c)
    requires e.modelVersion.Some?
    ensures RunScores(steps + [Arrive(e)], c) == RunScores(steps' + [Arrive(e)], c)
  {
    hide CaseInv, Next, Emits, Versioned, Blocked, Available;
    var s, s' := steps + [Arrive(e)], steps' + [Arrive(e)];
    assert s[..|steps|] == steps && s'[..|steps'|] == steps';
    AppendEvent(steps, e);
    AppendEvent(steps', e);
    NoScorableHeadLeft(steps, e, c);
    NoScorableHeadLeft(steps', e, c);
    RunKeepsCase(s, c);
    RunKeepsCase(s', c);
    SameScores(Run(s), Run(s'), ArrivalsOf(s, c), RunScores(s, c), RunScores(s', c), c);
  }

  lemma AppendEvent(steps: seq<Step>, e: ProcessEvent)
    requires PublishedOnce(steps)
    ensures PublishedOnce(steps + [Arrive(e)]) && Run(steps + [Arrive(e)]).models == Run(steps).models
  {
    assert (steps + [Arrive(e)])[..|steps|] == steps;
  }

  lemma SameScores(st: OperatorState, st': OperatorState, arrivals: seq<ProcessEvent>,
                   scores: seq<Score>, scores': seq<Score>, c: string)
    requires CaseInv(st, arrivals, scores, c) && CaseInv(st', arrivals, scores', c)
    requires st.models == st'.models
    requires Blocked(st.models, CaseOf(st, c).pending) && Blocked(st.models, CaseOf(st', c).pending)
    ensures scores == scores'
  {
    var a, a' := CaseOf(st, c), CaseOf(st', c);
    ProcessedIsDetermined(st.models, a.processed, a.pending, a'.processed, a'.pending);
  }

  /** Each score is the least alignment cost of the case's events so far under the event's model. */
  ghost predicate Scores(models: Models, events: seq<ProcessEvent>, i: nat, score: Score)
    requires i < |events|
  {
    var e := events[i];
    && e.modelVersion.Some? && e.modelVersion.value in models
    && score == Score(e.case_, e.sequence, OptimalCost(models[e.modelVersion.value], Activities(events[..i + 1])))
  }

  lemma ScoreListEnd(models: Models, events: seq<ProcessEvent>)
    requires Available(models, events) && events != []
    ensures var n := |events| - 1;
            && Available(models, events[..n]) && |ScoreList(models, events)| == n + 1
            && ScoreList(models, events)[..n] == ScoreList(models, events[..n])
            && Scores(models, events, n, ScoreList(models, events)[n])
  {
    var n := |events| - 1;
    ScoreListLength(models, events[..n]);
    assert events[n] in events && events[..n + 1] == events;
    assert Activities(events) == Activities(events[..n]) + [events[n].activity];
  }

  lemma {:induction false} ScoreListAt(models: Models, events: seq<ProcessEvent>, i: nat)
    requires Available(models, events) && i < |events|
    ensures |ScoreList(models, events)| == |events|
    ensures Scores(models, events, i, ScoreList(models, events)[i])
  {
    hide ScoreList, Scores, Available;
    var n := |events| - 1;
    ScoreListEnd(models, events);
    if i < n {
      ScoreListAt(models, events[..n], i);
      assert ScoreList(models, events)[..n][i] == ScoreList(models, events)[i];
      ScoresOfPrefix(models, events[..n], events, i, ScoreList(models, events)[i]);
    }
  }

  lemma {:induction false} ScoreListLength(models: Models, events: seq<ProcessEvent>)
    requires Available(models, events)
    ensures |ScoreList(models, events)| == |events|
  {
    if events != [] {
      ScoreListLength(models, events[..|events| - 1]);
    }
  }

  /** The scores of a run belong, one by one, to the first arrivals of the case. */
  lemma RunScoresMean(steps: seq<Step>, c: string, i: nat)
    requires PublishedOnce(steps) && i < |RunScores(steps, c)|
    ensures |RunScores(steps, c)| <= |ArrivalsOf(steps, c)|
    ensures Scores(Run(steps).models, ArrivalsOf(steps, c), i, RunScores(steps, c)[i])
  {
    hide Scores, ScoreList, Versioned;
    RunKeepsCase(steps, c);
    var models, processed, arrivals := Run(steps).models, CaseOf(Run(steps), c).processed, ArrivalsOf(steps, c);
    ScoreListLength(models, processed);
    ScoreListAt(models, processed, i);
    ScoresOfPrefix(models, processed, arrivals, i, RunScores(steps, c)[i]);
  }

  lemma ScoresOfPrefix(models: Models, events: seq<ProcessEvent>, events': seq<ProcessEvent>, i: nat, score: Score)
    requires i < |events| && events <= events' && Scores(models, events, i, score)
    ensures Scores(models, events', i, score)
  {
    assert events[..i + 1] == events'[..i + 1];
  }

  /** Consecutive scores of a case under the same model version stay or rise by one. */
  lemma ConsecutiveScores(steps: seq<Step>, c: string, i: nat)
    requires PublishedOnce(steps) && i + 1 < |RunScores(steps, c)|
    ensures |RunScores(steps, c)| <= |ArrivalsOf(steps, c)|
    ensures var scores, arrivals := RunScores(steps, c), ArrivalsOf(steps, c);
            arrivals[i].modelVersion == arrivals[i + 1].modelVersion ==>
              scores[i].score <= scores[i + 1].score <= scores[i].score + 1
  {
    hide Run, RunScores, ArrivalsOf;
    RunScoresMean(steps, c, i);
    RunScoresMean(steps, c, i + 1);
    var models, arrivals := Run(steps).models, ArrivalsOf(steps, c);
    var next := arrivals[i + 1];
    assert arrivals[..i + 2] == arrivals[..i + 1] + [next];
    assert Activities(arrivals[..i + 2]) == Activities(arrivals[..i + 1]) + [next.activity];
    AppendingCostsZeroOrOne(models[arrivals[i].modelVersion.value], Activities(arrivals[..i + 1]), next.activity);
  }
}
