/** The results ConfigMap over whole runs in which any call may fail and every step is retried. */
module RepetitionResults {
  import opened Wrappers
  import opened SloScores
  import opened ExperimentModel
  import opened TopologyModel
  import opened ExperimentRuns

  function LastRepetition(results: seq<RepetitionResult>): nat {
    if results == [] then 0 else results[|results| - 1].repetition
  }

  /** The numbers start at 1, and each entry either has the next number or repeats the entry before. */
  ghost predicate Rising(results: seq<RepetitionResult>) {
    && (results != [] ==> results[0].repetition == 1)
    && forall i {:trigger results[i]} | 0 < i < |results| ::
         results[i].repetition == results[i - 1].repetition + 1 || results[i] == results[i - 1]
  }

  ghost predicate ResultsInv(spec: Spec, w: World) {
    var last := LastRepetition(w.results);
    && Rising(w.results)
    && (last == w.status.completed
        || (last == w.status.completed + 1 && w.status.subPhase.Cleanup?
            && CleanupResult(spec, w.status) == Some(w.results[|w.results| - 1])))
    && (w.status.completed == 0 || w.status.completed <= Repetitions(spec))
    && (w.status.phase.Succeeded? ==> w.status.completed >= Repetitions(spec))
  }

  lemma AppendRises(results: seq<RepetitionResult>, r: RepetitionResult)
    requires Rising(results)
    requires r.repetition == LastRepetition(results) + 1 || (results != [] && r == results[|results| - 1])
    ensures Rising(results + [r]) && LastRepetition(results + [r]) == r.repetition
  {}

  lemma CleanupStepFacts(spec: Spec, w: World, input: Input)
    requires ValidSpec(spec)
    ensures var w' := CleanupStep(spec, w, input);
            if CleanupResult(spec, w.status).None? || !input.resultsOk
            then w'.results == w.results && w'.status == FailStep(w, input).status
            else
              && w'.results == w.results + [CleanupResult(spec, w.status).value]
              && w'.status.phase == w.status.phase
              && (if input.patchOk then w'.status.completed == w.status.completed + 1 else w'.status == w.status)
  {
    hide CleanupResult;
  }

  lemma CleanupNumber(spec: Spec, w: World)
    ensures CleanupResult(spec, w.status).Some? ==>
              CleanupResult(spec, w.status).value.repetition == w.status.completed + 1
  {}

  lemma CleanupKeepsResults(spec: Spec, w: World, input: Input)
    requires ValidSpec(spec) && ValidStatus(spec, w.status) && ResultsInv(spec, w)
    requires Dispatches(spec, w.status) && w.status.subPhase.Cleanup?
    ensures ResultsInv(spec, CleanupStep(spec, w, input))
  {
    hide CleanupStep, Rising, ResultOf;
    CleanupStepFacts(spec, w, input);
    var w' := CleanupStep(spec, w, input);
    CleanupNumber(spec, w);
    if CleanupResult(spec, w.status).Some? && input.resultsOk {
      AppendRises(w.results, CleanupResult(spec, w.status).value);
    }
  }

  lemma StepKeepsResults(spec: Spec, w: World, input: Input)
    requires ValidSpec(spec) && ValidStatus(spec, w.status) && ResultsInv(spec, w)
    ensures ResultsInv(spec, ExperimentStep(spec, w, input))
  {
    hide Rising, ResultOf, CleanupStep;
    if Dispatches(spec, w.status) && w.status.subPhase.Cleanup? {
      CleanupKeepsResults(spec, w, input);
    } else {
      hide ExperimentStep;
      OnlyCleanupCompletes(spec, w, input);
    }
  }

  lemma {:induction false} RunKeepsResults(spec: Spec, tspec: TopologySpec, w: World, events: seq<Event>)
    requires ValidSpec(spec) && Fresh(w)
    ensures ResultsInv(spec, Run(spec, tspec, w, events))
  {
    hide CleanupResult, ExperimentStep, TopologyStep;
    if events != [] {
      hide Rising;
      var front, e := events[..|events| - 1], events[|events| - 1];
      RunKeepsResults(spec, tspec, w, front);
      match e
      case ExperimentReconcile(input) => StepKeepsResults(spec, Run(spec, tspec, w, front), input);
      case TopologyReconcile(input) => TopologyStepKeeps(tspec, Run(spec, tspec, w, front), input);
    }
  }

  /** Entries with the same number are identical, and the numbers never fall. */
  lemma {:induction false} RepeatedEntriesAgree(results: seq<RepetitionResult>, i: nat, j: nat)
    requires Rising(results) && i <= j < |results|
    ensures results[i].repetition <= results[j].repetition
    ensures results[i].repetition == results[j].repetition ==> results[i] == results[j]
    decreases j
  {
    if i < j {
      RepeatedEntriesAgree(results, i, j - 1);
    }
  }

  /** No number is skipped. */
  lemma {:induction false} EveryRepetitionAppears(results: seq<RepetitionResult>, n: nat) returns (i: nat)
    requires Rising(results) && 1 <= n <= LastRepetition(results)
    ensures i < |results| && results[i].repetition == n
  {
    i := |results| - 1;
    if results[i].repetition != n {
      i := EveryRepetitionAppears(results[..i], n);
    }
  }

  ghost predicate Appears(results: seq<RepetitionResult>, n: nat) {
    exists i :: 0 <= i < |results| && results[i].repetition == n
  }

  ghost predicate Ordered(results: seq<RepetitionResult>) {
    && (results != [] ==> results[0].repetition == 1)
    && (forall i, j | 0 <= i <= j < |results| :: results[i].repetition <= results[j].repetition)
    && (forall i, j | 0 <= i <= j < |results| && results[i].repetition == results[j].repetition ::
        results[i] == results[j])
    && (forall n: nat | 1 <= n <= LastRepetition(results) :: Appears(results, n))
  }

  lemma RisingIsOrdered(results: seq<RepetitionResult>)
    requires Rising(results)
    ensures Ordered(results)
  {
    forall i, j | 0 <= i <= j < |results|
      ensures results[i].repetition <= results[j].repetition
      ensures results[i].repetition == results[j].repetition ==> results[i] == results[j]
    {
      RepeatedEntriesAgree(results, i, j);
    }
    forall n: nat | 1 <= n <= LastRepetition(results) ensures Appears(results, n) {
      var i := EveryRepetitionAppears(results, n);
    }
  }

  /** Whatever fails and is retried: numbers start at 1 and rise without gaps, repeated entries are
      identical, every completed repetition appears, and only the one in Cleanup may be ahead. */
  lemma ResultsUnderRetries(spec: Spec, tspec: TopologySpec, w: World, events: seq<Event>)
    requires ValidSpec(spec) && Fresh(w)
    ensures var w' := Run(spec, tspec, w, events);
            && Ordered(w'.results)
            && (forall n: nat | 1 <= n <= w'.status.completed :: Appears(w'.results, n))
            && (forall r | r in w'.results ::
                  || r.repetition <= w'.status.completed
                  || (r.repetition == w'.status.completed + 1 && w'.status.subPhase.Cleanup?))
            && (w'.status.phase.Succeeded? ==> w'.status.completed >= Repetitions(spec))
  {
    hide Run, CleanupResult, Rising, Appears;
    RunKeepsResults(spec, tspec, w, events);
    RisingIsOrdered(Run(spec, tspec, w, events).results);
  }

  ghost predicate PatchesSucceed(events: seq<Event>) {
    forall e | e in events && e.ExperimentReconcile? :: e.input.patchOk
  }

  ghost predicate ExactResults(w: World) {
    |w.results| == w.status.completed && forall i | 0 <= i < |w.results| :: w.results[i].repetition == i + 1
  }

  /** If no status patch fails, the results are exactly 1, 2, ..., up to the completed repetitions. */
  lemma {:induction false} ResultsWithoutRetries(spec: Spec, tspec: TopologySpec, w: World, events: seq<Event>)
    requires ValidSpec(spec) && Fresh(w) && PatchesSucceed(events)
    ensures ExactResults(Run(spec, tspec, w, events))
  {
    if events != [] {
      hide ResultOf, TopologyStep, CleanupStep;
      var front, e := events[..|events| - 1], events[|events| - 1];
      ResultsWithoutRetries(spec, tspec, w, front);
      var v := Run(spec, tspec, w, front);
      match e
      case TopologyReconcile(input) => TopologyStepKeeps(tspec, v, input);
      case ExperimentReconcile(input) =>
        if Dispatches(spec, v.status) && v.status.subPhase.Cleanup? {
          CleanupStepFacts(spec, v, input);
        } else {
          hide ExperimentStep;
          OnlyCleanupCompletes(spec, v, input);
        }
    }
  }
}
