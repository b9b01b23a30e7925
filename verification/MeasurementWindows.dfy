/** What a repetition's result and the measurement lines are made of: the readings of one window. */
module MeasurementWindows {
  import opened Wrappers
  import opened SloScores
  import opened ChaosPhases
  import opened ExperimentModel
  import opened TopologyModel
  import opened ExperimentRuns

  /** One persisted round of queries, with the repetition and the sub-phase it was taken in. */
  datatype Reading = Reading(repetition: nat, phase: SubPhase, elapsed: nat, queries: seq<Option<real>>)

  predicate Measuring(p: SubPhase) {
    p.PreChaosMeasurement? || p.ChaosMeasurement?
  }

  /** This reconcile takes a round, and what it recorded is persisted. */
  predicate Takes(spec: Spec, w: World, input: Input)
    requires ValidSpec(spec)
  {
    && Dispatches(spec, w.status) && Measuring(w.status.subPhase) && Samples(spec, input)
    && input.patchOk && (input.elapsed < w.status.duration || input.measurementsOk)
  }

  function Taken(spec: Spec, w: World, e: Event): seq<Reading>
    requires ValidSpec(spec)
  {
    if e.ExperimentReconcile? && Takes(spec, w, e.input)
    then [Reading(w.status.completed + 1, w.status.subPhase, e.input.elapsed, e.input.queries)] else []
  }

  /** All readings of a run, in order. */
  function Readings(spec: Spec, tspec: TopologySpec, w0: World, events: seq<Event>): seq<Reading>
    requires ValidSpec(spec) && ValidStatus(spec, w0.status)
  {
    if events == [] then [] else
      var front, e := events[..|events| - 1], events[|events| - 1];
      Readings(spec, tspec, w0, front) + Taken(spec, Run(spec, tspec, w0, front), e)
  }

  /** The readings of one measurement window. */
  function Window(readings: seq<Reading>, repetition: nat, phase: SubPhase): seq<Reading> {
    if readings == [] then [] else
      var r := readings[|readings| - 1];
      Window(readings[..|readings| - 1], repetition, phase) +
      if r.repetition == repetition && r.phase == phase then [r] else []
  }

  lemma WindowGrows(readings: seq<Reading>, r: Reading, repetition: nat, phase: SubPhase)
    ensures Window(readings + [r], repetition, phase) ==
            Window(readings, repetition, phase) + if r.repetition == repetition && r.phase == phase then [r] else []
  {
    assert (readings + [r])[..|readings|] == readings;
  }

  lemma {:induction false} NoWindow(readings: seq<Reading>, repetition: nat, phase: SubPhase)
    requires forall r | r in readings :: !(r.repetition == repetition && r.phase == phase)
    ensures Window(readings, repetition, phase) == []
  {
    if readings != [] {
      NoWindow(readings[..|readings| - 1], repetition, phase);
    }
  }

  /** The values found for the i-th SLO. */
  function ValuesOf(window: seq<Reading>, i: nat): seq<real> {
    if window == [] then [] else
      var last := QueryAt(window[|window| - 1].queries, i);
      ValuesOf(window[..|window| - 1], i) + if last.Some? then [last.value] else []
  }

  /** A reading adds the result of the i-th query, if there is one. */
  lemma ValuesGrow(window: seq<Reading>, r: Reading, i: nat)
    ensures ValuesOf(window + [r], i) ==
            ValuesOf(window, i) + if i < |r.queries| && r.queries[i].Some? then [r.queries[i].value] else []
  {
    assert (window + [r])[..|window|] == window;
  }

  function Summaries(slos: seq<Slo>, window: seq<Reading>): (r: seq<SloState>)
    ensures |r| == |slos|
  {
    seq(|slos|, i requires 0 <= i < |slos| => Summary(slos[i], ValuesOf(window, i)))
  }

  lemma NoSummaries(slos: seq<Slo>)
    ensures InitialStates(slos) == Summaries(slos, [])
  {}

  /** Recording a round turns the summaries of a window into those of the longer window. */
  lemma RoundExtendsSummaries(slos: seq<Slo>, window: seq<Reading>, r: Reading)
    ensures RecordRound(slos, Summaries(slos, window), r.queries) == Summaries(slos, window + [r])
  {
    hide Summary, Recorded;
    forall i | 0 <= i < |slos|
      ensures RecordQuery(slos[i], Summaries(slos, window)[i], QueryAt(r.queries, i)) ==
              Summaries(slos, window + [r])[i]
    {
      assert (window + [r])[..|window|] == window;
      var q := QueryAt(r.queries, i);
      if q.Some? {
        RecordedIsSummary(slos[i], ValuesOf(window, i), q.value);
      } else {
        assert ValuesOf(window, i) + [] == ValuesOf(window, i);
      }
    }
  }

  predicate BeforeMeasuring(p: SubPhase) {
    p.Idle? || p.Deploying? || p.TopologyDelay? || p.WaitingForTopology? || p.LoadDelay? || p.Pause?
  }

  /** No reading is from a window that has not been opened yet. */
  ghost predicate NoneAhead(st: Status, readings: seq<Reading>) {
    forall r | r in readings ::
      && Measuring(r.phase)
      && (r.repetition <= st.completed
          || (r.repetition == st.completed + 1
              && match st.subPhase
                 case PreChaosMeasurement => r.phase.PreChaosMeasurement?
                 case ApplyingChaos => r.phase.PreChaosMeasurement?
                 case ChaosMeasurement => true
                 case Cleanup => true
                 case _ => false))
  }

  function Current(st: Status, readings: seq<Reading>): seq<Reading> {
    Window(readings, st.completed + 1, if st.subPhase.Cleanup? then ChaosMeasurement else st.subPhase)
  }

  /** The running aggregates are exactly the folds over the readings of the window. */
  ghost predicate WindowInv(spec: Spec, st: Status, readings: seq<Reading>) {
    && ValidStatus(spec, st)
    && NoneAhead(st, readings)
    && (BeforeMeasuring(st.subPhase) ==> st.measurement == [])
    && (Measuring(st.subPhase) ==> StatesOrInitial(spec, st) == Summaries(spec.slos, Current(st, readings)))
    && (st.subPhase.Cleanup? ==> st.measurement == Summaries(spec.slos, Current(st, readings)))
  }

  /** When a window opens it is empty. */
  lemma Opens(st: Status, readings: seq<Reading>)
    requires NoneAhead(st, readings)
    ensures !st.subPhase.PreChaosMeasurement? && !st.subPhase.ApplyingChaos? && !st.subPhase.ChaosMeasurement?
            && !st.subPhase.Cleanup? ==>
              Window(readings, st.completed + 1, PreChaosMeasurement) == []
    ensures (!st.subPhase.ChaosMeasurement? && !st.subPhase.Cleanup?) ==>
              Window(readings, st.completed + 1, ChaosMeasurement) == []
  {
    if !st.subPhase.ChaosMeasurement? && !st.subPhase.Cleanup? {
      NoWindow(readings, st.completed + 1, ChaosMeasurement);
      if !st.subPhase.PreChaosMeasurement? && !st.subPhase.ApplyingChaos? {
        NoWindow(readings, st.completed + 1, PreChaosMeasurement);
      }
    }
  }

  lemma OtherStepsKeepWindow(spec: Spec, w: World, input: Input, readings: seq<Reading>)
    requires ValidSpec(spec) && WindowInv(spec, w.status, readings)
    requires !(Dispatches(spec, w.status) && Measuring(w.status.subPhase))
    requires ValidStatus(spec, ExperimentStep(spec, w, input).status)
    ensures WindowInv(spec, ExperimentStep(spec, w, input).status, readings)
  {
    hide Deactivated, Activated, CanActivate, ApplyFaults, CleanupRefs, Samples, Summaries, InitialStates, OwnedNames,
         RolesOf, Deploys, ResultOf, ValidSpec, Window;
    NoSummaries(spec.slos);
    Opens(w.status, readings);
  }

  lemma RoundKeepsWindow(spec: Spec, w: World, input: Input, next: SubPhase, readings: seq<Reading>)
    requires ValidSpec(spec) && WindowInv(spec, w.status, readings)
    requires Dispatches(spec, w.status) && Measuring(w.status.subPhase)
    requires next == if w.status.subPhase.PreChaosMeasurement? then ApplyingChaos else Cleanup
    requires ValidStatus(spec, MeasurementStep(spec, w, input, next).status)
    ensures WindowInv(spec, MeasurementStep(spec, w, input, next).status,
                      readings + Taken(spec, w, ExperimentReconcile(input)))
  {
    hide Samples, Summaries, InitialStates, RecordRound, LinesOf, ValidSpec, Window;
    NoSummaries(spec.slos);
    Opens(w.status, readings);
    var st := w.status;
    var r := Reading(st.completed + 1, st.subPhase, input.elapsed, input.queries);
    RoundExtendsSummaries(spec.slos, Current(st, readings), r);
    WindowGrows(readings, r, st.completed + 1, st.subPhase);
    WindowGrows(readings, r, st.completed + 1, ChaosMeasurement);
    assert readings + [] == readings;
    assert Window(readings, st.completed + 1, ChaosMeasurement) + [] ==
           Window(readings, st.completed + 1, ChaosMeasurement);
  }

  lemma StepKeepsWindow(spec: Spec, tspec: TopologySpec, w: World, e: Event, readings: seq<Reading>)
    requires ValidSpec(spec) && WindowInv(spec, w.status, readings)
    ensures WindowInv(spec, Step(spec, tspec, w, e).status, readings + Taken(spec, w, e))
  {
    assert ValidStatus(spec, w.status) && readings + [] == readings;
    hide WindowInv, ExperimentStep, MeasurementStep, TopologyStep, Samples, ValidSpec, ValidStatus;
    ExperimentRuns.StepKeepsValid(spec, tspec, w, e);
    match e
    case TopologyReconcile(input) => TopologyStepKeeps(tspec, w, input);
    case ExperimentReconcile(input) =>
      if Dispatches(spec, w.status) && Measuring(w.status.subPhase) {
        DispatchedTo(spec, w, input);
        var next := if w.status.subPhase.PreChaosMeasurement? then ApplyingChaos else Cleanup;
        RoundKeepsWindow(spec, w, input, next, readings);
      } else {
        OtherStepsKeepWindow(spec, w, input, readings);
      }
  }

  lemma {:induction false} RunKeepsWindow(spec: Spec, tspec: TopologySpec, w: World, events: seq<Event>)
    requires ValidSpec(spec) && Fresh(w)
    ensures WindowInv(spec, Run(spec, tspec, w, events).status, Readings(spec, tspec, w, events))
  {
    if events != [] {
      hide WindowInv, Step, Taken;
      var front, e := events[..|events| - 1], events[|events| - 1];
      RunKeepsWindow(spec, tspec, w, front);
      StepKeepsWindow(spec, tspec, Run(spec, tspec, w, front), e, Readings(spec, tspec, w, front));
    } else {
      assert Readings(spec, tspec, w, events) == [];
    }
  }

  /** The result a window stands for, if none of its scores divides by zero. */
  function WindowResult(spec: Spec, n: nat, readings: seq<Reading>): Option<RepetitionResult> {
    ResultOf(n, spec.slos, Summaries(spec.slos, Window(readings, n, ChaosMeasurement)))
  }

  /** Whatever was sampled, skipped, failed or retried before: a result that is appended is the one
      built from exactly the values of this repetition's chaos window, each aggregate a fold over
      them, with or without a chaos phase. */
  lemma ResultIsOfChaosWindow(spec: Spec, tspec: TopologySpec, w0: World, events: seq<Event>, e: Event)
    requires ValidSpec(spec) && Fresh(w0)
    ensures var w := Run(spec, tspec, w0, events);
            var result := WindowResult(spec, w.status.completed + 1, Readings(spec, tspec, w0, events));
            Step(spec, tspec, w, e).results ==
              if && e.ExperimentReconcile? && Dispatches(spec, w.status) && w.status.subPhase.Cleanup?
                 && e.input.resultsOk && result.Some?
              then w.results + [result.value] else w.results
  {
    hide Run, Readings, Window, ResultOf, TopologyStep;
    RunKeepsWindow(spec, tspec, w0, events);
    var w := Run(spec, tspec, w0, events);
    match e
    case TopologyReconcile(input) => TopologyStepKeeps(tspec, w, input);
    case ExperimentReconcile(input) =>
      if !(Dispatches(spec, w.status) && w.status.subPhase.Cleanup?) {
        hide ExperimentStep;
        OnlyCleanupCompletes(spec, w, input);
      } else {
        hide Deactivated, CleanupRefs;
      }
  }

  /** Only the step that closes a window writes lines: one per value of that window, the round of
      the closing step included. */
  lemma LinesAreOfWindow(spec: Spec, tspec: TopologySpec, w0: World, events: seq<Event>, e: Event)
    requires ValidSpec(spec) && Fresh(w0)
    ensures var w := Run(spec, tspec, w0, events);
            var w' := Step(spec, tspec, w, e);
            var (n, phase) := (w.status.completed + 1, w.status.subPhase);
            if && e.ExperimentReconcile? && Dispatches(spec, w.status) && Measuring(phase) && Samples(spec, e.input)
               && e.input.elapsed >= w.status.duration && e.input.measurementsOk
            then var r := Reading(n, phase, e.input.elapsed, e.input.queries);
                 w'.measurements == w.measurements +
                   LinesOf(n, phase, Summaries(spec.slos, Window(Readings(spec, tspec, w0, events), n, phase) + [r]))
            else w'.measurements == w.measurements
  {
    hide Run, Readings, Window, Summaries, LinesOf, TopologyStep, RecordRound;
    RunKeepsWindow(spec, tspec, w0, events);
    var w := Run(spec, tspec, w0, events);
    match e
    case TopologyReconcile(input) => TopologyStepKeeps(tspec, w, input);
    case ExperimentReconcile(input) =>
      if Dispatches(spec, w.status) && Measuring(w.status.subPhase) {
        hide Samples, InitialStates, StatesOrInitial;
        var st := w.status;
        RoundExtendsSummaries(spec.slos, Window(Readings(spec, tspec, w0, events), st.completed + 1, st.subPhase),
                              Reading(st.completed + 1, st.subPhase, input.elapsed, input.queries));
      } else {
        hide Samples, Deactivated, Activated, CanActivate, ApplyFaults, CleanupRefs, OwnedNames, Deploys, ResultOf,
             WindowInv;
      }
  }
}
