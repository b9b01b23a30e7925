/** The measurements ConfigMap over whole runs. */
module MeasurementLines {
  import opened SloScores
  import opened ExperimentModel
  import opened TopologyModel
  import opened ExperimentRuns
  import opened RepetitionResults
  import opened MeasurementWindows
  import opened SampleCounts

  /** How many values the first `i` states hold. */
  function ValuesBefore(states: seq<SloState>, i: nat): nat
    requires i <= |states|
  {
    if i == 0 then 0 else ValuesBefore(states, i - 1) + |states[i - 1].values|
  }

  lemma {:induction false} ValuesBeforeOfFront(states: seq<SloState>, i: nat)
    requires states != [] && i < |states|
    ensures ValuesBefore(states[..|states| - 1], i) == ValuesBefore(states, i)
  {
    if i > 0 {
      ValuesBeforeOfFront(states, i - 1);
    }
  }

  lemma {:induction false} LinesCount(n: nat, phase: SubPhase, states: seq<SloState>)
    ensures |LinesOf(n, phase, states)| == ValuesBefore(states, |states|)
  {
    if states != [] {
      LinesCount(n, phase, states[..|states| - 1]);
      ValuesBeforeOfFront(states, |states| - 1);
    }
  }

  /** Line by line: the values of one SLO after the other, each numbered from 0 within its SLO. */
  lemma {:induction false} LineAt(n: nat, phase: SubPhase, states: seq<SloState>, i: nat, j: nat)
    requires i < |states| && j < |states[i].values|
    ensures ValuesBefore(states, i) + j < |LinesOf(n, phase, states)| == ValuesBefore(states, |states|)
    ensures LinesOf(n, phase, states)[ValuesBefore(states, i) + j] ==
            Line(n, phase, states[i].name, j, states[i].values[j])
  {
    var m := |states| - 1;
    LinesCount(n, phase, states);
    LinesCount(n, phase, states[..m]);
    ValuesBeforeOfFront(states, i);
    ValuesBeforeOfFront(states, m);
    hide ValuesBefore;
    if i < m {
      LineAt(n, phase, states[..m], i, j);
    }
  }

  /** The lines of one window: one per value, SLO by SLO. */
  function WindowLines(spec: Spec, readings: seq<Reading>, n: nat, phase: SubPhase): seq<Line> {
    LinesOf(n, phase, Summaries(spec.slos, Window(readings, n, phase)))
  }

  /** The lines of the first `n` repetitions, each with its two windows in order. */
  function CompletedLines(spec: Spec, readings: seq<Reading>, n: nat): seq<Line> {
    if n == 0 then [] else
      CompletedLines(spec, readings, n - 1) + WindowLines(spec, readings, n, PreChaosMeasurement) +
      WindowLines(spec, readings, n, ChaosMeasurement)
  }

  /** The lines of all windows that are over. */
  function ClosedLines(spec: Spec, st: Status, readings: seq<Reading>): seq<Line> {
    var n := st.completed + 1;
    CompletedLines(spec, readings, st.completed) +
    (if Closed(st, n, PreChaosMeasurement) then WindowLines(spec, readings, n, PreChaosMeasurement) else []) +
    (if Closed(st, n, ChaosMeasurement) then WindowLines(spec, readings, n, ChaosMeasurement) else [])
  }

  /** A reading of another window changes nothing. */
  lemma OtherWindowLines(spec: Spec, readings: seq<Reading>, r: Reading, n: nat, phase: SubPhase)
    requires !(r.repetition == n && r.phase == phase)
    ensures WindowLines(spec, readings + [r], n, phase) == WindowLines(spec, readings, n, phase)
  {
    hide LinesOf, Summaries;
    WindowGrows(readings, r, n, phase);
    assert Window(readings, n, phase) + [] == Window(readings, n, phase);
  }

  lemma {:induction false} OldLines(spec: Spec, readings: seq<Reading>, r: Reading, n: nat)
    requires r.repetition > n
    ensures CompletedLines(spec, readings + [r], n) == CompletedLines(spec, readings, n)
  {
    if n > 0 {
      hide WindowLines;
      OldLines(spec, readings, r, n - 1);
      OtherWindowLines(spec, readings, r, n, PreChaosMeasurement);
      OtherWindowLines(spec, readings, r, n, ChaosMeasurement);
    }
  }

  /** A step that takes no round writes no lines and closes no window. */
  lemma UntakenLines(spec: Spec, w: World, input: Input, readings: seq<Reading>)
    requires ValidSpec(spec) && ValidStatus(spec, w.status) && !Takes(spec, w, input) && input.patchOk
    ensures ClosedLines(spec, ExperimentStep(spec, w, input).status, readings) == ClosedLines(spec, w.status, readings)
  {
    hide ExperimentStep, Takes, WindowLines, ValidSpec;
    UnsampledMoves(spec, w, input);
    var st, st' := w.status, ExperimentStep(spec, w, input).status;
    if st'.completed == st.completed {
      assert Closed(st', st.completed + 1, PreChaosMeasurement) == Closed(st, st.completed + 1, PreChaosMeasurement);
    } else {
      assert CompletedLines(spec, readings, st.completed + 1) == ClosedLines(spec, st, readings);
    }
  }

  /** A round that closes its window adds that window's lines; any other adds none. */
  lemma TakenLines(spec: Spec, w: World, input: Input, readings: seq<Reading>)
    requires ValidSpec(spec) && ValidStatus(spec, w.status) && Takes(spec, w, input)
    ensures var st, st' := w.status, ExperimentStep(spec, w, input).status;
            var readings' := readings + [Reading(st.completed + 1, st.subPhase, input.elapsed, input.queries)];
            ClosedLines(spec, st', readings') ==
              ClosedLines(spec, st, readings) +
              if input.elapsed >= st.duration then WindowLines(spec, readings', st.completed + 1, st.subPhase) else []
  {
    hide ExperimentStep, ClosedLines, WindowLines, ValidSpec, Takes;
    TakenCloses(spec, w, input);
    var st, st' := w.status, ExperimentStep(spec, w, input).status;
    var r := Reading(st.completed + 1, st.subPhase, input.elapsed, input.queries);
    if input.elapsed < st.duration {
      OpenLines(spec, st, st', readings, r);
      assert ClosedLines(spec, st, readings) + [] == ClosedLines(spec, st, readings);
    } else {
      ClosingLines(spec, st, st', readings, r);
    }
  }

  lemma OpenLines(spec: Spec, st: Status, st': Status, readings: seq<Reading>, r: Reading)
    requires Measuring(st.subPhase) && r.repetition == st.completed + 1 && r.phase == st.subPhase
    requires st'.completed == st.completed && st'.subPhase == st.subPhase
    ensures ClosedLines(spec, st', readings + [r]) == ClosedLines(spec, st, readings)
  {
    hide ClosedLines, CompletedLines, WindowLines;
    OldLines(spec, readings, r, st.completed);
    OtherLines(spec, readings, r, PreChaosMeasurement);
    WhatIsClosed(spec, st, readings);
    WhatIsClosed(spec, st', readings + [r]);
  }

  lemma ClosingLines(spec: Spec, st: Status, st': Status, readings: seq<Reading>, r: Reading)
    requires Measuring(st.subPhase) && r.repetition == st.completed + 1 && r.phase == st.subPhase
    requires st'.completed == st.completed
    requires if st.subPhase.PreChaosMeasurement? then st'.subPhase.ApplyingChaos? || st'.subPhase.ChaosMeasurement?
             else st'.subPhase.Cleanup?
    ensures ClosedLines(spec, st', readings + [r]) ==
            ClosedLines(spec, st, readings) + WindowLines(spec, readings + [r], st.completed + 1, st.subPhase)
  {
    hide ClosedLines, CompletedLines, WindowLines;
    OldLines(spec, readings, r, st.completed);
    OtherLines(spec, readings, r, PreChaosMeasurement);
    WhatIsClosed(spec, st, readings);
    WhatIsClosed(spec, st', readings + [r]);
  }

  lemma OtherLines(spec: Spec, readings: seq<Reading>, r: Reading, phase: SubPhase)
    ensures r.phase != phase ==>
              WindowLines(spec, readings + [r], r.repetition, phase) == WindowLines(spec, readings, r.repetition, phase)
  {
    hide WindowLines;
    if r.phase != phase {
      OtherWindowLines(spec, readings, r, r.repetition, phase);
    }
  }

  /** The closed lines by sub-phase. */
  lemma WhatIsClosed(spec: Spec, st: Status, readings: seq<Reading>)
    ensures var n := st.completed + 1;
            var pre := WindowLines(spec, readings, n, PreChaosMeasurement);
            var chaos := WindowLines(spec, readings, n, ChaosMeasurement);
            ClosedLines(spec, st, readings) ==
              match st.subPhase
              case ApplyingChaos => CompletedLines(spec, readings, st.completed) + pre
              case ChaosMeasurement => CompletedLines(spec, readings, st.completed) + pre
              case Cleanup => CompletedLines(spec, readings, st.completed) + pre + chaos
              case _ => CompletedLines(spec, readings, st.completed)
  {
    hide CompletedLines, WindowLines;
    var old_ := CompletedLines(spec, readings, st.completed);
    var pre := WindowLines(spec, readings, st.completed + 1, PreChaosMeasurement);
    assert old_ + [] == old_ && old_ + pre + [] == old_ + pre;
  }

  lemma TakenCloses(spec: Spec, w: World, input: Input)
    requires ValidSpec(spec) && ValidStatus(spec, w.status) && Takes(spec, w, input)
    ensures var st, st' := w.status, ExperimentStep(spec, w, input).status;
            && Measuring(st.subPhase) && st'.completed == st.completed
            && (if input.elapsed < st.duration then st'.subPhase == st.subPhase
                else if st.subPhase.PreChaosMeasurement?
                then st'.subPhase.ApplyingChaos? || st'.subPhase.ChaosMeasurement?
                else st'.subPhase.Cleanup?)
  {
    hide RecordRound, StatesOrInitial, LinesOf, ValidSpec, SampleInterval, Samples;
  }

  /** What a step writes to the ConfigMap. */
  function NewLines(spec: Spec, w: World, e: Event, readings: seq<Reading>): seq<Line>
    requires ValidSpec(spec)
  {
    var (n, phase) := (w.status.completed + 1, w.status.subPhase);
    if && e.ExperimentReconcile? && Dispatches(spec, w.status) && Measuring(phase) && Samples(spec, e.input)
       && e.input.elapsed >= w.status.duration && e.input.measurementsOk
    then
      var r := Reading(n, phase, e.input.elapsed, e.input.queries);
      LinesOf(n, phase, Summaries(spec.slos, Window(readings, n, phase) + [r]))
    else []
  }

  lemma StepWrites(spec: Spec, tspec: TopologySpec, w0: World, events: seq<Event>, e: Event)
    requires ValidSpec(spec) && Fresh(w0)
    ensures var w := Run(spec, tspec, w0, events);
            Step(spec, tspec, w, e).measurements ==
              w.measurements + NewLines(spec, w, e, Readings(spec, tspec, w0, events))
  {
    hide Step, Run, Readings, Samples, LinesOf, Summaries, ValidSpec, Dispatches;
    LinesAreOfWindow(spec, tspec, w0, events, e);
    var written := Run(spec, tspec, w0, events).measurements;
    assert written + [] == written;
  }

  lemma StepLines(spec: Spec, tspec: TopologySpec, w: World, e: Event, readings: seq<Reading>)
    requires ValidSpec(spec) && ValidStatus(spec, w.status) && (e.ExperimentReconcile? ==> e.input.patchOk)
    ensures ClosedLines(spec, Step(spec, tspec, w, e).status, readings + Taken(spec, w, e)) ==
            ClosedLines(spec, w.status, readings) + NewLines(spec, w, e, readings)
  {
    hide ClosedLines, ExperimentStep, TopologyStep, Samples, LinesOf, Summaries, ValidSpec;
    assert readings + [] == readings;
    assert ClosedLines(spec, w.status, readings) + [] == ClosedLines(spec, w.status, readings);
    match e
    case TopologyReconcile(input) => TopologyStepKeeps(tspec, w, input);
    case ExperimentReconcile(input) =>
      if Takes(spec, w, input) {
        TakenLines(spec, w, input, readings);
        WindowGrows(readings, Reading(w.status.completed + 1, w.status.subPhase, input.elapsed, input.queries),
                    w.status.completed + 1, w.status.subPhase);
      } else {
        UntakenLines(spec, w, input, readings);
      }
  }

  /** If no patch fails, the measurements ConfigMap holds exactly the lines of the windows that are
      over, each once, in order. */
  lemma {:induction false} LinesOfClosedWindows(spec: Spec, tspec: TopologySpec, w0: World, events: seq<Event>)
    requires ValidSpec(spec) && Fresh(w0) && PatchesSucceed(events)
    ensures Run(spec, tspec, w0, events).measurements ==
            ClosedLines(spec, Run(spec, tspec, w0, events).status, Readings(spec, tspec, w0, events))
  {
    if events == [] {
      assert Readings(spec, tspec, w0, events) == [];
    } else {
      hide Step, Taken, ClosedLines, NewLines, ValidSpec;
      var front, e := events[..|events| - 1], events[|events| - 1];
      LinesOfClosedWindows(spec, tspec, w0, front);
      StepWrites(spec, tspec, w0, front, e);
      StepLines(spec, tspec, Run(spec, tspec, w0, front), e, Readings(spec, tspec, w0, front));
    }
  }
}
