/** How many samples a measurement window holds. */
module SampleCounts {
  import opened Wrappers
  import opened SloScores
  import opened ChaosPhases
  import opened ExperimentModel
  import opened TopologyModel
  import opened ExperimentRuns
  import opened MeasurementWindows

  /** n / d, rounded up; 0 for a negative n. */
  function CeilDiv(n: int, d: nat): (c: nat)
    requires d > 0
  {
    if n <= 0 then 0 else (n + d - 1) / d
  }

  /** The number of multiples of d below n. */
  lemma CeilDivBounds(n: int, d: nat)
    requires d > 0
    ensures var c := CeilDiv(n, d); c * d >= n && (c > 0 ==> (c - 1) * d < n)
  {
    if n > 0 {
      var c := CeilDiv(n, d);
      var m := n + d - 1;
      assert m == d * (m / d) + m % d;
      assert c * d == d * c && (c - 1) * d == c * d - d;
    }
  }

  lemma CeilDivUnique(n: int, d: nat, c: nat)
    requires d > 0 && c * d >= n && (c > 0 ==> (c - 1) * d < n)
    ensures c == CeilDiv(n, d)
  {
    CeilDivBounds(n, d);
    var c' := CeilDiv(n, d);
    if c < c' {
      MulMonotone(c, c' - 1, d);
    } else if c' < c {
      MulMonotone(c', c - 1, d);
    }
  }

  lemma MulMonotone(a: nat, b: nat, d: nat)
    requires a <= b
    ensures a * d <= b * d
  {
    assert b * d == a * d + (b - a) * d;
  }

  /** The planned length of a window: the chaos delay before the chaos, the measurement duration after. */
  function PlannedDuration(spec: Spec, phase: SubPhase): int {
    if phase.PreChaosMeasurement? then spec.chaosDelay.GetOr(0) else MeasurementDuration(spec)
  }

  /** Readings at rising multiples of the interval, all but the last before the end. */
  ghost predicate Sparse(window: seq<Reading>, duration: int, interval: nat)
    requires interval > 0
  {
    && (forall k | 0 <= k < |window| :: window[k].elapsed % interval == 0)
    && (forall j, k | 0 <= j < k < |window| :: window[j].elapsed < window[k].elapsed)
    && (forall k | 0 <= k < |window| - 1 :: window[k].elapsed < duration)
  }

  ghost predicate AllBefore(window: seq<Reading>, duration: int) {
    forall k | 0 <= k < |window| :: window[k].elapsed < duration
  }

  /** Rising multiples are at least 0, d, 2d, ... */
  lemma {:induction false} KthMultiple(window: seq<Reading>, duration: int, interval: nat, k: nat)
    requires interval > 0 && Sparse(window, duration, interval) && k < |window|
    ensures window[k].elapsed >= k * interval
  {
    if k > 0 {
      KthMultiple(window, duration, interval, k - 1);
      NextMultiple(window[k - 1].elapsed, window[k].elapsed, interval);
    }
  }

  lemma NextMultiple(a: nat, b: nat, d: nat)
    requires d > 0 && a < b && a % d == 0 && b % d == 0
    ensures b >= a + d
  {
    var p, q := a / d, b / d;
    assert a == p * d && b == q * d;
    if q <= p {
      MulMonotone(q, p, d);
    } else {
      MulMonotone(p + 1, q, d);
      assert (p + 1) * d == p * d + d;
    }
  }

  /** Such a window holds at most one reading more than there are multiples below the duration. */
  lemma SparseIsShort(window: seq<Reading>, duration: int, interval: nat)
    requires interval > 0 && Sparse(window, duration, interval)
    ensures |window| <= CeilDiv(duration, interval) + 1
  {
    CeilDivBounds(duration, interval);
    var c := CeilDiv(duration, interval);
    if |window| > c + 1 {
      KthMultiple(window, duration, interval, c);
    }
  }

  lemma {:induction false} AtMostOneValueEach(window: seq<Reading>, i: nat)
    ensures |ValuesOf(window, i)| <= |window|
  {
    if window != [] {
      AtMostOneValueEach(window[..|window| - 1], i);
    }
  }

  // ---------- rising clock readings ----------

  /** The reading of the last reconcile in the current sub-phase. */
  function LastElapsed(spec: Spec, tspec: TopologySpec, w0: World, events: seq<Event>): Option<nat>
    requires ValidSpec(spec) && ValidStatus(spec, w0.status)
  {
    if events == [] then None else
      var front, e := events[..|events| - 1], events[|events| - 1];
      NextElapsed(Run(spec, tspec, w0, front).status.subPhase, e, Run(spec, tspec, w0, events).status.subPhase,
                  LastElapsed(spec, tspec, w0, front))
  }

  function NextElapsed(before: SubPhase, e: Event, after: SubPhase, last: Option<nat>): Option<nat> {
    if e.TopologyReconcile? then last else if before != after then None else Some(e.input.elapsed)
  }

  /** Within a sub-phase, each reconcile reads a later second than the one before. */
  ghost predicate ClockRises(spec: Spec, tspec: TopologySpec, w0: World, events: seq<Event>)
    requires ValidSpec(spec) && ValidStatus(spec, w0.status)
  {
    events == [] ||
      var front, e := events[..|events| - 1], events[|events| - 1];
      && ClockRises(spec, tspec, w0, front)
      && Rises(LastElapsed(spec, tspec, w0, front), e)
  }

  predicate Rises(last: Option<nat>, e: Event) {
    e.ExperimentReconcile? && last.Some? ==> e.input.elapsed > last.value
  }

  ghost predicate CountInv(spec: Spec, st: Status, readings: seq<Reading>, last: Option<nat>)
    requires ValidSpec(spec)
  {
    && NoneAhead(st, readings)
    && (forall n: nat, phase :: Sparse(Window(readings, n, phase), PlannedDuration(spec, phase), SampleInterval(spec)))
    && (Measuring(st.subPhase) ==>
          var window := Window(readings, st.completed + 1, st.subPhase);
          && st.duration == PlannedDuration(spec, st.subPhase)
          && AllBefore(window, st.duration)
          && (window != [] ==> last.Some? && window[|window| - 1].elapsed <= last.value))
  }

  /** How a status may move when no round is taken. */
  lemma Unsampled(spec: Spec, w: World, input: Input)
    requires ValidSpec(spec) && ValidStatus(spec, w.status) && !Takes(spec, w, input)
    ensures var st, st' := w.status, ExperimentStep(spec, w, input).status;
            && (st'.subPhase == st.subPhase ==> st'.completed == st.completed && st'.duration == st.duration)
            && (st'.subPhase != st.subPhase && Measuring(st'.subPhase) ==>
                  && !Measuring(st.subPhase) && st'.completed == st.completed
                  && st'.duration == PlannedDuration(spec, st'.subPhase)
                  && (st'.subPhase.PreChaosMeasurement? ==> st.subPhase.LoadDelay?)
                  && (st'.subPhase.ChaosMeasurement? ==> st.subPhase.ApplyingChaos?))
  {
    hide Deactivated, Activated, CanActivate, ApplyFaults, CleanupRefs, RecordRound, StatesOrInitial, LinesOf,
         OwnedNames, RolesOf, Deploys, ResultOf, ValidSpec, SampleInterval, Samples;
  }

  /** Where a status may go without taking a round. */
  predicate Moves(st: Status, st': Status) {
    || (st'.completed == st.completed + 1 && st.subPhase.Cleanup? && (st'.subPhase.Pause? || st'.subPhase.Idle?))
    || (st'.completed == st.completed
        && (|| st'.subPhase == st.subPhase
            || match st.subPhase
               case Idle => st'.subPhase.Deploying?
               case Deploying => st'.subPhase.TopologyDelay? || st'.subPhase.LoadDelay?
               case TopologyDelay => st'.subPhase.WaitingForTopology?
               case WaitingForTopology => st'.subPhase.LoadDelay?
               case LoadDelay => st'.subPhase.PreChaosMeasurement?
               case ApplyingChaos => st'.subPhase.ChaosMeasurement?
               case Pause => st'.subPhase.Idle?
               case _ => false))
  }

  lemma UnsampledMoves(spec: Spec, w: World, input: Input)
    requires ValidSpec(spec) && ValidStatus(spec, w.status) && !Takes(spec, w, input)
    ensures Moves(w.status, ExperimentStep(spec, w, input).status)
  {
    hide Deactivated, Activated, CanActivate, ApplyFaults, CleanupRefs, RecordRound, StatesOrInitial, LinesOf,
         OwnedNames, RolesOf, Deploys, CleanupResult, ValidSpec, SampleInterval, Samples;
  }

  lemma UnsampledAhead(spec: Spec, w: World, input: Input, readings: seq<Reading>)
    requires ValidSpec(spec) && ValidStatus(spec, w.status) && !Takes(spec, w, input) && NoneAhead(w.status, readings)
    ensures NoneAhead(ExperimentStep(spec, w, input).status, readings)
  {
    hide ExperimentStep, ValidSpec, Takes;
    UnsampledMoves(spec, w, input);
  }

  lemma Sampled(spec: Spec, w: World, input: Input)
    requires ValidSpec(spec) && ValidStatus(spec, w.status) && Takes(spec, w, input)
    ensures var st, st' := w.status, ExperimentStep(spec, w, input).status;
            && st'.completed == st.completed
            && (if input.elapsed < st.duration then st'.subPhase == st.subPhase && st'.duration == st.duration
                else
                  && st'.subPhase != st.subPhase && !st'.subPhase.PreChaosMeasurement?
                  && (Measuring(st'.subPhase) ==> st'.duration == PlannedDuration(spec, st'.subPhase)))
            && (forall readings | NoneAhead(st, readings) ::
                  NoneAhead(st', readings + [Reading(st.completed + 1, st.subPhase, input.elapsed, input.queries)]))
  {
    hide RecordRound, StatesOrInitial, LinesOf, ValidSpec, SampleInterval, Samples;
  }

  lemma SampledMultiple(spec: Spec, input: Input)
    requires ValidSpec(spec) && Samples(spec, input)
    ensures SampleInterval(spec) > 0 && input.elapsed % SampleInterval(spec) == 0
  {
    var d := SampleInterval(spec);
    assert 0 % d == 0;
  }

  lemma SparseGrows(window: seq<Reading>, duration: int, interval: nat, r: Reading)
    requires interval > 0 && Sparse(window, duration, interval) && AllBefore(window, duration)
    requires r.elapsed % interval == 0 && (window != [] ==> window[|window| - 1].elapsed < r.elapsed)
    ensures Sparse(window + [r], duration, interval)
  {}

  lemma TakenKeepsCounts(spec: Spec, w: World, input: Input, readings: seq<Reading>, last: Option<nat>)
    requires ValidSpec(spec) && ValidStatus(spec, w.status) && Takes(spec, w, input)
    requires CountInv(spec, w.status, readings, last) && Rises(last, ExperimentReconcile(input))
    ensures var st, st' := w.status, ExperimentStep(spec, w, input).status;
            CountInv(spec, st', readings + [Reading(st.completed + 1, st.subPhase, input.elapsed, input.queries)],
                     NextElapsed(st.subPhase, ExperimentReconcile(input), st'.subPhase, last))
  {
    hide ExperimentStep, NoneAhead, Window, SampleInterval, ValidSpec, Sparse;
    Sampled(spec, w, input);
    var st, st' := w.status, ExperimentStep(spec, w, input).status;
    var r := Reading(st.completed + 1, st.subPhase, input.elapsed, input.queries);
    var window := Window(readings, st.completed + 1, st.subPhase);
    SampledMultiple(spec, input);
    SparseGrows(window, st.duration, SampleInterval(spec), r);
    forall n: nat, phase
      ensures Sparse(Window(readings + [r], n, phase), PlannedDuration(spec, phase), SampleInterval(spec))
    {
      WindowGrows(readings, r, n, phase);
      assert Window(readings, n, phase) + [] == Window(readings, n, phase);
    }
    WindowGrows(readings, r, st'.completed + 1, st'.subPhase);
    if st'.subPhase != st.subPhase && Measuring(st'.subPhase) {
      Opens(st, readings);
    }
  }

  lemma UntakenKeepsCounts(spec: Spec, w: World, input: Input, readings: seq<Reading>, last: Option<nat>)
    requires ValidSpec(spec) && ValidStatus(spec, w.status) && !Takes(spec, w, input)
    requires CountInv(spec, w.status, readings, last) && Rises(last, ExperimentReconcile(input))
    ensures var st, st' := w.status, ExperimentStep(spec, w, input).status;
            CountInv(spec, st', readings, NextElapsed(st.subPhase, ExperimentReconcile(input), st'.subPhase, last))
  {
    hide ExperimentStep, NoneAhead, Window, SampleInterval, ValidSpec, Sparse;
    Unsampled(spec, w, input);
    UnsampledAhead(spec, w, input, readings);
    Opens(w.status, readings);
  }

  lemma {:induction false} RunKeepsCounts(spec: Spec, tspec: TopologySpec, w: World, events: seq<Event>)
    requires ValidSpec(spec) && Fresh(w) && ClockRises(spec, tspec, w, events)
    ensures CountInv(spec, Run(spec, tspec, w, events).status, Readings(spec, tspec, w, events),
                     LastElapsed(spec, tspec, w, events))
  {
    if events == [] {
      assert Readings(spec, tspec, w, events) == [];
    } else {
      hide CountInv, ExperimentStep, TopologyStep, Takes, NextElapsed, Rises, ValidSpec;
      var front, e := events[..|events| - 1], events[|events| - 1];
      RunKeepsCounts(spec, tspec, w, front);
      var v, readings := Run(spec, tspec, w, front), Readings(spec, tspec, w, front);
      var last := LastElapsed(spec, tspec, w, front);
      assert readings + [] == readings;
      StepKeepsCounts(spec, tspec, v, e, readings, last);
    }
  }

  lemma StepKeepsCounts(spec: Spec, tspec: TopologySpec, w: World, e: Event, readings: seq<Reading>, last: Option<nat>)
    requires ValidSpec(spec) && ValidStatus(spec, w.status)
    requires CountInv(spec, w.status, readings, last) && Rises(last, e)
    ensures var st' := Step(spec, tspec, w, e).status;
            CountInv(spec, st', readings + Taken(spec, w, e), NextElapsed(w.status.subPhase, e, st'.subPhase, last))
  {
    hide CountInv, ExperimentStep, TopologyStep, Takes, Rises, ValidSpec;
    assert readings + [] == readings;
    match e
    case TopologyReconcile(input) => TopologyStepKeeps(tspec, w, input);
    case ExperimentReconcile(input) =>
      if Takes(spec, w, input) {
        TakenKeepsCounts(spec, w, input, readings, last);
      } else {
        UntakenKeepsCounts(spec, w, input, readings, last);
      }
  }

  /** With rising clock readings every window of the run, open or closed, holds at most
      ceil(D / I) + 1 values per SLO, read at distinct multiples of I, only the last at or beyond D. */
  lemma AtMostOneSamplePerInterval(spec: Spec, tspec: TopologySpec, w0: World, events: seq<Event>, n: nat,
                                   phase: SubPhase, i: nat)
    requires ValidSpec(spec) && Fresh(w0) && ClockRises(spec, tspec, w0, events)
    ensures var window := Window(Readings(spec, tspec, w0, events), n, phase);
            var (d, interval) := (PlannedDuration(spec, phase), SampleInterval(spec));
            Sparse(window, d, interval) && |ValuesOf(window, i)| <= |window| <= CeilDiv(d, interval) + 1
  {
    hide Run, Readings, Window, ClockRises, Sparse;
    RunKeepsCounts(spec, tspec, w0, events);
    var window := Window(Readings(spec, tspec, w0, events), n, phase);
    SparseIsShort(window, PlannedDuration(spec, phase), SampleInterval(spec));
    AtMostOneValueEach(window, i);
  }

  // ---------- one-second readings ----------

  /** How many reconciles the current sub-phase has seen. */
  function Polls(spec: Spec, tspec: TopologySpec, w0: World, events: seq<Event>): nat
    requires ValidSpec(spec) && ValidStatus(spec, w0.status)
  {
    if events == [] then 0 else
      var front, e := events[..|events| - 1], events[|events| - 1];
      NextPolls(Run(spec, tspec, w0, front).status.subPhase, e, Run(spec, tspec, w0, events).status.subPhase,
                Polls(spec, tspec, w0, front))
  }

  function NextPolls(before: SubPhase, e: Event, after: SubPhase, polls: nat): nat {
    if e.TopologyReconcile? then polls else if before != after then 0 else polls + 1
  }

  predicate Complete(spec: Spec, queries: seq<Option<real>>) {
    forall i | 0 <= i < |spec.slos| :: QueryAt(queries, i).Some?
  }

  /** In a window the clock reads 0, 1, 2, ..., every query has a result and no write fails. */
  predicate Ticks(spec: Spec, st: Status, e: Event, polls: nat) {
    e.ExperimentReconcile? && Dispatches(spec, st) && Measuring(st.subPhase) ==>
      e.input.elapsed == polls && Complete(spec, e.input.queries) && e.input.patchOk && e.input.measurementsOk
  }

  ghost predicate ClockTicks(spec: Spec, tspec: TopologySpec, w0: World, events: seq<Event>)
    requires ValidSpec(spec) && ValidStatus(spec, w0.status)
  {
    events == [] ||
      var front, e := events[..|events| - 1], events[|events| - 1];
      && ClockTicks(spec, tspec, w0, front)
      && Ticks(spec, Run(spec, tspec, w0, front).status, e, Polls(spec, tspec, w0, front))
  }

  ghost predicate Regular(spec: Spec, window: seq<Reading>)
    requires ValidSpec(spec)
  {
    forall k | 0 <= k < |window| :: window[k].elapsed == k * SampleInterval(spec) && Complete(spec, window[k].queries)
  }

  /** The measurement window is over. */
  predicate Closed(st: Status, n: nat, phase: SubPhase) {
    Measuring(phase) && n >= 1 &&
    (n <= st.completed
     || (n == st.completed + 1
         && (|| st.subPhase.Cleanup?
             || (phase.PreChaosMeasurement? && (st.subPhase.ApplyingChaos? || st.subPhase.ChaosMeasurement?)))))
  }

  ghost predicate ExactInv(spec: Spec, st: Status, readings: seq<Reading>, polls: nat)
    requires ValidSpec(spec)
  {
    && NoneAhead(st, readings)
    && (forall n: nat, phase | Closed(st, n, phase) ::
          var window := Window(readings, n, phase);
          Regular(spec, window) && |window| == CeilDiv(PlannedDuration(spec, phase), SampleInterval(spec)) + 1)
    && (Measuring(st.subPhase) && !Terminal(st) ==>
          && st.completed < Repetitions(spec)
          && OpenExact(spec, st, Window(readings, st.completed + 1, st.subPhase), polls))
  }

  ghost predicate OpenExact(spec: Spec, st: Status, window: seq<Reading>, polls: nat)
    requires ValidSpec(spec)
  {
    && st.duration == PlannedDuration(spec, st.subPhase)
    && Regular(spec, window) && |window| == CeilDiv(polls, SampleInterval(spec))
    && (window != [] ==> (|window| - 1) * SampleInterval(spec) < st.duration)
  }

  lemma DivBounds(n: nat, d: nat)
    requires d > 0
    ensures n == (n / d) * d + n % d && (n / d + 1) * d == (n / d) * d + d
    ensures n / d > 0 ==> (n / d - 1) * d == (n / d) * d - d
  {}

  lemma CeilDivNext(n: nat, d: nat)
    requires d > 0
    ensures CeilDiv(n + 1, d) == CeilDiv(n, d) + if n % d == 0 then 1 else 0
    ensures n % d == 0 ==> CeilDiv(n, d) * d == n
  {
    hide CeilDiv;
    var q := n / d;
    DivBounds(n, d);
    if n % d == 0 {
      CeilDivUnique(n, d, q);
    } else {
      CeilDivUnique(n, d, q + 1);
    }
    CeilDivUnique(n + 1, d, q + 1);
  }

  lemma UnsampledCloses(spec: Spec, w: World, input: Input, n: nat, phase: SubPhase)
    requires ValidSpec(spec) && ValidStatus(spec, w.status) && !Takes(spec, w, input)
    ensures Closed(ExperimentStep(spec, w, input).status, n, phase) ==> Closed(w.status, n, phase)
  {
    hide ExperimentStep, ValidSpec, Takes;
    UnsampledMoves(spec, w, input);
  }

  lemma UnsampledOpens(spec: Spec, w: World, input: Input)
    requires ValidSpec(spec) && ValidStatus(spec, w.status) && !Takes(spec, w, input)
    ensures var st, st' := w.status, ExperimentStep(spec, w, input).status;
            && (Terminal(st) ==> Terminal(st'))
            && (Measuring(st'.subPhase) && st'.subPhase != st.subPhase ==> st'.completed < Repetitions(spec))
  {
    hide Deactivated, Activated, CanActivate, ApplyFaults, CleanupRefs, RecordRound, StatesOrInitial, LinesOf,
         OwnedNames, RolesOf, Deploys, ResultOf, ValidSpec, SampleInterval, Samples;
  }

  lemma SampledCloses(spec: Spec, w: World, input: Input, n: nat, phase: SubPhase)
    requires ValidSpec(spec) && ValidStatus(spec, w.status) && Takes(spec, w, input)
    ensures var st, st' := w.status, ExperimentStep(spec, w, input).status;
            Closed(st', n, phase) ==>
              || Closed(st, n, phase)
              || (n == st.completed + 1 && phase == st.subPhase && input.elapsed >= st.duration)
  {
    hide RecordRound, StatesOrInitial, LinesOf, ValidSpec, SampleInterval, Samples;
  }

  lemma RegularGrows(spec: Spec, st: Status, window: seq<Reading>, r: Reading, polls: nat)
    requires ValidSpec(spec) && OpenExact(spec, st, window, polls)
    requires r.elapsed == polls && polls % SampleInterval(spec) == 0 && Complete(spec, r.queries)
    ensures Regular(spec, window + [r]) && |window + [r]| == CeilDiv(polls + 1, SampleInterval(spec))
    ensures polls < st.duration ==> OpenExact(spec, st, window + [r], polls + 1)
    ensures polls >= st.duration ==> |window + [r]| == CeilDiv(st.duration, SampleInterval(spec)) + 1
  {
    hide Complete;
    var interval := SampleInterval(spec);
    CeilDivNext(polls, interval);
    if polls >= st.duration {
      CeilDivUnique(st.duration, interval, |window|);
    }
  }

  lemma TakenKeepsExact(spec: Spec, w: World, input: Input, readings: seq<Reading>, polls: nat)
    requires ValidSpec(spec) && ValidStatus(spec, w.status) && Takes(spec, w, input)
    requires ExactInv(spec, w.status, readings, polls) && Ticks(spec, w.status, ExperimentReconcile(input), polls)
    ensures var st, st' := w.status, ExperimentStep(spec, w, input).status;
            ExactInv(spec, st', readings + [Reading(st.completed + 1, st.subPhase, input.elapsed, input.queries)],
                     NextPolls(st.subPhase, ExperimentReconcile(input), st'.subPhase, polls))
  {
    hide ExperimentStep, NoneAhead, Window, SampleInterval, ValidSpec, Regular, Complete, Closed;
    Sampled(spec, w, input);
    var st, st' := w.status, ExperimentStep(spec, w, input).status;
    var r := Reading(st.completed + 1, st.subPhase, input.elapsed, input.queries);
    var window := Window(readings, st.completed + 1, st.subPhase);
    SampledMultiple(spec, input);
    RegularGrows(spec, st, window, r, polls);
    WindowGrows(readings, r, st.completed + 1, st.subPhase);
    forall n: nat, phase | Closed(st', n, phase)
      ensures var window := Window(readings + [r], n, phase);
              Regular(spec, window) && |window| == CeilDiv(PlannedDuration(spec, phase), SampleInterval(spec)) + 1
    {
      SampledCloses(spec, w, input, n, phase);
      WindowGrows(readings, r, n, phase);
      assert Window(readings, n, phase) + [] == Window(readings, n, phase);
      OpenIsNotClosed(st);
    }
    WindowGrows(readings, r, st'.completed + 1, st'.subPhase);
    if st'.subPhase != st.subPhase && Measuring(st'.subPhase) {
      Opens(st, readings);
      EmptyExact(spec, st');
    }
  }

  lemma OpenIsNotClosed(st: Status)
    ensures Measuring(st.subPhase) ==> !Closed(st, st.completed + 1, st.subPhase)
  {}

  lemma EmptyExact(spec: Spec, st: Status)
    requires ValidSpec(spec) && st.duration == PlannedDuration(spec, st.subPhase)
    ensures OpenExact(spec, st, [], 0)
  {}

  lemma UntakenKeepsExact(spec: Spec, w: World, input: Input, readings: seq<Reading>, polls: nat)
    requires ValidSpec(spec) && ValidStatus(spec, w.status) && !Takes(spec, w, input)
    requires ExactInv(spec, w.status, readings, polls) && Ticks(spec, w.status, ExperimentReconcile(input), polls)
    ensures var st, st' := w.status, ExperimentStep(spec, w, input).status;
            ExactInv(spec, st', readings, NextPolls(st.subPhase, ExperimentReconcile(input), st'.subPhase, polls))
  {
    hide ExperimentStep, NoneAhead, Window, ValidSpec, Regular, Complete, Closed;
    Unsampled(spec, w, input);
    UnsampledAhead(spec, w, input, readings);
    var st, st' := w.status, ExperimentStep(spec, w, input).status;
    UnsampledOpens(spec, w, input);
    forall n: nat, phase | Closed(st', n, phase) ensures Closed(st, n, phase) {
      UnsampledCloses(spec, w, input, n, phase);
    }
    Opens(st, readings);
    if Measuring(st'.subPhase) {
      if st'.subPhase != st.subPhase {
        EmptyExact(spec, st');
      } else if !Terminal(st') {
        UnsampledPoll(spec, w, input, polls);
      }
    }
  }

  lemma UnsampledPoll(spec: Spec, w: World, input: Input, polls: nat)
    requires ValidSpec(spec) && !Takes(spec, w, input) && Dispatches(spec, w.status) && Measuring(w.status.subPhase)
    requires Ticks(spec, w.status, ExperimentReconcile(input), polls)
    ensures CeilDiv(polls + 1, SampleInterval(spec)) == CeilDiv(polls, SampleInterval(spec))
  {
    CeilDivNext(polls, SampleInterval(spec));
  }

  lemma StepKeepsExact(spec: Spec, tspec: TopologySpec, w: World, e: Event, readings: seq<Reading>, polls: nat)
    requires ValidSpec(spec) && ValidStatus(spec, w.status)
    requires ExactInv(spec, w.status, readings, polls) && Ticks(spec, w.status, e, polls)
    ensures var st' := Step(spec, tspec, w, e).status;
            ExactInv(spec, st', readings + Taken(spec, w, e), NextPolls(w.status.subPhase, e, st'.subPhase, polls))
  {
    hide ExactInv, ExperimentStep, TopologyStep, Takes, Ticks, ValidSpec;
    assert readings + [] == readings;
    match e
    case TopologyReconcile(input) => TopologyStepKeeps(tspec, w, input);
    case ExperimentReconcile(input) =>
      if Takes(spec, w, input) {
        TakenKeepsExact(spec, w, input, readings, polls);
      } else {
        UntakenKeepsExact(spec, w, input, readings, polls);
      }
  }

  lemma {:induction false} RunKeepsExact(spec: Spec, tspec: TopologySpec, w: World, events: seq<Event>)
    requires ValidSpec(spec) && Fresh(w) && ClockTicks(spec, tspec, w, events)
    ensures ExactInv(spec, Run(spec, tspec, w, events).status, Readings(spec, tspec, w, events),
                     Polls(spec, tspec, w, events))
  {
    if events == [] {
      assert Readings(spec, tspec, w, events) == [];
    } else {
      hide ExactInv, ExperimentStep, TopologyStep, Takes, NextPolls, Ticks, ValidSpec;
      var front, e := events[..|events| - 1], events[|events| - 1];
      RunKeepsExact(spec, tspec, w, front);
      StepKeepsExact(spec, tspec, Run(spec, tspec, w, front), e, Readings(spec, tspec, w, front),
                     Polls(spec, tspec, w, front));
    }
  }

  lemma {:induction false} CompleteValues(spec: Spec, window: seq<Reading>, i: nat)
    requires i < |spec.slos| && forall r | r in window :: Complete(spec, r.queries)
    ensures |ValuesOf(window, i)| == |window|
  {
    if window != [] {
      CompleteValues(spec, window[..|window| - 1], i);
      assert Complete(spec, window[|window| - 1].queries);
    }
  }

  /** With one-second readings and succeeding queries, every window that is over holds exactly
      ceil(D / I) + 1 values per SLO, read at 0, I, 2I, ..., ending at the first multiple not below D. */
  lemma ExactlyOneSamplePerInterval(spec: Spec, tspec: TopologySpec, w0: World, events: seq<Event>, n: nat,
                                    phase: SubPhase, i: nat)
    requires ValidSpec(spec) && Fresh(w0) && ClockTicks(spec, tspec, w0, events)
    requires Closed(Run(spec, tspec, w0, events).status, n, phase) && i < |spec.slos|
    ensures var window := Window(Readings(spec, tspec, w0, events), n, phase);
            var c := CeilDiv(PlannedDuration(spec, phase), SampleInterval(spec));
            && |ValuesOf(window, i)| == |window| == c + 1
            && forall k | 0 <= k <= c :: window[k].elapsed == k * SampleInterval(spec)
  {
    hide Run, Readings, Window, ClockTicks, Closed, Complete, Polls, ValidSpec;
    RunKeepsExact(spec, tspec, w0, events);
    CompleteValues(spec, Window(Readings(spec, tspec, w0, events), n, phase), i);
  }
}
