/** Every run of an experiment ends, whatever the topology controller and the chaos do meanwhile. */
module Termination {
  import opened Wrappers
  import opened ChaosRefs
  import opened ChaosPhases
  import opened ExperimentModel
  import opened SampleCounts
  import opened MeasurementWindows
  import opened ExperimentRuns

  /** One poll: the cluster as others left it, and what the reconcile meets. */
  datatype Poll = Poll(input: Input, topology: Option<Topology>, objects: set<ObjectKey>)

  function Seen(w: World, p: Poll): World {
    w.(topology := p.topology, objects := p.objects)
  }

  /** The cluster after the first k polls. */
  function After(spec: Spec, w: World, polls: nat -> Poll, k: nat): (r: World)
    requires ValidSpec(spec) && ValidStatus(spec, w.status)
    ensures ValidStatus(spec, r.status)
  {
    if k == 0 then w else
      var before := Seen(After(spec, w, polls, k - 1), polls(k - 1));
      ExperimentModel.StepKeepsValid(spec, before, polls(k - 1).input);
      ExperimentStep(spec, before, polls(k - 1).input)
  }

  function SubPhaseAt(spec: Spec, w: World, polls: nat -> Poll, k: nat): SubPhase
    requires ValidSpec(spec) && ValidStatus(spec, w.status)
  {
    After(spec, w, polls, k).status.subPhase
  }

  /** Patches succeed, and as long as a sub-phase lasts the clock reading rises: by exactly one
      second per poll in a measurement window, by at least one elsewhere. */
  ghost predicate Paced(spec: Spec, w: World, polls: nat -> Poll)
    requires ValidSpec(spec) && ValidStatus(spec, w.status)
  {
    forall k: nat ::
      && polls(k).input.patchOk
      && (SubPhaseAt(spec, w, polls, k + 1) == SubPhaseAt(spec, w, polls, k) ==>
            Follows(SubPhaseAt(spec, w, polls, k), polls(k).input.elapsed, polls(k + 1).input.elapsed))
  }

  predicate Follows(p: SubPhase, reading: nat, next: nat) {
    if Measuring(p) then next == reading + 1 else next > reading
  }

  /** The order in which the sub-phases of one repetition follow each other, counted down. */
  function SubPhaseRank(p: SubPhase): nat {
    match p
    case Pause => 9
    case Idle => 8
    case Deploying => 7
    case TopologyDelay => 6
    case WaitingForTopology => 5
    case LoadDelay => 4
    case PreChaosMeasurement => 3
    case ApplyingChaos => 2
    case ChaosMeasurement => 1
    case Cleanup => 0
  }

  function Max(a: int, b: int): int {
    if a < b then b else a
  }

  /** The first reading from `reading` on at which a window of `duration` seconds closes. */
  function WindowExit(spec: Spec, duration: int, reading: nat): nat
    requires ValidSpec(spec)
  {
    CeilDiv(Max(duration, reading), SampleInterval(spec)) * SampleInterval(spec)
  }

  /** How many seconds the current sub-phase can last at most, from this reading on. */
  function SecondsLeft(spec: Spec, st: Status, reading: nat): int
    requires ValidSpec(spec)
  {
    if Measuring(st.subPhase) then WindowExit(spec, st.duration, reading) - reading
    else if st.subPhase.WaitingForTopology? then Max(TOPOLOGY_TIMEOUT + 1 - reading, 0)
    else Max(st.duration - reading, 0)
  }

  function RepetitionsLeft(spec: Spec, st: Status): nat {
    Max(Repetitions(spec) - st.completed, 0)
  }

  lemma WindowExitLater(spec: Spec, duration: int, reading: nat)
    requires ValidSpec(spec)
    ensures WindowExit(spec, duration, reading) >= reading && WindowExit(spec, duration, reading) >= duration
    ensures WindowExit(spec, duration, reading) % SampleInterval(spec) == 0
    ensures !(reading % SampleInterval(spec) == 0 && reading >= duration) ==>
              && WindowExit(spec, duration, reading) > reading
              && WindowExit(spec, duration, reading + 1) == WindowExit(spec, duration, reading)
  {
    var interval := SampleInterval(spec);
    var m := Max(duration, reading);
    var c := CeilDiv(m, interval);
    CeilDivBounds(m, interval);
    MultipleMod(c, interval);
    if !(reading % interval == 0 && reading >= duration) {
      assert Max(duration, reading + 1) <= c * interval;
      if c > 0 {
        CeilDivUnique(Max(duration, reading + 1), interval, c);
      }
    }
  }

  lemma MultipleMod(c: nat, d: nat)
    requires d > 0
    ensures (c * d) % d == 0
  {
    var q, r := (c * d) / d, (c * d) % d;
    assert c * d == d * q + r && d * q == q * d && (q + 1) * d == q * d + d;
    if q < c {
      MulMonotone(q + 1, c, d);
    } else {
      MulMonotone(c, q, d);
    }
  }

  /** Each poll ends the run, starts a new repetition, moves on to a later sub-phase, or uses up
      at least one of the seconds left. */
  ghost predicate Progress(spec: Spec, st: Status, reading: nat, st': Status, next: nat)
    requires ValidSpec(spec)
  {
    || Terminal(st')
    || RepetitionsLeft(spec, st') < RepetitionsLeft(spec, st)
    || (RepetitionsLeft(spec, st') == RepetitionsLeft(spec, st) &&
        (|| SubPhaseRank(st'.subPhase) < SubPhaseRank(st.subPhase)
         || (st'.subPhase == st.subPhase && 0 <= SecondsLeft(spec, st', next) < SecondsLeft(spec, st, reading))))
  }

  predicate InWindow(spec: Spec, st: Status) {
    Dispatches(spec, st) && Measuring(st.subPhase)
  }

  lemma WindowProgress(spec: Spec, w: World, input: Input, after: SubPhase, next: nat)
    requires ValidSpec(spec) && ValidStatus(spec, w.status) && Measuring(w.status.subPhase) && input.patchOk
    requires after == if w.status.subPhase.PreChaosMeasurement? then ApplyingChaos else Cleanup
    requires var st' := MeasurementStep(spec, w, input, after).status;
             st'.subPhase == w.status.subPhase ==> next == input.elapsed + 1
    ensures Progress(spec, w.status, input.elapsed, MeasurementStep(spec, w, input, after).status, next)
  {
    hide RecordRound, StatesOrInitial, LinesOf, SampleInterval, ValidSpec, WindowExit;
    WindowExitLater(spec, w.status.duration, input.elapsed);
    WindowExitLater(spec, w.status.duration, input.elapsed + 1);
  }

  predicate Timed(p: SubPhase) {
    p.TopologyDelay? || p.LoadDelay? || p.Pause?
  }

  predicate InGate(spec: Spec, st: Status) {
    Dispatches(spec, st) && (Measuring(st.subPhase) || st.subPhase.WaitingForTopology?)
  }

  /** The handlers that neither wait nor measure move on at once. */
  lemma InstantPoll(spec: Spec, w: World, input: Input)
    requires ValidSpec(spec) && ValidStatus(spec, w.status) && !Terminal(w.status) && input.patchOk
    requires !InGate(spec, w.status) && !Timed(w.status.subPhase)
    ensures var st' := ExperimentStep(spec, w, input).status;
            || Terminal(st')
            || RepetitionsLeft(spec, st') < RepetitionsLeft(spec, w.status)
            || (st'.completed == w.status.completed
                && SubPhaseRank(st'.subPhase) < SubPhaseRank(w.status.subPhase))
  {
    hide Deactivated, ApplyFaults, CleanupRefs, MeasurementStep, OwnedNames, RolesOf, Deploys, ValidSpec, CleanupResult;
  }

  lemma DonePoll(spec: Spec, w: World, input: Input)
    requires ValidSpec(spec) && ValidStatus(spec, w.status) && !Dispatches(spec, w.status) && input.patchOk
    ensures Terminal(ExperimentStep(spec, w, input).status)
  {
    hide DispatchStep;
  }

  lemma TimedProgress(spec: Spec, w: World, input: Input, next: nat)
    requires ValidSpec(spec) && ValidStatus(spec, w.status) && Dispatches(spec, w.status) && input.patchOk
    requires Timed(w.status.subPhase)
    requires ExperimentStep(spec, w, input).status.subPhase == w.status.subPhase ==> next > input.elapsed
    ensures Progress(spec, w.status, input.elapsed, ExperimentStep(spec, w, input).status, next)
  {
    hide CanActivate, Activated, ValidSpec, WindowExit;
  }

  lemma WaitProgress(spec: Spec, w: World, input: Input, next: nat)
    requires ValidSpec(spec) && ValidStatus(spec, w.status) && Dispatches(spec, w.status) && input.patchOk
    requires w.status.subPhase.WaitingForTopology? && input.topologyReadOk
    requires ExperimentStep(spec, w, input).status.subPhase == w.status.subPhase ==> next > input.elapsed
    ensures Progress(spec, w.status, input.elapsed, ExperimentStep(spec, w, input).status, next)
  {
    hide Deactivated, ValidSpec, WindowExit;
  }

  lemma PollProgress(spec: Spec, w: World, input: Input, next: nat)
    requires ValidSpec(spec) && ValidStatus(spec, w.status) && !Terminal(w.status)
    requires input.patchOk && (w.status.subPhase.WaitingForTopology? ==> input.topologyReadOk)
    requires var st' := ExperimentStep(spec, w, input).status;
             st'.subPhase == w.status.subPhase ==> Follows(st'.subPhase, input.elapsed, next)
    ensures Progress(spec, w.status, input.elapsed, ExperimentStep(spec, w, input).status, next)
  {
    hide ExperimentStep, MeasurementStep, SecondsLeft, SubPhaseRank, ValidSpec;
    if !Dispatches(spec, w.status) {
      DonePoll(spec, w, input);
    } else if Measuring(w.status.subPhase) {
      DispatchedTo(spec, w, input);
      WindowProgress(spec, w, input, if w.status.subPhase.PreChaosMeasurement? then ApplyingChaos else Cleanup, next);
    } else if w.status.subPhase.WaitingForTopology? {
      WaitProgress(spec, w, input, next);
    } else if Timed(w.status.subPhase) {
      TimedProgress(spec, w, input, next);
    } else {
      InstantPoll(spec, w, input);
    }
  }

  // ---------- gates: the sub-phases that last until a certain poll ----------

  /** The reading at which a measurement window closes: on the sampling grid, and not too early. */
  predicate Closing(spec: Spec, duration: int, input: Input)
    requires ValidSpec(spec)
  {
    Samples(spec, input) && input.elapsed >= duration
  }

  /** The poll that ends the wait for the topology: it can be read, and is Active or failed, or the
      timeout is over. A failing read returns before the timeout is looked at. */
  predicate Settled(p: Poll) {
    p.input.topologyReadOk
    && (|| p.input.elapsed > TOPOLOGY_TIMEOUT
        || (p.topology.Some? && (p.topology.value.phase.Active? || p.topology.value.phase.FailedToApply?)))
  }

  predicate Passes(spec: Spec, st: Status, p: Poll)
    requires ValidSpec(spec)
  {
    if Measuring(st.subPhase) then Closing(spec, st.duration, p.input) else Settled(p)
  }

  /** Still the same stay in the same gate. */
  predicate SameGate(spec: Spec, st: Status, st': Status) {
    InGate(spec, st') && st'.subPhase == st.subPhase && st'.completed == st.completed && st'.duration == st.duration
  }

  lemma GatePoll(spec: Spec, w: World, p: Poll)
    requires ValidSpec(spec) && ValidStatus(spec, w.status) && InGate(spec, w.status) && p.input.patchOk
    ensures var st' := ExperimentStep(spec, Seen(w, p), p.input).status;
            if Passes(spec, w.status, p)
            then || Terminal(st')
                 || (st'.completed == w.status.completed
                     && SubPhaseRank(st'.subPhase) < SubPhaseRank(w.status.subPhase))
            else SameGate(spec, w.status, st')
  {
    hide RecordRound, StatesOrInitial, LinesOf, ValidSpec, Samples, Deactivated;
  }

  /** A gate that has been open so far is left by the next poll if and only if that poll passes. */
  lemma {:induction false} GateStays(spec: Spec, w: World, polls: nat -> Poll, k: nat, m: nat)
    requires ValidSpec(spec) && ValidStatus(spec, w.status)
    requires InGate(spec, After(spec, w, polls, k).status)
    requires forall j | k <= j <= k + m :: polls(j).input.patchOk
    requires forall j | k <= j < k + m :: !Passes(spec, After(spec, w, polls, k).status, polls(j))
    ensures var st := After(spec, w, polls, k).status;
            && SameGate(spec, st, After(spec, w, polls, k + m).status)
            && (SameGate(spec, st, After(spec, w, polls, k + m + 1).status) <==> !Passes(spec, st, polls(k + m)))
  {
    hide ExperimentStep, Closing, Settled, ValidSpec;
    if m > 0 {
      GateStays(spec, w, polls, k, m - 1);
    }
    GatePoll(spec, After(spec, w, polls, k + m), polls(k + m));
  }

  predicate SameWindow(spec: Spec, st: Status, st': Status) {
    InWindow(spec, st') && st'.subPhase == st.subPhase && st'.completed == st.completed && st'.duration == st.duration
  }

  /** A window that has been open so far is closed by the next poll if and only if that poll reads a
      multiple of the interval at or beyond the duration. */
  lemma WindowClosesIff(spec: Spec, w: World, polls: nat -> Poll, k: nat, m: nat)
    requires ValidSpec(spec) && ValidStatus(spec, w.status)
    requires InWindow(spec, After(spec, w, polls, k).status)
    requires forall j | k <= j <= k + m :: polls(j).input.patchOk
    requires forall j | k <= j < k + m :: !Closing(spec, After(spec, w, polls, k).status.duration, polls(j).input)
    ensures var st := After(spec, w, polls, k).status;
            && SameWindow(spec, st, After(spec, w, polls, k + m).status)
            && (SameWindow(spec, st, After(spec, w, polls, k + m + 1).status) <==>
                !Closing(spec, st.duration, polls(k + m).input))
  {
    hide After, Closing, ValidSpec;
    GateStays(spec, w, polls, k, m);
  }

  // ---------- exactly when a run ends ----------

  /** Patches succeed, and as long as a timed wait lasts each poll reads a later second. */
  ghost predicate Rising(spec: Spec, w: World, polls: nat -> Poll)
    requires ValidSpec(spec) && ValidStatus(spec, w.status)
  {
    forall k: nat ::
      && polls(k).input.patchOk
      && (Timed(SubPhaseAt(spec, w, polls, k)) && SubPhaseAt(spec, w, polls, k + 1) == SubPhaseAt(spec, w, polls, k) ==>
            polls(k + 1).input.elapsed > polls(k).input.elapsed)
  }

  /** Poll m, not before poll k, passes the gate that is open at poll k. */
  ghost predicate PassesAt(spec: Spec, w: World, polls: nat -> Poll, k: nat, m: nat)
    requires ValidSpec(spec) && ValidStatus(spec, w.status)
  {
    m >= k && Passes(spec, After(spec, w, polls, k).status, polls(m))
  }

  /** Every measurement window meets a closing poll, and every wait for the topology a settling one. */
  ghost predicate GatesPass(spec: Spec, w: World, polls: nat -> Poll)
    requires ValidSpec(spec) && ValidStatus(spec, w.status)
  {
    forall k: nat :: InGate(spec, After(spec, w, polls, k).status) ==> exists m: nat :: PassesAt(spec, w, polls, k, m)
  }

  /** A poll outside the gates makes progress; one inside stays exactly until it passes. */
  ghost predicate Advance(spec: Spec, st: Status, p: Poll, st': Status, next: nat)
    requires ValidSpec(spec)
  {
    || Terminal(st')
    || RepetitionsLeft(spec, st') < RepetitionsLeft(spec, st)
    || (RepetitionsLeft(spec, st') == RepetitionsLeft(spec, st) &&
        (|| SubPhaseRank(st'.subPhase) < SubPhaseRank(st.subPhase)
         || (InGate(spec, st) && SameGate(spec, st, st') && !Passes(spec, st, p))
         || (st'.subPhase == st.subPhase && !InGate(spec, st) && !InGate(spec, st')
             && 0 <= SecondsLeft(spec, st', next) < SecondsLeft(spec, st, p.input.elapsed))))
  }

  lemma PollAdvances(spec: Spec, w: World, p: Poll, next: nat)
    requires ValidSpec(spec) && ValidStatus(spec, w.status) && !Terminal(w.status) && p.input.patchOk
    requires var st' := ExperimentStep(spec, Seen(w, p), p.input).status;
             Timed(w.status.subPhase) && st'.subPhase == w.status.subPhase ==> next > p.input.elapsed
    ensures Advance(spec, w.status, p, ExperimentStep(spec, Seen(w, p), p.input).status, next)
  {
    hide ExperimentStep, Passes, SubPhaseRank, SecondsLeft, ValidSpec;
    if InGate(spec, w.status) {
      GatePoll(spec, w, p);
    } else if Timed(w.status.subPhase) {
      PollProgress(spec, Seen(w, p), p.input, next);
    } else {
      InstantPoll(spec, Seen(w, p), p.input);
    }
  }

  lemma StepAdvances(spec: Spec, w: World, polls: nat -> Poll, k: nat)
    requires ValidSpec(spec) && ValidStatus(spec, w.status) && Rising(spec, w, polls)
    requires !Terminal(After(spec, w, polls, k).status)
    ensures Advance(spec, After(spec, w, polls, k).status, polls(k),
                    After(spec, w, polls, k + 1).status, polls(k + 1).input.elapsed)
  {
    hide ExperimentStep, Advance, Timed;
    assert SubPhaseAt(spec, w, polls, k) == After(spec, w, polls, k).status.subPhase;
    PollAdvances(spec, After(spec, w, polls, k), polls(k), polls(k + 1).input.elapsed);
  }

  /** The last component of the measure: polls up to the passing one inside a gate, seconds left
      outside. */
  function StepsLeft(spec: Spec, st: Status, reading: nat, k: nat, m: nat): int
    requires ValidSpec(spec)
  {
    if InGate(spec, st) then m - k else SecondsLeft(spec, st, reading)
  }

  /** The lexicographic measure: repetitions left, sub-phases left, and the steps left in this one. */
  lemma {:induction false} RunEnds(spec: Spec, w: World, polls: nat -> Poll, k: nat, m: nat) returns (n: nat)
    requires ValidSpec(spec) && ValidStatus(spec, w.status) && Rising(spec, w, polls) && GatesPass(spec, w, polls)
    requires InGate(spec, After(spec, w, polls, k).status) ==> PassesAt(spec, w, polls, k, m)
    ensures n >= k && Terminal(After(spec, w, polls, n).status)
    decreases RepetitionsLeft(spec, After(spec, w, polls, k).status),
              SubPhaseRank(After(spec, w, polls, k).status.subPhase),
              StepsLeft(spec, After(spec, w, polls, k).status, polls(k).input.elapsed, k, m)
  {
    hide After, SecondsLeft, RepetitionsLeft, SubPhaseRank, ValidSpec, Rising, Terminal, Closing, Settled, InGate;
    n := k;
    var st := After(spec, w, polls, k).status;
    if !Terminal(st) {
      n := k + 1;
      StepAdvances(spec, w, polls, k);
      var st' := After(spec, w, polls, n).status;
      if !Terminal(st') {
        if InGate(spec, st) && SameGate(spec, st, st') && !Passes(spec, st, polls(k)) {
          n := RunEnds(spec, w, polls, k + 1, m);
        } else {
          var m': nat := 0;
          if InGate(spec, st') {
            m' :| PassesAt(spec, w, polls, k + 1, m');
          }
          n := RunEnds(spec, w, polls, k + 1, m');
        }
      }
    }
  }

  lemma TerminalStep(spec: Spec, w: World, input: Input)
    requires ValidSpec(spec) && ValidStatus(spec, w.status) && Terminal(w.status)
    ensures ExperimentStep(spec, w, input) == w
  {
    hide DispatchStep;
  }

  lemma {:induction false} TerminalStays(spec: Spec, w: World, polls: nat -> Poll, n: nat, k: nat)
    requires ValidSpec(spec) && ValidStatus(spec, w.status) && n <= k && Terminal(After(spec, w, polls, n).status)
    ensures Terminal(After(spec, w, polls, k).status)
    decreases k
  {
    if n < k {
      hide ExperimentStep, Terminal;
      TerminalStays(spec, w, polls, n, k - 1);
      TerminalStep(spec, Seen(After(spec, w, polls, k - 1), polls(k - 1)), polls(k - 1).input);
    }
  }

  lemma PassingRunEnds(spec: Spec, w: World, polls: nat -> Poll) returns (n: nat)
    requires ValidSpec(spec) && ValidStatus(spec, w.status) && Rising(spec, w, polls) && GatesPass(spec, w, polls)
    ensures Terminal(After(spec, w, polls, n).status)
  {
    hide After, Terminal, InGate, Rising, ValidSpec, Passes;
    var m: nat := 0;
    if InGate(spec, After(spec, w, polls, 0).status) {
      m :| PassesAt(spec, w, polls, 0, m);
    }
    n := RunEnds(spec, w, polls, 0, m);
  }

  lemma EndedGatePassed(spec: Spec, w: World, polls: nat -> Poll, k: nat, n: nat)
    requires ValidSpec(spec) && ValidStatus(spec, w.status) && Rising(spec, w, polls)
    requires InGate(spec, After(spec, w, polls, k).status) && Terminal(After(spec, w, polls, n).status)
    ensures exists m: nat :: PassesAt(spec, w, polls, k, m)
  {
    hide ExperimentStep, After, Passes;
    if forall m: nat :: !PassesAt(spec, w, polls, k, m) {
      var last := if n < k then k else n;
      TerminalStays(spec, w, polls, n, last);
      forall j: nat | k <= j ensures !Passes(spec, After(spec, w, polls, k).status, polls(j)) {
        assert !PassesAt(spec, w, polls, k, j);
      }
      GateStays(spec, w, polls, k, last - k);
    }
  }

  lemma EndedRunPassed(spec: Spec, w: World, polls: nat -> Poll, n: nat)
    requires ValidSpec(spec) && ValidStatus(spec, w.status) && Rising(spec, w, polls)
    requires Terminal(After(spec, w, polls, n).status)
    ensures GatesPass(spec, w, polls)
  {
    hide After, Terminal, InGate, Rising, ValidSpec, PassesAt;
    forall k: nat | InGate(spec, After(spec, w, polls, k).status)
      ensures exists m: nat :: PassesAt(spec, w, polls, k, m)
    {
      EndedGatePassed(spec, w, polls, k, n);
    }
  }

  /** With succeeding patches and a clock that rises during timed waits, a run ends if and only if
      every window it opens meets a poll on the sampling grid at or beyond its duration, and every
      wait for the topology a poll that can read it and finds it Active, failed or overdue. */
  lemma RisingRunEndsIff(spec: Spec, w: World, polls: nat -> Poll)
    requires ValidSpec(spec) && ValidStatus(spec, w.status) && Rising(spec, w, polls)
    ensures (exists n: nat :: Terminal(After(spec, w, polls, n).status)) <==> GatesPass(spec, w, polls)
  {
    hide *;
    if GatesPass(spec, w, polls) {
      var n := PassingRunEnds(spec, w, polls);
    }
    if n: nat :| Terminal(After(spec, w, polls, n).status) {
      EndedRunPassed(spec, w, polls, n);
    }
  }

  // ---------- one-second readings ----------

  /** However often the topology cannot be read, there is a later poll that can read it. */
  ghost predicate ReadsRecur(polls: nat -> Poll) {
    forall k: nat :: ReadLater(polls, k)
  }

  ghost predicate ReadLater(polls: nat -> Poll, k: nat) {
    exists m: nat :: ReadAt(polls, k, m)
  }

  predicate ReadAt(polls: nat -> Poll, k: nat, m: nat) {
    m >= k && polls(m).input.topologyReadOk
  }

  /** As long as no poll passes the gate, the readings go up with the polls. */
  lemma {:induction false} ReadingsGoUp(spec: Spec, w: World, polls: nat -> Poll, k: nat, m: nat)
    requires ValidSpec(spec) && ValidStatus(spec, w.status) && Paced(spec, w, polls)
    requires InGate(spec, After(spec, w, polls, k).status)
    requires forall j: nat | k <= j < k + m :: !Passes(spec, After(spec, w, polls, k).status, polls(j))
    ensures polls(k + m).input.elapsed >= polls(k).input.elapsed + m
    ensures Measuring(After(spec, w, polls, k).status.subPhase) ==>
              polls(k + m).input.elapsed == polls(k).input.elapsed + m
  {
    hide After, Passes, ValidSpec;
    if m > 0 {
      ReadingsGoUp(spec, w, polls, k, m - 1);
      GateStays(spec, w, polls, k, m - 1);
      assert SubPhaseAt(spec, w, polls, k + m - 1) == SubPhaseAt(spec, w, polls, k);
      assert SubPhaseAt(spec, w, polls, k + m - 1 + 1) == SubPhaseAt(spec, w, polls, k);
    }
  }

  ghost predicate NeverPasses(spec: Spec, w: World, polls: nat -> Poll, k: nat)
    requires ValidSpec(spec) && ValidStatus(spec, w.status)
  {
    forall j: nat | k <= j :: !Passes(spec, After(spec, w, polls, k).status, polls(j))
  }

  lemma PacedWindowPasses(spec: Spec, w: World, polls: nat -> Poll, k: nat)
    requires ValidSpec(spec) && ValidStatus(spec, w.status) && Paced(spec, w, polls)
    requires InWindow(spec, After(spec, w, polls, k).status)
    ensures !NeverPasses(spec, w, polls, k)
  {
    hide After, Paced, WindowExit, SampleInterval, ValidSpec;
    if NeverPasses(spec, w, polls, k) {
      var st, reading := After(spec, w, polls, k).status, polls(k).input.elapsed;
      WindowExitLater(spec, st.duration, reading);
      var m := WindowExit(spec, st.duration, reading) - reading;
      ReadingsGoUp(spec, w, polls, k, m);
    }
  }

  lemma PacedWaitPasses(spec: Spec, w: World, polls: nat -> Poll, k: nat)
    requires ValidSpec(spec) && ValidStatus(spec, w.status) && Paced(spec, w, polls) && ReadsRecur(polls)
    requires InGate(spec, After(spec, w, polls, k).status)
    requires After(spec, w, polls, k).status.subPhase.WaitingForTopology?
    ensures !NeverPasses(spec, w, polls, k)
  {
    hide After, Paced, ValidSpec;
    if NeverPasses(spec, w, polls, k) {
      assert ReadLater(polls, k + TOPOLOGY_TIMEOUT + 1);
      var m: nat :| ReadAt(polls, k + TOPOLOGY_TIMEOUT + 1, m);
      ReadingsGoUp(spec, w, polls, k, m - k);
    }
  }

  lemma PacedGatePasses(spec: Spec, w: World, polls: nat -> Poll, k: nat)
    requires ValidSpec(spec) && ValidStatus(spec, w.status) && Paced(spec, w, polls) && ReadsRecur(polls)
    requires InGate(spec, After(spec, w, polls, k).status)
    ensures exists m: nat :: PassesAt(spec, w, polls, k, m)
  {
    hide After, Paced, ReadsRecur, Passes, ValidSpec;
    if Measuring(After(spec, w, polls, k).status.subPhase) {
      PacedWindowPasses(spec, w, polls, k);
    } else {
      PacedWaitPasses(spec, w, polls, k);
    }
    var m: nat :| k <= m && Passes(spec, After(spec, w, polls, k).status, polls(m));
    assert PassesAt(spec, w, polls, k, m);
  }

  lemma PacedIsRising(spec: Spec, w: World, polls: nat -> Poll)
    requires ValidSpec(spec) && ValidStatus(spec, w.status) && Paced(spec, w, polls)
    ensures Rising(spec, w, polls)
  {
    hide After, ValidSpec;
  }

  /** Total correctness: from any state the run reaches Succeeded or Failed, if patches succeed, the
      clock rises by one second per poll in a window and at all elsewhere, and the topology can be
      read again and again. */
  lemma RunTerminates(spec: Spec, w: World, polls: nat -> Poll, k: nat) returns (n: nat)
    requires ValidSpec(spec) && ValidStatus(spec, w.status) && Paced(spec, w, polls) && ReadsRecur(polls)
    ensures n >= k && Terminal(After(spec, w, polls, n).status)
  {
    hide After, Terminal, InGate, Rising, Paced, ReadsRecur, ValidSpec, PassesAt;
    PacedIsRising(spec, w, polls);
    forall k: nat | InGate(spec, After(spec, w, polls, k).status)
      ensures exists m: nat :: PassesAt(spec, w, polls, k, m)
    {
      PacedGatePasses(spec, w, polls, k);
    }
    var end := PassingRunEnds(spec, w, polls);
    n := if end < k then k else end;
    TerminalStays(spec, w, polls, end, n);
  }

  // ---------- a clock that skips the closing second ----------

  /** So one-second readings matter: with a two-second interval and only odd readings, rising from
      poll to poll, the window never closes and the run never ends. */
  lemma OddReadingsNeverEnd(w: World, n: nat)
    requires w.status.phase.Running? && w.status.subPhase.ChaosMeasurement?
    requires w.status.completed == 0 && w.status.measurement == []
    ensures var (spec, polls) := (OddSpec(), (j: nat) => OddPoll(j));
            && ValidSpec(spec) && ValidStatus(spec, w.status)
            && polls(n).input.patchOk && polls(n).input.elapsed < polls(n + 1).input.elapsed
            && !Terminal(After(spec, w, polls, n).status)
  {
    hide ExperimentStep, Closing;
    var spec, polls := OddSpec(), (j: nat) => OddPoll(j);
    forall j: nat ensures !Closing(spec, w.status.duration, polls(j).input) {
      OddIsOffGrid(j, w.status.duration);
    }
    WindowClosesIff(spec, w, polls, 0, n);
  }

  lemma OddIsOffGrid(j: nat, duration: int)
    ensures ValidSpec(OddSpec()) && !Closing(OddSpec(), duration, OddPoll(j).input)
  {
    assert (2 * j + 1) % 2 == 1;
  }

  function OddSpec(): Spec {
    Spec(1, 0, None, None, None, None, Some(2), Manifests(false, false, false, false), false, false, [])
  }

  function OddPoll(j: nat): Poll {
    Poll(Input(2 * j + 1, "", [], None, true, {}, true, true, true, {}, {}, true), None, {})
  }

  /** A topology that can never be read holds the run in its wait forever: the timeout is only looked
      at after a successful read. */
  lemma FailingReadsNeverEnd(spec: Spec, w: World, n: nat)
    requires ValidSpec(spec) && ValidStatus(spec, w.status)
    requires Dispatches(spec, w.status) && w.status.subPhase.WaitingForTopology?
    ensures var polls := (j: nat) => UnreadPoll(j);
            && polls(n).input.patchOk && polls(n + 1).input.elapsed == polls(n).input.elapsed + 1
            && !Terminal(After(spec, w, polls, n).status)
            && After(spec, w, polls, n).status.subPhase.WaitingForTopology?
  {
    hide ExperimentStep;
    var polls := (j: nat) => UnreadPoll(j);
    assert After(spec, w, polls, 0) == w;
    GateStays(spec, w, polls, 0, n);
  }

  function UnreadPoll(j: nat): Poll {
    Poll(Input(j, "", [], None, true, {}, false, true, true, {}, {}, true), None, {})
  }
}
