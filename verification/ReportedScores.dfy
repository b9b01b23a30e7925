/** From the samples of a run to the scores it reports. */
module ReportedScores {
  import opened SloScores
  import opened ResultFacts
  import opened ExperimentModel
  import opened TopologyModel
  import opened ExperimentRuns
  import opened MeasurementWindows

  /** Query results are non-negative, as the measured latencies, rates and counts are. */
  ghost predicate NonNegative(e: Event) {
    e.ExperimentReconcile? ==>
      forall i: nat | QueryAt(e.input.queries, i).Some? :: QueryAt(e.input.queries, i).value >= 0.0
  }

  ghost predicate WeightsSumToOne(slos: seq<Slo>) {
    && UniqueNames(slos) && ValidThresholds(slos) && SumWeights(slos) == 1.0
    && forall slo | slo in slos :: slo.weight >= 0.0
  }

  ghost predicate NonNegativeReading(r: Reading) {
    forall i: nat | QueryAt(r.queries, i).Some? :: QueryAt(r.queries, i).value >= 0.0
  }

  ghost predicate ResultOk(slos: seq<Slo>, r: RepetitionResult) {
    && InUnit(r.aggregateScore) && |r.sloResults| == |slos|
    && forall i | 0 <= i < |r.sloResults| :: InUnit(r.sloResults[i].violationScore)
  }

  lemma {:induction false} ReadingsNonNegative(spec: Spec, tspec: TopologySpec, w0: World, events: seq<Event>)
    requires ValidSpec(spec) && ValidStatus(spec, w0.status) && forall e | e in events :: NonNegative(e)
    ensures forall r | r in Readings(spec, tspec, w0, events) :: NonNegativeReading(r)
  {
    if events != [] {
      hide Run, Takes;
      var front, e := events[..|events| - 1], events[|events| - 1];
      ReadingsNonNegative(spec, tspec, w0, front);
      assert NonNegative(e);
    }
  }

  lemma {:induction false} ValuesNonNegative(readings: seq<Reading>, n: nat, phase: SubPhase, i: nat)
    requires forall r | r in readings :: NonNegativeReading(r)
    ensures forall r | r in Window(readings, n, phase) :: NonNegativeReading(r)
    ensures NoneBelow(ValuesOf(Window(readings, n, phase), i), 0.0)
  {
    hide NonNegativeReading;
    if readings != [] {
      ValuesNonNegative(readings[..|readings| - 1], n, phase, i);
    }
    FoundValuesNonNegative(Window(readings, n, phase), i);
  }

  lemma {:induction false} FoundValuesNonNegative(window: seq<Reading>, i: nat)
    requires forall r | r in window :: NonNegativeReading(r)
    ensures NoneBelow(ValuesOf(window, i), 0.0)
  {
    if window != [] {
      FoundValuesNonNegative(window[..|window| - 1], i);
      assert NonNegativeReading(window[|window| - 1]);
    }
  }

  lemma SummariesMeasured(slos: seq<Slo>, readings: seq<Reading>, n: nat, phase: SubPhase)
    requires forall r | r in readings :: NonNegativeReading(r)
    ensures Measured(slos, Summaries(slos, Window(readings, n, phase)))
  {
    hide NonNegativeReading, Window;
    forall i | 0 <= i < |slos| ensures NoneBelow(ValuesOf(Window(readings, n, phase), i), 0.0) {
      ValuesNonNegative(readings, n, phase, i);
    }
  }

  /** Every score and every aggregate that any run ever reports lies between 0 and 1. */
  lemma {:induction false} ReportedInUnit(spec: Spec, tspec: TopologySpec, w0: World, events: seq<Event>)
    requires ValidSpec(spec) && Fresh(w0) && WeightsSumToOne(spec.slos) && forall e | e in events :: NonNegative(e)
    ensures forall r | r in Run(spec, tspec, w0, events).results :: ResultOk(spec.slos, r)
  {
    if events != [] {
      hide Step, ResultOk, NonNegative, WeightsSumToOne, ValidSpec;
      var front, e := events[..|events| - 1], events[|events| - 1];
      ReportedInUnit(spec, tspec, w0, front);
      StepReportsInUnit(spec, tspec, w0, front, e);
    }
  }

  lemma StepReportsInUnit(spec: Spec, tspec: TopologySpec, w0: World, events: seq<Event>, e: Event)
    requires ValidSpec(spec) && Fresh(w0) && WeightsSumToOne(spec.slos) && forall e | e in events :: NonNegative(e)
    ensures var w := Run(spec, tspec, w0, events);
            forall r | r in Step(spec, tspec, w, e).results :: r in w.results || ResultOk(spec.slos, r)
  {
    hide Run, Step, WindowResult, Readings, NonNegative, NonNegativeReading, WeightsSumToOne, ResultOk, ValidSpec;
    ResultIsOfChaosWindow(spec, tspec, w0, events, e);
    ReadingsNonNegative(spec, tspec, w0, events);
    WindowResultOk(spec, Run(spec, tspec, w0, events).status.completed + 1, Readings(spec, tspec, w0, events));
  }

  lemma WindowResultOk(spec: Spec, n: nat, readings: seq<Reading>)
    requires WeightsSumToOne(spec.slos) && forall r | r in readings :: NonNegativeReading(r)
    ensures var result := WindowResult(spec, n, readings); result.Some? && ResultOk(spec.slos, result.value)
  {
    hide NonNegativeReading, Summaries, Window, Measured, InUnit, ResultOf, UniqueNames, SumWeights;
    SummariesMeasured(spec.slos, readings, n, ChaosMeasurement);
    ResultInUnit(n, spec.slos, Summaries(spec.slos, Window(readings, n, ChaosMeasurement)));
  }

  /** How a reported score stands to the reference computed tick by tick: never above it where
      bigger is better; where smaller is better not below it if and only if the reciprocal of the mean
      is at most the mean of the reciprocals, so never if no sample is below the threshold, and with
      the mean within the threshold if and only if no sample is above it. */
  ghost predicate AgainstReference(slo: Slo, values: seq<real>, score: real)
    requires slo.threshold > 0.0 && values != []
  {
    && score == Overshoot(slo, Mean(values))
    && (slo.isBiggerBetter ==> score <= ReferenceScore(slo, values))
    && (slo.isBiggerBetter && NoneAbove(values, slo.threshold) ==> score == ReferenceScore(slo, values))
    && (!slo.isBiggerBetter && NoneBelow(values, slo.threshold) ==> score >= ReferenceScore(slo, values))
    && (!slo.isBiggerBetter ==>
          (score >= ReferenceScore(slo, values) <==>
             1.0 / AtLeast(slo.threshold, Mean(values)) <= SumReciprocals(slo.threshold, values) / |values| as real))
    && (!slo.isBiggerBetter && Mean(values) <= slo.threshold ==>
          (score >= ReferenceScore(slo, values) <==> NoneAbove(values, slo.threshold)))
  }

  lemma MeanAgainstReference(slo: Slo, values: seq<real>)
    requires slo.threshold > 0.0 && values != []
    ensures AgainstReference(slo, values, Overshoot(slo, Mean(values)))
  {
    hide Overshoot, ReferenceScore, Mean, NoneAbove, NoneBelow, SumReciprocals, AtLeast;
    if slo.isBiggerBetter {
      BiggerBetterAtMostReference(slo, values);
    } else {
      SmallerBetterIff(slo, values);
      if NoneBelow(values, slo.threshold) {
        SmallerBetterAtLeastReference(slo, values);
      }
      if Mean(values) <= slo.threshold {
        SmallerBetterWithinThresholdIff(slo, values);
      }
    }
  }

  lemma WindowScore(slos: seq<Slo>, n: nat, window: seq<Reading>, i: nat)
    requires UniqueNames(slos) && ResultOf(n, slos, Summaries(slos, window)).Some?
    requires i < |slos| && slos[i].threshold > 0.0 && ValuesOf(window, i) != []
    ensures var scores := ResultOf(n, slos, Summaries(slos, window)).value.sloResults;
            |scores| == |slos| && AgainstReference(slos[i], ValuesOf(window, i), scores[i].violationScore)
  {
    var states := Summaries(slos, window);
    assert states[i] == Summary(slos[i], ValuesOf(window, i));
    ReportedScore(slos, states, n, i);
    MeanAgainstReference(slos[i], ValuesOf(window, i));
    hide ResultOf, AgainstReference, Overshoot, Mean, ValuesOf, Summaries;
  }

  /** The samples of one SLO in the chaos window of the current repetition. */
  function ChaosValues(spec: Spec, tspec: TopologySpec, w0: World, events: seq<Event>, i: nat): seq<real>
    requires ValidSpec(spec) && ValidStatus(spec, w0.status)
  {
    var n := Run(spec, tspec, w0, events).status.completed + 1;
    ValuesOf(Window(Readings(spec, tspec, w0, events), n, ChaosMeasurement), i)
  }

  /** Every score a run reports stands so to the reference over the samples of that repetition's
      chaos window. */
  lemma ReportedAgainstReference(spec: Spec, tspec: TopologySpec, w0: World, events: seq<Event>, e: Event, i: nat)
    returns (r: RepetitionResult)
    requires ValidSpec(spec) && Fresh(w0) && UniqueNames(spec.slos) && i < |spec.slos| && spec.slos[i].threshold > 0.0
    requires Step(spec, tspec, Run(spec, tspec, w0, events), e).results != Run(spec, tspec, w0, events).results
    requires ChaosValues(spec, tspec, w0, events, i) != []
    ensures Step(spec, tspec, Run(spec, tspec, w0, events), e).results == Run(spec, tspec, w0, events).results + [r]
    ensures |r.sloResults| == |spec.slos|
    ensures AgainstReference(spec.slos[i], ChaosValues(spec, tspec, w0, events, i), r.sloResults[i].violationScore)
  {
    hide Run, Step, ResultOf, Window, Readings, UniqueNames, ValuesOf, Summaries, AgainstReference;
    var n := Run(spec, tspec, w0, events).status.completed + 1;
    var window := Window(Readings(spec, tspec, w0, events), n, ChaosMeasurement);
    ResultIsOfChaosWindow(spec, tspec, w0, events, e);
    r := WindowResult(spec, n, Readings(spec, tspec, w0, events)).value;
    WindowScore(spec.slos, n, window, i);
  }

  /** The samples of every SLO in the chaos window of the current repetition. */
  function ChaosSamples(spec: Spec, tspec: TopologySpec, w0: World, events: seq<Event>): seq<seq<real>>
    requires ValidSpec(spec) && ValidStatus(spec, w0.status)
  {
    seq(|spec.slos|, i requires 0 <= i < |spec.slos| => ChaosValues(spec, tspec, w0, events, i))
  }

  lemma WindowDescribed(slos: seq<Slo>, n: nat, window: seq<Reading>)
    requires UniqueNames(slos) && ResultOf(n, slos, Summaries(slos, window)).Some?
    ensures var r := ResultOf(n, slos, Summaries(slos, window)).value;
            && r.repetition == n && |r.sloResults| == |slos|
            && (forall i | 0 <= i < |slos| :: Describes(slos[i], ValuesOf(window, i), r.sloResults[i]))
            && r.aggregateScore == Weighted(slos, r.sloResults)
  {
    hide ResultOf, Describes, Summary, UniqueNames, Weighted, ValuesOf;
    var states := Summaries(slos, window);
    forall i | 0 <= i < |slos|
      ensures states[i].values == ValuesOf(window, i) && states[i] == Summary(slos[i], states[i].values)
    {
      SummaryValues(slos[i], ValuesOf(window, i));
    }
    ResultDescribes(n, slos, states);
  }

  lemma SummaryValues(slo: Slo, values: seq<real>)
    ensures Summary(slo, values).values == values
  {}

  /** Every result that a run reports describes exactly the samples of its own chaos window; its aggregate
      weighs the scores by their own SLOs, and is positive if and only if an SLO that counts has a mean
      on the wrong side of its threshold. */
  lemma ReportedDescribes(spec: Spec, tspec: TopologySpec, w0: World, events: seq<Event>, e: Event)
    returns (r: RepetitionResult)
    requires ValidSpec(spec) && Fresh(w0) && UniqueNames(spec.slos)
    requires Step(spec, tspec, Run(spec, tspec, w0, events), e).results != Run(spec, tspec, w0, events).results
    ensures Step(spec, tspec, Run(spec, tspec, w0, events), e).results == Run(spec, tspec, w0, events).results + [r]
    ensures r.repetition == Run(spec, tspec, w0, events).status.completed + 1 && |r.sloResults| == |spec.slos|
    ensures forall i | 0 <= i < |spec.slos| ::
              Describes(spec.slos[i], ChaosValues(spec, tspec, w0, events, i), r.sloResults[i])
    ensures r.aggregateScore == Weighted(spec.slos, r.sloResults)
    ensures ValidThresholds(spec.slos) && (forall slo | slo in spec.slos :: slo.weight >= 0.0) ==>
              (r.aggregateScore > 0.0 <==> SomeMisses(spec.slos, ChaosSamples(spec, tspec, w0, events)))
  {
    hide Run, Step, ResultOf, Window, Readings, UniqueNames, ValuesOf, Summaries, Describes, Weighted, SomeMisses;
    var n := Run(spec, tspec, w0, events).status.completed + 1;
    var window := Window(Readings(spec, tspec, w0, events), n, ChaosMeasurement);
    ResultIsOfChaosWindow(spec, tspec, w0, events, e);
    r := WindowResult(spec, n, Readings(spec, tspec, w0, events)).value;
    WindowDescribed(spec.slos, n, window);
    if ValidThresholds(spec.slos) && forall slo | slo in spec.slos :: slo.weight >= 0.0 {
      hide ScoresMean;
      forall i | 0 <= i < |spec.slos|
        ensures ScoresMean(spec.slos[i], ChaosSamples(spec, tspec, w0, events)[i], r.sloResults[i].violationScore)
      {
        DescribedName(spec.slos[i], ValuesOf(window, i), r.sloResults[i]);
      }
      WeightedPositiveIff(spec.slos, ChaosSamples(spec, tspec, w0, events), r.sloResults);
    }
  }
}
