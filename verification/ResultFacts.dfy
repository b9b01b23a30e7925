/** What a repetition result says, said of the samples of its window alone. */
module ResultFacts {
  import opened Wrappers
  import opened SloScores

  /** The positions of the samples on the wrong side of the threshold. */
  ghost function Misses(slo: Slo, values: seq<real>): set<nat> {
    set k: nat | k < |values| && if slo.isBiggerBetter then values[k] < slo.threshold else values[k] > slo.threshold
  }

  /** The mean of the samples is on the wrong side of the threshold. */
  ghost predicate MeanMisses(slo: Slo, values: seq<real>) {
    values != [] && if slo.isBiggerBetter then Mean(values) < slo.threshold else Mean(values) > slo.threshold
  }

  /** The score of a mean on the wrong side is its distance to the threshold as a share of the larger of
      the two; it is zero on the right side and without samples. */
  ghost predicate ScoresMean(slo: Slo, values: seq<real>, score: real) {
    if !MeanMisses(slo, values) then score == 0.0
    else if slo.isBiggerBetter then slo.threshold != 0.0 && score * slo.threshold == slo.threshold - Mean(values)
    else Mean(values) != 0.0 && score * Mean(values) == Mean(values) - slo.threshold
  }

  /** The extremes of the samples; the largest is never reported below zero. */
  ghost predicate Extremes(values: seq<real>, min: Option<real>, max: Option<real>) {
    if values == [] then min == max == None else
      && min.Some? && min.value in values && (forall v | v in values :: min.value <= v)
      && max.Some? && (max.value in values || max.value == 0.0) && max.value >= 0.0
      && (forall v | v in values :: v <= max.value)
  }

  ghost predicate Describes(slo: Slo, values: seq<real>, r: SloResult) {
    && r.name == slo.name && r.evaluations == |values| && r.violations == |Misses(slo, values)|
    && r.meanSli == (if values == [] then 0.0 else Mean(values))
    && Extremes(values, r.minSli, r.maxSli)
    && ScoresMean(slo, values, r.violationScore)
  }

  /** The scores weighted by their SLOs. */
  function Weighted(slos: seq<Slo>, results: seq<SloResult>): real
    requires |slos| == |results|
  {
    if slos == [] then 0.0 else
      var n := |slos| - 1;
      Weighted(slos[..n], results[..n]) + slos[n].weight * results[n].violationScore
  }

  // ---------- the folds ----------

  lemma {:induction false} ViolatingCounts(slo: Slo, values: seq<real>)
    ensures Violating(slo, values) == |Misses(slo, values)|
  {
    if values == [] {
      assert Misses(slo, values) == {};
    } else {
      var n := |values| - 1;
      ViolatingCounts(slo, values[..n]);
      assert Misses(slo, values) ==
             Misses(slo, values[..n]) +
             if (if slo.isBiggerBetter then values[n] < slo.threshold else values[n] > slo.threshold) then {n} else {};
    }
  }

  lemma {:induction false} LeastIsLeast(values: seq<real>)
    requires values != []
    ensures Least(values) in values && forall v | v in values :: Least(values) <= v
  {
    var n := |values| - 1;
    assert values == values[..n] + [values[n]];
    if n > 0 {
      LeastIsLeast(values[..n]);
    }
  }

  lemma {:induction false} LargestIsLargest(values: seq<real>)
    ensures LargestOrZero(values) >= 0.0 && (LargestOrZero(values) in values || LargestOrZero(values) == 0.0)
    ensures forall v | v in values :: v <= LargestOrZero(values)
  {
    if values != [] {
      var n := |values| - 1;
      assert values == values[..n] + [values[n]];
      LargestIsLargest(values[..n]);
    }
  }

  lemma SummaryExtremes(slo: Slo, values: seq<real>)
    ensures var s := Summary(slo, values);
            Extremes(values, if s.minSet then Some(s.min) else None, if s.minSet then Some(s.max) else None)
  {
    LargestIsLargest(values);
    if values != [] {
      LeastIsLeast(values);
    }
  }

  lemma OvershootScoresMean(slo: Slo, values: seq<real>)
    requires values != [] && Divides(slo, Mean(values))
    ensures ScoresMean(slo, values, Overshoot(slo, Mean(values)))
  {
    hide Mean;
    var t, m := slo.threshold, Mean(values);
    if MeanMisses(slo, values) {
      if slo.isBiggerBetter {
        assert m / t * t == m;
      } else {
        assert t / m * m == t;
      }
    }
  }

  lemma SummaryDescribed(byName: map<string, Slo>, slo: Slo, values: seq<real>)
    requires slo.name in byName && byName[slo.name] == slo && HasScore(byName, Summary(slo, values))
    ensures Describes(slo, values, SloResultOf(byName, Summary(slo, values)))
  {
    ViolatingCounts(slo, values);
    SummaryExtremes(slo, values);
    hide Violating, Misses, Extremes, Least, LargestOrZero, Sum, ScoresMean, Overshoot, Divides;
    var s := Summary(slo, values);
    if values == [] {
      NoSamplesNoScore(slo);
    } else {
      assert MeanOf(s) == Mean(values);
      OvershootScoresMean(slo, values);
    }
  }

  lemma NoSamplesNoScore(slo: Slo)
    ensures ScoresMean(slo, [], 0.0)
  {}

  lemma {:induction false} WeightedIs(byName: map<string, Slo>, slos: seq<Slo>, results: seq<SloResult>)
    requires |results| == |slos|
    requires forall i | 0 <= i < |slos| ::
               slos[i].name in byName && byName[slos[i].name] == slos[i] && results[i].name == slos[i].name
    ensures WeightedSum(byName, results) == Weighted(slos, results)
  {
    if slos != [] {
      WeightedIs(byName, slos[..|slos| - 1], results[..|slos| - 1]);
    }
  }

  /** A result describes, SLO by SLO, the samples its states were recorded from, and its aggregate is the
      sum of the scores weighted by their own SLOs. */
  lemma ResultDescribes(repetition: nat, slos: seq<Slo>, states: seq<SloState>)
    requires UniqueNames(slos) && |states| == |slos| && ResultOf(repetition, slos, states).Some?
    requires forall i | 0 <= i < |slos| :: states[i] == Summary(slos[i], states[i].values)
    ensures var r := ResultOf(repetition, slos, states).value;
            && r.repetition == repetition && |r.sloResults| == |slos|
            && (forall i | 0 <= i < |slos| :: Describes(slos[i], states[i].values, r.sloResults[i]))
            && r.aggregateScore == Weighted(slos, r.sloResults)
  {
    hide Describes, Summary, SloResultOf, HasScore, WeightedSum;
    var r := ResultOf(repetition, slos, states).value;
    var byName := SloByName(slos);
    forall i | 0 <= i < |slos|
      ensures slos[i].name in byName && byName[slos[i].name] == slos[i]
      ensures Describes(slos[i], states[i].values, r.sloResults[i])
      ensures r.sloResults[i].name == slos[i].name
    {
      ByUniqueName(slos, i);
      assert states[i] in states;
      SummaryDescribed(byName, slos[i], states[i].values);
      DescribedName(slos[i], states[i].values, r.sloResults[i]);
    }
    WeightedIs(byName, slos, r.sloResults);
  }

  lemma DescribedName(slo: Slo, values: seq<real>, r: SloResult)
    requires Describes(slo, values, r)
    ensures r.name == slo.name && ScoresMean(slo, values, r.violationScore)
  {}

  // ---------- when an aggregate is positive ----------

  lemma ScorePositiveIff(slo: Slo, values: seq<real>, score: real)
    requires ValidThreshold(slo) && ScoresMean(slo, values, score)
    ensures score >= 0.0 && (score > 0.0 <==> MeanMisses(slo, values))
  {
    hide Mean;
    if MeanMisses(slo, values) {
      var base := if slo.isBiggerBetter then slo.threshold else Mean(values);
      assert base > 0.0 && score * base > 0.0;
      if score <= 0.0 {
        Scale(score, 0.0, base);
      }
    }
  }

  /** Some SLO that counts has a mean on the wrong side of its threshold. */
  ghost predicate SomeMisses(slos: seq<Slo>, samples: seq<seq<real>>)
    requires |samples| == |slos|
  {
    exists i | 0 <= i < |slos| :: slos[i].weight > 0.0 && MeanMisses(slos[i], samples[i])
  }

  lemma SomeMissesOfFront(slos: seq<Slo>, samples: seq<seq<real>>)
    requires |samples| == |slos| && slos != []
    ensures var n := |slos| - 1;
            SomeMisses(slos, samples) <==>
              SomeMisses(slos[..n], samples[..n]) || (slos[n].weight > 0.0 && MeanMisses(slos[n], samples[n]))
  {
    hide MeanMisses;
    var n := |slos| - 1;
    assert forall i | 0 <= i < n :: slos[..n][i] == slos[i] && samples[..n][i] == samples[i];
    if SomeMisses(slos[..n], samples[..n]) {
      var i :| 0 <= i < n && slos[..n][i].weight > 0.0 && MeanMisses(slos[..n][i], samples[..n][i]);
      assert slos[i].weight > 0.0 && MeanMisses(slos[i], samples[i]);
    }
  }

  lemma PositiveProduct(w: real, score: real)
    requires w >= 0.0 && score >= 0.0
    ensures w * score >= 0.0 && (w * score > 0.0 <==> w > 0.0 && score > 0.0)
  {}

  /** The aggregate is positive if and only if some SLO of positive weight has such a mean. */
  lemma {:induction false} WeightedPositiveIff(slos: seq<Slo>, samples: seq<seq<real>>, results: seq<SloResult>)
    requires |results| == |slos| == |samples|
    requires forall i | 0 <= i < |slos| ::
               && slos[i].weight >= 0.0 && ValidThreshold(slos[i])
               && ScoresMean(slos[i], samples[i], results[i].violationScore)
    ensures Weighted(slos, results) >= 0.0
    ensures Weighted(slos, results) > 0.0 <==> SomeMisses(slos, samples)
  {
    if slos != [] {
      hide ScoresMean, MeanMisses, SomeMisses;
      var n := |slos| - 1;
      WeightedPositiveIff(slos[..n], samples[..n], results[..n]);
      ScorePositiveIff(slos[n], samples[n], results[n].violationScore);
      PositiveProduct(slos[n].weight, results[n].violationScore);
      SomeMissesOfFront(slos, samples);
    }
  }
}
