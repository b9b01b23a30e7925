/** Measurement aggregates, the repetition result built from them, and how its scores relate to
    the per-tick reference score of the Python experiment runner. */
module SloScores {
  import opened Wrappers

  datatype Slo = Slo(name: string, threshold: real, isBiggerBetter: bool, weight: real)

  datatype SloState = SloState(name: string, sum: real, count: nat, violations: nat,
                               min: real, max: real, minSet: bool, values: seq<real>)

  datatype SloResult = SloResult(name: string, violationScore: real, meanSli: real,
                                 minSli: Option<real>, maxSli: Option<real>, evaluations: nat, violations: nat)

  datatype RepetitionResult = RepetitionResult(repetition: nat, sloResults: seq<SloResult>, aggregateScore: real)

  /** Thresholds for which no score divides by zero, whatever the values. */
  predicate ValidThreshold(slo: Slo) {
    slo.threshold > 0.0 || (slo.threshold == 0.0 && !slo.isBiggerBetter)
  }

  ghost predicate ValidThresholds(slos: seq<Slo>) {
    forall i | 0 <= i < |slos| :: ValidThreshold(slos[i])
  }

  /** The score of this value does not divide by zero. */
  predicate Divides(slo: Slo, v: real) {
    if slo.isBiggerBetter then v < slo.threshold ==> slo.threshold != 0.0 else v > slo.threshold ==> v != 0.0
  }

  predicate AllDivide(slo: Slo, values: seq<real>) {
    forall v | v in values :: Divides(slo, v)
  }

  // ---------- aggregates ----------

  function Sum(values: seq<real>): real {
    if values == [] then 0.0 else Sum(values[..|values| - 1]) + values[|values| - 1]
  }

  function Least(values: seq<real>): real
    requires values != []
  {
    var v := values[|values| - 1];
    if |values| == 1 || v < Least(values[..|values| - 1]) then v else Least(values[..|values| - 1])
  }

  /** The largest value, but never less than zero. */
  function LargestOrZero(values: seq<real>): real {
    if values == [] then 0.0 else
      var v, m := values[|values| - 1], LargestOrZero(values[..|values| - 1]);
      if v > m then v else m
  }

  predicate Violates(slo: Slo, value: real) {
    if slo.isBiggerBetter then value < slo.threshold else value > slo.threshold
  }

  function Violating(slo: Slo, values: seq<real>): nat {
    if values == [] then 0 else
      Violating(slo, values[..|values| - 1]) + (if Violates(slo, values[|values| - 1]) then 1 else 0)
  }

  /** The aggregates of a list of values, each by its own fold. */
  function Summary(slo: Slo, values: seq<real>): SloState {
    SloState(slo.name, Sum(values), |values|, Violating(slo, values),
             if values == [] then 0.0 else Least(values), LargestOrZero(values), values != [], values)
  }

  /** One more value, as the controller updates the running aggregates in place. */
  function Recorded(slo: Slo, s: SloState, value: real): SloState {
    s.(sum := s.sum + value, count := s.count + 1,
       min := if !s.minSet || value < s.min then value else s.min, minSet := true,
       max := if value > s.max then value else s.max,
       violations := s.violations + (if Violates(slo, value) then 1 else 0),
       values := s.values + [value])
  }

  /** Running aggregates are folds over the recorded values. */
  lemma RecordedIsSummary(slo: Slo, values: seq<real>, value: real)
    ensures Recorded(slo, Summary(slo, values), value) == Summary(slo, values + [value])
  {
    assert (values + [value])[..|values|] == values;
  }

  /** Records the value if the elapsed second falls on a sample boundary. */
  method RecordMeasurement(state: SloState, value: real, slo: Slo, elapsed: nat, sampleInterval: nat)
    returns (s: SloState)
    requires sampleInterval > 0
    ensures s == if elapsed % sampleInterval == 0 then Recorded(slo, state, value) else state
    ensures elapsed % sampleInterval == 0 && state == Summary(slo, state.values) ==>
              s == Summary(slo, state.values + [value])
  {
    hide Summary;
    s := state;
    if elapsed % sampleInterval == 0 {
      s := s.(sum := s.sum + value, count := s.count + 1);
      if !s.minSet || value < s.min {
        s := s.(min := value, minSet := true);
      }
      if value > s.max {
        s := s.(max := value);
      }
      if slo.isBiggerBetter {
        if value < slo.threshold {
          s := s.(violations := s.violations + 1);
        }
      } else {
        if value > slo.threshold {
          s := s.(violations := s.violations + 1);
        }
      }
      s := s.(values := s.values + [value]);
      RecordedIsSummary(slo, state.values, value);
    }
  }

  // ---------- scores ----------

  /** How far a value overshoots the threshold, relative to the larger of the two. */
  function Overshoot(slo: Slo, v: real): real
    requires Divides(slo, v)
  {
    if slo.isBiggerBetter
    then if v < slo.threshold then 1.0 - v / slo.threshold else 0.0
    else if v > slo.threshold then 1.0 - slo.threshold / v else 0.0
  }

  function Mean(values: seq<real>): real
    requires values != []
  {
    Sum(values) / |values| as real
  }

  function SumOvershoot(slo: Slo, values: seq<real>): real
    requires AllDivide(slo, values)
  {
    if values == [] then 0.0 else
      SumOvershoot(slo, values[..|values| - 1]) + Overshoot(slo, values[|values| - 1])
  }

  /** The reference: the mean of the per-tick scores. */
  function ReferenceScore(slo: Slo, values: seq<real>): real
    requires AllDivide(slo, values) && values != []
  {
    SumOvershoot(slo, values) / |values| as real
  }

  /** The per-tick score sink of the Python runner. */
  class SloViolationScoreSink {
    var score: real
    var scoreCount: nat

    constructor ()
      ensures score == 0.0 && scoreCount == 0
    {
      score, scoreCount := 0.0, 0;
    }

    /** `ok` is false where Python divides by zero; the tick has been counted by then. */
    method EvaluateSlo(value: real, threshold: real, isBiggerBetter: bool) returns (ok: bool)
      modifies this
      ensures var slo := Slo("", threshold, isBiggerBetter, 0.0);
              && scoreCount == old(scoreCount) + 1 && ok == Divides(slo, value)
              && score == if ok then old(score) + Overshoot(slo, value) else old(score)
    {
      scoreCount := scoreCount + 1;
      if isBiggerBetter {
        if value < threshold {
          if threshold == 0.0 {
            return false;
          }
          var violationScore := 1.0 - value / threshold;
          score := score + violationScore;
        }
      } else {
        if value > threshold {
          if value == 0.0 {
            return false;
          }
          var violationScore := 1.0 - threshold / value;
          score := score + violationScore;
        }
      }
      ok := true;
    }

    /** None where Python divides by zero, before any evaluation. */
    method GetScore() returns (r: Option<real>)
      ensures r == if scoreCount == 0 then None else Some(score / scoreCount as real)
    {
      r := if scoreCount == 0 then None else Some(score / scoreCount as real);
    }
  }

  /** Feeding the sink one value after the other computes the reference score; a division by zero
      on the way, or at the end without values, leaves none. */
  method ScoreByTicks(slo: Slo, values: seq<real>) returns (r: Option<real>)
    ensures r == if values == [] || !AllDivide(slo, values) then None else Some(ReferenceScore(slo, values))
  {
    var sink := new SloViolationScoreSink();
    var i := 0;
    while i < |values|
      invariant 0 <= i <= |values| && sink.scoreCount == i && AllDivide(slo, values[..i])
      invariant sink.score == SumOvershoot(slo, values[..i])
    {
      assert values[..i + 1][..i] == values[..i] && values[..i + 1] == values[..i] + [values[i]];
      var ok := sink.EvaluateSlo(values[i], slo.threshold, slo.isBiggerBetter);
      if !ok {
        assert values[i] in values;
        return None;
      }
      i := i + 1;
    }
    assert values[..i] == values;
    r := sink.GetScore();
  }

  // ---------- the repetition result ----------

  /** The SLO of a name; of two with the same name the later one wins. */
  function SloByName(slos: seq<Slo>): map<string, Slo> {
    if slos == [] then map[] else
      SloByName(slos[..|slos| - 1])[slos[|slos| - 1].name := slos[|slos| - 1]]
  }

  const ZERO_SLO := Slo("", 0.0, false, 0.0)

  function MeanOf(s: SloState): real {
    if s.count > 0 then s.sum / s.count as real else 0.0
  }

  function SloOf(byName: map<string, Slo>, name: string): Slo {
    if name in byName then byName[name] else ZERO_SLO
  }

  predicate HasScore(byName: map<string, Slo>, s: SloState) {
    s.count > 0 ==> Divides(SloOf(byName, s.name), MeanOf(s))
  }

  function SloResultOf(byName: map<string, Slo>, s: SloState): SloResult
    requires HasScore(byName, s)
  {
    SloResult(s.name, if s.count > 0 then Overshoot(SloOf(byName, s.name), MeanOf(s)) else 0.0, MeanOf(s),
              if s.minSet then Some(s.min) else None, if s.minSet then Some(s.max) else None,
              s.count, s.violations)
  }

  function Share(byName: map<string, Slo>, r: SloResult): real {
    if r.name in byName then r.violationScore * byName[r.name].weight else 0.0
  }

  function WeightedSum(byName: map<string, Slo>, results: seq<SloResult>): real {
    if results == [] then 0.0 else
      WeightedSum(byName, results[..|results| - 1]) + Share(byName, results[|results| - 1])
  }

  predicate AllHaveScores(byName: map<string, Slo>, states: seq<SloState>) {
    forall s | s in states :: HasScore(byName, s)
  }

  function ResultsOf(byName: map<string, Slo>, states: seq<SloState>): seq<SloResult>
    requires AllHaveScores(byName, states)
  {
    seq(|states|, i requires 0 <= i < |states| => SloResultOf(byName, states[i]))
  }

  /** The result of a repetition; None where a score divides by zero, which the original turns into
      an infinity that it cannot write as JSON. */
  function ResultOf(repetition: nat, slos: seq<Slo>, states: seq<SloState>): Option<RepetitionResult> {
    var byName := SloByName(slos);
    if !AllHaveScores(byName, states) then None else
      Some(RepetitionResult(repetition, ResultsOf(byName, states), WeightedSum(byName, ResultsOf(byName, states))))
  }

  lemma {:induction false} SloByNameValid(slos: seq<Slo>)
    requires ValidThresholds(slos)
    ensures forall n | n in SloByName(slos) :: ValidThreshold(SloByName(slos)[n])
  {
    if slos != [] {
      SloByNameValid(slos[..|slos| - 1]);
    }
  }

  /** With valid thresholds there always is a result. */
  lemma ValidThresholdsScore(slos: seq<Slo>, states: seq<SloState>)
    requires ValidThresholds(slos)
    ensures AllHaveScores(SloByName(slos), states)
  {
    SloByNameValid(slos);
  }

  lemma NoResults(byName: map<string, Slo>)
    ensures ResultsOf(byName, []) == [] && WeightedSum(byName, []) == 0.0
  {}

  lemma OneMoreResult(byName: map<string, Slo>, states: seq<SloState>, i: nat, results: seq<SloResult>,
                      result: SloResult)
    requires i < |states| && AllHaveScores(byName, states[..i]) && HasScore(byName, states[i])
    requires results == ResultsOf(byName, states[..i]) && result == SloResultOf(byName, states[i])
    ensures AllHaveScores(byName, states[..i + 1])
    ensures results + [result] == ResultsOf(byName, states[..i + 1])
    ensures WeightedSum(byName, results + [result]) == WeightedSum(byName, results) + Share(byName, result)
  {
    assert states[..i + 1] == states[..i] + [states[i]];
    assert (results + [result])[..i] == results;
  }

  /** The normalised overshoot of the mean, by the branches of the controller. */
  method ScoreOfMean(slo: Slo, meanSli: real) returns (violationScore: Option<real>)
    ensures violationScore == if Divides(slo, meanSli) then Some(Overshoot(slo, meanSli)) else None
  {
    violationScore := Some(0.0);
    if slo.isBiggerBetter {
      if meanSli < slo.threshold {
        violationScore := if slo.threshold == 0.0 then None else Some(1.0 - meanSli / slo.threshold);
      }
    } else {
      if meanSli > slo.threshold {
        violationScore := if meanSli == 0.0 then None else Some(1.0 - slo.threshold / meanSli);
      }
    }
  }

  method BuildRepetitionResult(repetition: nat, slos: seq<Slo>, states: seq<SloState>)
    returns (r: Option<RepetitionResult>)
    ensures r == ResultOf(repetition, slos, states)
  {
    hide Overshoot, Divides, WeightedSum, ResultsOf;
    var sloByName: map<string, Slo> := map[];
    var i := 0;
    while i < |slos|
      invariant 0 <= i <= |slos| && sloByName == SloByName(slos[..i])
    {
      assert slos[..i + 1][..i] == slos[..i];
      sloByName := sloByName[slos[i].name := slos[i]];
      i := i + 1;
    }
    assert slos[..i] == slos;
    var sloResults: seq<SloResult>, aggregateScore := [], 0.0;
    NoResults(sloByName);
    i := 0;
    while i < |states|
      invariant 0 <= i <= |states| && AllHaveScores(sloByName, states[..i])
      invariant sloResults == ResultsOf(sloByName, states[..i])
      invariant aggregateScore == WeightedSum(sloByName, sloResults)
    {
      var state := states[i];
      var meanSli, violationScore := 0.0, 0.0;
      if state.count > 0 {
        meanSli := state.sum / state.count as real;
        var slo := if state.name in sloByName then sloByName[state.name] else ZERO_SLO;
        var score := ScoreOfMean(slo, meanSli);
        if score.None? {
          assert state in states && !HasScore(sloByName, state);
          return None;
        }
        violationScore := score.value;
      }
      var minSli, maxSli := None, None;
      if state.minSet {
        minSli, maxSli := Some(state.min), Some(state.max);
      }
      var result := SloResult(state.name, violationScore, meanSli, minSli, maxSli, state.count, state.violations);
      OneMoreResult(sloByName, states, i, sloResults, result);
      sloResults := sloResults + [result];
      if state.name in sloByName {
        var share := violationScore * sloByName[state.name].weight;
        assert share == Share(sloByName, result);
        aggregateScore := aggregateScore + share;
      }
      i := i + 1;
    }
    assert states[..i] == states;
    r := Some(RepetitionResult(repetition, sloResults, aggregateScore));
  }

  // ---------- the Go score against the reference ----------

  ghost predicate NoneAbove(values: seq<real>, t: real) {
    forall i | 0 <= i < |values| :: values[i] <= t
  }

  ghost predicate NoneBelow(values: seq<real>, t: real) {
    forall i | 0 <= i < |values| :: t <= values[i]
  }

  lemma Scale(a: real, b: real, c: real)
    requires a <= b && c >= 0.0
    ensures a * c <= b * c
  {
    assert (b - a) * c >= 0.0;
  }

  lemma Distribute(a: real, b: real, c: real)
    ensures (a + b) * c == a * c + b * c
  {}

  lemma Reciprocal(t: real) returns (r: real)
    requires t > 0.0
    ensures r > 0.0 && r == 1.0 / t && t * r == 1.0
  {
    r := 1.0 / t;
  }

  lemma DivIsMul(x: real, t: real)
    requires t != 0.0
    ensures x / t == x * (1.0 / t)
  {}

  /** The line c * n - r * sum: what `n` values with this sum contribute along c - r * v. */
  function Line(n: real, sum: real, c: real, r: real): real {
    n * c - sum * r
  }

  lemma LineAdds(n: real, sum: real, v: real, c: real, r: real)
    ensures Line(n + 1.0, sum + v, c, r) == Line(n, sum, c, r) + Line(1.0, v, c, r)
    ensures Line(0.0, 0.0, c, r) == 0.0
  {
    Distribute(sum, v, r);
    Distribute(n, 1.0, c);
  }

  /** A bigger-is-better tick score lies above the line 1 - v / threshold, and on it below the
      threshold; so do the sums. `r` is the reciprocal of the threshold. */
  lemma {:induction false} AboveTheLine(slo: Slo, values: seq<real>, r: real)
    requires slo.threshold > 0.0 && slo.isBiggerBetter && r == 1.0 / slo.threshold
    ensures SumOvershoot(slo, values) >= Line(|values| as real, Sum(values), 1.0, r)
    ensures SumOvershoot(slo, values) >= 0.0
    ensures NoneAbove(values, slo.threshold) ==>
              SumOvershoot(slo, values) == Line(|values| as real, Sum(values), 1.0, r)
  {
    hide Overshoot, Line;
    if values == [] {
      LineAdds(0.0, 0.0, 0.0, 1.0, r);
    } else {
      var front, v := values[..|values| - 1], values[|values| - 1];
      AboveTheLine(slo, front, r);
      TickAboveTheLine(slo, v, r);
      LineAdds(|front| as real, Sum(front), v, 1.0, r);
    }
  }

  lemma TickAboveTheLine(slo: Slo, v: real, r: real)
    requires slo.threshold > 0.0 && slo.isBiggerBetter && r == 1.0 / slo.threshold
    ensures Overshoot(slo, v) >= Line(1.0, v, 1.0, r) && Overshoot(slo, v) >= 0.0
    ensures v <= slo.threshold ==> Overshoot(slo, v) == Line(1.0, v, 1.0, r)
  {
    DivIsMul(v, slo.threshold);
    if v >= slo.threshold {
      Scale(slo.threshold, v, r);
    } else {
      Scale(v, slo.threshold, r);
    }
  }

  /** Bigger is better: the score of the mean never exceeds the reference (Jensen), and equals it
      when no sample exceeds the threshold. */
  lemma BiggerBetterAtMostReference(slo: Slo, values: seq<real>)
    requires slo.threshold > 0.0 && slo.isBiggerBetter && values != []
    ensures Overshoot(slo, Mean(values)) <= ReferenceScore(slo, values)
    ensures NoneAbove(values, slo.threshold) ==> Overshoot(slo, Mean(values)) == ReferenceScore(slo, values)
  {
    hide Overshoot, Sum, SumOvershoot;
    var n := |values| as real;
    var r := Reciprocal(slo.threshold);
    var mean, score := Mean(values), ReferenceScore(slo, values);
    AboveTheLine(slo, values, r);
    TickAboveTheLine(slo, mean, r);
    Averages(Sum(values), SumOvershoot(slo, values), n, r);
    if NoneAbove(values, slo.threshold) {
      MeanAtMost(values, slo.threshold);
    } else if mean > slo.threshold {
      NoOvershoot(slo, mean);
    }
    if mean > slo.threshold {
      NoOvershoot(slo, mean);
    }
  }

  lemma NoOvershoot(slo: Slo, v: real)
    requires ValidThreshold(slo) && slo.isBiggerBetter && v >= slo.threshold
    ensures Overshoot(slo, v) == 0.0
  {}

  /** Dividing both sides of the line by the number of samples. */
  lemma Averages(sum: real, overshoot: real, n: real, r: real)
    requires n > 0.0
    ensures overshoot >= n - sum * r ==> overshoot / n >= 1.0 - sum / n * r
    ensures overshoot == n - sum * r ==> overshoot / n == 1.0 - sum / n * r
    ensures overshoot >= 0.0 ==> overshoot / n >= 0.0
  {
    var q := Reciprocal(n);
    DivIsMul(overshoot, n);
    DivIsMul(sum, n);
    assert (n - sum * r) * q == 1.0 - sum * q * r;
    if overshoot >= n - sum * r {
      Scale(n - sum * r, overshoot, q);
    }
  }

  lemma {:induction false} SumAtMost(values: seq<real>, t: real)
    requires NoneAbove(values, t)
    ensures Sum(values) <= |values| as real * t
  {
    if values != [] {
      SumAtMost(values[..|values| - 1], t);
    }
  }

  lemma {:induction false} SumAtLeast(values: seq<real>, t: real)
    requires NoneBelow(values, t)
    ensures Sum(values) >= |values| as real * t
  {
    if values != [] {
      SumAtLeast(values[..|values| - 1], t);
    }
  }

  lemma MeanAtMost(values: seq<real>, t: real)
    requires values != [] && NoneAbove(values, t)
    ensures Mean(values) <= t
  {
    SumAtMost(values, t);
    DivideBoth(Sum(values), t, |values| as real);
  }

  lemma MeanAtLeast(values: seq<real>, t: real)
    requires values != [] && NoneBelow(values, t)
    ensures Mean(values) >= t
  {
    SumAtLeast(values, t);
    DivideBoth(Sum(values), t, |values| as real);
  }

  lemma DivideBoth(sum: real, t: real, n: real)
    requires n > 0.0
    ensures sum <= n * t ==> sum / n <= t
    ensures sum >= n * t ==> sum / n >= t
    ensures sum == sum / n * n
  {
    var q := Reciprocal(n);
    DivIsMul(sum, n);
    assert n * t * q == t;
    if sum <= n * t { Scale(sum, n * t, q); }
    if sum >= n * t { Scale(n * t, sum, q); }
  }

  /** The reciprocal lies above its tangent at m = 1 / q: the AM-HM inequality for one value. */
  lemma AboveTangent(v: real, p: real, q: real)
    requires v > 0.0 && p * v == 1.0 && q > 0.0
    ensures p >= 2.0 * q - q * q * v
  {
    var d := p - q;
    assert d * d >= 0.0;
    Scale(0.0, d * d, v);
    assert d * d * v == p * (p * v) - 2.0 * q * (p * v) + q * q * v;
  }

  /** Smaller is better, at or above the threshold: the tick score lies below the tangent at the
      value whose reciprocal is `q`. */
  lemma TickBelowTangent(slo: Slo, v: real, q: real, slope: real, offset: real)
    requires slo.threshold > 0.0 && !slo.isBiggerBetter && v >= slo.threshold && q > 0.0
    requires slope == -(slo.threshold * q * q) && offset == 1.0 - 2.0 * (slo.threshold * q)
    ensures Overshoot(slo, v) <= Line(1.0, v, offset, slope)
  {
    var t := slo.threshold;
    var p := Reciprocal(v);
    DivIsMul(t, v);
    AboveTangent(v, p, q);
    Scale(2.0 * q - q * q * v, p, t);
    assert (2.0 * q - q * q * v) * t == 2.0 * (t * q) + v * slope;
    assert Overshoot(slo, v) == 1.0 - p * t;
  }

  lemma {:induction false} SumBelowTangent(slo: Slo, values: seq<real>, q: real, slope: real, offset: real)
    requires slo.threshold > 0.0 && !slo.isBiggerBetter && NoneBelow(values, slo.threshold) && q > 0.0
    requires slope == -(slo.threshold * q * q) && offset == 1.0 - 2.0 * (slo.threshold * q)
    ensures SumOvershoot(slo, values) <= Line(|values| as real, Sum(values), offset, slope)
  {
    hide Overshoot, Line;
    if values == [] {
      LineAdds(0.0, 0.0, 0.0, offset, slope);
    } else {
      var front, v := values[..|values| - 1], values[|values| - 1];
      SumBelowTangent(slo, front, q, slope, offset);
      TickBelowTangent(slo, v, q, slope, offset);
      LineAdds(|front| as real, Sum(front), v, offset, slope);
    }
  }

  /** At q = 1 / mean the tangent bound averages to the score of the mean. */
  lemma TangentAtMean(overshoot: real, n: real, sum: real, mean: real, t: real, q: real)
    requires n > 0.0 && sum == mean * n && mean * q == 1.0
    requires overshoot <= n * (1.0 - 2.0 * (t * q)) + sum * (t * q * q)
    ensures overshoot / n <= 1.0 - t * q
  {
    var x := t * q;
    assert sum * (t * q * q) == n * x * (mean * q);
    DivideBoth(overshoot, 1.0 - x, n);
  }

  /** Smaller is better, every sample at or above the threshold: the score of the mean is at least
      the reference (arithmetic against harmonic mean). */
  lemma SmallerBetterAtLeastReference(slo: Slo, values: seq<real>)
    requires slo.threshold > 0.0 && !slo.isBiggerBetter && values != [] && NoneBelow(values, slo.threshold)
    ensures Overshoot(slo, Mean(values)) >= ReferenceScore(slo, values)
  {
    hide Sum, SumOvershoot;
    var t, n, sum, mean := slo.threshold, |values| as real, Sum(values), Mean(values);
    MeanAtLeast(values, t);
    DivideBoth(sum, t, n);
    var q := Reciprocal(mean);
    SumBelowTangent(slo, values, q, -(t * q * q), 1.0 - 2.0 * (t * q));
    assert -(sum * -(t * q * q)) == sum * (t * q * q);
    TangentAtMean(SumOvershoot(slo, values), n, sum, mean, t, q);
    DivIsMul(t, mean);
  }

  lemma TickPositiveIff(slo: Slo, v: real)
    requires slo.threshold > 0.0 && !slo.isBiggerBetter
    ensures Overshoot(slo, v) >= 0.0
    ensures Overshoot(slo, v) > 0.0 <==> v > slo.threshold
  {
    if v > slo.threshold {
      var share := slo.threshold / v;
      assert share * v == slo.threshold;
      if share >= 1.0 {
        Scale(1.0, share, v);
      }
    }
  }

  lemma {:induction false} SumPositiveIff(slo: Slo, values: seq<real>)
    requires slo.threshold > 0.0 && !slo.isBiggerBetter
    ensures SumOvershoot(slo, values) >= 0.0
    ensures SumOvershoot(slo, values) == 0.0 <==> NoneAbove(values, slo.threshold)
  {
    if values != [] {
      hide Overshoot;
      var n := |values| - 1;
      SumPositiveIff(slo, values[..n]);
      TickPositiveIff(slo, values[n]);
      assert values == values[..n] + [values[n]];
    }
  }

  /** Smaller is better and the mean within the threshold: the score of the mean is zero, so it is
      at least the reference if and only if no sample exceeds the threshold. */
  lemma SmallerBetterWithinThresholdIff(slo: Slo, values: seq<real>)
    requires slo.threshold > 0.0 && !slo.isBiggerBetter && values != [] && Mean(values) <= slo.threshold
    ensures Overshoot(slo, Mean(values)) >= ReferenceScore(slo, values) <==> NoneAbove(values, slo.threshold)
  {
    hide Sum, SumOvershoot, NoneAbove;
    SumPositiveIff(slo, values);
    var n := |values| as real;
    var reference := ReferenceScore(slo, values);
    assert reference * n == SumOvershoot(slo, values);
    if reference <= 0.0 {
      Scale(reference, 0.0, n);
    }
  }

  function AtLeast(t: real, v: real): real {
    if v > t then v else t
  }

  /** The sum of the reciprocals of the values, each raised to the threshold first. */
  function SumReciprocals(t: real, values: seq<real>): real
    requires t > 0.0
  {
    if values == [] then 0.0 else
      SumReciprocals(t, values[..|values| - 1]) + 1.0 / AtLeast(t, values[|values| - 1])
  }

  function Times(t: real, x: real): real {
    t * x
  }

  lemma TimesAdds(t: real, x: real, y: real)
    ensures Times(t, x + y) == Times(t, x) + Times(t, y)
    ensures Times(t, 0.0) == 0.0
  {}

  lemma TimesOrders(t: real, x: real, y: real)
    requires t > 0.0
    ensures Times(t, x) <= Times(t, y) <==> x <= y
  {
    if x <= y {
      Scale(x, y, t);
    } else {
      assert (x - y) * t > 0.0;
    }
  }

  lemma OvershootByReciprocal(slo: Slo, v: real)
    requires slo.threshold > 0.0 && !slo.isBiggerBetter
    ensures Overshoot(slo, v) == 1.0 - Times(slo.threshold, 1.0 / AtLeast(slo.threshold, v))
  {
    var a := AtLeast(slo.threshold, v);
    var r := Reciprocal(a);
    DivIsMul(slo.threshold, a);
    DivIsMul(1.0, a);
  }

  lemma {:induction false} SumByReciprocals(slo: Slo, values: seq<real>)
    requires slo.threshold > 0.0 && !slo.isBiggerBetter
    ensures SumOvershoot(slo, values) ==
            |values| as real - Times(slo.threshold, SumReciprocals(slo.threshold, values))
  {
    var t := slo.threshold;
    hide Overshoot, Times, AtLeast;
    TimesAdds(t, 0.0, 0.0);
    if values != [] {
      var n := |values| - 1;
      SumByReciprocals(slo, values[..n]);
      OvershootByReciprocal(slo, values[n]);
      PositiveAtLeast(t, values[n]);
      TimesAdds(t, SumReciprocals(t, values[..n]), 1.0 / AtLeast(t, values[n]));
    }
  }

  lemma QuotientIs(x: real, n: real, q: real)
    requires n > 0.0 && x == q * n
    ensures x / n == q
  {
    assert (x / n) * n == x;
    assert (x / n - q) * n == 0.0;
  }

  lemma Rearrange(t: real, q: real, n: real)
    ensures n - t * (q * n) == (1.0 - t * q) * n
  {}

  lemma MeanByReciprocals(t: real, sum: real, n: real)
    requires n > 0.0
    ensures (n - Times(t, sum)) / n == 1.0 - Times(t, sum / n)
  {
    var q := sum / n;
    assert sum == q * n;
    Rearrange(t, q, n);
    QuotientIs(n - Times(t, sum), n, 1.0 - Times(t, q));
  }

  /** Smaller is better, all samples: the score of the mean is at least the reference if and only if
      the reciprocal of the mean is at most the mean of the reciprocals, with the mean and the
      samples raised to the threshold. */
  lemma SmallerBetterIff(slo: Slo, values: seq<real>)
    requires slo.threshold > 0.0 && !slo.isBiggerBetter && values != []
    ensures Overshoot(slo, Mean(values)) >= ReferenceScore(slo, values) <==>
              1.0 / AtLeast(slo.threshold, Mean(values)) <= SumReciprocals(slo.threshold, values) / |values| as real
  {
    hide Overshoot, Mean, SumOvershoot, SumReciprocals, AtLeast, Times;
    var t, n := slo.threshold, |values| as real;
    OvershootByReciprocal(slo, Mean(values));
    SumByReciprocals(slo, values);
    PositiveAtLeast(t, Mean(values));
    MeanByReciprocals(t, SumReciprocals(t, values), n);
    TimesOrders(t, 1.0 / AtLeast(t, Mean(values)), SumReciprocals(t, values) / n);
  }

  lemma PositiveAtLeast(t: real, v: real)
    ensures AtLeast(t, v) >= t
  {}

  /** Without a condition the order can turn: one sample below the threshold suffices. */
  lemma SmallerBetterCanUnderstate()
    ensures exists slo: Slo, values ::
              && ValidThreshold(slo) && !slo.isBiggerBetter && values != []
              && Overshoot(slo, Mean(values)) < ReferenceScore(slo, values)
  {
    var slo, values := Slo("latency", 1.0, false, 1.0), [0.0, 2.0];
    assert values[..1] == [0.0] && [0.0][..0] == [];
    assert Sum(values) == Sum([0.0]) + 2.0 && Sum([0.0]) == 0.0;
    assert SumOvershoot(slo, values) == SumOvershoot(slo, [0.0]) + 0.5 && SumOvershoot(slo, [0.0]) == 0.0;
    assert Overshoot(slo, Mean(values)) == 0.0;
  }

  // ---------- scores lie between zero and one ----------

  predicate InUnit(x: real) {
    0.0 <= x <= 1.0
  }

  lemma OvershootInUnit(slo: Slo, v: real)
    requires ValidThreshold(slo) && v >= 0.0
    ensures InUnit(Overshoot(slo, v))
  {
    if slo.isBiggerBetter && v < slo.threshold {
      var r := Reciprocal(slo.threshold);
      DivIsMul(v, slo.threshold);
      Scale(0.0, v, r);
      Scale(v, slo.threshold, r);
    } else if !slo.isBiggerBetter && v > slo.threshold {
      var r := Reciprocal(v);
      DivIsMul(slo.threshold, v);
      Scale(0.0, slo.threshold, r);
      Scale(slo.threshold, v, r);
    }
  }

  function SumWeights(slos: seq<Slo>): real {
    if slos == [] then 0.0 else SumWeights(slos[..|slos| - 1]) + slos[|slos| - 1].weight
  }

  ghost predicate UniqueNames(slos: seq<Slo>) {
    forall i, j | 0 <= i < j < |slos| :: slos[i].name != slos[j].name
  }

  lemma {:induction false} ByUniqueName(slos: seq<Slo>, i: nat)
    requires UniqueNames(slos) && i < |slos|
    ensures slos[i].name in SloByName(slos) && SloByName(slos)[slos[i].name] == slos[i]
  {
    if i < |slos| - 1 {
      ByUniqueName(slos[..|slos| - 1], i);
    }
  }

  /** The measurement states of one window: per SLO the summary of non-negative samples. */
  ghost predicate Measured(slos: seq<Slo>, states: seq<SloState>) {
    && |states| == |slos|
    && forall i | 0 <= i < |slos| ::
         states[i] == Summary(slos[i], states[i].values) && NoneBelow(states[i].values, 0.0)
  }

  lemma ScoreInUnit(byName: map<string, Slo>, slo: Slo, s: SloState)
    requires ValidThreshold(slo) && slo.name in byName && byName[slo.name] == slo
    requires s == Summary(slo, s.values) && NoneBelow(s.values, 0.0)
    ensures HasScore(byName, s)
    ensures SloResultOf(byName, s).name == slo.name && InUnit(SloResultOf(byName, s).violationScore)
  {
    if s.values != [] {
      MeanAtLeast(s.values, 0.0);
      OvershootInUnit(slo, Mean(s.values));
    }
  }

  lemma UnitShare(byName: map<string, Slo>, r: SloResult, slo: Slo)
    requires r.name in byName && byName[r.name] == slo && InUnit(r.violationScore) && slo.weight >= 0.0
    ensures 0.0 <= Share(byName, r) <= slo.weight
  {
    UnitProduct(r.violationScore, slo.weight);
  }

  lemma UnitProduct(s: real, w: real)
    requires 0.0 <= s <= 1.0 && w >= 0.0
    ensures 0.0 <= s * w <= w
  {
    assert (1.0 - s) * w >= 0.0;
    assert (1.0 - s) * w == w - s * w;
  }

  lemma {:induction false} WeightedInUnit(byName: map<string, Slo>, slos: seq<Slo>, results: seq<SloResult>)
    requires |results| == |slos|
    requires forall i | 0 <= i < |slos| ::
               && slos[i].name in byName && byName[slos[i].name] == slos[i] && slos[i].weight >= 0.0
               && results[i].name == slos[i].name && InUnit(results[i].violationScore)
    ensures 0.0 <= WeightedSum(byName, results) <= SumWeights(slos)
  {
    hide Share, InUnit;
    if slos != [] {
      var n := |slos| - 1;
      WeightedInUnit(byName, slos[..n], results[..n]);
      UnitShare(byName, results[n], slos[n]);
    }
  }

  /** With unique names and weights that sum to one, every score and the aggregate are in [0, 1]. */
  lemma ResultInUnit(repetition: nat, slos: seq<Slo>, states: seq<SloState>)
    requires UniqueNames(slos) && Measured(slos, states) && SumWeights(slos) == 1.0
    requires ValidThresholds(slos) && forall slo | slo in slos :: slo.weight >= 0.0
    ensures ResultOf(repetition, slos, states).Some?
    ensures var r := ResultOf(repetition, slos, states).value;
            && InUnit(r.aggregateScore)
            && |r.sloResults| == |slos|
            && forall i | 0 <= i < |r.sloResults| :: InUnit(r.sloResults[i].violationScore)
  {
    hide SloResultOf, Summary, HasScore;
    ValidThresholdsScore(slos, states);
    var byName := SloByName(slos);
    forall i | 0 <= i < |slos|
      ensures slos[i].name in byName && byName[slos[i].name] == slos[i]
      ensures SloResultOf(byName, states[i]).name == slos[i].name
      ensures InUnit(SloResultOf(byName, states[i]).violationScore)
    {
      ByUniqueName(slos, i);
      ScoreInUnit(byName, slos[i], states[i]);
    }
    WeightedInUnit(byName, slos, ResultsOf(byName, states));
  }

  /** What the controller reports for an SLO is the score of the mean of its samples. */
  lemma ReportedScore(slos: seq<Slo>, states: seq<SloState>, repetition: nat, i: nat)
    requires UniqueNames(slos) && |states| == |slos| && i < |slos| && ResultOf(repetition, slos, states).Some?
    requires states[i] == Summary(slos[i], states[i].values) && states[i].values != []
    ensures |ResultOf(repetition, slos, states).value.sloResults| == |slos| && Divides(slos[i], Mean(states[i].values))
    ensures ResultOf(repetition, slos, states).value.sloResults[i].violationScore ==
            Overshoot(slos[i], Mean(states[i].values))
  {
    ByUniqueName(slos, i);
    assert states[i] in states;
  }
}
