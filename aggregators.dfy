/**
 * Metric aggregators: an aggregator holds a fixed and a moving input (an
 * image for ImageMetricAggregator, a surface for SurfaceMetricAggregator),
 * a list of metric objects and, for the linear one, a list of weights; its
 * aggregate score hands both inputs to every metric and combines their
 * values as a weighted sum, a maximum or a minimum.
 *
 * The two families differ only in the input type, so one generic class
 * stands for both; the metric objects are reduced to what the aggregators
 * use of them: their two inputs and a value computed from them.
 */
module Aggregators {
  import opened Wrappers

  // ---------------------------------------------------------------------------
  // How the scores combine

  /** The sum of w[i] * v[i], accumulated front to back. */
  function WeightedSum(ws: seq<real>, vs: seq<real>): real
    requires |ws| == |vs|
  {
    if ws == [] then 0.0
    else WeightedSum(ws[..|ws| - 1], vs[..|vs| - 1]) + ws[|ws| - 1] * vs[|vs| - 1]
  }

  /** The sum of the weights. */
  function TotalWeight(ws: seq<real>): real
  {
    if ws == [] then 0.0 else TotalWeight(ws[..|ws| - 1]) + ws[|ws| - 1]
  }

  /** The running maximum seeded with the first score; 0 for no scores. */
  function SeededMax(vs: seq<real>): real
  {
    if |vs| == 0 then 0.0
    else if |vs| == 1 then vs[0]
    else
      var m := SeededMax(vs[..|vs| - 1]);
      if vs[|vs| - 1] > m then vs[|vs| - 1] else m
  }

  /** The running minimum seeded with the first score; 0 for no scores. */
  function SeededMin(vs: seq<real>): real
  {
    if |vs| == 0 then 0.0
    else if |vs| == 1 then vs[0]
    else
      var m := SeededMin(vs[..|vs| - 1]);
      if vs[|vs| - 1] < m then vs[|vs| - 1] else m
  }

  /** The maximum aggregate is one of the scores and no score exceeds it. */
  lemma {:induction false} SeededMaxSpec(vs: seq<real>)
    requires |vs| > 0
    ensures SeededMax(vs) in vs
    ensures forall i :: 0 <= i < |vs| ==> vs[i] <= SeededMax(vs)
  {
    if |vs| > 1 {
      var t := vs[..|vs| - 1];
      SeededMaxSpec(t);
      assert forall i :: 0 <= i < |t| ==> vs[i] == t[i];
    }
  }

  /** The minimum aggregate is one of the scores and no score is below it. */
  lemma {:induction false} SeededMinSpec(vs: seq<real>)
    requires |vs| > 0
    ensures SeededMin(vs) in vs
    ensures forall i :: 0 <= i < |vs| ==> SeededMin(vs) <= vs[i]
  {
    if |vs| > 1 {
      var t := vs[..|vs| - 1];
      SeededMinSpec(t);
      assert forall i :: 0 <= i < |t| ==> vs[i] == t[i];
    }
  }

  /** Scaling a bound by a non-negative weight keeps it a bound. */
  lemma ScaleBound(w: real, v: real, bound: real)
    requires w >= 0.0 && v <= bound
    ensures w * v <= w * bound
  {
    assert w * bound - w * v == w * (bound - v);
  }

  /** With non-negative weights the weighted sum is at most the total weight times any upper bound of the scores. */
  lemma {:induction false} WeightedSumAtMost(ws: seq<real>, vs: seq<real>, bound: real)
    requires |ws| == |vs|
    requires forall i :: 0 <= i < |ws| ==> ws[i] >= 0.0
    requires forall i :: 0 <= i < |vs| ==> vs[i] <= bound
    ensures WeightedSum(ws, vs) <= TotalWeight(ws) * bound
  {
    if ws != [] {
      var n := |ws| - 1;
      WeightedSumAtMost(ws[..n], vs[..n], bound);
      ScaleBound(ws[n], vs[n], bound);
      assert TotalWeight(ws) * bound == TotalWeight(ws[..n]) * bound + ws[n] * bound;
    }
  }

  /** With non-negative weights the weighted sum is at least the total weight times any lower bound of the scores. */
  lemma {:induction false} WeightedSumAtLeast(ws: seq<real>, vs: seq<real>, bound: real)
    requires |ws| == |vs|
    requires forall i :: 0 <= i < |ws| ==> ws[i] >= 0.0
    requires forall i :: 0 <= i < |vs| ==> bound <= vs[i]
    ensures TotalWeight(ws) * bound <= WeightedSum(ws, vs)
  {
    if ws != [] {
      var n := |ws| - 1;
      WeightedSumAtLeast(ws[..n], vs[..n], bound);
      ScaleBound(ws[n], -vs[n], -bound);
      assert TotalWeight(ws) * bound == TotalWeight(ws[..n]) * bound + ws[n] * bound;
    }
  }

  /**
   * With non-negative weights summing to 1 the linear aggregate is an
   * average of the scores: it lies between the minimum and the maximum
   * aggregate of the same scores.
   */
  lemma LinearBetweenMinAndMax(ws: seq<real>, vs: seq<real>)
    requires |ws| == |vs| && |vs| > 0
    requires forall i :: 0 <= i < |ws| ==> ws[i] >= 0.0
    requires TotalWeight(ws) == 1.0
    ensures SeededMin(vs) <= WeightedSum(ws, vs) <= SeededMax(vs)
  {
    var hi, lo := SeededMax(vs), SeededMin(vs);
    SeededMaxSpec(vs);
    SeededMinSpec(vs);
    WeightedSumAtMost(ws, vs, hi);
    WeightedSumAtLeast(ws, vs, lo);
  }

  // ---------------------------------------------------------------------------
  // The objects

  /** A metric object as an aggregator uses it: settable inputs and a value computed from them. */
  class MetricObject<Input(==)> {
    var fixedInput: Option<Input>
    var movingInput: Option<Input>
    const evaluate: (Input, Input) -> real

    constructor (evaluate: (Input, Input) -> real)
      ensures this.evaluate == evaluate && fixedInput == None && movingInput == None
    {
      this.evaluate := evaluate;
      fixedInput := None;
      movingInput := None;
    }

    method SetFixed(x: Input)
      modifies this
      ensures fixedInput == Some(x) && movingInput == old(movingInput)
    {
      fixedInput := Some(x);
    }

    method SetMoving(x: Input)
      modifies this
      ensures movingInput == Some(x) && fixedInput == old(fixedInput)
    {
      movingInput := Some(x);
    }

    method GetValue() returns (v: real)
      requires fixedInput.Some? && movingInput.Some?
      ensures v == evaluate(fixedInput.value, movingInput.value)
    {
      v := evaluate(fixedInput.value, movingInput.value);
    }
  }

  /** ImageMetricAggregator / SurfaceMetricAggregator with the Linear, Max and Min scores of its subclasses. */
  class MetricAggregator<Input(==)> {
    var fixedInput: Option<Input>
    var movingInput: Option<Input>
    var metricObjects: seq<MetricObject<Input>>
    var metricWeights: seq<real>

    constructor ()
      ensures fixedInput == None && movingInput == None && metricObjects == [] && metricWeights == []
    {
      fixedInput := None;
      movingInput := None;
      metricObjects := [];
      metricWeights := [];
    }

    method SetFixed(x: Input)
      modifies this
      ensures fixedInput == Some(x)
      ensures movingInput == old(movingInput) && metricObjects == old(metricObjects) && metricWeights == old(metricWeights)
    {
      fixedInput := Some(x);
    }

    method SetMoving(x: Input)
      modifies this
      ensures movingInput == Some(x)
      ensures fixedInput == old(fixedInput) && metricObjects == old(metricObjects) && metricWeights == old(metricWeights)
    {
      movingInput := Some(x);
    }

    method AddMetricObject(obj: MetricObject<Input>)
      modifies this
      ensures metricObjects == old(metricObjects) + [obj]
      ensures fixedInput == old(fixedInput) && movingInput == old(movingInput) && metricWeights == old(metricWeights)
    {
      metricObjects := metricObjects + [obj];
    }

    /** Linear aggregators only. */
    method AddMetricWeight(w: real)
      modifies this
      ensures metricWeights == old(metricWeights) + [w]
      ensures fixedInput == old(fixedInput) && movingInput == old(movingInput) && metricObjects == old(metricObjects)
    {
      metricWeights := metricWeights + [w];
    }

    /** The value each metric object gives for the aggregator's two inputs. */
    function Scores(): (vs: seq<real>)
      requires fixedInput.Some? && movingInput.Some?
      reads this
      ensures |vs| == |metricObjects|
    {
      var objs, x, y := metricObjects, fixedInput.value, movingInput.value;
      seq(|objs|, i requires 0 <= i < |objs| => objs[i].evaluate(x, y))
    }

    /** Every metric object of the first n holds the aggregator's inputs. */
    predicate InputsHandedTo(n: int)
      requires 0 <= n <= |metricObjects|
      reads this, set o | o in metricObjects
    {
      forall j :: 0 <= j < n ==>
        metricObjects[j].fixedInput == fixedInput && metricObjects[j].movingInput == movingInput
    }

    /** Hands both inputs to metric object i and returns its value. */
    method ScoreOf(i: int) returns (score: real)
      requires fixedInput.Some? && movingInput.Some? && 0 <= i < |metricObjects|
      requires InputsHandedTo(i)
      modifies metricObjects[i]
      ensures score == Scores()[i]
      ensures InputsHandedTo(i + 1)
    {
      var obj := metricObjects[i];
      obj.SetFixed(fixedInput.value);
      obj.SetMoving(movingInput.value);
      score := obj.GetValue();
    }

    /**
     * LinearImageMetricAggregator / LinearSurfaceMetricAggregator: an error
     * when the numbers of objects and weights differ, before any metric is
     * touched; otherwise the weighted sum of the scores.
     */
    method GetLinearAggregateScore() returns (r: Result<real, string>)
      requires fixedInput.Some? && movingInput.Some?
      modifies set o | o in metricObjects
      ensures |metricObjects| != |metricWeights| ==> r == Err("Number of objects and weights not the same")
      ensures |metricObjects| != |metricWeights| ==> forall o :: o in metricObjects ==> unchanged(o)
      ensures |metricObjects| == |metricWeights| ==> r == Ok(WeightedSum(metricWeights, Scores()))
      ensures |metricObjects| == |metricWeights| ==> InputsHandedTo(|metricObjects|)
    {
      if |metricObjects| != |metricWeights| {
        return Err("Number of objects and weights not the same");
      }
      var score := 0.0;
      var i := 0;
      while i < |metricWeights|
        invariant 0 <= i <= |metricWeights|
        invariant score == WeightedSum(metricWeights[..i], Scores()[..i])
        invariant InputsHandedTo(i)
      {
        var v := ScoreOf(i);
        assert metricWeights[..i + 1][..i] == metricWeights[..i];
        assert Scores()[..i + 1][..i] == Scores()[..i];
        score := score + metricWeights[i] * v;
        i := i + 1;
      }
      assert metricWeights[..i] == metricWeights && Scores()[..i] == Scores();
      return Ok(score);
    }

    /** MaxImageMetricAggregator / MaxSurfaceMetricAggregator: the largest score, 0 with no metric objects. */
    method GetMaxAggregateScore() returns (maxScore: real)
      requires fixedInput.Some? && movingInput.Some?
      modifies set o | o in metricObjects
      ensures maxScore == SeededMax(Scores())
      ensures InputsHandedTo(|metricObjects|)
    {
      maxScore := 0.0;
      var i := 0;
      while i < |metricObjects|
        invariant 0 <= i <= |metricObjects|
        invariant maxScore == SeededMax(Scores()[..i])
        invariant InputsHandedTo(i)
      {
        var score := ScoreOf(i);
        assert Scores()[..i + 1][..i] == Scores()[..i];
        if i == 0 {
          maxScore := score;
        } else if score > maxScore {
          maxScore := score;
        }
        i := i + 1;
      }
      assert Scores()[..i] == Scores();
    }

    /** MinImageMetricAggregator / MinSurfaceMetricAggregator: the smallest score, 0 with no metric objects. */
    method GetMinAggregateScore() returns (minScore: real)
      requires fixedInput.Some? && movingInput.Some?
      modifies set o | o in metricObjects
      ensures minScore == SeededMin(Scores())
      ensures InputsHandedTo(|metricObjects|)
    {
      minScore := 0.0;
      var i := 0;
      while i < |metricObjects|
        invariant 0 <= i <= |metricObjects|
        invariant minScore == SeededMin(Scores()[..i])
        invariant InputsHandedTo(i)
      {
        var score := ScoreOf(i);
        assert Scores()[..i + 1][..i] == Scores()[..i];
        if i == 0 {
          minScore := score;
        } else if score < minScore {
          minScore := score;
        }
        i := i + 1;
      }
      assert Scores()[..i] == Scores();
    }
  }
}
