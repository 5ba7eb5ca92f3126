/**
 `average_of_squares` (squares.py, lines 5-33): the weighted sum Σ wᵢ·xᵢ²
 of a list of numbers, with every weight 1 when no weights are given.

 Numbers and weights are mathematical reals. This covers both the integer
 inputs of the command line and the fractional weight of the docstring
 example; floating-point rounding is not modelled.
 */
module Average {
  import opened Results

  // ---------------------------------------------------------------------
  // Reference definitions: the sums the docstring promises
  // ---------------------------------------------------------------------

  /** Σ xᵢ·xᵢ, the plain sum of squares. */
  function SumOfSquares(xs: seq<real>): real
  {
    if |xs| == 0 then 0.0 else xs[0] * xs[0] + SumOfSquares(xs[1..])
  }

  /** Σ wᵢ·xᵢ·xᵢ over the pairs (xᵢ, wᵢ) of two lists of equal length. */
  function WeightedSumOfSquares(xs: seq<real>, ws: seq<real>): real
    requires |ws| == |xs|
  {
    if |xs| == 0 then 0.0
    else ws[0] * xs[0] * xs[0] + WeightedSumOfSquares(xs[1..], ws[1..])
  }

  /** A list of `n` weights, each 1: Python's `[1] * n`. */
  function Ones(n: nat): seq<real>
  {
    seq(n, _ => 1.0)
  }

  // ---------------------------------------------------------------------
  // The operation, step by step as the Python code does it
  // ---------------------------------------------------------------------

  /** Lines 22-27: the weights the sum uses. Supplied weights must have the
      length of the numbers, otherwise the assertion fails; absent weights
      are all 1. */
  function EffectiveWeights(numbers: seq<real>, weights: Option<seq<real>>): (r: Result<seq<real>>)
    ensures r.Err? <==> weights.Some? && |weights.value| != |numbers|
    ensures r.Err? ==> r.error == LengthMismatch(|weights.value|, |numbers|)
    ensures r.Ok? ==> |r.value| == |numbers|
    ensures r.Ok? && weights.Some? ==> r.value == weights.value
    ensures r.Ok? && weights.None? ==> forall i :: 0 <= i < |r.value| ==> r.value[i] == 1.0
  {
    match weights
    case None => Ok(Ones(|numbers|))
    case Some(ws) =>
      if |ws| == |numbers| then Ok(ws) else Err(LengthMismatch(|ws|, |numbers|))
  }

  /** Lines 28-32: the list comprehension over `zip(numbers, weights)`. */
  function Squares(xs: seq<real>, ws: seq<real>): seq<real>
    requires |ws| == |xs|
  {
    seq(|xs|, i requires 0 <= i < |xs| => ws[i] * xs[i] * xs[i])
  }

  /** Python's `sum(s)` continued from the running total `acc`: the terms
      are added one at a time, left to right. */
  function SumFrom(acc: real, s: seq<real>): real
    decreases |s|
  {
    if |s| == 0 then acc else SumFrom(acc + s[0], s[1..])
  }

  /** `average_of_squares(numbers, weights)`. */
  function AverageOfSquares(numbers: seq<real>, weights: Option<seq<real>>): (r: Result<real>)
    ensures r.Err? <==> weights.Some? && |weights.value| != |numbers|
    ensures r.Err? ==> r.error == LengthMismatch(|weights.value|, |numbers|)
    ensures weights.None? ==> r == Ok(SumOfSquares(numbers))
    ensures weights.Some? && |weights.value| == |numbers| ==>
              r == Ok(WeightedSumOfSquares(numbers, weights.value))
  {
    match EffectiveWeights(numbers, weights)
    case Err(e) => Err(e)
    case Ok(ws) =>
      var total := SumFrom(0.0, Squares(numbers, ws));
      SumFromIsWeightedSum(0.0, numbers, ws);
      if weights.None? then UnitWeightsAreNoWeights(numbers, ws); Ok(total)
      else Ok(total)
  }

  // ---------------------------------------------------------------------
  // Lemmas
  // ---------------------------------------------------------------------

  /** Adding the terms left to right, as `sum` does, gives the reference Σ. */
  lemma {:induction false} SumFromIsWeightedSum(acc: real, xs: seq<real>, ws: seq<real>)
    requires |ws| == |xs|
    ensures SumFrom(acc, Squares(xs, ws)) == acc + WeightedSumOfSquares(xs, ws)
    decreases |xs|
  {
    if |xs| > 0 {
      var s, t := Squares(xs, ws), Squares(xs[1..], ws[1..]);
      assert s[0] == ws[0] * xs[0] * xs[0];
      assert s[1..] == t by {
        forall i | 0 <= i < |t| ensures s[1..][i] == t[i] {
          assert xs[1..][i] == xs[i + 1] && ws[1..][i] == ws[i + 1];
        }
      }
      SumFromIsWeightedSum(acc + ws[0] * xs[0] * xs[0], xs[1..], ws[1..]);
    }
  }

  /** Weights that are all 1 leave every square unchanged. */
  lemma {:induction false} UnitWeightsAreNoWeights(xs: seq<real>, ws: seq<real>)
    requires |ws| == |xs|
    requires forall i :: 0 <= i < |ws| ==> ws[i] == 1.0
    ensures WeightedSumOfSquares(xs, ws) == SumOfSquares(xs)
  {
    if |xs| > 0 {
      UnitWeightsAreNoWeights(xs[1..], ws[1..]);
    }
  }

  /** Passing all-ones weights of the right length is the same as passing none. */
  lemma AllOnesWeightsSameAsNone(xs: seq<real>, ws: seq<real>)
    requires |ws| == |xs|
    requires forall i :: 0 <= i < |ws| ==> ws[i] == 1.0
    ensures AverageOfSquares(xs, Some(ws)) == AverageOfSquares(xs, None)
  {
    UnitWeightsAreNoWeights(xs, ws);
  }

  /** The empty list sums to 0, whether the weights are absent or empty. */
  lemma EmptyNumbersGiveZero()
    ensures AverageOfSquares([], None) == Ok(0.0)
    ensures AverageOfSquares([], Some([])) == Ok(0.0)
  {
  }

  /** Mismatched lengths fail whatever the values are. */
  lemma MismatchAlwaysFails(xs: seq<real>, ws: seq<real>)
    requires |ws| != |xs|
    ensures AverageOfSquares(xs, Some(ws)) == Err(LengthMismatch(|ws|, |xs|))
  {
  }

  lemma {:induction false} SumOfSquaresNonNegative(xs: seq<real>)
    ensures SumOfSquares(xs) >= 0.0
  {
    if |xs| > 0 {
      SumOfSquaresNonNegative(xs[1..]);
    }
  }

  lemma {:induction false} WeightedSumNonNegative(xs: seq<real>, ws: seq<real>)
    requires |ws| == |xs|
    requires forall i :: 0 <= i < |ws| ==> ws[i] >= 0.0
    ensures WeightedSumOfSquares(xs, ws) >= 0.0
  {
    if |xs| > 0 {
      assert xs[0] * xs[0] >= 0.0;
      assert ws[0] * xs[0] * xs[0] == ws[0] * (xs[0] * xs[0]);
      WeightedSumNonNegative(xs[1..], ws[1..]);
    }
  }

  /** The unweighted result, and every result whose weights are all
      non-negative, is at least 0. */
  lemma ResultNonNegative(xs: seq<real>, weights: Option<seq<real>>)
    requires weights.Some? ==> forall i :: 0 <= i < |weights.value| ==> weights.value[i] >= 0.0
    ensures AverageOfSquares(xs, weights).Ok? ==> AverageOfSquares(xs, weights).value >= 0.0
  {
    match weights
    case None => SumOfSquaresNonNegative(xs);
    case Some(ws) =>
      if |ws| == |xs| {
        WeightedSumNonNegative(xs, ws);
      }
  }

  /** A real with no fractional part: what Python would hold as an `int`. */
  predicate IsIntegral(x: real)
  {
    x.Floor as real == x
  }

  lemma {:induction false} WeightedSumIntegral(xs: seq<real>, ws: seq<real>)
    requires |ws| == |xs|
    requires forall i :: 0 <= i < |xs| ==> IsIntegral(xs[i])
    requires forall i :: 0 <= i < |ws| ==> IsIntegral(ws[i])
    ensures IsIntegral(WeightedSumOfSquares(xs, ws))
  {
    if |xs| > 0 {
      assert IsIntegral(xs[0]) && IsIntegral(ws[0]);
      var x, w := xs[0].Floor, ws[0].Floor;
      assert ws[0] * xs[0] * xs[0] == (w * x * x) as real;
      WeightedSumIntegral(xs[1..], ws[1..]);
      var rest := WeightedSumOfSquares(xs[1..], ws[1..]).Floor;
      assert WeightedSumOfSquares(xs, ws) == (w * x * x + rest) as real;
    }
  }

  /** Integer numbers with integer (or absent) weights give an integer
      result, as Python's `int` arithmetic does. */
  lemma IntegralInputsGiveIntegralResult(xs: seq<real>, weights: Option<seq<real>>)
    requires forall i :: 0 <= i < |xs| ==> IsIntegral(xs[i])
    requires weights.Some? ==> forall i :: 0 <= i < |weights.value| ==> IsIntegral(weights.value[i])
    ensures AverageOfSquares(xs, weights).Ok? ==> IsIntegral(AverageOfSquares(xs, weights).value)
  {
    match weights
    case None =>
      WeightedSumIntegral(xs, Ones(|xs|));
      UnitWeightsAreNoWeights(xs, Ones(|xs|));
    case Some(ws) =>
      if |ws| == |xs| {
        WeightedSumIntegral(xs, ws);
      }
  }

  /** The docstring examples (lines 13-19). */
  lemma DocstringExamples()
    ensures AverageOfSquares([1.0, 2.0, 4.0], None) == Ok(21.0)
    ensures AverageOfSquares([2.0, 4.0], Some([1.0, 0.5])) == Ok(12.0)
    ensures AverageOfSquares([1.0, 2.0, 4.0], Some([1.0, 0.5])) == Err(LengthMismatch(2, 3))
  {
    var a := [1.0, 2.0, 4.0];
    assert SumOfSquares(a[2..]) == 16.0;
    assert SumOfSquares(a[1..]) == 20.0;
    var b, w := [2.0, 4.0], [1.0, 0.5];
    assert WeightedSumOfSquares(b[1..], w[1..]) == 8.0;
  }
}
