/** Per-class parameter estimation: the column means computed by
    calculateMeans and the population variance whose square root
    calculateStddevs returns, over the reals. */
module Estimation {
  import opened Data

  /** Every row has a feature at index `f`. */
  predicate HasColumn(examples: seq<Example>, f: nat)
  {
    forall k :: 0 <= k < |examples| ==> f < |examples[k]|
  }

  /** What the estimators demand of a class's rows: at least one row (the
      feature count is read off the first), and no row shorter than the
      first (each row is indexed up to that count). */
  predicate Covered(examples: seq<Example>)
  {
    |examples| > 0 && forall k :: 0 <= k < |examples| ==> |examples[0]| <= |examples[k]|
  }

  /** Sum of column `f`, accumulated in row order. */
  function ColumnSum(examples: seq<Example>, f: nat): real
    requires HasColumn(examples, f)
    decreases |examples|
  {
    if |examples| == 0 then 0.0
    else ColumnSum(examples[..|examples| - 1], f) + examples[|examples| - 1][f]
  }

  /** `math.Pow(d, 2)`. */
  function Square(d: real): real
  {
    d * d
  }

  /** Sum of squared deviations of column `f` from `m`. */
  function SquaredDeviations(examples: seq<Example>, f: nat, m: real): real
    requires HasColumn(examples, f)
    decreases |examples|
  {
    if |examples| == 0 then 0.0
    else SquaredDeviations(examples[..|examples| - 1], f, m) + Square(examples[|examples| - 1][f] - m)
  }

  /** Population mean of column `f` (divisor: the number of rows). */
  function Mean(examples: seq<Example>, f: nat): real
    requires |examples| > 0 && HasColumn(examples, f)
  {
    ColumnSum(examples, f) / (|examples| as real)
  }

  /** Population variance of column `f`: the quantity under the square
      root in calculateStddevs (divisor: the number of rows, not one less). */
  function Variance(examples: seq<Example>, f: nat): real
    requires |examples| > 0 && HasColumn(examples, f)
  {
    SquaredDeviations(examples, f, Mean(examples, f)) / (|examples| as real)
  }

  /** Smallest entry of column `f`. */
  function ColumnMin(examples: seq<Example>, f: nat): (lo: real)
    requires |examples| > 0 && HasColumn(examples, f)
    ensures forall k :: 0 <= k < |examples| ==> lo <= examples[k][f]
    ensures exists k :: 0 <= k < |examples| && examples[k][f] == lo
    decreases |examples|
  {
    var n := |examples|;
    if n == 1 then examples[0][f]
    else
      var rest := ColumnMin(examples[..n - 1], f);
      if rest <= examples[n - 1][f] then rest else examples[n - 1][f]
  }

  /** Largest entry of column `f`. */
  function ColumnMax(examples: seq<Example>, f: nat): (hi: real)
    requires |examples| > 0 && HasColumn(examples, f)
    ensures forall k :: 0 <= k < |examples| ==> examples[k][f] <= hi
    ensures exists k :: 0 <= k < |examples| && examples[k][f] == hi
    decreases |examples|
  {
    var n := |examples|;
    if n == 1 then examples[0][f]
    else
      var rest := ColumnMax(examples[..n - 1], f);
      if examples[n - 1][f] <= rest then rest else examples[n - 1][f]
  }

  /** A column bounded by `lo` and `hi` sums to between n*lo and n*hi. */
  lemma {:induction false} ColumnSumBetween(examples: seq<Example>, f: nat, lo: real, hi: real)
    requires HasColumn(examples, f)
    requires forall k :: 0 <= k < |examples| ==> lo <= examples[k][f] <= hi
    ensures (|examples| as real) * lo <= ColumnSum(examples, f) <= (|examples| as real) * hi
    decreases |examples|
  {
    if |examples| > 0 {
      ColumnSumBetween(examples[..|examples| - 1], f, lo, hi);
    }
  }

  /** `d` itself, behind a function call: the solver reasons about the
      product `d * Twin(d)` as a product of two factors of the same sign,
      which it does not do for the square `d * d`. */
  function Twin(d: real): real
  {
    d
  }

  /** A square is non-negative, and positive away from zero. */
  lemma SquareSign(d: real)
    ensures Square(d) >= 0.0
    ensures d != 0.0 ==> Square(d) > 0.0
  {
    assert Square(d) == d * Twin(d);
    if d < 0.0 {
      assert Square(d) == (-d) * (-Twin(d));
    }
  }

  /** Dividing by a positive count keeps bounds scaled by that count. */
  lemma DivideBetween(s: real, n: real, lo: real, hi: real)
    requires n > 0.0 && n * lo <= s <= n * hi
    ensures lo <= s / n <= hi
  {
    var q := s / n;
    assert q * n == s;
  }

  /** The mean of a column lies between the column's smallest and largest
      entries. */
  lemma MeanWithinColumn(examples: seq<Example>, f: nat)
    requires |examples| > 0 && HasColumn(examples, f)
    ensures ColumnMin(examples, f) <= Mean(examples, f) <= ColumnMax(examples, f)
  {
    var n := |examples| as real;
    var lo, hi := ColumnMin(examples, f), ColumnMax(examples, f);
    ColumnSumBetween(examples, f, lo, hi);
    DivideBetween(ColumnSum(examples, f), n, lo, hi);
  }

  /** Squared deviations sum to a non-negative value, and to zero exactly
      when every entry equals the reference point. */
  lemma {:induction false} SquaredDeviationsZeroIff(examples: seq<Example>, f: nat, m: real)
    requires HasColumn(examples, f)
    ensures SquaredDeviations(examples, f, m) >= 0.0
    ensures SquaredDeviations(examples, f, m) == 0.0
            <==> forall k :: 0 <= k < |examples| ==> examples[k][f] == m
    decreases |examples|
  {
    var n := |examples|;
    if n > 0 {
      var init := examples[..n - 1];
      SquaredDeviationsZeroIff(init, f, m);
      var d := examples[n - 1][f] - m;
      SquareSign(d);
      var sum := SquaredDeviations(examples, f, m);
      assert sum == SquaredDeviations(init, f, m) + Square(d);
      assert forall k :: 0 <= k < n - 1 ==> init[k] == examples[k];
      if d == 0.0 {
        assert Square(d) == 0.0;
        assert sum == 0.0 <==> SquaredDeviations(init, f, m) == 0.0;
      } else {
        assert sum > 0.0;
        assert examples[n - 1][f] != m;
      }
    }
  }

  /** The variance estimate is never negative. */
  lemma VarianceNonNegative(examples: seq<Example>, f: nat)
    requires |examples| > 0 && HasColumn(examples, f)
    ensures Variance(examples, f) >= 0.0
  {
    SquaredDeviationsZeroIff(examples, f, Mean(examples, f));
  }

  /** The variance estimate is zero exactly when column `f` is constant
      across the class: the case in which the density is degenerate. */
  lemma VarianceZeroIffConstant(examples: seq<Example>, f: nat)
    requires |examples| > 0 && HasColumn(examples, f)
    ensures Variance(examples, f) == 0.0
            <==> forall j, k :: 0 <= j < |examples| && 0 <= k < |examples| ==> examples[j][f] == examples[k][f]
  {
    var n := |examples| as real;
    var m := Mean(examples, f);
    SquaredDeviationsZeroIff(examples, f, m);
    if forall j, k :: 0 <= j < |examples| && 0 <= k < |examples| ==> examples[j][f] == examples[k][f] {
      var v := examples[0][f];
      ColumnSumBetween(examples, f, v, v);
      DivideBetween(ColumnSum(examples, f), n, v, v);
      assert m == v;
    }
  }

  /** Column means of a class, computed as calculateMeans does: one pass
      over the rows per feature of the first row. */
  method CalculateMeans(examples: seq<Example>) returns (means: seq<real>)
    requires Covered(examples)
    ensures |means| == |examples[0]|
    ensures forall f :: 0 <= f < |means| ==> means[f] == ColumnSum(examples, f) / (|examples| as real)
  {
    var features := |examples[0]|;
    var n := |examples| as real;
    means := seq(features, _ => 0.0);
    for f := 0 to features
      invariant |means| == features
      invariant forall g :: 0 <= g < f ==> means[g] == ColumnSum(examples, g) / n
    {
      var sum := 0.0;
      for k := 0 to |examples|
        invariant sum == ColumnSum(examples[..k], f)
      {
        assert examples[..k + 1][..k] == examples[..k];
        sum := sum + examples[k][f];
      }
      assert examples[..|examples|] == examples;
      means := means[f := sum / n];
    }
  }

  /** Per-feature population variance of a class around the given means,
      computed as calculateStddevs does up to its final square root. */
  method CalculateVariances(examples: seq<Example>, means: seq<real>) returns (variances: seq<real>)
    requires Covered(examples) && |examples[0]| <= |means|
    ensures |variances| == |examples[0]|
    ensures forall f :: 0 <= f < |variances| ==>
              variances[f] == SquaredDeviations(examples, f, means[f]) / (|examples| as real)
    ensures forall f :: 0 <= f < |variances| ==> variances[f] >= 0.0
  {
    var features := |examples[0]|;
    var n := |examples| as real;
    variances := seq(features, _ => 0.0);
    for f := 0 to features
      invariant |variances| == features
      invariant forall g :: 0 <= g < f ==>
                  variances[g] == SquaredDeviations(examples, g, means[g]) / n && variances[g] >= 0.0
    {
      var sum := 0.0;
      for k := 0 to |examples|
        invariant sum == SquaredDeviations(examples[..k], f, means[f])
      {
        assert examples[..k + 1][..k] == examples[..k];
        sum := sum + Square(examples[k][f] - means[f]);
      }
      assert examples[..|examples|] == examples;
      SquaredDeviationsZeroIff(examples, f, means[f]);
      variances := variances[f := sum / n];
    }
  }
}
