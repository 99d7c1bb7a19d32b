/** AccuracyScore, in its two forms: package gaussian counts correct
    predictions up from zero; package naivebayes counts down from the
    number of predictions on each mismatch. */
module Accuracy {
  import opened Data

  /** Positions among the first |preds| where the prediction equals the
      label. */
  function Matches(preds: seq<Label>, y: seq<Label>): nat
    requires |preds| <= |y|
    decreases |preds|
  {
    if |preds| == 0 then 0
    else
      var i := |preds| - 1;
      Matches(preds[..i], y) + (if preds[i] == y[i] then 1 else 0)
  }

  /** Positions among the first |preds| where the prediction differs from
      the label. */
  function Mismatches(preds: seq<Label>, y: seq<Label>): nat
    requires |preds| <= |y|
    decreases |preds|
  {
    if |preds| == 0 then 0
    else
      var i := |preds| - 1;
      Mismatches(preds[..i], y) + (if preds[i] != y[i] then 1 else 0)
  }

  /** Every position is a match or a mismatch: counting down from the
      number of predictions gives the same count as counting up. */
  lemma {:induction false} MatchesPlusMismatches(preds: seq<Label>, y: seq<Label>)
    requires |preds| <= |y|
    ensures Matches(preds, y) + Mismatches(preds, y) == |preds|
    decreases |preds|
  {
    if |preds| > 0 {
      MatchesPlusMismatches(preds[..|preds| - 1], y);
    }
  }

  /** The count is full exactly when every prediction is correct. */
  lemma {:induction false} AllMatchIff(preds: seq<Label>, y: seq<Label>)
    requires |preds| <= |y|
    ensures Matches(preds, y) <= |preds|
    ensures Matches(preds, y) == |preds| <==> forall i :: 0 <= i < |preds| ==> preds[i] == y[i]
    decreases |preds|
  {
    if |preds| > 0 {
      var n := |preds| - 1;
      AllMatchIff(preds[..n], y);
      assert forall i :: 0 <= i < n ==> preds[..n][i] == preds[i];
    }
  }

  /** The count is zero exactly when no prediction is correct. */
  lemma {:induction false} NoneMatchIff(preds: seq<Label>, y: seq<Label>)
    requires |preds| <= |y|
    ensures Matches(preds, y) == 0 <==> forall i :: 0 <= i < |preds| ==> preds[i] != y[i]
    decreases |preds|
  {
    if |preds| > 0 {
      var n := |preds| - 1;
      NoneMatchIff(preds[..n], y);
      assert forall i :: 0 <= i < n ==> preds[..n][i] == preds[i];
    }
  }

  /** The counting loop of package gaussian: one increment per correct
      prediction. */
  method CorrectCountUp(preds: seq<Label>, y: seq<Label>) returns (correct: int)
    requires |preds| <= |y|
    ensures correct == Matches(preds, y)
    ensures 0 <= correct <= |preds|
    ensures correct == |preds| <==> forall i :: 0 <= i < |preds| ==> preds[i] == y[i]
    ensures correct == 0 <==> forall i :: 0 <= i < |preds| ==> preds[i] != y[i]
  {
    correct := 0;
    for i := 0 to |preds|
      invariant correct == Matches(preds[..i], y)
    {
      assert preds[..i + 1][..i] == preds[..i];
      if preds[i] == y[i] {
        correct := correct + 1;
      }
    }
    assert preds[..|preds|] == preds;
    AllMatchIff(preds, y);
    NoneMatchIff(preds, y);
  }

  /** The counting loop of package naivebayes: start from the number of
      predictions, one decrement per wrong prediction. */
  method CorrectCountDown(preds: seq<Label>, y: seq<Label>) returns (correct: int)
    requires |preds| <= |y|
    ensures correct == Matches(preds, y)
    ensures 0 <= correct <= |preds|
    ensures correct == |preds| <==> forall i :: 0 <= i < |preds| ==> preds[i] == y[i]
    ensures correct == 0 <==> forall i :: 0 <= i < |preds| ==> preds[i] != y[i]
  {
    correct := |preds|;
    for i := 0 to |preds|
      invariant correct == |preds| - Mismatches(preds[..i], y)
    {
      assert preds[..i + 1][..i] == preds[..i];
      if preds[i] != y[i] {
        correct := correct - 1;
      }
    }
    assert preds[..|preds|] == preds;
    MatchesPlusMismatches(preds, y);
    AllMatchIff(preds, y);
    NoneMatchIff(preds, y);
  }

  /** A count `m` out of `n > 0`, as a fraction: in [0, 1], one exactly
      at `m == n`, zero exactly at `m == 0`. */
  lemma FractionBounds(m: int, n: int)
    requires 0 <= m <= n && 0 < n
    ensures 0.0 <= (m as real) / (n as real) <= 1.0
    ensures (m as real) / (n as real) == 1.0 <==> m == n
    ensures (m as real) / (n as real) == 0.0 <==> m == 0
  {
    var q := (m as real) / (n as real);
    assert q * (n as real) == m as real;
  }

  /** The returned accuracy: the fraction of correct predictions. */
  function AccuracyScore(preds: seq<Label>, y: seq<Label>): (accuracy: real)
    requires 0 < |preds| <= |y|
    ensures 0.0 <= accuracy <= 1.0
    ensures accuracy == 1.0 <==> forall i :: 0 <= i < |preds| ==> preds[i] == y[i]
    ensures accuracy == 0.0 <==> forall i :: 0 <= i < |preds| ==> preds[i] != y[i]
  {
    AllMatchIff(preds, y);
    NoneMatchIff(preds, y);
    FractionBounds(Matches(preds, y), |preds|);
    (Matches(preds, y) as real) / (|preds| as real)
  }
}
