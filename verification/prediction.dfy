/** Predict: score every trained class on each row and select the best. */
module Prediction {
  import opened Data
  import opened Selection
  import opened Training

  /** The log of the Gaussian density of feature value `x` under a class's
      estimated mean and variance for that feature. Its floating-point
      definition is outside the model, so it is a parameter: every property
      below holds whatever function is supplied. */
  type LogDensity = (real, real, real) -> real

  /** Sum of the per-feature log-densities of `x`, accumulated in feature
      order. */
  function LogLikelihood(x: Example, means: seq<real>, variances: seq<real>, logPdf: LogDensity): real
    requires |x| <= |means| && |x| <= |variances|
    decreases |x|
  {
    if |x| == 0 then 0.0
    else
      var j := |x| - 1;
      LogLikelihood(x[..j], means, variances, logPdf) + logPdf(x[j], means[j], variances[j])
  }

  /** Every trained class has a mean and a variance for each feature of
      `x` (a class missing from the estimate maps read as empty). */
  predicate Fits(nb: Model, x: Example)
  {
    forall c :: c in nb.classes ==> |x| <= |Get(nb.means, c)| && |x| <= |Get(nb.variances, c)|
  }

  /** The `probabilities` map of Predict for one row: each trained class
      scored as `init` plus the log-likelihood of the row. The source starts
      every class at 1.0. */
  function Probabilities(nb: Model, x: Example, init: real, logPdf: LogDensity): (p: map<Label, real>)
    requires Fits(nb, x)
    ensures p.Keys == nb.classes.Keys
  {
    map c | c in nb.classes :: init + LogLikelihood(x, Get(nb.means, c), Get(nb.variances, c), logPdf)
  }

  /** What Predict needs to run: each row fits the model, and for each row
      an enumeration of the trained classes stands for the order in which
      that row's map of scores is traversed. */
  predicate Predictable(nb: Model, X: seq<Example>, orders: seq<seq<Label>>)
  {
    && |orders| == |X|
    && forall i :: 0 <= i < |X| ==> Fits(nb, X[i]) && Enumerates(orders[i], nb.classes.Keys)
  }

  /** Every enumeration of the trained classes can index the score map. */
  lemma EnumeratedScored(nb: Model, x: Example, init: real, logPdf: LogDensity, order: seq<Label>)
    requires Fits(nb, x) && Enumerates(order, nb.classes.Keys)
    ensures Scored(Probabilities(nb, x, init, logPdf), order)
  {
    forall j | 0 <= j < |order|
      ensures order[j] in nb.classes.Keys
    {
      assert order[j] in order;
    }
  }

  /** Predict: one label per row, in row order; each label is the class the
      selection specification picks from that row's scores. */
  function Predict(nb: Model, X: seq<Example>, orders: seq<seq<Label>>, logPdf: LogDensity): (predictions: seq<Label>)
    requires Predictable(nb, X, orders)
    ensures |predictions| == |X|
    ensures forall i :: 0 <= i < |X| ==>
              Scored(Probabilities(nb, X[i], 1.0, logPdf), orders[i])
              && Chosen(Probabilities(nb, X[i], 1.0, logPdf), orders[i], predictions[i])
  {
    forall i | 0 <= i < |X| {
      EnumeratedScored(nb, X[i], 1.0, logPdf, orders[i]);
    }
    seq(|X|, i requires 0 <= i < |X| => SelectBest(Probabilities(nb, X[i], 1.0, logPdf), orders[i]))
  }

  /** Each prediction is a trained class scoring at least as high as every
      other trained class; with no trained classes it is the zero label. */
  lemma PredictMaximal(nb: Model, X: seq<Example>, orders: seq<seq<Label>>, logPdf: LogDensity, i: nat)
    requires Predictable(nb, X, orders) && i < |X|
    ensures nb.classes.Keys == {} ==> Predict(nb, X, orders, logPdf)[i] == 0
    ensures nb.classes.Keys != {} ==>
              var p := Probabilities(nb, X[i], 1.0, logPdf);
              var best := Predict(nb, X, orders, logPdf)[i];
              best in nb.classes && forall c :: c in nb.classes ==> p[c] <= p[best]
  {
    var p := Probabilities(nb, X[i], 1.0, logPdf);
    SelectBestMaximal(p, orders[i]);
    SelectBestCharacterised(p, orders[i], Predict(nb, X, orders, logPdf)[i]);
  }

  /** A prediction depends only on its own row, the model and that row's
      enumeration order: not on the other rows or their position. */
  lemma PredictRowwise(nb: Model, X: seq<Example>, orders: seq<seq<Label>>,
                       X': seq<Example>, orders': seq<seq<Label>>, logPdf: LogDensity, i: nat, j: nat)
    requires Predictable(nb, X, orders) && Predictable(nb, X', orders')
    requires i < |X| && j < |X'| && X[i] == X'[j] && orders[i] == orders'[j]
    ensures Predict(nb, X, orders, logPdf)[i] == Predict(nb, X', orders', logPdf)[j]
  {
    var p := Probabilities(nb, X[i], 1.0, logPdf);
    ChosenUnique(p, orders[i], Predict(nb, X, orders, logPdf)[i], Predict(nb, X', orders', logPdf)[j]);
  }

  /** The 1.0 every class score starts from is a common offset: starting
      from 0 instead selects the same class. */
  lemma UnitOffsetIrrelevant(nb: Model, x: Example, order: seq<Label>, logPdf: LogDensity)
    requires Fits(nb, x) && Enumerates(order, nb.classes.Keys)
    ensures Scored(Probabilities(nb, x, 0.0, logPdf), order)
    ensures Scored(Probabilities(nb, x, 1.0, logPdf), order)
    ensures SelectBest(Probabilities(nb, x, 1.0, logPdf), order)
            == SelectBest(Probabilities(nb, x, 0.0, logPdf), order)
  {
    var zero := Probabilities(nb, x, 0.0, logPdf);
    EnumeratedScored(nb, x, 0.0, logPdf, order);
    EnumeratedScored(nb, x, 1.0, logPdf, order);
    ShiftKeepsSelection(zero, order, 1.0);
    assert Probabilities(nb, x, 1.0, logPdf) == Shift(zero, 1.0);
  }
}
