/** Fit: partition the training rows by label, then estimate the per-class
    feature means and variances. */
module Training {
  import opened Data
  import opened Estimation
  import opened Partitioning

  /** The learned state of the classifier: the rows of each class and, per
      class, one mean and one variance per feature. */
  datatype Model = Model(
    classes: map<Label, seq<Example>>,
    means: map<Label, seq<real>>,
    variances: map<Label, seq<real>>)

  /** What Fit needs of its input to run to completion: a label for every
      row, and within each class no row shorter than the class's first row. */
  predicate Trainable(X: seq<Example>, y: seq<Label>)
  {
    |X| <= |y| && forall c :: c in LabelsOf(y, |X|) ==> Covered(Group(X, y, c))
  }

  /** `means` and `variances` are the per-feature estimates of the class
      whose rows are `examples`, one per feature of its first row. */
  predicate Estimated(examples: seq<Example>, means: seq<real>, variances: seq<real>)
  {
    && Covered(examples)
    && |means| == |examples[0]|
    && |variances| == |examples[0]|
    && forall f :: 0 <= f < |means| ==> means[f] == Mean(examples, f) && variances[f] == Variance(examples, f)
  }

  /** `means` and `variances` hold, for exactly the classes of
      `categories`, the per-feature estimates of each class. */
  predicate EstimatedAll(categories: map<Label, seq<Example>>, means: map<Label, seq<real>>, variances: map<Label, seq<real>>)
  {
    && means.Keys == categories.Keys
    && variances.Keys == categories.Keys
    && forall c :: c in categories ==> Estimated(categories[c], means[c], variances[c])
  }

  /** The first loop of Fit: each row is appended to the group of its
      label. Alongside, `order` lists the labels in order of first
      appearance, one legal enumeration of the resulting map. */
  method Partition(X: seq<Example>, y: seq<Label>) returns (categories: map<Label, seq<Example>>, order: seq<Label>)
    requires |X| <= |y|
    ensures Partitioned(X, y, categories)
    ensures Enumerates(order, categories.Keys)
  {
    categories := map[];
    order := [];
    for i := 0 to |X|
      invariant PartitionedUpTo(X, y, i, categories)
      invariant Enumerates(order, categories.Keys)
    {
      var c := y[i];
      if c !in categories {
        order := order + [c];
      }
      PartitionStep(X, y, i, categories);
      categories := categories[c := Get(categories, c) + [X[i]]];
    }
    PartitionDone(X, y, categories);
  }

  /** The second loop of Fit: estimate each class on its own, visiting the
      classes in the given enumeration order. The order only has to cover
      the classes: a class listed twice would be estimated twice from the
      same rows, with the same result, so repetitions are not excluded. */
  method EstimateAll(categories: map<Label, seq<Example>>, order: seq<Label>)
    returns (means: map<Label, seq<real>>, variances: map<Label, seq<real>>)
    requires forall c :: c in categories ==> Covered(categories[c])
    requires Covers(order, categories.Keys)
    ensures EstimatedAll(categories, means, variances)
  {
    means := map[];
    variances := map[];
    for k := 0 to |order|
      invariant means.Keys == variances.Keys == set j | 0 <= j < k :: order[j]
      invariant forall c :: c in means ==> Estimated(categories[c], means[c], variances[c])
    {
      var c := order[k];
      var m := CalculateMeans(categories[c]);
      var v := CalculateVariances(categories[c], m);
      means := means[c := m];
      variances := variances[c := v];
    }
    forall c | c in categories
      ensures c in means
    {
      var j :| 0 <= j < |order| && order[j] == c;
    }
    forall c | c in means
      ensures c in categories
    {
      var j :| 0 <= j < |order| && order[j] == c;
      assert order[j] in order;
    }
    assert means.Keys == categories.Keys;
  }

  /** Fit, returning the learned model instead of storing it in the
      receiver. */
  method Fit(X: seq<Example>, y: seq<Label>) returns (nb: Model)
    requires Trainable(X, y)
    ensures Partitioned(X, y, nb.classes)
    ensures EstimatedAll(nb.classes, nb.means, nb.variances)
  {
    var categories, order := Partition(X, y);
    var means, variances := EstimateAll(categories, order);
    nb := Model(categories, means, variances);
  }
}
