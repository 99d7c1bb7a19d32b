# Gaussian Naive Bayes classifier — a Dafny model

This project models the discrete logic of a Gaussian Naive Bayes classifier
written in Go. The repository holds two near-identical copies: package
`gaussian` (gaussian/classifier.go) and package `naivebayes` (classifier.go).
The model proves properties of that logic:

- **Fit** groups the training rows by label. For each class it then computes
  the per-feature mean and the population standard deviation.
- **Predict** scores every trained class on each row. The score is `1.0` plus
  the sum of the per-feature log Gaussian densities. Predict then scans the
  scores in map order, starting from a running maximum of minus infinity and
  the zero label. It replaces its pick whenever a score is strictly greater
  than the running maximum, so the first class of maximal score wins.
- **AccuracyScore** returns the fraction of predictions that equal their labels.

The two files are the same except for two things:

- Package `gaussian` wraps labels in a named `Class` type over `int`. Converting
  to it and back is the identity, so both copies use `Data.Label`.
- AccuracyScore counts differently. `gaussian` counts correct predictions up
  from zero. `naivebayes` starts at `len(preds)` and subtracts one for each
  mismatch.

So Fit, calculateMeans, calculateStddevs and Predict are each defined once, and
the rows below cite the file whose lines each member follows. The
accuracy count has one member per form, and `Accuracy.MatchesPlusMismatches`
proves that the two forms agree.

Modules:

- `Data`: feature vectors, labels, and reads from a Go map of slices (a missing
  key reads as the empty slice).
- `Estimation`: calculateMeans and calculateStddevs over `real`, with column
  sums, means and variances as reference definitions.
- `Partitioning`: the reference definition of "the rows labelled `c`, in input
  order", plus facts about it.
- `Training`: the model value and `Fit`.
- `Selection`: the strict-`>` scan that picks the predicted class, and its
  specification.
- `Prediction`: per-class scores and `Predict`.
- `Accuracy`: both counting loops and the final fraction.

Modelling choices:

- The log-density of one feature is a function parameter `(x, mean, variance) -> real`.
  Every property holds whatever function is supplied. A square root of the
  variance is itself a function of the variance, so passing the variance loses
  nothing.
- Go map iteration order is unspecified. Each map traversal whose order could
  matter takes an explicit enumeration instead. Predict takes one enumeration of
  the trained classes per row. Fit's per-class pass visits the classes in order
  of first appearance. Each class is estimated on its own, so the visiting order
  does not change the model.
- Fit returns the model instead of storing it in the receiver.
- The Go code has no error results. Where an input would make it panic, the
  model has a `requires` clause instead:
  - Fit needs a label for every row (`len(y) >= len(X)`).
  - Within each class, no row may be shorter than the class's first row.
  - Predict needs each row to be no longer than every trained class's means and
    variances.
  - AccuracyScore needs `len(y) >= len(preds)`.

Behaviour of the code on unusual inputs:

- The code defines no error results. A short `y`, or a row shorter than its
  class's first row, panics on indexing. Those cases are the `requires`
  clauses above.
- An empty training set gives an empty model. With no trained classes,
  Predict returns label 0 for every row.
- Ties go to the first maximum in map enumeration order.
- Fit and AccuracyScore need only as many labels as rows or predictions.

## Model

| member | source | states |
|---|---|---|
| Estimation.CalculateMeans | gaussian/classifier.go:19-30 | one mean per feature of the class's first row; the mean of feature f is the column sum of f over the class's rows divided by the row count |
| Estimation.CalculateVariances | gaussian/classifier.go:33-44 | one value per feature of the first row: the sum of squared deviations from the given mean divided by the row count (the quantity under the square root); each value is non-negative |
| Estimation.MeanWithinColumn | classifier.go:17-28 | each mean lies between the smallest and the largest entry of its column |
| Estimation.VarianceNonNegative | classifier.go:31-42 | the population variance of every feature is at least zero |
| Estimation.VarianceZeroIffConstant | gaussian/classifier.go:36-42 | the variance of a feature is zero exactly when that feature has the same value in every row of the class |
| Partitioning.GroupSnoc | gaussian/classifier.go:49-52 | appending the next row adds it at the end of its own label's group and leaves every other group unchanged, so groups keep input order |
| Partitioning.PartitionStep | classifier.go:47-50 | one iteration of the grouping loop (append the row to its label's slice, a missing key reading as the empty slice) keeps the loop state: keys are the labels seen so far and each label holds its rows among those seen, in order |
| Partitioning.GroupNonEmptyIffLabelled | classifier.go:46-50 | a label's group is non-empty exactly when some row carries that label |
| Partitioning.GroupSizesSum | gaussian/classifier.go:48-52 | over any enumeration of the labels in use with no repeats, the group sizes add up to the number of rows, so every row lands in exactly one group |
| Training.Partition | classifier.go:46-50 | the map's keys are exactly the labels of the rows; each key maps to the rows with that label in input order; it also returns a repetition-free enumeration of the keys |
| Training.EstimateAll | classifier.go:53-58 | for any order that covers the classes, the means and variances maps have exactly the classes' keys, and each entry holds the column means and variances of that class's rows, one per feature of its first row |
| Training.Fit | gaussian/classifier.go:46-67 | learned classes are exactly the labels in use; each holds its rows in input order; means and variances have the same keys, with per-feature estimates of each class |
| Selection.Scan | gaussian/classifier.go:87-92 | from any loop state that holds the first maximum so far, the remaining iterations return the first class of maximal score (or the zero label if there are no classes) |
| Selection.SelectBest | gaussian/classifier.go:85-92 | the scan from minus infinity returns the zero label when there are no classes; otherwise a class at the first position whose score is at least every score and strictly above every earlier score |
| Selection.ChosenUnique | classifier.go:78-85 | at most one label satisfies that specification, so the tie-break decides the result |
| Selection.SelectBestCharacterised | classifier.go:78-85 | the scan returns c if and only if c is the first maximal class in enumeration order (or no classes exist and c is 0) |
| Selection.SelectBestMaximal | gaussian/classifier.go:84-92 | over an enumeration of the score map's keys, the selected class is a key scoring at least as high as every key; an empty map yields 0 |
| Selection.ShiftKeepsSelection | classifier.go:70-85 | adding one constant to every score leaves the selected class unchanged |
| Prediction.Probabilities | gaussian/classifier.go:74-82 | the per-row score map has exactly the trained classes as keys |
| Prediction.Predict | gaussian/classifier.go:69-98 | one prediction per row in row order; each is the first maximal class of that row's scores in that row's enumeration, or 0 when no class is trained |
| Prediction.PredictMaximal | classifier.go:65-89 | each prediction is a trained class with the highest score for its row; with no trained classes every prediction is 0 |
| Prediction.PredictRowwise | classifier.go:66-86 | a prediction depends only on its own row, the model and that row's enumeration, not on the other rows or on its position |
| Prediction.UnitOffsetIrrelevant | gaussian/classifier.go:76-92 | starting each class score at 1.0 or at 0 selects the same class |
| Accuracy.CorrectCountUp | gaussian/classifier.go:100-107 | the count equals the number of matching positions, lies in [0, len(preds)], equals len(preds) iff all predictions match and equals 0 iff none does |
| Accuracy.CorrectCountDown | classifier.go:91-97 | starting from len(preds) and subtracting one per mismatch gives the number of matches, with the same bounds and both iff properties |
| Accuracy.MatchesPlusMismatches | classifier.go:92-97 | matches plus mismatches equal len(preds), so the count-down form agrees with the count-up form |
| Accuracy.AllMatchIff | gaussian/classifier.go:101-107 | the match count never exceeds len(preds) and reaches it exactly when every prediction is correct |
| Accuracy.NoneMatchIff | classifier.go:92-97 | the match count is zero exactly when no prediction is correct |
| Accuracy.AccuracyScore | gaussian/classifier.go:108-110 | the accuracy is in [0, 1], is 1 exactly when all predictions are correct, and is 0 exactly when none is |

## Left out

- gaussianPDF, `math.Log`, `math.Exp`, `math.Sqrt` and `math.Pow` on float64 are left out: they are transcendental floating-point functions. The per-feature log-density is a function parameter, and the model keeps the variance instead of its square root. `Square` is ordinary multiplication over the reals.
- Estimation.CalculateVariances: returns the variance, not its square root. The standard deviation itself is not modelled.
- Float64 rounding is left out. All sums, means and variances are exact reals, and scores are finite reals.
- NaN and infinite scores are left out. Over the reals, `Estimation.VarianceZeroIffConstant` gives the exact condition for a zero variance: the feature is constant within the class. Under float64 rounding that condition is neither necessary nor sufficient. A constant column whose mean is not exactly representable (three rows of 0.1, say) can leave a tiny non-zero standard deviation, which inflates that class's score instead of disqualifying it. A nearly constant column (0 and 1e-200) can round to a zero variance. When the standard deviation is zero, the code makes gaussianPDF compute infinity times NaN (when the feature equals the mean) or infinity times zero (otherwise), and both are NaN. That class's score is then NaN on every row that has the feature. `probability > max` is never true for NaN, so the class is never predicted. If every class is degenerate, Predict returns label 0. A row far from a class can make the density underflow to 0, so its log is minus infinity. If every class scores minus infinity, the strict `>` never fires and Predict returns label 0, even when 0 is not a trained class. The model's scores are finite, so this case cannot arise in it.
- Accuracy.AccuracyScore: requires at least one prediction. With none, the source divides 0 by 0 and returns NaN.
- Accuracy.CorrectCountDown: the source keeps this count in a float64. The model uses an integer, which matches it for fewer than 2^53 predictions.
- Go's randomised map iteration is not modelled as nondeterminism. Explicit enumeration sequences stand in for it.
- Storing the learned maps in the receiver is left out. Fit returns a model value instead.
- The panics on out-of-range indexing are not modelled as results. They appear as the `requires` clauses listed above.
