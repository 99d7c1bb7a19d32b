/** Grouping of training rows by class label, the first half of Fit. */
module Partitioning {
  import opened Data

  /** The rows of `X` labelled `c`, in input order: the reference the
      partition loop is measured against. */
  function Group(X: seq<Example>, y: seq<Label>, c: Label): seq<Example>
    requires |X| <= |y|
  {
    if |X| == 0 then []
    else (if y[0] == c then [X[0]] else []) + Group(X[1..], y[1..], c)
  }

  /** The labels carried by the first `n` rows. */
  function LabelsOf(y: seq<Label>, n: nat): set<Label>
    requires n <= |y|
  {
    set i | 0 <= i < n :: y[i]
  }

  /** `categories` is the grouping of the rows of `X` by label: its keys
      are exactly the labels in use, and each key holds the rows carrying
      it, in input order. */
  predicate Partitioned(X: seq<Example>, y: seq<Label>, categories: map<Label, seq<Example>>)
    requires |X| <= |y|
  {
    && categories.Keys == LabelsOf(y, |X|)
    && forall c :: c in categories ==> categories[c] == Group(X, y, c)
  }

  /** The state of the partition loop after the first `i` rows: the keys
      are the labels seen so far, and every label (present or not) reads
      as its group among those rows. */
  ghost predicate PartitionedUpTo(X: seq<Example>, y: seq<Label>, i: nat, categories: map<Label, seq<Example>>)
    requires i <= |X| <= |y|
  {
    && categories.Keys == LabelsOf(y, i)
    && forall c :: Get(categories, c) == Group(X[..i], y, c)
  }

  /** Appending row `i` to the group of its label advances the partition
      loop by one row. */
  lemma PartitionStep(X: seq<Example>, y: seq<Label>, i: nat, categories: map<Label, seq<Example>>)
    requires i < |X| <= |y|
    requires PartitionedUpTo(X, y, i, categories)
    ensures PartitionedUpTo(X, y, i + 1, categories[y[i] := Get(categories, y[i]) + [X[i]]])
  {
    var next := categories[y[i] := Get(categories, y[i]) + [X[i]]];
    forall d
      ensures Get(next, d) == Group(X[..i + 1], y, d)
    {
      GroupSnoc(X, y, d, i);
    }
    LabelsOfSnoc(y, i);
  }

  /** Once every row is placed, the loop state is the partition. */
  lemma PartitionDone(X: seq<Example>, y: seq<Label>, categories: map<Label, seq<Example>>)
    requires |X| <= |y|
    requires PartitionedUpTo(X, y, |X|, categories)
    ensures Partitioned(X, y, categories)
  {
    assert X[..|X|] == X;
    forall c | c in categories
      ensures categories[c] == Group(X, y, c)
    {
      assert Get(categories, c) == categories[c];
    }
  }

  /** One more row brings its label into use. */
  lemma LabelsOfSnoc(y: seq<Label>, i: nat)
    requires i < |y|
    ensures LabelsOf(y, i + 1) == LabelsOf(y, i) + {y[i]}
  {
  }

  /** Total size of the groups of the labels in `labels`, taken in that
      order (as a loop over a map of groups would). */
  function GroupSizes(X: seq<Example>, y: seq<Label>, labels: seq<Label>): nat
    requires |X| <= |y|
  {
    if |labels| == 0 then 0
    else |Group(X, y, labels[0])| + GroupSizes(X, y, labels[1..])
  }

  /** Number of times `c` occurs in `labels`. */
  function Occurrences(labels: seq<Label>, c: Label): nat
  {
    if |labels| == 0 then 0
    else (if labels[0] == c then 1 else 0) + Occurrences(labels[1..], c)
  }

  /** Appending a row at the end extends the group of its label at the end
      and leaves every other group as it was. */
  lemma {:induction false} GroupSnoc(X: seq<Example>, y: seq<Label>, c: Label, i: nat)
    requires i < |X| <= |y|
    ensures Group(X[..i + 1], y, c) == Group(X[..i], y, c) + (if y[i] == c then [X[i]] else [])
    decreases i
  {
    if i > 0 {
      GroupSnoc(X[1..], y[1..], c, i - 1);
      assert X[..i + 1][1..] == X[1..][..i];
      assert X[..i][1..] == X[1..][..i - 1];
    }
  }

  /** A label has a non-empty group exactly when some row carries it. */
  lemma {:induction false} GroupNonEmptyIffLabelled(X: seq<Example>, y: seq<Label>, c: Label)
    requires |X| <= |y|
    ensures |Group(X, y, c)| > 0 <==> exists i :: 0 <= i < |X| && y[i] == c
    decreases |X|
  {
    if |X| > 0 {
      GroupNonEmptyIffLabelled(X[1..], y[1..], c);
      if exists i :: 0 <= i < |X| && y[i] == c {
        var i :| 0 <= i < |X| && y[i] == c;
        if i > 0 {
          assert y[1..][i - 1] == c;
        }
      }
      if exists i :: 0 <= i < |X| - 1 && y[1..][i] == c {
        var i :| 0 <= i < |X| - 1 && y[1..][i] == c;
        assert y[i + 1] == c;
      }
    }
  }

  /** A label listed once occurs once. */
  lemma {:induction false} OccurrencesDistinct(labels: seq<Label>, c: Label)
    requires Distinct(labels) && c in labels
    ensures Occurrences(labels, c) == 1
    decreases |labels|
  {
    if labels[0] == c {
      OccurrencesAbsent(labels[1..], c);
    } else {
      OccurrencesDistinct(labels[1..], c);
    }
  }

  /** A label not listed does not occur. */
  lemma {:induction false} OccurrencesAbsent(labels: seq<Label>, c: Label)
    requires c !in labels
    ensures Occurrences(labels, c) == 0
    decreases |labels|
  {
    if |labels| > 0 {
      OccurrencesAbsent(labels[1..], c);
    }
  }

  /** Peeling the first row off the data set removes it from exactly the
      groups listed for its label. */
  lemma {:induction false} GroupSizesPeel(X: seq<Example>, y: seq<Label>, labels: seq<Label>)
    requires 0 < |X| <= |y|
    ensures GroupSizes(X, y, labels) == Occurrences(labels, y[0]) + GroupSizes(X[1..], y[1..], labels)
    decreases |labels|
  {
    if |labels| > 0 {
      GroupSizesPeel(X, y, labels[1..]);
    }
  }

  /** With no rows, every group is empty. */
  lemma {:induction false} GroupSizesEmpty(X: seq<Example>, y: seq<Label>, labels: seq<Label>)
    requires |X| == 0 && |X| <= |y|
    ensures GroupSizes(X, y, labels) == 0
    decreases |labels|
  {
    if |labels| > 0 {
      GroupSizesEmpty(X, y, labels[1..]);
    }
  }

  /** The partition is exhaustive: over any repetition-free enumeration
      that covers every label in use, the group sizes add up to the number
      of rows. */
  lemma {:induction false} GroupSizesSum(X: seq<Example>, y: seq<Label>, labels: seq<Label>)
    requires |X| <= |y| && Distinct(labels)
    requires forall i :: 0 <= i < |X| ==> y[i] in labels
    ensures GroupSizes(X, y, labels) == |X|
    decreases |X|
  {
    if |X| == 0 {
      GroupSizesEmpty(X, y, labels);
    } else {
      GroupSizesPeel(X, y, labels);
      OccurrencesDistinct(labels, y[0]);
      assert forall i :: 0 <= i < |X| - 1 ==> y[1..][i] == y[i + 1];
      GroupSizesSum(X[1..], y[1..], labels);
    }
  }
}
