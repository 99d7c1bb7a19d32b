/** Choosing the predicted class from the per-class scores: a scan over the
    classes in map-enumeration order, starting from minus infinity with the
    zero label, that replaces its pick whenever a score is strictly greater
    than the running maximum, so the first class of maximal score wins. */
module Selection {
  import opened Data

  /** The running maximum of the scan: minus infinity before any class has
      been seen, a finite score afterwards. */
  datatype Bound = NegInf | Finite(value: real)

  /** The strict `probability > max` test against the running maximum. */
  predicate Exceeds(p: real, max: Bound)
  {
    max.NegInf? || p > max.value
  }

  /** Every class of the enumeration has a score. */
  predicate Scored(scores: map<Label, real>, order: seq<Label>)
  {
    forall j :: 0 <= j < |order| ==> order[j] in scores
  }

  /** Among the first `n` classes enumerated, `order[k]` scores highest,
      and strictly higher than every class enumerated before it. */
  predicate FirstMaxUpTo(scores: map<Label, real>, order: seq<Label>, n: nat, k: nat)
    requires Scored(scores, order) && n <= |order|
  {
    && k < n
    && (forall j :: 0 <= j < n ==> scores[order[j]] <= scores[order[k]])
    && (forall j :: 0 <= j < k ==> scores[order[j]] < scores[order[k]])
  }

  /** `c` is the class the selection must return: the zero label when there
      is no class at all, otherwise the first class in enumeration order
      whose score is maximal. */
  predicate Chosen(scores: map<Label, real>, order: seq<Label>, c: Label)
    requires Scored(scores, order)
  {
    if |order| == 0 then c == 0
    else exists k :: 0 <= k < |order| && order[k] == c && FirstMaxUpTo(scores, order, |order|, k)
  }

  /** The scan's state after visiting the first `i` classes: nothing seen
      yet (minus infinity, zero label), or `best` is the first maximum so far
      and `max` its score. */
  predicate ScanState(scores: map<Label, real>, order: seq<Label>, i: nat, max: Bound, best: Label)
    requires Scored(scores, order) && i <= |order|
  {
    if i == 0 then max == NegInf && best == 0
    else
      && best in scores
      && max == Finite(scores[best])
      && exists k :: 0 <= k < i && order[k] == best && FirstMaxUpTo(scores, order, i, k)
  }

  /** One iteration of the scan keeps its state. */
  lemma ScanStep(scores: map<Label, real>, order: seq<Label>, i: nat, max: Bound, best: Label)
    requires Scored(scores, order) && i < |order|
    requires ScanState(scores, order, i, max, best)
    ensures Exceeds(scores[order[i]], max) ==> ScanState(scores, order, i + 1, Finite(scores[order[i]]), order[i])
    ensures !Exceeds(scores[order[i]], max) ==> ScanState(scores, order, i + 1, max, best)
  {
    var p := scores[order[i]];
    if i == 0 {
      assert FirstMaxUpTo(scores, order, 1, 0);
    } else {
      var k :| 0 <= k < i && order[k] == best && FirstMaxUpTo(scores, order, i, k);
      if Exceeds(p, max) {
        assert FirstMaxUpTo(scores, order, i + 1, i);
      } else {
        assert FirstMaxUpTo(scores, order, i + 1, k);
      }
    }
  }

  /** The remaining iterations of the scan, from its state after `i`
      classes to its result. */
  function Scan(scores: map<Label, real>, order: seq<Label>, i: nat, max: Bound, best: Label): (r: Label)
    requires Scored(scores, order) && i <= |order|
    requires ScanState(scores, order, i, max, best)
    ensures Chosen(scores, order, r)
    decreases |order| - i
  {
    if i == |order| then best
    else
      ScanStep(scores, order, i, max, best);
      var p := scores[order[i]];
      if Exceeds(p, max) then Scan(scores, order, i + 1, Finite(p), order[i])
      else Scan(scores, order, i + 1, max, best)
  }

  /** The selection loop of Predict: returns the first class of maximal
      score, or the zero label when there are no classes. */
  function SelectBest(scores: map<Label, real>, order: seq<Label>): (best: Label)
    requires Scored(scores, order)
    ensures Chosen(scores, order, best)
  {
    Scan(scores, order, 0, NegInf, 0)
  }

  /** At most one label meets the selection's specification. */
  lemma ChosenUnique(scores: map<Label, real>, order: seq<Label>, c: Label, d: Label)
    requires Scored(scores, order)
    requires Chosen(scores, order, c) && Chosen(scores, order, d)
    ensures c == d
  {
    if |order| > 0 {
      var k :| 0 <= k < |order| && order[k] == c && FirstMaxUpTo(scores, order, |order|, k);
      var m :| 0 <= m < |order| && order[m] == d && FirstMaxUpTo(scores, order, |order|, m);
    }
  }

  /** The scan returns `c` exactly when `c` is the first class of maximal
      score (the zero label when there are no classes). */
  lemma SelectBestCharacterised(scores: map<Label, real>, order: seq<Label>, c: Label)
    requires Scored(scores, order)
    ensures SelectBest(scores, order) == c <==> Chosen(scores, order, c)
  {
    if Chosen(scores, order, c) {
      ChosenUnique(scores, order, c, SelectBest(scores, order));
    }
  }

  /** The selected class is a class of the map whose score no other class
      exceeds; with no classes it is the zero label. */
  lemma SelectBestMaximal(scores: map<Label, real>, order: seq<Label>)
    requires Enumerates(order, scores.Keys)
    ensures Scored(scores, order)
    ensures scores.Keys == {} ==> SelectBest(scores, order) == 0
    ensures scores.Keys != {} ==>
              && SelectBest(scores, order) in scores
              && forall c :: c in scores ==> scores[c] <= scores[SelectBest(scores, order)]
  {
    assert Scored(scores, order) by {
      forall j | 0 <= j < |order|
        ensures order[j] in scores
      {
        assert order[j] in order;
        assert order[j] in scores.Keys;
      }
    }
    var best := SelectBest(scores, order);
    if |order| > 0 {
      var k :| 0 <= k < |order| && order[k] == best && FirstMaxUpTo(scores, order, |order|, k);
      assert order[k] in order;
      forall c | c in scores
        ensures scores[c] <= scores[best]
      {
        var j :| 0 <= j < |order| && order[j] == c;
      }
    } else {
      assert order == [];
      assert forall c :: c in scores.Keys ==> c in order;
      assert scores.Keys == {};
    }
  }

  /** Adding the same constant to every score. */
  function Shift(scores: map<Label, real>, d: real): map<Label, real>
  {
    map c | c in scores :: scores[c] + d
  }

  /** Adding the same constant to every score does not change the selected
      class. */
  lemma ShiftKeepsSelection(scores: map<Label, real>, order: seq<Label>, d: real)
    requires Scored(scores, order)
    ensures Scored(Shift(scores, d), order)
    ensures SelectBest(Shift(scores, d), order) == SelectBest(scores, order)
  {
    var shifted := Shift(scores, d);
    var best := SelectBest(scores, order);
    if |order| > 0 {
      var k :| 0 <= k < |order| && order[k] == best && FirstMaxUpTo(scores, order, |order|, k);
      assert FirstMaxUpTo(shifted, order, |order|, k);
    }
    SelectBestCharacterised(shifted, order, best);
  }
}
