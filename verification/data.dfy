/** Shared vocabulary of the classifier: feature vectors, class labels, and
    Go's read of a slice-valued map. */
module Data {

  /** One example: an ordered vector of real-valued features. */
  type Example = seq<real>

  /** A class label. Package gaussian wraps it in a named `Class` type over
      `int`; the conversions in both directions are the identity. */
  type Label = int

  /** Reading `m[c]` from a Go map of slices: a missing key yields the
      zero value, the empty (nil) slice. */
  function Get<T>(m: map<Label, seq<T>>, c: Label): seq<T>
  {
    if c in m then m[c] else []
  }

  /** No label is listed twice. */
  predicate Distinct(labels: seq<Label>)
  {
    forall i, j :: 0 <= i < j < |labels| ==> labels[i] != labels[j]
  }

  /** Every label of `order` is a key of `keys`, and every key is listed. */
  predicate Covers(order: seq<Label>, keys: set<Label>)
  {
    && (forall c :: c in order ==> c in keys)
    && (forall c :: c in keys ==> c in order)
  }

  /** `order` lists each key of `keys` exactly once: one possible
      enumeration of a Go map with those keys. */
  predicate Enumerates(order: seq<Label>, keys: set<Label>)
  {
    Distinct(order) && Covers(order, keys)
  }
}
