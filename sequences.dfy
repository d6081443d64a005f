/** A property of sequences that both halves of the model state about their lists. */
module Sequences {

  /** No element appears twice. */
  predicate NoDuplicates<T(==)>(xs: seq<T>)
  {
    forall i, j :: 0 <= i < j < |xs| ==> xs[i] != xs[j]
  }
}
