/**
 * Sequence vocabulary shared by the packages. Go's `for k := range m` visits
 * the keys of a map in an unspecified order; the model takes that order as an
 * input, any sequence that lists every key exactly once.
 */
module Seqs {

  predicate Distinct<T(==)>(s: seq<T>) {
    forall i, j :: 0 <= i < j < |s| ==> s[i] != s[j]
  }

  /** `order` is one of the orders in which a `range` loop may visit `keys`. */
  predicate IsEnumeration<T(==)>(order: seq<T>, keys: set<T>) {
    Distinct(order) && (forall k :: k in order ==> k in keys) && (forall k :: k in keys ==> k in order)
  }

  /** Dropping the last element of a distinct sequence keeps it distinct and drops exactly that element. */
  lemma DistinctLast<T>(s: seq<T>, x: T)
    requires Distinct(s) && s != []
    ensures Distinct(s[..|s| - 1]) && s[|s| - 1] !in s[..|s| - 1]
    ensures x in s <==> x in s[..|s| - 1] || x == s[|s| - 1]
  {
    assert s == s[..|s| - 1] + [s[|s| - 1]];
  }
}
