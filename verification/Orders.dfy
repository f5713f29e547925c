/** Iteration orders of hash maps and hash sets. */
module Orders {
  ghost predicate NoDuplicates<T>(order: seq<T>) {
    forall i, j :: 0 <= i < j < |order| ==> order[i] != order[j]
  }

  /** The order lists every key exactly once. */
  ghost predicate Enumerates<T(!new)>(order: seq<T>, keys: set<T>) {
    (forall x :: x in order <==> x in keys) && NoDuplicates(order)
  }
}
