/** Orders in which a number of things are done, each once. */
module Permutations {

  predicate Permutes(order: seq<nat>, n: nat) {
    |order| == n && (forall k | 0 <= k < n :: order[k] < n) && (forall i | 0 <= i < n :: i in order) &&
    (forall j, k | 0 <= j < k < n :: order[j] != order[k])
  }

  lemma IdentityPermutes(order: seq<nat>, n: nat)
    requires |order| == n && forall k | 0 <= k < n :: order[k] == k
    ensures Permutes(order, n)
  {
    forall i | 0 <= i < n
      ensures i in order
    {
      assert order[i] == i;
    }
  }

  /** When something is done. */
  function Place(order: seq<nat>, i: nat): (q: nat)
    requires i in order
    ensures q < |order| && order[q] == i
  {
    if order[|order| - 1] == i then |order| - 1 else Place(order[..|order| - 1], i)
  }

  lemma PlaceIsOnly(order: seq<nat>, n: nat, q: nat)
    requires Permutes(order, n) && q < n
    ensures order[q] in order && Place(order, order[q]) == q
  {
  }
}
