/** Sizes of finite sets, and permutations. */
module FiniteSets {

  lemma SubsetSize(a: set<nat>, b: set<nat>)
    requires a <= b
    ensures |a| <= |b|
  {
    assert b == a + (b - a);
  }

  lemma SameSize(a: set<nat>, b: set<nat>)
    requires a <= b && |a| == |b|
    ensures a == b
  {
    if a != b {
      var x :| x in b && x !in a;
      SubsetSize(a + {x}, b);
    }
  }

  predicate IsPermutation(order: seq<nat>, n: nat) {
    && |order| == n
    && (forall k :: 0 <= k < n ==> order[k] < n)
    && (forall j, k :: 0 <= j < k < n ==> order[j] != order[k])
  }

  function FirstNumbers(n: nat): (r: set<nat>)
    ensures |r| == n && forall i: nat :: i in r <==> i < n
  {
    if n == 0 then {} else FirstNumbers(n - 1) + {n - 1}
  }

  /** The first n entries of an order. */
  function Reached(order: seq<nat>, n: nat): set<nat>
    requires n <= |order|
  {
    set k | 0 <= k < n :: order[k]
  }

  lemma {:induction false} ReachedSize(order: seq<nat>, n: nat)
    requires n <= |order| && forall j, k :: 0 <= j < k < |order| ==> order[j] != order[k]
    ensures |Reached(order, n)| == n
  {
    if n > 0 {
      ReachedSize(order, n - 1);
      assert Reached(order, n) == Reached(order, n - 1) + {order[n - 1]};
    }
  }

  /** A permutation reaches every position. */
  lemma PermutationIsOnto(order: seq<nat>, n: nat, i: nat) returns (k: nat)
    requires IsPermutation(order, n) && i < n
    ensures k < n && order[k] == i
  {
    ReachedSize(order, n);
    assert Reached(order, n) <= FirstNumbers(n);
    SameSize(Reached(order, n), FirstNumbers(n));
    assert i in Reached(order, n);
    k :| 0 <= k < n && order[k] == i;
  }
}
