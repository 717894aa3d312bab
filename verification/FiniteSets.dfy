/** Cardinalities of finite sets: initial segments, subsets and overlaps. */
module FiniteSets {

  /** {0, 1, ..., n - 1}. */
  function Below(n: nat): (s: set<nat>)
    ensures forall i :: i in s <==> 0 <= i < n
    ensures |s| == n
  {
    if n == 0 then {} else Below(n - 1) + {n - 1}
  }

  lemma {:induction false} SubsetSize<T>(A: set<T>, B: set<T>)
    requires A <= B
    ensures |A| <= |B|
    decreases A
  {
    if A != {} {
      var x :| x in A;
      SubsetSize(A - {x}, B - {x});
    }
  }

  lemma SameSize<T>(A: set<T>, B: set<T>)
    requires A <= B && |A| >= |B|
    ensures A == B
  {
    if A != B {
      var x :| x in B && x !in A;
      SubsetSize(A, B - {x});
    }
  }

  /** A subset of size k. */
  lemma Part<T>(S: set<T>, k: nat) returns (D: set<T>)
    requires |S| >= k
    ensures D <= S && |D| == k
    decreases |S|
  {
    D := S;
    if |S| > k {
      var x :| x in S;
      D := Part(S - {x}, k);
    }
  }

  /** Inclusion and exclusion: two subsets of U overlap in at least |A| + |B| - |U| elements. */
  lemma Overlap<T>(A: set<T>, B: set<T>, U: set<T>)
    requires A <= U && B <= U
    ensures |A * B| >= |A| + |B| - |U|
  {
    assert |A + B| == |A| + |B| - |A * B|;
    SubsetSize(A + B, U);
  }
}
