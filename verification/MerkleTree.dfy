/**
 The Merkle trees of honeybadgerbft/core/reliablebroadcast.py, kept in an array:
 node i has the children 2i and 2i + 1, the root is node 1, and the bottom row
 is padded with empty strings that are not hashed.
 */
module MerkleTree {
  import opened ByteStrings
  import opened Options
  import opened PowersOfTwo

  // ---------- the shape of the tree ----------

  /** ceil(log2(N)). */
  function CeilLog2(N: nat): nat
    requires N >= 1
  {
    if N == 1 then 0 else 1 + CeilLog2((N + 1) / 2)
  }

  lemma {:induction false} CeilLog2Bounds(N: nat)
    requires N >= 1
    ensures N <= Pow2(CeilLog2(N)) && (N > 1 ==> Pow2(CeilLog2(N) - 1) < N)
  {
    if N > 1 {
      CeilLog2Bounds((N + 1) / 2);
    }
  }

  function BottomRow(N: nat): (b: nat)
    requires N >= 1
    ensures b >= N
  {
    CeilLog2Bounds(N);
    Pow2(CeilLog2(N))
  }

  /** The value of node i of the tree over the given leaves. */
  function Node(H: Hash, leaves: seq<Bytes>, bottom: nat, i: nat): Bytes
    requires 1 <= i < 2 * bottom
    decreases 2 * bottom - i
  {
    if i >= bottom then
      if i - bottom < |leaves| then H(leaves[i - bottom]) else []
    else
      H(Node(H, leaves, bottom, 2 * i) + Node(H, leaves, bottom, 2 * i + 1))
  }

  function Root(H: Hash, leaves: seq<Bytes>): Bytes
    requires |leaves| >= 1
  {
    Node(H, leaves, BottomRow(|leaves|), 1)
  }

  /** t ^ 1. */
  function Sibling(t: nat): nat {
    if t % 2 == 0 then t + 1 else t - 1
  }

  /** The siblings on the way from node t to the root. */
  function Branch(mt: seq<Bytes>, t: nat): seq<Bytes>
    requires t < |mt| && |mt| % 2 == 0
  {
    if t <= 1 then [] else [mt[Sibling(t)]] + Branch(mt, t / 2)
  }

  /** The digest that merkleVerify climbs to from tmp. */
  function Climb(H: Hash, tmp: Bytes, branch: seq<Bytes>, tindex: nat): Bytes
    decreases |branch|
  {
    if branch == [] then tmp
    else Climb(H, H(if tindex % 2 == 1 then branch[0] + tmp else tmp + branch[0]), branch[1..], tindex / 2)
  }

  /** merkleVerify; None stands for its AssertionError. */
  function Verify(H: Hash, N: nat, val: Bytes, roothash: Bytes, branch: seq<Bytes>, index: nat): Option<bool>
  {
    if index < N && |branch| == CeilLog2(N) then Some(Climb(H, H(val), branch, index) == roothash) else None
  }

  predicate Accepts(H: Hash, N: nat, val: Bytes, roothash: Bytes, branch: seq<Bytes>, index: nat) {
    Verify(H, N, val, roothash, branch, index) == Some(true)
  }

  // ---------- the code ----------

  method MakeTree(H: Hash, strList: seq<Bytes>) returns (mt: array<Bytes>)
    requires |strList| >= 1
    ensures fresh(mt) && mt.Length == 2 * BottomRow(|strList|) && mt[0] == []
    ensures forall i :: 1 <= i < mt.Length ==> mt[i] == Node(H, strList, BottomRow(|strList|), i)
    ensures forall i :: BottomRow(|strList|) <= i < mt.Length ==>
      mt[i] == if i - BottomRow(|strList|) < |strList| then H(strList[i - BottomRow(|strList|)]) else []
  {
    var N := |strList|;
    var bottomrow := BottomRow(N);
    mt := new Bytes[2 * bottomrow](i => []);
    for i := 0 to N
      invariant forall k :: bottomrow <= k < bottomrow + i ==> mt[k] == Node(H, strList, bottomrow, k)
      invariant forall k :: 0 <= k < bottomrow || bottomrow + i <= k < mt.Length ==> mt[k] == []
    {
      mt[bottomrow + i] := H(strList[i]);
    }
    HashUp(H, strList, mt, bottomrow);
  }

  // The second loop of merkleTree: inner nodes from their children, down to node 1.
  method HashUp(H: Hash, strList: seq<Bytes>, mt: array<Bytes>, bottomrow: nat)
    requires bottomrow >= 1 && mt.Length == 2 * bottomrow && mt[0] == []
    requires forall k :: bottomrow <= k < mt.Length ==> mt[k] == Node(H, strList, bottomrow, k)
    modifies mt
    ensures mt[0] == []
    ensures forall i :: 1 <= i < mt.Length ==> mt[i] == Node(H, strList, bottomrow, i)
  {
    for i := bottomrow downto 1
      invariant 1 <= i <= bottomrow && mt[0] == []
      invariant forall k :: i <= k < mt.Length ==> mt[k] == Node(H, strList, bottomrow, k)
    {
      var left, right := 2 * i, 2 * i + 1;
      assert i < left < right < mt.Length;
      mt[i] := H(mt[left] + mt[right]);
    }
  }

  method GetBranch(index: nat, mt: array<Bytes>) returns (res: seq<Bytes>)
    requires mt.Length % 2 == 0 && index < mt.Length / 2
    ensures res == Branch(mt[..], index + mt.Length / 2)
  {
    res := [];
    var t := index + mt.Length / 2;
    while t > 1
      invariant 0 <= t < mt.Length
      invariant res + Branch(mt[..], t) == Branch(mt[..], index + mt.Length / 2)
    {
      assert Branch(mt[..], t) == [mt[Sibling(t)]] + Branch(mt[..], t / 2);
      res := res + [mt[Sibling(t)]];
      t := t / 2;
    }
  }

  method VerifyBranch(H: Hash, N: nat, val: Bytes, roothash: Bytes, branch: seq<Bytes>, index: nat)
    returns (ok: Option<bool>)
    ensures ok == Verify(H, N, val, roothash, branch, index)
  {
    if index >= N || |branch| != CeilLog2(N) {
      return None;
    }
    var tmp := H(val);
    var tindex := index;
    for i := 0 to |branch|
      invariant Climb(H, tmp, branch[i..], tindex) == Climb(H, H(val), branch, index)
    {
      assert branch[i..][1..] == branch[i + 1..];
      tmp := H(if tindex % 2 == 1 then branch[i] + tmp else tmp + branch[i]);
      tindex := tindex / 2;
    }
    return Some(tmp == roothash);
  }

  // ---------- completeness ----------

  /** The array that MakeTree fills. */
  function Tree(H: Hash, leaves: seq<Bytes>): (mt: seq<Bytes>)
    requires |leaves| >= 1
    ensures |mt| == 2 * BottomRow(|leaves|)
  {
    var bottom := BottomRow(|leaves|);
    seq(2 * bottom, i requires 0 <= i < 2 * bottom => if i == 0 then [] else Node(H, leaves, bottom, i))
  }

  // Every inner node is the hash of its children.
  ghost predicate Hashed(H: Hash, mt: seq<Bytes>) {
    |mt| % 2 == 0 && |mt| >= 2 && forall u :: 1 <= u < |mt| / 2 ==> mt[u] == H(mt[2 * u] + mt[2 * u + 1])
  }

  lemma ParentStep(H: Hash, mt: seq<Bytes>, t: nat, k: nat, x: nat)
    requires Hashed(H, mt) && k > 0 && t == Pow2(k) + x && x < Pow2(k) && t < |mt|
    ensures t / 2 == Pow2(k - 1) + x / 2 && x / 2 < Pow2(k - 1) && t / 2 < |mt|
    ensures Sibling(t) < |mt|
    ensures mt[t / 2] == H(if x % 2 == 1 then mt[Sibling(t)] + mt[t] else mt[t] + mt[Sibling(t)])
  {
    var u := t / 2;
    assert t % 2 == x % 2;
    assert mt[u] == H(mt[2 * u] + mt[2 * u + 1]);
  }

  // Node t = 2**k + x is reached by the bits of x, and its branch has length k.
  lemma {:induction false} ClimbBranch(H: Hash, mt: seq<Bytes>, t: nat, k: nat, x: nat)
    requires Hashed(H, mt) && t == Pow2(k) + x && x < Pow2(k) && t < |mt|
    ensures |Branch(mt, t)| == k
    ensures Climb(H, mt[t], Branch(mt, t), x) == mt[1]
  {
    if k > 0 {
      ParentStep(H, mt, t, k, x);
      ClimbBranch(H, mt, t / 2, k - 1, x / 2);
      assert Branch(mt, t) == [mt[Sibling(t)]] + Branch(mt, t / 2);
      assert Branch(mt, t)[1..] == Branch(mt, t / 2);
    }
  }

  /** The branch of leaf i in the tree over the leaves, as the leader sends it. */
  function BranchOf(H: Hash, leaves: seq<Bytes>, i: nat): seq<Bytes>
    requires i < |leaves|
  {
    Branch(Tree(H, leaves), i + BottomRow(|leaves|))
  }

  // What the leader reads off the array.
  lemma ReadOff(H: Hash, leaves: seq<Bytes>, i: nat)
    requires i < |leaves|
    ensures |Tree(H, leaves)| % 2 == 0 && |Tree(H, leaves)| / 2 == BottomRow(|leaves|)
    ensures |Tree(H, leaves)| >= 2 && Tree(H, leaves)[1] == Root(H, leaves)
  {
    TreeRoot(H, leaves);
    Halves(|Tree(H, leaves)|, BottomRow(|leaves|));
  }

  lemma Halves(n: nat, b: nat)
    requires n == 2 * b
    ensures n / 2 == b && n % 2 == 0
  {
  }

  lemma TreeHashed(H: Hash, leaves: seq<Bytes>)
    requires |leaves| >= 1
    ensures Hashed(H, Tree(H, leaves))
  {
    var mt := Tree(H, leaves);
    forall u | 1 <= u < |mt| / 2 ensures mt[u] == H(mt[2 * u] + mt[2 * u + 1]) {}
  }

  lemma TreeRoot(H: Hash, leaves: seq<Bytes>)
    requires |leaves| >= 1
    ensures |Tree(H, leaves)| >= 2 && Tree(H, leaves)[1] == Root(H, leaves)
  {
  }

  lemma TreeLeaf(H: Hash, leaves: seq<Bytes>, i: nat)
    requires i < |leaves|
    ensures i + BottomRow(|leaves|) < |Tree(H, leaves)| && Tree(H, leaves)[i + BottomRow(|leaves|)] == H(leaves[i])
  {
  }

  /**
   Completeness: for every list of N >= 1 leaves and every i < N, the branch read
   off the tree has length ceil(log2 N) and merkleVerify accepts leaf i with it.
   */
  lemma Completeness(H: Hash, leaves: seq<Bytes>, i: nat)
    requires i < |leaves|
    ensures |BranchOf(H, leaves, i)| == CeilLog2(|leaves|)
    ensures Accepts(H, |leaves|, leaves[i], Root(H, leaves), BranchOf(H, leaves, i), i)
    ensures Tree(H, leaves)[1] == Root(H, leaves)
  {
    TreeHashed(H, leaves);
    TreeRoot(H, leaves);
    TreeLeaf(H, leaves, i);
    LeafAccepted(H, |leaves|, Tree(H, leaves), leaves[i], i, BranchOf(H, leaves, i));
  }

  // Leaf i of an array of hashes is accepted against its node 1.
  lemma LeafAccepted(H: Hash, N: nat, mt: seq<Bytes>, leaf: Bytes, i: nat, branch: seq<Bytes>)
    requires i < N && Hashed(H, mt) && |mt| == 2 * BottomRow(N) && mt[i + BottomRow(N)] == H(leaf)
    requires branch == Branch(mt, i + BottomRow(N))
    ensures |branch| == CeilLog2(N) && Accepts(H, N, leaf, mt[1], branch, i)
  {
    ClimbBranch(H, mt, i + BottomRow(N), CeilLog2(N), i);
  }

  // ---------- binding ----------

  lemma NodeLength(H: Hash, leaves: seq<Bytes>, bottom: nat, t: nat)
    requires FixedLength(H) && 1 <= t < bottom + |leaves| && t < 2 * bottom
    ensures |Node(H, leaves, bottom, t)| == DIGEST
  {
  }

  lemma SameTail(a: Bytes, b: Bytes, L: Bytes, R: Bytes)
    requires a + b == L + R && |b| == |R|
    ensures b == R
  {
    assert b == (a + b)[|a|..] && R == (L + R)[|L|..];
  }

  lemma SameHead(a: Bytes, b: Bytes, L: Bytes, R: Bytes)
    requires a + b == L + R && |a| == |L|
    ensures a == L
  {
    assert a == (a + b)[..|a|] && L == (L + R)[..|L|];
  }

  // Whoever climbs from tmp at node t to the root had the value of node t, or found a collision.
  lemma {:induction false} ClimbBinds(H: Hash, leaves: seq<Bytes>, bottom: nat, tmp: Bytes, branch: seq<Bytes>, t: nat, x: nat)
    returns (a: Bytes, b: Bytes)
    requires FixedLength(H) && |tmp| == DIGEST && t < 2 * bottom && t < bottom + |leaves|
    requires t == Pow2(|branch|) + x && x < Pow2(|branch|)
    requires Climb(H, tmp, branch, x) == Node(H, leaves, bottom, 1)
    ensures tmp == Node(H, leaves, bottom, t) || Collision(H, a, b)
    decreases |branch|
  {
    a, b := [], [];
    if branch != [] {
      assert t % 2 == x % 2;
      var joined := if x % 2 == 1 then branch[0] + tmp else tmp + branch[0];
      a, b := ClimbBinds(H, leaves, bottom, H(joined), branch[1..], t / 2, x / 2);
      if H(joined) == Node(H, leaves, bottom, t / 2) {
        a, b := ParentBinds(H, leaves, bottom, tmp, branch[0], t);
      }
    }
  }

  // One level: tmp and its sibling hash to the parent of node t.
  lemma ParentBinds(H: Hash, leaves: seq<Bytes>, bottom: nat, tmp: Bytes, sibling: Bytes, t: nat) returns (a: Bytes, b: Bytes)
    requires FixedLength(H) && |tmp| == DIGEST && 2 <= t < 2 * bottom && t < bottom + |leaves|
    requires H(if t % 2 == 1 then sibling + tmp else tmp + sibling) == Node(H, leaves, bottom, t / 2)
    ensures tmp == Node(H, leaves, bottom, t) || Collision(H, a, b)
  {
    var u := t / 2;
    var L, R := Node(H, leaves, bottom, 2 * u), Node(H, leaves, bottom, 2 * u + 1);
    a, b := if t % 2 == 1 then sibling + tmp else tmp + sibling, L + R;
    NodeLength(H, leaves, bottom, t);
    if a == b && t % 2 == 1 {
      SameTail(sibling, tmp, L, R);
    } else if a == b {
      SameHead(tmp, sibling, L, R);
    }
  }

  /**
   Binding: if merkleVerify accepts val at index i against the root of an N-leaf
   tree, then val is leaf i, or the proof yields two strings with one digest.
   */
  lemma Binding(H: Hash, leaves: seq<Bytes>, val: Bytes, branch: seq<Bytes>, i: nat) returns (a: Bytes, b: Bytes)
    requires FixedLength(H) && |leaves| >= 1
    requires Accepts(H, |leaves|, val, Root(H, leaves), branch, i)
    ensures i < |leaves| && (val == leaves[i] || Collision(H, a, b))
  {
    CeilLog2Bounds(|leaves|);
    a, b := ClimbBinds(H, leaves, BottomRow(|leaves|), H(val), branch, BottomRow(|leaves|) + i, i);
    if H(val) == H(leaves[i]) && val != leaves[i] {
      a, b := val, leaves[i];
    }
  }

  /** Two lists of N leaves with one root are equal, or yield a collision. */
  lemma SameRoot(H: Hash, A: seq<Bytes>, B: seq<Bytes>) returns (a: Bytes, b: Bytes)
    requires FixedLength(H) && |A| == |B| >= 1 && Root(H, A) == Root(H, B)
    ensures A == B || Collision(H, a, b)
  {
    a, b := [], [];
    if i :| 0 <= i < |A| && A[i] != B[i] {
      Completeness(H, A, i);
      a, b := Binding(H, B, A[i], BranchOf(H, A, i), i);
    }
  }
}
