/**
 Boldyreva threshold signatures (crypto/threshsig/boldyreva.py).

 Group elements are written by their exponent in Z_p, p the prime group order,
 so g ** e is g * e, a product of elements is a sum, and a pairing equation is
 an equality of products. None stands for a failed assertion.
 */
module ThresholdSignature {
  import opened FiniteSets
  import opened NumberTheory
  import opened Interpolation
  import opened Options

  datatype PublicKey = PublicKey(l: nat, k: nat, vk: int, vks: seq<int>)

  /** A group of prime order p with room for the players of pk. */
  ghost predicate Group(p: int, pk: PublicKey) {
    IsPrime(p) && pk.l < p && |pk.vks| == pk.l
  }

  function Keys(items: seq<(nat, int)>): (S: set<nat>)
    ensures forall j :: j in S <==> exists i :: 0 <= i < |items| && items[i].0 == j
  {
    if items == [] then {} else Keys(items[..|items| - 1]) + {items[|items| - 1].0}
  }

  /** The entries of a Python dict, in insertion order. */
  ghost predicate IsDict(items: seq<(nat, int)>) {
    forall i, j :: 0 <= i < j < |items| ==> items[i].0 != items[j].0
  }

  // ---------- the code ----------

  function Lagrange(p: int, pk: PublicKey, S: set<nat>, j: nat): (r: Option<int>)
    requires Group(p, pk)
    ensures r.Some? ==> j < pk.l
  {
    if |S| == pk.k && (forall i :: i in S ==> i < pk.l) && j in S
    then Some(CoefAt(p, pk.l, S, 0)(j) % p)
    else None
  }

  function Sign(p: int, h: int, sk: int): int
    requires p > 0
  {
    (h * sk) % p
  }

  /** verify_share: false stands for its AssertionError. */
  predicate VerifyShare(p: int, pk: PublicKey, sig: int, i: nat, h: int)
    requires p > 0 && |pk.vks| == pk.l
  {
    i < pk.l && sig % p == (h * pk.vks[i]) % p
  }

  predicate VerifySignature(p: int, pk: PublicKey, sig: int, h: int)
    requires p > 0
  {
    sig % p == (h * pk.vk) % p
  }

  // One factor of the product: res * share ** c.
  function Accumulate(p: int, res: int, share: int, c: int): int
    requires p > 0
  {
    (res + share * c) % p
  }

  // The reduce of combine_shares over the items of the dict.
  function Product(p: int, pk: PublicKey, S: set<nat>, items: seq<(nat, int)>): Option<int>
    requires Group(p, pk)
  {
    if items == [] then Some(0)
    else
      var (j, share) := items[|items| - 1];
      match (Product(p, pk, S, items[..|items| - 1]), Lagrange(p, pk, S, j))
      case (Some(res), Some(c)) => Some(Accumulate(p, res, share, c))
      case _ => None
  }

  function CombineShares(p: int, pk: PublicKey, sigs: seq<(nat, int)>): Option<int>
    requires Group(p, pk)
  {
    var S := Keys(sigs);
    if forall i :: i in S ==> i < pk.l then Product(p, pk, S, sigs) else None
  }

  /** The public key that the dealer derives from the polynomial a. */
  ghost predicate Dealt(p: int, pk: PublicKey, a: seq<int>) {
    && Group(p, pk)
    && |a| == pk.k >= 1
    && pk.vk == a[0] % p
    && forall i :: 0 <= i < pk.l ==> pk.vks[i] == PolyEval(a, i + 1) % p
  }

  /** The dealer, with its random coefficients as the parameter a. */
  method Dealer(p: int, players: nat, k: nat, a: seq<int>) returns (r: Option<(PublicKey, seq<int>)>)
    requires IsPrime(p) && players < p && |a| == k
    requires forall i :: 0 <= i < |a| ==> 0 <= a[i] < p
    ensures r.Some? <==> 1 <= k <= players
    ensures r.Some? ==> Dealt(p, r.value.0, a) && r.value.0.l == players && r.value.0.k == k
    ensures r.Some? ==> |r.value.1| == players && forall i :: 0 <= i < players ==> r.value.1[i] == PolyEval(a, i + 1) % p
  {
    if k == 0 {
      return None;
    }
    var secret := a[0];
    var sks := [];
    for i := 1 to players + 1
      invariant |sks| == i - 1
      invariant forall j :: 0 <= j < i - 1 ==> sks[j] == PolyEval(a, j + 1) % p
    {
      var y := PolynomEval(p, i, a);
      sks := sks + [y];
    }
    assert a[0] % p == a[0];
    var pk := PublicKey(players, k, secret, sks);
    // The first k shares must give the secret.
    var S := Below(k);
    if players < k {
      assert players in S;
      return None;
    }
    var lhs := PolynomEval(p, 0, a);
    var rhs := ReconstructZero(p, pk, S, a);
    if lhs != rhs {
      return None;
    }
    return Some((pk, sks));
  }

  // The sum that the dealer compares with the polynomial at 0.
  method ReconstructZero(p: int, pk: PublicKey, S: set<nat>, a: seq<int>) returns (rhs: int)
    requires Group(p, pk) && pk.k <= pk.l && S == Below(pk.k) && |a| == pk.k
    ensures rhs == PolyEval(a, 0) % p
  {
    var coefs := seq(pk.k, (j: nat) requires j < pk.k => Lagrange(p, pk, S, j).value);
    rhs := ZeroSum(p, pk, S, a, coefs, CoefAt(p, pk.l, S, 0));
    Interpolate(p, pk.l, S, a, 0);
    CongTrans(p, rhs, Weighted(S, PolyAt(a), CoefAt(p, pk.l, S, 0), pk.l), PolyEval(a, 0));
    CongSym(p, rhs, PolyEval(a, 0));
    CongReduce(p, PolyEval(a, 0), rhs);
  }

  method ZeroSum(p: int, pk: PublicKey, ghost S: set<nat>, a: seq<int>, coefs: seq<int>, ghost K: nat -> int)
    returns (rhs: int)
    requires p > 0 && pk.k <= pk.l && S == Below(pk.k) && |coefs| == pk.k
    requires forall j :: 0 <= j < pk.k ==> coefs[j] == K(j) % p
    ensures 0 <= rhs < p && Cong(p, rhs, Weighted(S, PolyAt(a), K, pk.l))
  {
    rhs := 0;
    CongRefl(p, 0);
    for j := 0 to pk.k
      invariant 0 <= rhs < p
      invariant Cong(p, rhs, Weighted(S, PolyAt(a), K, j))
    {
      var y := PolynomEval(p, j + 1, a);
      ReconstructStep(p, S, a, K, j, rhs);
      rhs := Accumulate(p, rhs, coefs[j], y);
    }
    WeightedTail(S, PolyAt(a), K, pk.k, pk.l);
  }

  lemma ReconstructStep(p: int, S: set<nat>, a: seq<int>, K: nat -> int, j: nat, rhs: int)
    requires p > 0 && j in S && Cong(p, rhs, Weighted(S, PolyAt(a), K, j))
    ensures Cong(p, Accumulate(p, rhs, K(j) % p, PolyEval(a, j + 1) % p), Weighted(S, PolyAt(a), K, j + 1))
  {
    DealerStep(p, rhs, Weighted(S, PolyAt(a), K, j), K(j), PolyEval(a, j + 1));
  }

  lemma DealerStep(p: int, rhs: int, w: int, coef: int, y: int)
    requires p > 0 && Cong(p, rhs, w)
    ensures Cong(p, Accumulate(p, rhs, coef % p, y % p), w + y * coef)
  {
    CongModSelf(p, coef);
    CongModSelf(p, y);
    CongMul(p, coef % p, coef, y % p, y);
    CongAdd(p, rhs, w, (coef % p) * (y % p), coef * y);
    CongModSelf(p, rhs + (coef % p) * (y % p));
    CongTrans(p, (rhs + (coef % p) * (y % p)) % p, rhs + (coef % p) * (y % p), w + coef * y);
  }

  // ---------- correctness of combination ----------

  lemma {:induction false} WeightedTail(S: set<nat>, W: nat -> int, K: nat -> int, m: nat, n: nat)
    requires m <= n && forall i :: i in S ==> i < m
    ensures Weighted(S, W, K, n) == Weighted(S, W, K, m)
  {
    if m < n {
      WeightedTail(S, W, K, m, n - 1);
    }
  }

  lemma {:induction false} WeightedSame(S: set<nat>, T: set<nat>, W: nat -> int, K: nat -> int, n: nat)
    requires forall i :: 0 <= i < n ==> (i in S <==> i in T)
    ensures Weighted(S, W, K, n) == Weighted(T, W, K, n)
  {
    if n > 0 {
      WeightedSame(S, T, W, K, n - 1);
    }
  }

  lemma {:induction false} WeightedInsert(S: set<nat>, W: nat -> int, K: nat -> int, z: nat, n: nat)
    requires z !in S && z < n
    ensures Weighted(S + {z}, W, K, n) == Weighted(S, W, K, n) + W(z) * K(z)
  {
    if n - 1 == z {
      WeightedSame(S, S + {z}, W, K, z);
    } else {
      WeightedInsert(S, W, K, z, n - 1);
    }
  }

  // Every share is h times the value of the polynomial at its point.
  ghost predicate Shares(p: int, a: seq<int>, h: int, items: seq<(nat, int)>) {
    forall i :: 0 <= i < |items| ==> Cong(p, items[i].1, h * PolyEval(a, items[i].0 + 1))
  }

  // Product with the coefficients K, which is total.
  ghost function Reduce(p: int, K: nat -> int, items: seq<(nat, int)>): int
    requires p > 0
  {
    if items == [] then 0
    else Accumulate(p, Reduce(p, K, items[..|items| - 1]), items[|items| - 1].1, K(items[|items| - 1].0) % p)
  }

  lemma {:induction false} ProductIsReduce(p: int, pk: PublicKey, S: set<nat>, items: seq<(nat, int)>)
    requires Group(p, pk) && |S| == pk.k && (forall i :: i in S ==> i < pk.l) && Keys(items) <= S
    ensures Product(p, pk, S, items) == Some(Reduce(p, CoefAt(p, pk.l, S, 0), items))
  {
    if items != [] {
      ProductIsReduce(p, pk, S, items[..|items| - 1]);
      assert items[|items| - 1].0 in Keys(items);
    }
  }

  lemma {:induction false} ReduceSum(p: int, K: nat -> int, a: seq<int>, h: int, items: seq<(nat, int)>, n: nat)
    requires p > 0 && IsDict(items) && Shares(p, a, h, items) && forall i :: i in Keys(items) ==> i < n
    ensures Cong(p, Reduce(p, K, items), h * Weighted(Keys(items), PolyAt(a), K, n))
    decreases |items|
  {
    if items == [] {
      EmptyWeighted(PolyAt(a), K, n);
      CongRefl(p, 0);
    } else {
      LastIsNew(items);
      InitShares(p, a, h, items);
      ReduceSum(p, K, a, h, items[..|items| - 1], n);
      ReduceLast(p, K, a, h, items[..|items| - 1], items[|items| - 1], items, n);
    }
  }

  // One more share.
  lemma ReduceLast(p: int, K: nat -> int, a: seq<int>, h: int, init: seq<(nat, int)>, last: (nat, int), items: seq<(nat, int)>, n: nat)
    requires p > 0 && items != [] && init == items[..|items| - 1] && last == items[|items| - 1]
    requires last.0 !in Keys(init) && last.0 < n && Keys(items) == Keys(init) + {last.0}
    requires Cong(p, last.1, h * PolyEval(a, last.0 + 1))
    requires Cong(p, Reduce(p, K, init), h * Weighted(Keys(init), PolyAt(a), K, n))
    ensures Cong(p, Reduce(p, K, items), h * Weighted(Keys(items), PolyAt(a), K, n))
  {
    WeightedInsert(Keys(init), PolyAt(a), K, last.0, n);
    ProductStep(p, Reduce(p, K, init), h, Weighted(Keys(init), PolyAt(a), K, n),
                last.1, PolyEval(a, last.0 + 1), K(last.0));
  }

  lemma InitShares(p: int, a: seq<int>, h: int, items: seq<(nat, int)>)
    requires p > 0 && IsDict(items) && Shares(p, a, h, items) && items != []
    ensures var (init, last) := (items[..|items| - 1], items[|items| - 1]);
      IsDict(init) && Shares(p, a, h, init) && Cong(p, last.1, h * PolyEval(a, last.0 + 1))
  {
  }

  lemma LastIsNew(items: seq<(nat, int)>)
    requires IsDict(items) && items != []
    ensures items[|items| - 1].0 !in Keys(items[..|items| - 1])
    ensures Keys(items) == Keys(items[..|items| - 1]) + {items[|items| - 1].0}
  {
    var init, last := items[..|items| - 1], items[|items| - 1];
    assert items == init + [last];
  }

  lemma ProductStep(p: int, res: int, h: int, w: int, share: int, y: int, c: int)
    requires p > 0 && Cong(p, res, h * w) && Cong(p, share, h * y)
    ensures Cong(p, Accumulate(p, res, share, c % p), h * (w + y * c))
  {
    CongModSelf(p, c);
    CongMul(p, share, h * y, c % p, c);
    CongAdd(p, res, h * w, share * (c % p), (h * y) * c);
    Assoc(h, y, c);
    Dist(h, w, y * c);
    CongModSelf(p, res + share * (c % p));
    CongTrans(p, (res + share * (c % p)) % p, res + share * (c % p), h * (w + y * c));
  }

  lemma {:induction false} KeysSize(items: seq<(nat, int)>)
    requires IsDict(items)
    ensures |Keys(items)| == |items|
  {
    if items != [] {
      KeysSize(items[..|items| - 1]);
      assert items[|items| - 1].0 !in Keys(items[..|items| - 1]);
    }
  }

  lemma CombineExponents(p: int, pk: PublicKey, a: seq<int>, h: int, items: seq<(nat, int)>)
    requires Dealt(p, pk, a) && IsDict(items) && |items| == pk.k
    requires Shares(p, a, h, items) && forall i :: 0 <= i < |items| ==> items[i].0 < pk.l
    ensures CombineShares(p, pk, items) == Some((h * a[0]) % p)
  {
    var S := Keys(items);
    KeysSize(items);
    var K := CoefAt(p, pk.l, S, 0);
    ProductIsReduce(p, pk, S, items);
    ReduceSum(p, K, a, h, items, pk.l);
    Interpolate(p, pk.l, S, a, 0);
    assert PolyEval(a, 0) == a[0];
    var res, w := Reduce(p, K, items), Weighted(S, PolyAt(a), K, pk.l);
    CongScale(p, h, w, a[0]);
    CongTrans(p, res, h * w, h * a[0]);
    CongSym(p, res, h * a[0]);
    CongReduce(p, h * a[0], res);
  }

  // A share passes verify_share iff it is the one the key holder would sign.
  lemma VerifiedShare(p: int, pk: PublicKey, a: seq<int>, sig: int, i: nat, h: int)
    requires Dealt(p, pk, a) && i < pk.l
    ensures VerifyShare(p, pk, sig, i, h) <==> Cong(p, sig, h * PolyEval(a, i + 1))
    ensures VerifyShare(p, pk, Sign(p, h, PolyEval(a, i + 1) % p), i, h)
  {
    var y := PolyEval(a, i + 1);
    CongModSelf(p, y);
    CongScale(p, h, y % p, y);
    CongMod(p, h * (y % p), h * y);
    CongMod(p, sig, h * y);
    CongModSelf(p, h * (y % p));
    CongMod(p, (h * (y % p)) % p, h * (y % p));
  }

  lemma VerifiedSignature(p: int, pk: PublicKey, a: seq<int>, h: int)
    requires Dealt(p, pk, a)
    ensures VerifySignature(p, pk, (h * a[0]) % p, h)
  {
    CongModSelf(p, h * a[0]);
    CongMod(p, (h * a[0]) % p, h * a[0]);
    CongModSelf(p, a[0]);
    CongScale(p, h, a[0] % p, a[0]);
    CongMod(p, h * (a[0] % p), h * a[0]);
  }

  /**
   Any k verified shares combine to the one signature h ** secret, whichever
   players they come from, and the result passes verify_signature.
   */
  lemma CombineVerified(p: int, pk: PublicKey, a: seq<int>, h: int, sigs: seq<(nat, int)>)
    requires Dealt(p, pk, a) && IsDict(sigs) && |sigs| == pk.k
    requires forall i :: 0 <= i < |sigs| ==> VerifyShare(p, pk, sigs[i].1, sigs[i].0, h)
    ensures CombineShares(p, pk, sigs) == Some((h * a[0]) % p)
    ensures VerifySignature(p, pk, (h * a[0]) % p, h)
  {
    forall i | 0 <= i < |sigs| ensures Cong(p, sigs[i].1, h * PolyEval(a, sigs[i].0 + 1)) {
      VerifiedShare(p, pk, a, sigs[i].1, sigs[i].0, h);
    }
    CombineExponents(p, pk, a, h, sigs);
    VerifiedSignature(p, pk, a, h);
  }

  /** combine_shares asserts exactly that it is given k players of the group (or no share at all). */
  lemma {:induction false} CombineRejects(p: int, pk: PublicKey, sigs: seq<(nat, int)>)
    requires Group(p, pk) && IsDict(sigs)
    ensures CombineShares(p, pk, sigs).Some? <==>
      sigs == [] || (|sigs| == pk.k && forall i :: 0 <= i < |sigs| ==> sigs[i].0 < pk.l)
  {
    KeysSize(sigs);
    var S := Keys(sigs);
    assert forall i :: 0 <= i < |sigs| ==> sigs[i].0 in S;
    if forall i :: i in S ==> i < pk.l {
      ProductDefined(p, pk, S, sigs);
    }
  }

  lemma {:induction false} ProductDefined(p: int, pk: PublicKey, S: set<nat>, items: seq<(nat, int)>)
    requires Group(p, pk) && Keys(items) <= S && forall i :: i in S ==> i < pk.l
    ensures Product(p, pk, S, items).Some? <==> items == [] || |S| == pk.k
  {
    if items != [] {
      ProductDefined(p, pk, S, items[..|items| - 1]);
      assert items[|items| - 1].0 in Keys(items);
    }
  }
}
