/**
 Lagrange interpolation modulo a prime p, at the points 1, ..., l that the
 threshold schemes give to players 0, ..., l - 1 (crypto/threshsig/boldyreva.py
 and crypto/threshenc/tpke.py). Index j stands for the point j + 1.
 */
module Interpolation {
  import opened NumberTheory

  // ---------- polynomials, lowest coefficient first ----------

  function PolyEval(a: seq<int>, x: int): int {
    if a == [] then 0 else a[0] + x * PolyEval(a[1..], x)
  }

  // The quotient of a by (x - z).
  ghost function Synthetic(a: seq<int>, z: int): (q: seq<int>)
    ensures |q| == if a == [] then 0 else |a| - 1
  {
    if |a| <= 1 then [] else [PolyEval(a[1..], z)] + Synthetic(a[1..], z)
  }

  lemma DivisionStep(x: int, z: int, gx: int, gz: int, qx: int)
    requires gx == gz + (x - z) * qx
    ensures x * gx == z * gz + (x - z) * (gz + x * qx)
  {
    assert x * gx == x * gz + x * ((x - z) * qx);
    assert x * ((x - z) * qx) == (x - z) * (x * qx);
  }

  lemma {:induction false} SyntheticDivision(a: seq<int>, z: int, x: int)
    ensures PolyEval(a, x) == PolyEval(a, z) + (x - z) * PolyEval(Synthetic(a, z), x)
  {
    if |a| == 1 {
      assert a[1..] == [];
    } else if |a| > 1 {
      var g, q := a[1..], Synthetic(a[1..], z);
      SyntheticDivision(g, z, x);
      assert Synthetic(a, z)[1..] == q;
      DivisionStep(x, z, PolyEval(g, x), PolyEval(g, z), PolyEval(q, x));
    }
  }

  /** polynom_eval: the loop that the source runs over the coefficients, in Z_p. */
  method PolynomEval(p: int, x: int, coefficients: seq<int>) returns (y: int)
    requires p > 0
    ensures y == PolyEval(coefficients, x) % p
  {
    y := 0;
    var xx := 1 % p;
    HornerStart(p, x, coefficients);
    for i := 0 to |coefficients|
      invariant Cong(p, PolyEval(coefficients, x), y + xx * PolyEval(coefficients[i..], x))
      invariant 0 <= y < p
    {
      HornerStep(p, x, coefficients, i, y, xx);
      y := (y + coefficients[i] * xx) % p;
      xx := (xx * x) % p;
    }
    assert PolyEval(coefficients[|coefficients|..], x) == 0;
    CongReduce(p, PolyEval(coefficients, x), y);
  }

  lemma CongReduce(p: int, a: int, y: int)
    requires p > 0 && Cong(p, a, y) && 0 <= y < p
    ensures y == a % p
  {
    CongMod(p, a, y);
    CongModSelf(p, y);
    CongSmall(p, y % p, y);
  }

  lemma HornerStart(p: int, x: int, a: seq<int>)
    requires p > 0
    ensures Cong(p, PolyEval(a, x), 0 + (1 % p) * PolyEval(a[0..], x))
  {
    assert a[0..] == a;
    CongModSelf(p, 1);
    CongSym(p, 1 % p, 1);
    CongScale(p, PolyEval(a, x), 1, 1 % p);
  }

  lemma HornerStep(p: int, x: int, a: seq<int>, i: nat, y: int, xx: int)
    requires p > 0 && i < |a|
    requires Cong(p, PolyEval(a, x), y + xx * PolyEval(a[i..], x))
    ensures Cong(p, PolyEval(a, x), (y + a[i] * xx) % p + ((xx * x) % p) * PolyEval(a[i + 1..], x))
  {
    var rest := PolyEval(a[i + 1..], x);
    assert a[i..][1..] == a[i + 1..];
    assert PolyEval(a[i..], x) == a[i] + x * rest;
    HornerReduce(p, PolyEval(a, x), y, a[i], xx, x, rest);
  }

  lemma HornerReduce(p: int, v: int, y: int, ai: int, xx: int, x: int, rest: int)
    requires p > 0 && Cong(p, v, y + xx * (ai + x * rest))
    ensures Cong(p, v, (y + ai * xx) % p + ((xx * x) % p) * rest)
  {
    var lo, hi := (y + ai * xx) % p, (xx * x) % p;
    Dist(xx, ai, x * rest);
    Assoc(xx, x, rest);
    CongModSelf(p, y + ai * xx);
    CongSym(p, lo, y + ai * xx);
    CongModSelf(p, xx * x);
    CongSym(p, hi, xx * x);
    CongRefl(p, rest);
    CongMul(p, xx * x, hi, rest, rest);
    CongAdd(p, y + ai * xx, lo, (xx * x) * rest, hi * rest);
    CongTrans(p, v, (y + ai * xx) + (xx * x) * rest, lo + hi * rest);
  }

  // ---------- Lagrange coefficients ----------

  /** An index set S of players in a group of prime order p > l. */
  ghost predicate Indices(p: int, l: nat, S: set<nat>) {
    IsPrime(p) && l < p && forall i :: i in S ==> i < l
  }

  function NumTerm(c: int): nat -> int { (jj: nat) => c - jj - 1 }

  function DenTerm(j: nat): nat -> int { (jj: nat) => j - jj }

  function Num(l: nat, S: set<nat>, j: nat, c: int): int {
    ProdOver(S - {j}, l, NumTerm(c))
  }

  function Den(l: nat, S: set<nat>, j: nat): int {
    ProdOver(S - {j}, l, DenTerm(j))
  }

  lemma DenNonzero(p: int, l: nat, S: set<nat>, j: nat)
    requires Indices(p, l, S) && j in S
    ensures !Cong(p, Den(l, S, j), 0)
  {
    forall i | i in S - {j} && i < l ensures !Cong(p, DenTerm(j)(i), 0) {
      SmallNonzero(p, j - i);
    }
    ProdNonzero(p, S - {j}, l, DenTerm(j));
  }

  /** The coefficient of share j when the polynomial is evaluated at c, before reduction. */
  function Coef(p: int, l: nat, S: set<nat>, j: nat, c: int): int
    requires Indices(p, l, S) && j in S
  {
    DenNonzero(p, l, S, j);
    Num(l, S, j, c) * Inv(p, Den(l, S, j))
  }

  /** The coefficients of all indices of S at c. */
  function CoefAt(p: int, l: nat, S: set<nat>, c: int): nat -> int
    requires Indices(p, l, S)
  {
    (j: nat) => if j in S then Coef(p, l, S, j, c) else 0
  }

  // Taking z out of S multiplies the coefficient of j by (x_j - x_z) / (c - x_z).
  lemma CoefRemove(p: int, l: nat, S: set<nat>, j: nat, z: nat, c: int)
    requires Indices(p, l, S) && j in S && z in S && j != z
    ensures Cong(p, (j - z) * Coef(p, l, S, j, c), (c - z - 1) * Coef(p, l, S - {z}, j, c))
  {
    var T := S - {z};
    assert (S - {j}) - {z} == T - {j};
    ProdRemove(S - {j}, l, NumTerm(c), z);
    ProdRemove(S - {j}, l, DenTerm(j), z);
    DenNonzero(p, l, S, j);
    DenNonzero(p, l, T, j);
    QuotientStep(p, j - z, c - z - 1, Num(l, T, j, c), Den(l, T, j), Inv(p, Den(l, S, j)), Inv(p, Den(l, T, j)));
  }

  // (u N) / (t D) == (u / t) (N / D), without division.
  lemma QuotientStep(p: int, t: int, u: int, N: int, D: int, i: int, i': int)
    requires IsPrime(p) && !Cong(p, D, 0)
    requires Cong(p, (t * D) * i, 1) && Cong(p, D * i', 1)
    ensures Cong(p, t * ((u * N) * i), u * (N * i'))
  {
    Assoc(t, D, i);
    CongSym(p, D * i', 1);
    CongTrans(p, D * (t * i), 1, D * i');
    Cancel(p, D, t * i, i');
    CongScale(p, u * N, t * i, i');
    Assoc(u * N, t, i);
    Assoc(t, u * N, i);
    Assoc(u, N, i');
  }

  // ---------- weighted sums of coefficients ----------

  // The sum over j in S, j < n, of W(j) * K(j).
  ghost function Weighted(S: set<nat>, W: nat -> int, K: nat -> int, n: nat): int {
    if n == 0 then 0 else Weighted(S, W, K, n - 1) + (if n - 1 in S then W(n - 1) * K(n - 1) else 0)
  }

  ghost function One(): nat -> int { (j: nat) => 1 }

  ghost function PolyAt(a: seq<int>): nat -> int { (j: nat) => PolyEval(a, j + 1) }

  ghost function Shifted(z: nat, W: nat -> int): nat -> int { (j: nat) => (j - z) * W(j) }

  lemma {:induction false} WeightedRemove(p: int, S: set<nat>, W: nat -> int, K: nat -> int, K': nat -> int, z: nat, t: int, n: nat)
    requires p > 0 && z in S
    requires forall j :: j in S && j != z ==> Cong(p, (j - z) * K(j), t * K'(j))
    ensures Cong(p, Weighted(S, Shifted(z, W), K, n), t * Weighted(S - {z}, W, K', n))
  {
    if n == 0 {
      CongRefl(p, 0);
    } else {
      var j: nat := n - 1;
      WeightedRemove(p, S, W, K, K', z, t, j);
      if j == z {
        assert Shifted(z, W)(z) == 0;
      } else if j in S {
        RemoveStep(p, t, W(j), j - z, K(j), K'(j), Weighted(S, Shifted(z, W), K, j), Weighted(S - {z}, W, K', j));
      }
    }
  }

  lemma RemoveStep(p: int, t: int, w: int, d: int, k: int, k': int, rest: int, rest': int)
    requires p > 0 && Cong(p, d * k, t * k') && Cong(p, rest, t * rest')
    ensures Cong(p, rest + (d * w) * k, t * (rest' + w * k'))
  {
    CongScale(p, w, d * k, t * k');
    Assoc(d, w, k);
    Assoc(w, t, k');
    Assoc(t, w, k');
    CongAdd(p, rest, t * rest', (d * w) * k, t * (w * k'));
    Dist(t, rest', w * k');
  }

  lemma {:induction false} ShiftDifference(S: set<nat>, K: nat -> int, a: nat, b: nat, n: nat)
    ensures Weighted(S, Shifted(b, One()), K, n) - Weighted(S, Shifted(a, One()), K, n)
         == (a - b) * Weighted(S, One(), K, n)
  {
    if n > 0 {
      ShiftDifference(S, K, a, b, n - 1);
      if n - 1 in S {
        Dist(K(n - 1), n - 1 - b, n - 1 - a);
        Dist(a - b, Weighted(S, One(), K, n - 1), K(n - 1));
      }
    }
  }

  lemma {:induction false} EmptyWeighted(W: nat -> int, K: nat -> int, n: nat)
    ensures Weighted({}, W, K, n) == 0
  {
    if n > 0 {
      EmptyWeighted(W, K, n - 1);
    }
  }

  lemma {:induction false} WeightedOne(K: nat -> int, j: nat, n: nat)
    ensures Weighted({j}, One(), K, n) == if j < n then K(j) else 0
  {
    if n > 0 {
      WeightedOne(K, j, n - 1);
    }
  }

  lemma {:induction false} ProdEmpty(n: nat, g: nat -> int)
    ensures ProdOver({}, n, g) == 1
  {
    if n > 0 {
      ProdEmpty(n - 1, g);
    }
  }

  lemma SetRemove(p: int, l: nat, S: set<nat>, c: int, W: nat -> int, z: nat)
    requires Indices(p, l, S) && z in S
    ensures Cong(p, Weighted(S, Shifted(z, W), CoefAt(p, l, S, c), l),
                    (c - z - 1) * Weighted(S - {z}, W, CoefAt(p, l, S - {z}, c), l))
  {
    var K, K' := CoefAt(p, l, S, c), CoefAt(p, l, S - {z}, c);
    forall j | j in S && j != z ensures Cong(p, (j - z) * K(j), (c - z - 1) * K'(j)) {
      CoefRemove(p, l, S, j, z, c);
    }
    WeightedRemove(p, S, W, K, K', z, c - z - 1, l);
  }

  // The coefficients add up to 1 (Neville's recursion).
  lemma {:induction false} PartitionOfUnity(p: int, l: nat, S: set<nat>, c: int)
    requires Indices(p, l, S) && S != {}
    ensures Cong(p, Weighted(S, One(), CoefAt(p, l, S, c), l), 1)
    decreases |S|
  {
    var a :| a in S;
    var K := CoefAt(p, l, S, c);
    if S == {a} {
      WeightedOne(K, a, l);
      assert S - {a} == {};
      ProdEmpty(l, NumTerm(c));
      ProdEmpty(l, DenTerm(a));
    } else {
      assert S - {a} != {};
      var b :| b in S - {a};
      PartitionOfUnity(p, l, S - {a}, c);
      PartitionOfUnity(p, l, S - {b}, c);
      SetRemove(p, l, S, c, One(), a);
      SetRemove(p, l, S, c, One(), b);
      ShiftDifference(S, K, a, b, l);
      NevilleStep(p, c, a, b, Weighted(S, Shifted(a, One()), K, l), Weighted(S, Shifted(b, One()), K, l),
                  Weighted(S - {a}, One(), CoefAt(p, l, S - {a}, c), l),
                  Weighted(S - {b}, One(), CoefAt(p, l, S - {b}, c), l),
                  Weighted(S, One(), K, l));
    }
  }

  lemma NevilleStep(p: int, c: int, a: nat, b: nat, wa: int, wb: int, A: int, B: int, u: int)
    requires IsPrime(p) && a < p && b < p && a != b
    requires Cong(p, A, 1) && Cong(p, B, 1)
    requires Cong(p, wa, (c - a - 1) * A) && Cong(p, wb, (c - b - 1) * B)
    requires wb - wa == (a - b) * u
    ensures Cong(p, u, 1)
  {
    CongScale(p, c - a - 1, A, 1);
    CongScale(p, c - b - 1, B, 1);
    CongTrans(p, wa, (c - a - 1) * A, c - a - 1);
    CongTrans(p, wb, (c - b - 1) * B, c - b - 1);
    CongScale(p, -1, wa, c - a - 1);
    CongAdd(p, wb, c - b - 1, -1 * wa, -1 * (c - a - 1));
    SmallNonzero(p, a - b);
    Cancel(p, a - b, u, 1);
  }

  lemma {:induction false} PolySplit(S: set<nat>, K: nat -> int, a: seq<int>, z: nat, n: nat)
    ensures Weighted(S, PolyAt(a), K, n)
         == PolyEval(a, z + 1) * Weighted(S, One(), K, n)
          + Weighted(S, Shifted(z, PolyAt(Synthetic(a, z + 1))), K, n)
  {
    if n > 0 {
      PolySplit(S, K, a, z, n - 1);
      if n - 1 in S {
        SyntheticDivision(a, z + 1, n);
        var fz, q := PolyEval(a, z + 1), PolyEval(Synthetic(a, z + 1), n);
        Dist(K(n - 1), fz, (n - 1 - z) * q);
        Dist(fz, Weighted(S, One(), K, n - 1), K(n - 1));
      }
    }
  }

  /**
   Reconstruction: any polynomial with at most |S| coefficients is recovered at
   every point c from its values at the points of S.
   */
  lemma {:induction false} Interpolate(p: int, l: nat, S: set<nat>, a: seq<int>, c: int)
    requires Indices(p, l, S) && |a| <= |S|
    ensures Cong(p, Weighted(S, PolyAt(a), CoefAt(p, l, S, c), l), PolyEval(a, c))
    decreases |S|
  {
    var K := CoefAt(p, l, S, c);
    if S == {} {
      EmptyWeighted(PolyAt(a), K, l);
      CongRefl(p, 0);
    } else {
      var z :| z in S;
      var q := Synthetic(a, z + 1);
      PolySplit(S, K, a, z, l);
      PartitionOfUnity(p, l, S, c);
      SetRemove(p, l, S, c, PolyAt(q), z);
      Interpolate(p, l, S - {z}, q, c);
      SyntheticDivision(a, z + 1, c);
      Assemble(p, PolyEval(a, z + 1), Weighted(S, One(), K, l), c - z - 1,
               Weighted(S, Shifted(z, PolyAt(q)), K, l),
               Weighted(S - {z}, PolyAt(q), CoefAt(p, l, S - {z}, c), l), PolyEval(q, c));
    }
  }

  lemma Assemble(p: int, fz: int, u: int, t: int, w: int, w': int, qc: int)
    requires p > 0 && Cong(p, u, 1) && Cong(p, w, t * w') && Cong(p, w', qc)
    ensures Cong(p, fz * u + w, fz + t * qc)
  {
    CongScale(p, fz, u, 1);
    CongScale(p, t, w', qc);
    CongTrans(p, w, t * w', t * qc);
    CongAdd(p, fz * u, fz, w, t * qc);
  }
}
