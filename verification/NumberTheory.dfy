/**
 Arithmetic modulo a prime: the facts behind the Miller-Rabin test
 (crypto/threshsig/millerrabin.py) and behind Lagrange interpolation
 (crypto/threshsig/boldyreva.py, crypto/threshenc/tpke.py).

 Residues are handled as unreduced integers up to congruence; code that the
 source runs in Z_p reduces its results with `% p`.
 */
module NumberTheory {
  import opened FiniteSets

  // ---------- congruence ----------

  ghost predicate IsQuotient(m: int, a: int, b: int, k: int) {
    a - b == k * m
  }

  ghost predicate Cong(m: int, a: int, b: int) {
    exists k :: IsQuotient(m, a, b, k)
  }

  lemma CongIntro(m: int, a: int, b: int, k: int)
    requires a - b == k * m
    ensures Cong(m, a, b)
  {
    assert IsQuotient(m, a, b, k);
  }

  lemma NonzeroMultiple(m: int, k: int)
    requires m > 0
    ensures k != 0 ==> k * m >= m || k * m <= -m
  {
    if k >= 1 {
      assert (k - 1) * m >= 0;
    } else if k <= -1 {
      assert (-1 - k) * m >= 0;
    }
  }

  ghost function Quot(m: int, a: int, b: int): (k: int)
    requires Cong(m, a, b)
    ensures a - b == k * m
  {
    var k :| IsQuotient(m, a, b, k);
    k
  }

  lemma CongRefl(m: int, a: int)
    requires m > 0
    ensures Cong(m, a, a)
  {
    CongIntro(m, a, a, 0);
  }

  lemma CongSym(m: int, a: int, b: int)
    requires m > 0 && Cong(m, a, b)
    ensures Cong(m, b, a)
  {
    var k := Quot(m, a, b);
    assert b - a == (-k) * m;
    CongIntro(m, b, a, -k);
  }

  lemma CongTrans(m: int, a: int, b: int, c: int)
    requires m > 0 && Cong(m, a, b) && Cong(m, b, c)
    ensures Cong(m, a, c)
  {
    var k, l := Quot(m, a, b), Quot(m, b, c);
    assert a - c == (k + l) * m;
    CongIntro(m, a, c, k + l);
  }

  lemma CongAdd(m: int, a: int, b: int, c: int, d: int)
    requires m > 0 && Cong(m, a, b) && Cong(m, c, d)
    ensures Cong(m, a + c, b + d)
  {
    var k, l := Quot(m, a, b), Quot(m, c, d);
    assert (a + c) - (b + d) == (k + l) * m;
    CongIntro(m, a + c, b + d, k + l);
  }

  lemma CongMul(m: int, a: int, b: int, c: int, d: int)
    requires m > 0 && Cong(m, a, b) && Cong(m, c, d)
    ensures Cong(m, a * c, b * d)
  {
    var k, l := Quot(m, a, b), Quot(m, c, d);
    MulIdentity(m, a, b, c, d, k, l);
    CongIntro(m, a * c, b * d, c * k + b * l);
  }

  lemma MulIdentity(m: int, a: int, b: int, c: int, d: int, k: int, l: int)
    requires a - b == k * m && c - d == l * m
    ensures a * c - b * d == (c * k + b * l) * m
  {
    assert a * c - b * d == c * (a - b) + b * (c - d);
    assert c * (k * m) + b * (l * m) == (c * k + b * l) * m;
  }

  // Scaling both sides.
  lemma CongScale(m: int, c: int, a: int, b: int)
    requires m > 0 && Cong(m, a, b)
    ensures Cong(m, c * a, c * b)
  {
    CongRefl(m, c);
    CongMul(m, c, c, a, b);
  }

  lemma CongModSelf(m: int, a: int)
    requires m > 0
    ensures Cong(m, a % m, a)
  {
    assert a % m - a == (-(a / m)) * m;
    CongIntro(m, a % m, a, -(a / m));
  }

  // Congruent residues in [0, m) are equal.
  lemma CongSmall(m: int, a: int, b: int)
    requires m > 0 && Cong(m, a, b) && 0 <= a < m && 0 <= b < m
    ensures a == b
  {
    var k := Quot(m, a, b);
    NonzeroMultiple(m, k);
  }

  lemma CongMod(m: int, a: int, b: int)
    requires m > 0
    ensures Cong(m, a, b) <==> a % m == b % m
  {
    CongModSelf(m, a);
    CongModSelf(m, b);
    if Cong(m, a, b) {
      CongTrans(m, a % m, a, b);
      CongSym(m, b % m, b);
      CongTrans(m, a % m, b, b % m);
      CongSmall(m, a % m, b % m);
    }
    if a % m == b % m {
      CongSym(m, a % m, a);
      CongTrans(m, a, a % m, b);
    }
  }

  // ---------- primes and inverses ----------

  ghost predicate IsPrime(p: int) {
    p >= 2 && forall m :: 2 <= m < p ==> p % m != 0
  }

  /** The inverse of a modulo p, by the recursion a * (-(p / a)) == p % a (mod p). */
  function Inverse(p: int, a: int): (r: int)
    requires IsPrime(p) && 0 < a < p
    ensures Cong(p, a * r, 1)
    decreases a
  {
    if a == 1 then
      CongRefl(p, 1);
      1
    else
      var q, b := p / a, p % a;
      assert b != 0;
      var r := -q * Inverse(p, b);
      assert Cong(p, a * r, 1) by {
        var i := Inverse(p, b);
        assert a * -q - b == -1 * p;
        CongIntro(p, a * -q, b, -1);
        CongRefl(p, i);
        CongMul(p, a * -q, b, i, i);
        assert a * r == (a * -q) * i;
        CongTrans(p, a * r, b * i, 1);
      }
      r
  }

  /** Inverse of any integer that p does not divide. */
  function Inv(p: int, a: int): (r: int)
    requires IsPrime(p) && !Cong(p, a, 0)
    ensures Cong(p, a * r, 1)
  {
    CongMod(p, a, 0);
    var r := Inverse(p, a % p);
    assert Cong(p, a * r, 1) by {
      CongModSelf(p, a);
      CongSym(p, a % p, a);
      CongScale(p, r, a, a % p);
      assert a * r == r * a && r * (a % p) == (a % p) * r;
      CongTrans(p, a * r, (a % p) * r, 1);
    }
    r
  }

  // Euclid's lemma.
  lemma Euclid(p: int, a: int, b: int)
    requires IsPrime(p) && Cong(p, a * b, 0)
    ensures Cong(p, a, 0) || Cong(p, b, 0)
  {
    if !Cong(p, a, 0) {
      var r := Inv(p, a);
      CongScale(p, b, a * r, 1);
      CongScale(p, r, a * b, 0);
      assert b * (a * r) == r * (a * b) && b * 1 == b && r * 0 == 0;
      CongSym(p, b * (a * r), b);
      CongTrans(p, b, r * (a * b), 0);
    }
  }

  // Cancelling a factor that p does not divide.
  lemma Cancel(p: int, c: int, a: int, b: int)
    requires IsPrime(p) && !Cong(p, c, 0) && Cong(p, c * a, c * b)
    ensures Cong(p, a, b)
  {
    var k := Quot(p, c * a, c * b);
    assert c * (a - b) - 0 == k * p;
    CongIntro(p, c * (a - b), 0, k);
    Euclid(p, c, a - b);
    var l := Quot(p, a - b, 0);
    CongIntro(p, a, b, l);
  }

  lemma SmallNonzero(p: int, a: int)
    requires p > 0 && -p < a < p && a != 0
    ensures !Cong(p, a, 0)
  {
    if Cong(p, a, 0) {
      var k := Quot(p, a, 0);
      NonzeroMultiple(p, k);
    }
  }

  // ---------- ring identities the solver should not search for ----------

  lemma Assoc(a: int, b: int, c: int)
    ensures (a * b) * c == a * (b * c) == b * (a * c)
  {
  }

  lemma Dist(a: int, b: int, c: int)
    ensures a * (b + c) == a * b + a * c
    ensures (b + c) * a == b * a + c * a
    ensures (b - c) * a == b * a - c * a
  {
  }

  // ---------- powers ----------

  function Pow(b: int, e: nat): int {
    if e == 0 then 1 else b * Pow(b, e - 1)
  }

  lemma {:induction false} PowAdd(b: int, d: nat, e: nat)
    ensures Pow(b, d + e) == Pow(b, d) * Pow(b, e)
  {
    if d > 0 {
      PowAdd(b, d - 1, e);
      assert Pow(b, d + e) == b * Pow(b, d - 1 + e);
      assert b * (Pow(b, d - 1) * Pow(b, e)) == (b * Pow(b, d - 1)) * Pow(b, e);
    }
  }

  // ---------- products over a set of indices, in ascending order ----------

  function ProdOver(S: set<nat>, n: nat, g: nat -> int): int {
    if n == 0 then 1 else ProdOver(S, n - 1, g) * (if n - 1 in S then g(n - 1) else 1)
  }

  lemma {:induction false} ProdSame(S: set<nat>, T: set<nat>, n: nat, g: nat -> int)
    requires forall i :: 0 <= i < n ==> (i in S <==> i in T)
    ensures ProdOver(S, n, g) == ProdOver(T, n, g)
  {
    if n > 0 {
      ProdSame(S, T, n - 1, g);
    }
  }

  lemma {:induction false} ProdRemove(S: set<nat>, n: nat, g: nat -> int, x: nat)
    requires x in S && x < n
    ensures ProdOver(S, n, g) == g(x) * ProdOver(S - {x}, n, g)
  {
    var T := S - {x};
    if n - 1 == x {
      ProdSame(S, T, n - 1, g);
      assert ProdOver(T, n, g) == ProdOver(T, n - 1, g) * 1;
    } else {
      ProdRemove(S, n - 1, g, x);
      var y := if n - 1 in S then g(n - 1) else 1;
      assert (n - 1 in S) == (n - 1 in T);
      assert ProdOver(S, n, g) == ProdOver(S, n - 1, g) * y;
      assert ProdOver(T, n, g) == ProdOver(T, n - 1, g) * y;
      Assoc(g(x), ProdOver(T, n - 1, g), y);
    }
  }

  lemma {:induction false} ProdNonzero(p: int, S: set<nat>, n: nat, g: nat -> int)
    requires IsPrime(p)
    requires forall i :: i in S && i < n ==> !Cong(p, g(i), 0)
    ensures !Cong(p, ProdOver(S, n, g), 0)
  {
    if n == 0 {
      SmallNonzero(p, 1);
    } else {
      ProdNonzero(p, S, n - 1, g);
      if Cong(p, ProdOver(S, n, g), 0) {
        if n - 1 in S {
          Euclid(p, ProdOver(S, n - 1, g), g(n - 1));
        }
      }
    }
  }

  // ---------- Fermat's little theorem ----------

  function Id(): nat -> int { (i: nat) => i }

  // The residues a, 2a, ..., ka modulo p.
  ghost function Multiples(p: int, a: int, k: nat): (s: set<nat>)
    requires p > 0
  {
    if k == 0 then {} else Multiples(p, a, k - 1) + {(a * k) % p}
  }

  lemma {:induction false} MultiplesElements(p: int, a: int, k: nat, x: nat)
    requires p > 0 && x in Multiples(p, a, k)
    ensures exists i {:trigger a * i} :: 1 <= i <= k && x == (a * i) % p
  {
    if x == (a * k) % p {
      assert x == (a * k) % p;
    } else {
      MultiplesElements(p, a, k - 1, x);
    }
  }

  lemma MultipleFresh(p: int, a: int, k: nat)
    requires IsPrime(p) && 0 < a < p && 0 < k < p
    ensures (a * k) % p !in Multiples(p, a, k - 1)
    ensures 1 <= (a * k) % p < p
  {
    SmallNonzero(p, a);
    if (a * k) % p in Multiples(p, a, k - 1) {
      MultiplesElements(p, a, k - 1, (a * k) % p);
      var i :| 1 <= i <= k - 1 && (a * k) % p == (a * i) % p;
      CongMod(p, a * k, a * i);
      Cancel(p, a, k, i);
      CongSmall(p, k, i);
    }
    if (a * k) % p == 0 {
      CongMod(p, a * k, 0);
      Euclid(p, a, k);
      SmallNonzero(p, k);
    }
  }

  lemma {:induction false} MultiplesSize(p: int, a: int, k: nat)
    requires IsPrime(p) && 0 < a < p && k < p
    ensures |Multiples(p, a, k)| == k
    ensures forall x :: x in Multiples(p, a, k) ==> 1 <= x < p
  {
    if k > 0 {
      MultiplesSize(p, a, k - 1);
      MultipleFresh(p, a, k);
    }
  }

  // The product of the first k multiples, as residues.
  ghost function ProductOfMultiples(p: int, a: int, k: nat): int
    requires p > 0
  {
    ProdOver(Multiples(p, a, k), p, Id())
  }

  lemma ProductStep(p: int, a: int, k: nat)
    requires IsPrime(p) && 0 < a < p && 0 < k < p
    ensures ProductOfMultiples(p, a, k) == ((a * k) % p) * ProductOfMultiples(p, a, k - 1)
  {
    MultipleFresh(p, a, k);
    var x: nat := (a * k) % p;
    assert x in Multiples(p, a, k);
    assert Multiples(p, a, k) - {x} == Multiples(p, a, k - 1);
    ProdRemove(Multiples(p, a, k), p, Id(), x);
  }

  lemma {:induction false} MultiplesProduct(p: int, a: int, k: nat)
    requires IsPrime(p) && 0 < a < p && k < p
    ensures Cong(p, ProductOfMultiples(p, a, k), Pow(a, k) * ProductOfMultiples(p, 1, k))
  {
    if k == 0 {
      CongRefl(p, ProductOfMultiples(p, a, 0));
      assert ProductOfMultiples(p, a, 0) == ProductOfMultiples(p, 1, 0);
    } else {
      MultiplesProduct(p, a, k - 1);
      ProductStep(p, a, k);
      ProductStep(p, 1, k);
      CongMod(p, k, k % p);
      CongModSelf(p, k);
      CongSmall(p, k % p, k);
      MultiplesRegroup(p, a, k, ProductOfMultiples(p, a, k - 1), ProductOfMultiples(p, 1, k - 1));
    }
  }

  lemma MultiplesRegroup(p: int, a: int, k: nat, A: int, B: int)
    requires p > 0 && 0 < k && Cong(p, A, Pow(a, k - 1) * B)
    ensures Cong(p, ((a * k) % p) * A, Pow(a, k) * (k * B))
  {
    CongModSelf(p, a * k);
    CongMul(p, (a * k) % p, a * k, A, Pow(a, k - 1) * B);
    assert (a * k) * (Pow(a, k - 1) * B) == (a * Pow(a, k - 1)) * (k * B);
  }

  lemma FullRange(p: nat, S: set<nat>)
    requires p > 0 && |S| == p - 1 && forall x :: x in S ==> 1 <= x < p
    ensures S == Below(p) - {0}
  {
    SameSize(S, Below(p) - {0});
  }

  lemma Fermat(p: int, a: int)
    requires IsPrime(p) && 0 < a < p
    ensures Cong(p, Pow(a, p - 1), 1)
  {
    MultiplesProduct(p, a, p - 1);
    AllResidues(p, a);
    AllResidues(p, 1);
    var F := ProductOfMultiples(p, 1, p - 1);
    FactorialNonzero(p);
    assert Cong(p, F * 1, F * Pow(a, p - 1)) by {
      assert F == F * 1 && Pow(a, p - 1) * F == F * Pow(a, p - 1);
    }
    Cancel(p, F, 1, Pow(a, p - 1));
    CongSym(p, 1, Pow(a, p - 1));
  }

  // The p - 1 multiples of a are all the nonzero residues.
  lemma AllResidues(p: int, a: int)
    requires IsPrime(p) && 0 < a < p
    ensures Multiples(p, a, p - 1) == Below(p) - {0}
  {
    MultiplesSize(p, a, p - 1);
    FullRange(p, Multiples(p, a, p - 1));
  }

  lemma FactorialNonzero(p: int)
    requires IsPrime(p)
    ensures !Cong(p, ProductOfMultiples(p, 1, p - 1), 0)
  {
    var S := Multiples(p, 1, p - 1);
    AllResidues(p, 1);
    forall i | i in S && i < p ensures !Cong(p, Id()(i), 0) {
      SmallNonzero(p, i);
    }
    ProdNonzero(p, S, p, Id());
  }

  // Modulo a prime, 1 has no square roots but 1 and -1.
  lemma SquareRootsOfOne(p: int, x: int)
    requires IsPrime(p) && Cong(p, x * x, 1)
    ensures Cong(p, x, 1) || Cong(p, x, -1)
  {
    var k := Quot(p, x * x, 1);
    assert (x - 1) * (x + 1) == x * x - 1;
    CongIntro(p, (x - 1) * (x + 1), 0, k);
    Euclid(p, x - 1, x + 1);
    if Cong(p, x - 1, 0) {
      CongIntro(p, x, 1, Quot(p, x - 1, 0));
    } else {
      CongIntro(p, x, -1, Quot(p, x + 1, 0));
    }
  }
}
