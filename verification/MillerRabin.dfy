/**
 The Miller-Rabin test of crypto/threshsig/millerrabin.py (section C.3.1 of
 FIPS 186-4): "False means certainly composite". The random bases are
 parameters; None stands for the AssertionError on n < 2.
 */
module MillerRabin {
  import opened NumberTheory
  import opened Options
  import opened PowersOfTwo

  // Number of bases tried (millerrabin.py:19).
  const NUM_TRIALS := 50

  /** pow(a, e, n) of the source. */
  function PowMod(a: int, e: nat, n: int): int
    requires n > 0
  {
    Pow(a, e) % n
  }

  /** The exponent 2**i * d. */
  function Exponent(i: nat, d: nat): nat {
    Pow2(i) * d
  }

  /** The pair (s, d) with m == 2**s * d and d odd. */
  ghost function Odd(m: nat): (sd: (nat, nat))
    requires m > 0
    ensures Exponent(sd.0, sd.1) == m && sd.1 % 2 == 1
  {
    if m % 2 == 1 then (0, m)
    else
      var (s, d) := Odd(m / 2);
      assert Pow2(s + 1) * d == 2 * (Pow2(s) * d);
      (s + 1, d)
  }

  /** try_composite(a) for n - 1 == 2**s * d. */
  ghost predicate Shows(n: int, s: nat, d: nat, a: int)
    requires n > 0
  {
    && PowMod(a, d, n) != 1
    && forall i: nat :: i < s ==> PowMod(a, Exponent(i, d), n) != n - 1
  }

  /** The base a shows that the odd number n is composite. */
  ghost predicate Witness(n: int, a: int)
    requires n > 1
  {
    var (s, d) := Odd(n - 1);
    Shows(n, s, d, a)
  }

  // ---------- the code ----------

  method Halve(n: int) returns (s: nat, d: nat)
    requires n > 1
    ensures (s, d) == Odd(n - 1)
    ensures Exponent(s, d) == n - 1 && d % 2 == 1
  {
    s, d := 0, n - 1;
    while true
      invariant d > 0
      invariant Odd(n - 1) == (s + Odd(d).0, Odd(d).1)
      decreases d
    {
      var quotient, remainder := d / 2, d % 2;
      if remainder == 1 {
        break;
      }
      s := s + 1;
      d := quotient;
    }
  }

  method TryComposite(n: int, s: nat, d: nat, a: int) returns (composite: bool)
    requires n > 0
    ensures composite <==> Shows(n, s, d, a)
  {
    if PowMod(a, d, n) == 1 {
      return false;
    }
    for i := 0 to s
      invariant forall k: nat :: k < i ==> PowMod(a, Exponent(k, d), n) != n - 1
    {
      if PowMod(a, Exponent(i, d), n) == n - 1 {
        return false;
      }
    }
    return true;
  }

  method IsProbablePrime(n: int, bases: seq<int>) returns (r: Option<bool>)
    requires |bases| == 50
    requires n > 2 ==> forall i :: 0 <= i < |bases| ==> 2 <= bases[i] < n
    ensures r.None? <==> n < 2
    ensures r == Some(false) ==> !IsPrime(n)
    ensures r == Some(true) <==>
      n == 2 || (n > 2 && n % 2 == 1 && forall i :: 0 <= i < |bases| ==> !Witness(n, bases[i]))
  {
    if n < 2 {
      return None;
    }
    if n == 2 {
      return Some(true);
    }
    if n % 2 == 0 {
      assert n % 2 == 0 && 2 <= 2 < n;
      return Some(false);
    }
    var s, d := Halve(n);
    for i := 0 to NUM_TRIALS
      invariant forall k :: 0 <= k < i ==> !Witness(n, bases[k])
    {
      var composite := TryComposite(n, s, d, bases[i]);
      if composite {
        assert Witness(n, bases[i]);
        if IsPrime(n) {
          PrimeHasNoWitness(n, bases[i]);
        }
        return Some(false);
      }
    }
    return Some(true);
  }

  // ---------- soundness, and what the test misses ----------

  lemma PowModOne(n: int, a: int, e: nat)
    requires n > 2
    ensures PowMod(a, e, n) == 1 <==> Cong(n, Pow(a, e), 1)
    ensures PowMod(a, e, n) == n - 1 <==> Cong(n, Pow(a, e), -1)
  {
    var x := Pow(a, e);
    CongMod(n, x, 1);
    CongMod(n, x, -1);
    assert 1 % n == 1;
    CongIntro(n, -1, n - 1, -1);
    CongMod(n, -1, n - 1);
    assert (n - 1) % n == n - 1;
  }

  lemma ExponentDouble(i: nat, d: nat)
    ensures Exponent(i + 1, d) == Exponent(i, d) + Exponent(i, d)
  {
    assert 2 * Pow2(i) * d == 2 * (Pow2(i) * d);
  }

  // Squaring chain: if a**(2**i * d) is 1 and no earlier power is -1, then a**d is 1.
  lemma {:induction false} ChainDown(n: int, a: int, d: nat, i: nat)
    requires IsPrime(n)
    requires Cong(n, Pow(a, Exponent(i, d)), 1)
    requires forall k: nat :: k < i ==> !Cong(n, Pow(a, Exponent(k, d)), -1)
    ensures Cong(n, Pow(a, d), 1)
  {
    if i == 0 {
      assert Exponent(0, d) == d;
    } else {
      var e := Exponent(i - 1, d);
      ExponentDouble(i - 1, d);
      PowAdd(a, e, e);
      SquareRootsOfOne(n, Pow(a, e));
      ChainDown(n, a, d, i - 1);
    }
  }

  lemma PrimeHasNoWitness(n: int, a: int)
    requires IsPrime(n) && n > 2 && 0 < a < n
    ensures !Witness(n, a)
  {
    var (s, d) := Odd(n - 1);
    if Shows(n, s, d, a) {
      Fermat(n, a);
      forall k: nat | k < s ensures !Cong(n, Pow(a, Exponent(k, d)), -1) {
        PowModOne(n, a, Exponent(k, d));
      }
      ChainDown(n, a, d, s);
      PowModOne(n, a, d);
    }
  }

  // A divisor of n never has a power congruent to 1 or -1 modulo n.
  lemma DivisorPower(n: int, m: int, e: nat)
    requires 2 <= m < n && n % m == 0 && e >= 1
    ensures PowMod(m, e, n) != 1 && PowMod(m, e, n) != n - 1
  {
    var q, k := Pow(m, e) / n, n / m;
    var x := Pow(m, e - 1);
    assert PowMod(m, e, n) == m * x - (m * k) * q;
    assert (m * k) * q == m * (k * q);
    var y := PowMod(m, e, n);
    assert y == (x - k * q) * m;
    if y == 1 {
      NonzeroMultiple(m, x - k * q);
    }
    if y == n - 1 {
      assert n == k * m;
      assert (x - k * q) * m - k * m == (x - k * q - k) * m;
      NonzeroMultiple(m, x - k * q - k);
    }
  }

  lemma CompositeHasWitness(n: int) returns (a: int)
    requires n > 2 && n % 2 == 1 && !IsPrime(n)
    ensures 2 <= a < n && Witness(n, a)
  {
    a :| 2 <= a < n && n % a == 0;
    var (s, d) := Odd(n - 1);
    DivisorShows(n, s, d, a);
  }

  // A divisor is a base on which try_composite is True.
  lemma DivisorShows(n: int, s: nat, d: nat, a: int)
    requires 2 <= a < n && n % a == 0 && d >= 1
    ensures Shows(n, s, d, a)
  {
    DivisorPower(n, a, d);
    forall i: nat | i < s ensures PowMod(a, Exponent(i, d), n) != n - 1 {
      ExponentPositive(i, d);
      DivisorPower(n, a, Exponent(i, d));
    }
  }

  lemma ExponentPositive(i: nat, d: nat)
    requires d >= 1
    ensures Exponent(i, d) >= 1
  {
    assert Pow2(i) * d >= Pow2(i) * 1;
  }

  /** The test is exact over all bases: an odd n > 2 is prime iff no base in [2, n) is a witness. */
  lemma PrimeIffNoWitness(n: int)
    requires n > 2 && n % 2 == 1
    ensures IsPrime(n) <==> forall a :: 2 <= a < n ==> !Witness(n, a)
  {
    if IsPrime(n) {
      forall a | 2 <= a < n ensures !Witness(n, a) {
        PrimeHasNoWitness(n, a);
      }
    } else {
      var a := CompositeHasWitness(n);
    }
  }
}
