/**
 The threshold encryption of crypto/threshenc/tpke.py, with group elements
 written by their exponents as in ThresholdSignature. The random exponent of
 encrypt is a parameter; hashG and hashH are arbitrary functions, hashG with
 32-byte values. None stands for a failed assertion.
 */
module ThresholdEncryption {
  import opened NumberTheory
  import opened Interpolation
  import opened Options
  import opened ThresholdSignature

  type Octets = seq<bv8>

  datatype Hashes = Hashes(hashG: int -> Octets, hashH: (int, Octets) -> int)

  datatype Ciphertext = Ciphertext(U: int, V: Octets, W: int)

  ghost predicate ThirtyTwo(hs: Hashes) {
    forall x :: |hs.hashG(x)| == 32
  }

  function Xor(x: Octets, y: Octets): Option<Octets> {
    if |x| == |y| == 32 then Some(seq(32, i requires 0 <= i < 32 => x[i] ^ y[i])) else None
  }

  function Encrypt(hs: Hashes, p: int, pk: PublicKey, m: Octets, r: int): Option<Ciphertext>
    requires p > 0
  {
    match Xor(m, hs.hashG((pk.vk * r) % p))
    case None => None
    case Some(V) =>
      var U := r % p;
      Some(Ciphertext(U, V, (hs.hashH(U, V) * r) % p))
  }

  /** The pairing equation pair(g1, W) == pair(U, H) in the exponent. */
  predicate VerifyCiphertext(hs: Hashes, p: int, c: Ciphertext)
    requires p > 0
  {
    c.W % p == (c.U * hs.hashH(c.U, c.V)) % p
  }

  function DecryptShare(hs: Hashes, p: int, sk: int, c: Ciphertext): Option<int>
    requires p > 0
  {
    if VerifyCiphertext(hs, p, c) then Some((c.U * sk) % p) else None
  }

  /** verify_share(i, U_i, U, V, W): the equation of the signature scheme with U as the hash. */
  predicate VerifyDecryptionShare(p: int, pk: PublicKey, i: nat, Ui: int, c: Ciphertext)
    requires p > 0 && |pk.vks| == pk.l
  {
    VerifyShare(p, pk, Ui, i, c.U)
  }

  function Combine(hs: Hashes, p: int, pk: PublicKey, c: Ciphertext, shares: seq<(nat, int)>): Option<Octets>
    requires Group(p, pk)
  {
    if forall i :: 0 <= i < |shares| ==> VerifyDecryptionShare(p, pk, shares[i].0, shares[i].1, c) then
      match CombineShares(p, pk, shares)
      case None => None
      case Some(res) => Xor(hs.hashG(res), c.V)
    else None
  }

  // ---------- decryption inverts encryption ----------

  lemma XorTwice(x: Octets, y: Octets)
    requires |x| == |y| == 32
    ensures Xor(y, Xor(x, y).value) == Some(x)
  {
    var z := Xor(x, y).value;
    forall i | 0 <= i < 32 ensures y[i] ^ z[i] == x[i] {
      XorBits(x[i], y[i]);
    }
    assert Xor(y, z).value == x;
  }

  lemma XorBits(a: bv8, b: bv8)
    ensures b ^ (a ^ b) == a
  {
  }

  lemma MulModCommute(p: int, a: int, b: int)
    requires p > 0
    ensures ((a % p) * b) % p == ((b % p) * a) % p
  {
    CongModSelf(p, a);
    CongModSelf(p, b);
    CongScale(p, b, a % p, a);
    CongScale(p, a, b % p, b);
    CongMod(p, b * (a % p), b * a);
    CongMod(p, a * (b % p), a * b);
  }

  /** Every ciphertext made by encrypt passes verify_ciphertext. */
  lemma EncryptedVerifies(hs: Hashes, p: int, pk: PublicKey, m: Octets, r: int)
    requires p > 0 && Encrypt(hs, p, pk, m, r).Some?
    ensures VerifyCiphertext(hs, p, Encrypt(hs, p, pk, m, r).value)
  {
    var c := Encrypt(hs, p, pk, m, r).value;
    PairingSides(p, hs.hashH(c.U, c.V), r);
  }

  /**
   A ciphertext depends on r as it should: its U is r in the exponent, so that two
   exponents give one U only if they are equal modulo p; V masks m with the hash of
   the public key to the r; and W is the hash of U and V to the r.
   */
  lemma EncryptUses(hs: Hashes, p: int, pk: PublicKey, m: Octets, r: int, r': int)
    requires p > 0 && |m| == 32 && ThirtyTwo(hs)
    ensures Encrypt(hs, p, pk, m, r).Some? && Encrypt(hs, p, pk, m, r').Some?
    ensures
      var c, c' := Encrypt(hs, p, pk, m, r).value, Encrypt(hs, p, pk, m, r').value;
      && (c.U == c'.U <==> r % p == r' % p)
      && Xor(hs.hashG((pk.vk * r) % p), c.V) == Some(m)
      && c.W == (hs.hashH(c.U, c.V) * r) % p
  {
    XorTwice(m, hs.hashG((pk.vk * r) % p));
  }

  lemma PairingSides(p: int, H: int, r: int)
    requires p > 0
    ensures ((H * r) % p) % p == ((r % p) * H) % p
  {
    CongModSelf(p, H * r);
    CongMod(p, (H * r) % p, H * r);
    CongModSelf(p, r);
    CongScale(p, H, r % p, r);
    CongMod(p, H * (r % p), H * r);
    assert H * (r % p) == (r % p) * H;
  }

  /** Every share that a key holder makes passes verify_share. */
  lemma SharesVerify(hs: Hashes, p: int, pk: PublicKey, a: seq<int>, c: Ciphertext, i: nat)
    requires Dealt(p, pk, a) && i < pk.l && VerifyCiphertext(hs, p, c)
    ensures DecryptShare(hs, p, PolyEval(a, i + 1) % p, c).Some?
    ensures VerifyDecryptionShare(p, pk, i, DecryptShare(hs, p, PolyEval(a, i + 1) % p, c).value, c)
  {
    VerifiedShare(p, pk, a, 0, i, c.U);
  }

  /**
   Decryption inverts encryption: given any dict of shares for the ciphertext of
   m, combine_shares returns m exactly when the dict has k entries that all pass
   verify_share, whoever they come from; otherwise it fails.
   */
  lemma DecryptInvertsEncrypt(hs: Hashes, p: int, pk: PublicKey, a: seq<int>, m: Octets, r: int, shares: seq<(nat, int)>)
    requires Dealt(p, pk, a) && ThirtyTwo(hs) && |m| == 32
    requires IsDict(shares) && shares != []
    ensures Encrypt(hs, p, pk, m, r).Some?
    ensures
      var c := Encrypt(hs, p, pk, m, r).value;
      Combine(hs, p, pk, c, shares) ==
        if |shares| == pk.k && forall i :: 0 <= i < |shares| ==> VerifyDecryptionShare(p, pk, shares[i].0, shares[i].1, c)
        then Some(m) else None
  {
    var c := Encrypt(hs, p, pk, m, r).value;
    CombineRejects(p, pk, shares);
    if |shares| == pk.k && forall i :: 0 <= i < |shares| ==> VerifyDecryptionShare(p, pk, shares[i].0, shares[i].1, c) {
      CombineVerified(p, pk, a, c.U, shares);
      MulModCommute(p, r, a[0]);
      MulModCommute(p, a[0], r);
      assert (c.U * a[0]) % p == (pk.vk * r) % p;
      XorTwice(m, hs.hashG((pk.vk * r) % p));
    }
  }
}
