/** Ideal signatures, certificates made of them, and their signers. */
module Signatures {
  import opened ByteStrings

  /** An ideal signature: the one token of its signer for a digest. */
  datatype Signature = Signature(signer: nat, digest: Bytes)

  /** Pairs (sender, signature), in the order in which they were collected. */
  type Certificate = seq<(nat, Signature)>

  function SetOf(cert: Certificate): set<(nat, Signature)> {
    set x | x in cert
  }

  function Signers(pairs: set<(nat, Signature)>): set<nat> {
    set x | x in pairs :: x.0
  }

  /** The senders in a certificate. */
  function SignersOf(cert: Certificate): set<nat> {
    Signers(SetOf(cert))
  }

  // Different tokens for one digest have different signers.
  lemma {:induction false} SignersSize(pairs: set<(nat, Signature)>, digest: Bytes)
    requires forall x :: x in pairs ==> x.1 == Signature(x.0, digest)
    ensures |Signers(pairs)| == |pairs|
    decreases pairs
  {
    if pairs != {} {
      var x :| x in pairs;
      SignersSize(pairs - {x}, digest);
      assert Signers(pairs) == Signers(pairs - {x}) + {x.0};
    }
  }

  lemma SignersMore(cert: Certificate, from: nat, sig: Signature)
    ensures SignersOf(cert + [(from, sig)]) == SignersOf(cert) + {from}
  {
    var more := cert + [(from, sig)];
    assert SetOf(more) == SetOf(cert) + {(from, sig)};
    assert Signers(SetOf(cert) + {(from, sig)}) == Signers(SetOf(cert)) + {from} by {
      assert (from, sig).0 == from;
    }
  }

  // Different signers make different items.
  lemma Distinct(shares: Certificate)
    requires |SignersOf(shares)| == |shares|
    ensures |SetOf(shares)| == |shares|
  {
    SignersFewer(SetOf(shares));
    ItemsFewer(shares);
  }

  lemma {:induction false} SignersFewer(pairs: set<(nat, Signature)>)
    ensures |Signers(pairs)| <= |pairs|
    decreases pairs
  {
    if pairs != {} {
      var x :| x in pairs;
      SignersFewer(pairs - {x});
      assert Signers(pairs) == Signers(pairs - {x}) + {x.0};
    }
  }

  lemma {:induction false} ItemsFewer(s: Certificate)
    ensures |SetOf(s)| <= |s|
  {
    if s != [] {
      ItemsFewer(s[..|s| - 1]);
      assert SetOf(s) == SetOf(s[..|s| - 1]) + {s[|s| - 1]};
    }
  }

  /** cert consists of k tokens for digest, of k different signers below N. */
  predicate TokensOf(cert: Certificate, k: int, N: nat, digest: Bytes) {
    && |cert| == k && |SignersOf(cert)| == k
    && forall i :: 0 <= i < |cert| ==> cert[i].0 < N && cert[i].1 == Signature(cert[i].0, digest)
  }

  // For tokens of one digest, different pairs are the same as different signers.
  lemma PairsOrSigners(cert: Certificate, digest: Bytes)
    requires forall i :: 0 <= i < |cert| ==> cert[i].1 == Signature(cert[i].0, digest)
    ensures |SetOf(cert)| == |SignersOf(cert)|
  {
    forall x | x in SetOf(cert) ensures x.1 == Signature(x.0, digest) {
      var i :| 0 <= i < |cert| && cert[i] == x;
    }
    SignersSize(SetOf(cert), digest);
  }
}
