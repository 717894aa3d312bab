/**
 The proofs of the provable reliable broadcast
 (dumbobft/core/provablereliablebroadcast.py) and their validation
 (prbc_validate of dumbobft/core/validators.py). Signatures are ideal: one token
 per signer and digest, and honest nodes sign only the READYs they send.
 */
module ProvableBroadcast {
  import opened Quorums
  import opened Options
  import opened ByteStrings
  import opened Signatures
  import opened MerkleTree
  import opened ReliableBroadcast
  import opened ReliableBroadcastSafety

  datatype Proof = Proof(sid: string, root: Bytes, sigmas: Certificate)

  /** prbc_validate; any exception is caught there and means false. */
  predicate PrbcValidate(c: Config, sid: string, proof: Proof) {
    && proof.sid == sid
    && |proof.sigmas| == c.N - c.f && |SetOf(proof.sigmas)| == c.N - c.f
    && forall x :: x in proof.sigmas ==> x.0 < c.N && x.1 == Signature(x.0, c.hashPair(sid, proof.root))
  }

  /** prbc_validate accepts exactly N - f tokens of different nodes for the root, under the sid that the proof names. */
  lemma ValidatesExactly(c: Config, sid: string, proof: Proof)
    ensures PrbcValidate(c, sid, proof) <==> proof.sid == sid && TokensOf(proof.sigmas, c.N - c.f, c.N, c.hashPair(sid, proof.root))
  {
    if (forall i :: 0 <= i < |proof.sigmas| ==> proof.sigmas[i].1 == Signature(proof.sigmas[i].0, c.hashPair(sid, proof.root))) {
      PairsOrSigners(proof.sigmas, c.hashPair(sid, proof.root));
    }
  }

  /** Two roots with one digest under the sid of the instance. */
  predicate SameDigest(c: Config, a: Bytes, b: Bytes) {
    a != b && c.Digest(a) == c.Digest(b)
  }

  /** No token of an honest signer exists that the signer has not sent. */
  ghost predicate Unforged(F: Faults, s: System, proof: Proof) {
    forall x :: x in proof.sigmas && x.1.signer in F.honest ==>
      exists root :: (x.1.signer, Ready(root, Some(x.1))) in s.sent
  }

  // A READY of h for root whose token is the one in the proof.
  ghost predicate SignedBy(c: Config, s: System, h: nat, root: Bytes, proof: Proof) {
    (h, Ready(root, Some(Signature(h, c.Digest(proof.root))))) in s.sent
  }

  // An accepted proof holds the token of an honest signer, which sent READY for some root.
  lemma HonestSigner(c: Config, F: Faults, s: System, proof: Proof) returns (h: nat, root: Bytes)
    requires Resilient(F) && F.N == c.N && F.f == c.f && PrbcValidate(c, c.sid, proof) && Unforged(F, s, proof)
    ensures h in F.honest && SignedBy(c, s, h, root, proof)
  {
    var S := SetOf(proof.sigmas);
    SignersSize(S, c.Digest(proof.root));
    h := HonestMember(F, Signers(S));
    var x :| x in S && x.0 == h;
    root :| (h, Ready(root, Some(x.1))) in s.sent;
  }

  // The root of an accepted proof has a quorum of ECHOs, unless two roots share a digest.
  lemma ProofQuorum(c: Config, F: Faults, s: System, proof: Proof) returns (other: Bytes)
    requires Valid(c, F) && Inv(c, F, s) && c.provable && PrbcValidate(c, c.sid, proof) && Unforged(F, s, proof)
    ensures EchoQuorum(c, F, s.sent, proof.root) || SameDigest(c, proof.root, other)
  {
    var h, root := HonestSigner(c, F, s, proof);
    other := root;
    var m := Ready(root, Some(Signature(h, c.Digest(proof.root))));
    assert SentOk(c, h, s.nodes[h], m);
    assert m == MakeReady(c, h, root);
    if root == proof.root {
      SentReadyQuorum(c, F, s, root);
    }
  }

  /**
   Any two accepted proofs of one instance carry the same root, or the roots of
   two READYs have one digest.
   */
  lemma ProofsAgree(c: Config, F: Faults, es: seq<Event>, s: System, proof: Proof, proof': Proof)
    returns (a: Bytes, b: Bytes)
    requires Valid(c, F) && c.provable && Run(c, F, es) == Some(s)
    requires PrbcValidate(c, c.sid, proof) && Unforged(F, s, proof)
    requires PrbcValidate(c, c.sid, proof') && Unforged(F, s, proof')
    ensures proof.root == proof'.root || SameDigest(c, a, b)
  {
    RunInv(c, F, es);
    a := proof.root;
    b := ProofQuorum(c, F, s, proof);
    if !SameDigest(c, a, b) {
      a := proof'.root;
      b := ProofQuorum(c, F, s, proof');
      if !SameDigest(c, a, b) {
        QuorumsMeet(c, F, s, proof.root, proof'.root);
      }
    }
  }

  /**
   Exactly the honest nodes that have returned a value hold a proof; it has N - f
   signatures, and the value is the one decoded for its root.
   */
  lemma ReturnedWithProof(c: Config, F: Faults, es: seq<Event>, s: System, p: nat)
    requires Valid(c, F) && c.provable && Run(c, F, es) == Some(s) && p in F.honest
    ensures p in s.nodes && (s.nodes[p].proof.Some? <==> s.nodes[p].outcome.Returned?)
    ensures s.nodes[p].proof.Some? ==>
      Decoded(c, s.nodes[p], s.nodes[p].proof.value.0) && |s.nodes[p].proof.value.1| == c.N - c.f
  {
    RunInv(c, F, es);
    assert NodeInv(c, F, s.sent, s.nodes[p]);
  }

  /** The root for which an honest node has returned its value is that of every accepted proof. */
  lemma ProofMatchesOutput(c: Config, F: Faults, es: seq<Event>, s: System, proof: Proof, p: nat)
    returns (other: Bytes)
    requires Valid(c, F) && c.provable && Run(c, F, es) == Some(s)
    requires PrbcValidate(c, c.sid, proof) && Unforged(F, s, proof)
    requires p in F.honest && p in s.nodes && s.nodes[p].outcome.Returned?
    ensures s.nodes[p].proof.Some? && Decoded(c, s.nodes[p], s.nodes[p].proof.value.0)
    ensures s.nodes[p].proof.value.0 == proof.root || SameDigest(c, proof.root, other)
  {
    ReturnedWithProof(c, F, es, s, p);
    RunInv(c, F, es);
    var root := s.nodes[p].proof.value.0;
    CompleteRoot(c, F, s, p, root);
    other := ProofQuorum(c, F, s, proof);
    if !SameDigest(c, proof.root, other) {
      QuorumsMeet(c, F, s, root, proof.root);
    }
  }

  /** Node h has broadcast a stripe that passes the Merkle check for root at its own index. */
  ghost predicate BroadcastStripe(c: Config, s: System, h: nat, root: Bytes) {
    exists branch, stripe :: (h, Echo(root, branch, stripe)) in s.sent && Accepts(c.H, c.N, stripe, root, branch, h)
  }

  /**
   Retrievability: acceptance of a proof means that at least K = N - 2f honest
   nodes have broadcast Merkle-verified stripes for its root.
   */
  lemma ProofMeansStripes(c: Config, F: Faults, es: seq<Event>, s: System, proof: Proof)
    returns (A: set<nat>, other: Bytes)
    requires Valid(c, F) && c.provable && Run(c, F, es) == Some(s)
    requires PrbcValidate(c, c.sid, proof) && Unforged(F, s, proof)
    ensures SameDigest(c, proof.root, other)
      || (A <= F.honest && |A| >= c.K() && forall h :: h in A ==> BroadcastStripe(c, s, h, proof.root))
  {
    RunInv(c, F, es);
    A := {};
    other := ProofQuorum(c, F, s, proof);
    if !SameDigest(c, proof.root, other) {
      var Q :| QuorumFor(c, F, s.sent, proof.root, Q);
      HonestPart(F, Q);
      A := Q * F.honest;
      forall h | h in A ensures BroadcastStripe(c, s, h, proof.root) {
        var branch, stripe :| (h, Echo(proof.root, branch, stripe)) in s.sent;
        assert SentOk(c, h, s.nodes[h], Echo(proof.root, branch, stripe));
      }
    }
  }
}
