/**
 Which proofs of the provable broadcast its own check accepts. A node collects the
 signatures of all READYs it counts and puts the first N - f into the proof,
 whichever roots they are for.
 */
module ProofValidity {
  import opened FiniteSets
  import opened Quorums
  import opened Options
  import opened ByteStrings
  import opened Signatures
  import opened ReliableBroadcast
  import opened ReliableBroadcastSafety
  import opened ProvableBroadcast

  /** The signature x comes with a READY that node n has counted. */
  ghost predicate FromReady(c: Config, n: Node, x: (nat, Signature)) {
    exists root :: x.0 in Readies(n, root) && x.1 == Signature(x.0, c.Digest(root))
  }

  /** Node n has counted a READY of q for this root, or for one with its digest. */
  ghost predicate CountedFor(c: Config, n: Node, q: nat, root: Bytes) {
    exists other :: q in Readies(n, other) && c.Digest(other) == c.Digest(root)
  }

  // One READY of each sender counted.
  ghost predicate OneReady(n: Node) {
    && (forall root, q :: q in Readies(n, root) ==> q in n.readySenders)
    && (forall a, b, q :: q in Readies(n, a) && q in Readies(n, b) ==> a == b)
  }

  // One signature of each sender counted.
  ghost predicate SigsOk(c: Config, n: Node) {
    && (forall x :: x in n.readySigs ==> x.0 < c.N && x.0 in n.readySenders && FromReady(c, n, x))
    && (forall i, j :: 0 <= i < j < |n.readySigs| ==> n.readySigs[i].0 != n.readySigs[j].0)
    && OneReady(n)
  }

  ghost predicate ProofIs(c: Config, n: Node) {
    n.proof.Some? ==> n.outcome != Running && n.proof.value.1 == FirstItems(n.readySigs, c.OutputThreshold())
  }

  lemma ReadyAdded(c: Config, n: Node, from: nat, root: Bytes)
    requires SigsOk(c, n) && from < c.N && from !in n.readySenders
    ensures SigsOk(c, AddReady(n, from, root, Some(Signature(from, c.Digest(root)))))
  {
    var n' := AddReady(n, from, root, Some(Signature(from, c.Digest(root))));
    OneMore(n, from, root, n');
    forall x | x in n'.readySigs ensures x.0 < c.N && x.0 in n'.readySenders && FromReady(c, n', x) {
      if x in n.readySigs {
        var root' :| x.0 in Readies(n, root') && x.1 == Signature(x.0, c.Digest(root'));
        assert x.0 in Readies(n', root');
      } else {
        assert from in Readies(n', root);
      }
    }
  }

  lemma OneMore(n: Node, from: nat, root: Bytes, n': Node)
    requires OneReady(n) && from !in n.readySenders
    requires n'.ready == n.ready[root := Readies(n, root) + {from}] && n'.readySenders == n.readySenders + {from}
    ensures OneReady(n')
  {
    forall a ensures Readies(n', a) == if a == root then Readies(n, root) + {from} else Readies(n, a) {}
  }

  ghost predicate SameReadies(n: Node, n': Node) {
    n'.readySigs == n.readySigs && n'.readySenders == n.readySenders && n'.ready == n.ready
  }

  // Output check and READY leave what was counted alone.
  lemma SameSigs(c: Config, n: Node, n': Node)
    requires SigsOk(c, n) && SameReadies(n, n')
    ensures SigsOk(c, n')
  {
    forall root ensures Readies(n', root) == Readies(n, root) {}
    forall x | x in n'.readySigs ensures x.0 < c.N && x.0 in n'.readySenders && FromReady(c, n', x) {
      var root :| x.0 in Readies(n, root) && x.1 == Signature(x.0, c.Digest(root));
      assert x.0 in Readies(n', root);
    }
  }

  // What a step does to the READYs counted.
  ghost predicate Counts(c: Config, n: Node, e: Event, n': Node) {
    || SameReadies(n, n')
    || (e.Deliver? && e.m.Ready? && e.from !in n.readySenders
        && SameReadies(AddReady(n, e.from, e.m.root, Some(Signature(e.from, c.Digest(e.m.root)))), n'))
  }

  lemma OutputStep(c: Config, n: Node, root: Bytes)
    requires n.proof.None?
    ensures SameReadies(n, TryOutput(c, n, root)) && ProofIs(c, TryOutput(c, n, root))
  {
  }

  lemma SendStep(c: Config, pid: nat, n: Node, root: Bytes, enough: bool)
    ensures SameReadies(n, SendReady(c, pid, n, root, enough).0) && SendReady(c, pid, n, root, enough).0.proof == n.proof
  {
  }

  lemma ReadyStep(c: Config, p: nat, n: Node, from: nat, m: Message)
    requires c.provable && n.proof.None? && m.Ready?
    ensures var n' := OnReady(c, p, n, from, m).0; Counts(c, n, Deliver(p, from, m), n') && ProofIs(c, n')
  {
    var n1 := AddReady(n, from, m.root, m.sig);
    var enough := |Readies(n1, m.root)| >= c.ReadyThreshold();
    SendStep(c, p, n1, m.root, enough);
    OutputStep(c, SendReady(c, p, n1, m.root, enough).0, m.root);
  }

  lemma EchoStep(c: Config, p: nat, n: Node, from: nat, m: Message)
    requires c.provable && n.proof.None? && m.Echo?
    ensures var n' := OnEcho(c, p, n, from, m).0; SameReadies(n, n') && n'.proof.None?
  {
  }

  lemma ReadyCounts(c: Config, n: Node, p: nat, from: nat, m: Message)
    requires c.provable && n.proof.None? && n.outcome == Running && m.Ready?
    ensures var n' := Receive(c, p, n, from, m).0; Counts(c, n, Deliver(p, from, m), n') && ProofIs(c, n')
  {
    ReadyStep(c, p, n, from, m);
  }

  lemma OtherCounts(c: Config, n: Node, p: nat, from: nat, m: Message)
    requires c.provable && ProofIs(c, n) && (n.outcome == Running ==> !m.Ready?)
    ensures var n' := Receive(c, p, n, from, m).0; SameReadies(n, n') && ProofIs(c, n')
  {
    if n.outcome == Running && m.Echo? {
      EchoStep(c, p, n, from, m);
    }
  }

  lemma InputCounts(c: Config, n: Node, m: Bytes)
    requires c.provable && ProofIs(c, n)
    ensures var n' := Input(c, n, m).0; SameReadies(n, n') && ProofIs(c, n')
  {
  }

  lemma LocalCounts(c: Config, n: Node, e: Event)
    requires c.provable && ProofIs(c, n)
    ensures var n' := Local(c, n, e).0; Counts(c, n, e, n') && ProofIs(c, n')
  {
    match e
    case Send(_, m) => InputCounts(c, n, m);
    case Deliver(p, from, m) =>
      if n.outcome == Running && m.Ready? {
        ReadyCounts(c, n, p, from, m);
      } else {
        OtherCounts(c, n, p, from, m);
      }
  }

  lemma CountsSigs(c: Config, n: Node, e: Event, n': Node)
    requires SigsOk(c, n) && Counts(c, n, e, n') && (e.Deliver? ==> e.from < c.N)
    ensures SigsOk(c, n')
  {
    if SameReadies(n, n') {
      SameSigs(c, n, n');
    } else {
      ReadyAdded(c, n, e.from, e.m.root);
      SameSigs(c, AddReady(n, e.from, e.m.root, Some(Signature(e.from, c.Digest(e.m.root)))), n');
    }
  }

  lemma LocalSigs(c: Config, n: Node, e: Event)
    requires c.provable && SigsOk(c, n) && ProofIs(c, n) && (e.Deliver? ==> e.from < c.N)
    ensures SigsOk(c, Local(c, n, e).0) && ProofIs(c, Local(c, n, e).0)
  {
    LocalCounts(c, n, e);
    CountsSigs(c, n, e, Local(c, n, e).0);
  }

  lemma {:induction false} RunSigs(c: Config, F: Faults, es: seq<Event>)
    requires Valid(c, F) && c.provable && Run(c, F, es).Some?
    ensures var s := Run(c, F, es).value;
      s.nodes.Keys == F.honest && forall p :: p in F.honest ==> SigsOk(c, s.nodes[p]) && ProofIs(c, s.nodes[p])
  {
    if es != [] {
      var init, e := es[..|es| - 1], es[|es| - 1];
      RunSigs(c, F, init);
      LocalSigs(c, Run(c, F, init).value.nodes[e.p], e);
    }
  }

  // Signatures of different senders are different.
  lemma {:induction false} Distinct(cert: Certificate)
    requires forall i, j :: 0 <= i < j < |cert| ==> cert[i].0 != cert[j].0
    ensures |SetOf(cert)| == |cert|
  {
    if cert != [] {
      var init, last := cert[..|cert| - 1], cert[|cert| - 1];
      Distinct(init);
      assert SetOf(cert) == SetOf(init) + {last};
    }
  }

  // Signatures of N - f different senders.
  lemma Validated(c: Config, root: Bytes, sigmas: Certificate)
    requires |sigmas| == c.N - c.f && |SetOf(sigmas)| == c.N - c.f
    requires forall x :: x in sigmas ==> x.0 < c.N && x.1.signer == x.0
    ensures PrbcValidate(c, c.sid, Proof(c.sid, root, sigmas)) <==> forall x :: x in sigmas ==> x.1.digest == c.Digest(root)
  {
  }

  lemma FirstSigs(c: Config, n: Node, sigmas: Certificate)
    requires SigsOk(c, n) && sigmas <= n.readySigs
    ensures |SetOf(sigmas)| == |sigmas|
    ensures forall x :: x in sigmas ==> x.0 < c.N && x.1.signer == x.0 && FromReady(c, n, x)
  {
    Distinct(sigmas);
    forall x | x in sigmas ensures x.0 < c.N && x.1.signer == x.0 && FromReady(c, n, x) {
      assert x in n.readySigs;
    }
  }

  // In terms of the digests that are signed.
  lemma DigestsDecide(c: Config, F: Faults, es: seq<Event>, s: System, p: nat)
    requires Valid(c, F) && c.provable && Run(c, F, es) == Some(s) && p in F.honest
    requires p in s.nodes && s.nodes[p].proof.Some?
    ensures var n := s.nodes[p];
      var (root, sigmas) := n.proof.value;
      && (PrbcValidate(c, c.sid, Proof(c.sid, root, sigmas))
          <==> forall x :: x in sigmas ==> x.1.digest == c.Digest(root))
      && forall x :: x in sigmas ==> FromReady(c, n, x)
  {
    RunSigs(c, F, es);
    ReturnedWithProof(c, F, es, s, p);
    var n := s.nodes[p];
    var root, sigmas := n.proof.value.0, n.proof.value.1;
    FirstSigs(c, n, sigmas);
    Validated(c, root, sigmas);
  }

  lemma DigestCounted(c: Config, n: Node, x: (nat, Signature), root: Bytes)
    requires OneReady(n) && FromReady(c, n, x)
    ensures x.1.digest == c.Digest(root) <==> CountedFor(c, n, x.0, root)
  {
    var own :| x.0 in Readies(n, own) && x.1 == Signature(x.0, c.Digest(own));
    if CountedFor(c, n, x.0, root) {
      var other :| x.0 in Readies(n, other) && c.Digest(other) == c.Digest(root);
      assert other == own;
    }
  }

  /**
   A returned proof passes prbc_validate exactly when the READY that was counted
   of each of its signers was for the decoded root, or for one with its digest.
   */
  lemma ProofAccepted(c: Config, F: Faults, es: seq<Event>, s: System, p: nat)
    requires Valid(c, F) && c.provable && Run(c, F, es) == Some(s) && p in F.honest
    requires p in s.nodes && s.nodes[p].proof.Some?
    ensures var n := s.nodes[p];
      var (root, sigmas) := n.proof.value;
      PrbcValidate(c, c.sid, Proof(c.sid, root, sigmas)) <==> forall x :: x in sigmas ==> CountedFor(c, n, x.0, root)
  {
    DigestsDecide(c, F, es, s, p);
    RunSigs(c, F, es);
    var n := s.nodes[p];
    var root, sigmas := n.proof.value.0, n.proof.value.1;
    forall x | x in sigmas ensures x.1.digest == c.Digest(root) <==> CountedFor(c, n, x.0, root) {
      DigestCounted(c, n, x, root);
    }
  }

  // The READY of an honest node is for the root that node p has decoded.
  lemma HonestReady(c: Config, F: Faults, es: seq<Event>, s: System, p: nat, x: (nat, Signature))
    requires Valid(c, F) && c.provable && Run(c, F, es) == Some(s) && p in F.honest
    requires p in s.nodes && s.nodes[p].proof.Some? && x.0 in F.honest && FromReady(c, s.nodes[p], x)
    ensures x.1.digest == c.Digest(s.nodes[p].proof.value.0)
  {
    var n := s.nodes[p];
    RunInv(c, F, es);
    ReturnedWithProof(c, F, es, s, p);
    var root :| x.0 in Readies(n, root) && x.1 == Signature(x.0, c.Digest(root));
    assert NodeInv(c, F, s.sent, n);
    assert ReadyOk(c, F, s.sent, n, root);
    assert SentOk(c, x.0, s.nodes[x.0], MakeReady(c, x.0, root));
    OneRoot(c, F, es, s, p, x.0, n.proof.value.0, root);
  }

  /** Only a Byzantine READY spoils a proof: with honest signers it is accepted, and always when f = 0. */
  lemma HonestProofAccepted(c: Config, F: Faults, es: seq<Event>, s: System, p: nat)
    requires Valid(c, F) && c.provable && Run(c, F, es) == Some(s) && p in F.honest
    requires p in s.nodes && s.nodes[p].proof.Some?
    requires c.f == 0 || forall x :: x in s.nodes[p].proof.value.1 ==> x.0 in F.honest
    ensures var (root, sigmas) := s.nodes[p].proof.value; PrbcValidate(c, c.sid, Proof(c.sid, root, sigmas))
  {
    DigestsDecide(c, F, es, s, p);
    RunSigs(c, F, es);
    if c.f == 0 {
      SameSize(F.honest, Below(F.N));
    }
    forall x | x in s.nodes[p].proof.value.1 ensures x.1.digest == c.Digest(s.nodes[p].proof.value.0) {
      assert x in s.nodes[p].readySigs;
      HonestReady(c, F, es, s, p, x);
    }
  }
}
