/**
 Validated agreement over consistent broadcasts, a permutation coin and biased
 binary agreements, used through their proved contracts: every honest node
 decides the same leader and the same message, one with an N - f certificate.
 */
module ValidatedAgreementSafety {
  import opened FiniteSets
  import opened Quorums
  import opened Options
  import opened ByteStrings
  import opened ValidatedAgreement
  import BA = BinaryAgreement
  import BAS = BinaryAgreementSafety
  import CBS = ConsistentBroadcastSafety
  import CC = CommonCoin

  // ---------- one node ----------

  // A certified value for leader j comes from its broadcast or from a ballot.
  ghost predicate OutputFrom(c: Config, es: seq<Event>, j: nat, out: Certified) {
    || CbcEnd(j, out, true) in es
    || BallotFor(c, es, j, out)
  }

  ghost predicate BallotFor(c: Config, es: seq<Event>, j: nat, out: Certified) {
    exists e :: e in es && e.GetVote? && e.vote == Vote(j, 1, Some(out)) && Supports(c, e.vote)
  }

  ghost predicate OutputsOk(c: Config, n: Node, es: seq<Event>) {
    forall j :: j in n.cbcOutputs ==> OutputFrom(c, es, j, n.cbcOutputs[j])
  }

  // The counted ballots are for the leader of the round.
  ghost predicate VotesOk(c: Config, n: Node, es: seq<Event>) {
    n.phase == Voting ==> forall x :: x in n.votes ==> VoteOk(c, n, es, x.1)
  }

  ghost predicate VoteOk(c: Config, n: Node, es: seq<Event>, vote: Vote) {
    && n.r < |n.pi| && vote.a == n.pi[n.r]
    && (vote.bit == 1 ==> vote.out.Some? && BallotFor(c, es, vote.a, vote.out.value))
  }

  predicate InRound(phase: Phase) {
    phase == WaitAba || phase == WaitOutput || phase == Decided
  }

  // Rounds before r were lost; a is the leader of round r once its inner loop is left.
  ghost predicate RoundsOk(n: Node, es: seq<Event>) {
    && (n.phase in {WaitCbc, WaitCommit, WaitCoin} ==> n.abaInputs == [] && n.abaOutputs == [] && n.r == 0)
    && (n.phase == Voting ==> n.r < |n.pi| && |n.abaInputs| == n.r && |n.abaOutputs| == n.r)
    && (InRound(n.phase) ==> n.r < |n.pi| && n.a == n.pi[n.r] && |n.abaInputs| == n.r + 1)
    && (n.phase == WaitAba ==> |n.abaOutputs| == n.r)
    && (n.phase == WaitOutput || n.phase == Decided ==> |n.abaOutputs| == n.r + 1 && n.abaOutputs[n.r] == 1)
    && (forall i :: 0 <= i < |n.abaOutputs| ==> AbaOut(i, n.abaOutputs[i]) in es)
    && (forall i :: 0 <= i < |n.abaOutputs| && i < n.r ==> n.abaOutputs[i] != 1)
  }

  // The permutation is the one that was drawn; nothing is put into an agreement before.
  ghost predicate PiOk(n: Node, es: seq<Event>) {
    && (n.phase !in {WaitCbc, WaitCommit, WaitCoin} ==> Permutation(n.pi) in es)
    && (n.abaInputs != [] ==> Permutation(n.pi) in es && |n.abaInputs| <= |n.pi|)
  }

  // Input 1 for round i needs a ballot with a certificate for leader pi[i].
  ghost predicate InputsOk(c: Config, n: Node, es: seq<Event>) {
    forall i :: 0 <= i < |n.abaInputs| ==>
      && (n.abaInputs[i] == 0 || n.abaInputs[i] == 1)
      && (n.abaInputs[i] == 1 ==> i < |n.pi| && exists out :: BallotFor(c, es, n.pi[i], out))
  }

  ghost predicate DecidedOk(n: Node) {
    && (n.decided.Some? <==> n.phase == Decided)
    && (n.decided.Some? ==> n.a in n.cbcOutputs && n.decided == Some((n.a, n.cbcOutputs[n.a].0)))
  }

  ghost predicate LocalInv(c: Config, n: Node, es: seq<Event>) {
    && OutputsOk(c, n, es) && VotesOk(c, n, es) && RoundsOk(n, es) && PiOk(n, es) && InputsOk(c, n, es) && DecidedOk(n)
  }

  // More events keep what earlier ones justify.
  lemma LocalLater(c: Config, n: Node, es: seq<Event>, e: Event)
    requires LocalInv(c, n, es)
    ensures LocalInv(c, n, es + [e])
  {
    forall j, out | BallotFor(c, es, j, out) ensures BallotFor(c, es + [e], j, out) {
      var e0 :| e0 in es && e0.GetVote? && e0.vote == Vote(j, 1, Some(out)) && Supports(c, e0.vote);
      assert e0 in es + [e];
    }
    forall x | n.phase == Voting && x in n.votes ensures VoteOk(c, n, es + [e], x.1) {
      assert VoteOk(c, n, es, x.1);
    }
  }

  lemma PermutationStep(c: Config, n: Node, es: seq<Event>, pi: seq<nat>)
    requires LocalInv(c, n, es) && Permutation(pi) in es
    ensures LocalInv(c, OnPermutation(n, pi).0, es)
  {
  }

  lemma AbaStep(c: Config, n: Node, es: seq<Event>, r: nat, v: int)
    requires LocalInv(c, n, es) && AbaOut(r, v) in es
    ensures LocalInv(c, OnAba(n, r, v).0, es)
  {
  }

  // A counted ballot.
  lemma CountStep(c: Config, n: Node, es: seq<Event>, e: Event)
    requires LocalInv(c, n, es) && e in es && e.GetVote? && n.phase == Voting && n.pi[n.r] == e.vote.a
    requires Supports(c, e.vote) || e.vote.bit == 0
    ensures LocalInv(c, n.(a := e.vote.a, votes := n.votes + {(e.sender, e.vote)}), es)
  {
    var n' := n.(a := e.vote.a, votes := n.votes + {(e.sender, e.vote)});
    forall x | x in n'.votes ensures VoteOk(c, n', es, x.1) {
      if x in n.votes {
        assert VoteOk(c, n, es, x.1);
      }
    }
  }

  // The inner loop is left only after a ballot for the leader of the round.
  lemma LeaveStep(c: Config, n: Node, es: seq<Event>, pick: Vote)
    requires LocalInv(c, n, es) && n.phase == Voting && n.a == n.pi[n.r]
    ensures LocalInv(c, LeaveVotes(n, pick), es)
  {
    var n' := LeaveVotes(n, pick);
    var out := Chosen(n.votes, pick);
    if out.Some? {
      var x :| x in n.votes && x.1.bit == 1 && x.1.out == out;
      assert VoteOk(c, n, es, x.1);
    }
    if HasOne(n.votes) {
      var x :| x in n.votes && x.1.bit == 1;
      assert VoteOk(c, n, es, x.1);
      assert BallotFor(c, es, n.pi[n.r], x.1.out.value);
    }
  }

  // The inner loop never waits with N - f ballots.
  ghost predicate FewVotes(c: Config, n: Node) {
    n.phase == Voting ==> |n.votes| < c.N - c.f
  }

  lemma VoteStep(c: Config, n: Node, es: seq<Event>, e: Event)
    requires LocalInv(c, n, es) && FewVotes(c, n) && e in es && e.GetVote? && c.N > c.f
    ensures LocalInv(c, OnVote(c, n, e.sender, e.vote, e.pick), es)
  {
    if n.phase == Voting {
      if n.pi[n.r] == e.vote.a && (Supports(c, e.vote) || Opposes(n, e.sender, e.vote) == Some(true)) {
        CountedStep(c, n, es, e);
      } else {
        UncountedStep(c, n, es, e);
      }
    }
  }

  lemma CountedStep(c: Config, n: Node, es: seq<Event>, e: Event)
    requires LocalInv(c, n, es) && e in es && e.GetVote? && n.phase == Voting && n.pi[n.r] == e.vote.a
    requires Supports(c, e.vote) || Opposes(n, e.sender, e.vote) == Some(true)
    ensures LocalInv(c, OnVote(c, n, e.sender, e.vote, e.pick), es)
  {
    CountStep(c, n, es, e);
    var n2 := n.(a := e.vote.a, votes := n.votes + {(e.sender, e.vote)});
    if |n2.votes| >= c.N - c.f {
      LeaveStep(c, n2, es, e.pick);
    }
  }

  lemma UncountedStep(c: Config, n: Node, es: seq<Event>, e: Event)
    requires LocalInv(c, n, es) && FewVotes(c, n) && e.GetVote? && n.phase == Voting
    requires n.pi[n.r] != e.vote.a || (!Supports(c, e.vote) && Opposes(n, e.sender, e.vote) != Some(true))
    ensures LocalInv(c, OnVote(c, n, e.sender, e.vote, e.pick), es)
  {
  }

  lemma FewVotesStep(c: Config, n: Node, e: Event)
    requires FewVotes(c, n) && c.N > c.f
    ensures FewVotes(c, Step(c, n, e).0)
  {
  }

  lemma StepInv(c: Config, n: Node, es: seq<Event>, e: Event)
    requires LocalInv(c, n, es) && FewVotes(c, n) && e in es && c.N > c.f
    ensures LocalInv(c, Step(c, n, e).0, es)
  {
    match e
    case CbcEnd(j, out, accepted) =>
    case CommitEnd(j, list) =>
    case Proceed =>
    case Permutation(pi) => PermutationStep(c, n, es, pi);
    case GetVote(_, _, _) => VoteStep(c, n, es, e);
    case AbaOut(r, v) => AbaStep(c, n, es, r, v);
    case GetOutput =>
  }

  lemma {:induction false} LocalRun(c: Config, es: seq<Event>)
    requires c.N > c.f
    ensures LocalInv(c, RunOf(c, es), es) && FewVotes(c, RunOf(c, es))
  {
    if es != [] {
      var init, e := es[..|es| - 1], es[|es| - 1];
      assert es == init + [e];
      LocalRun(c, init);
      LocalLater(c, RunOf(c, init), init, e);
      assert e in es;
      StepInv(c, RunOf(c, init), es, e);
      FewVotesStep(c, RunOf(c, init), e);
    }
  }

  /**
   The overwritten variable a is pi[r] whenever the vote loop has been left, so
   the ballots that feed cbc_outputs[a] and the decided entry are the leader's.
   */
  lemma LeaderAtExit(c: Config, es: seq<Event>)
    requires c.N > c.f
    ensures var n := RunOf(c, es); InRound(n.phase) ==> n.r < |n.pi| && n.a == n.pi[n.r]
  {
    LocalRun(c, es);
  }

  // ---------- the composition ----------

  datatype Agreement = Agreement(c: BA.Config, es: seq<BAS.Event>, s: BAS.System)

  datatype Broadcast = Broadcast(es: seq<CBS.Event>, s: CBS.System)

  /** The coin's key setup and polynomial, its round, what each node's coin has handled, and the permutation of a seed. */
  datatype Coin = Coin(setup: CC.Setup, a: seq<int>, round: int, runs: map<nat, seq<CC.Event>>, permute: int -> seq<nat>)

  /** What the nodes, the agreements, the input broadcasts and the coin have done in one run. */
  datatype Validated = Validated(nodes: map<nat, seq<Event>>, agreements: nat -> Agreement, broadcasts: nat -> Broadcast, coin: Coin)

  ghost function NodeOf(c: Config, x: Validated, p: nat): Node
    requires p in x.nodes
  {
    RunOf(c, x.nodes[p])
  }

  predicate PutInto(n: Node, r: nat, v: int) {
    r < |n.abaInputs| && n.abaInputs[r] == v
  }

  // The agreement of round r takes aba_inputs[r] and gives its decisions to aba_outputs[r].
  ghost predicate AgreementJoined(c: Config, F: Faults, x: Validated, r: nat)
    requires x.nodes.Keys == F.honest
  {
    var a := x.agreements(r);
    && BAS.Valid(a.c, F) && a.c.biased && BAS.Run(a.c, F, a.es) == Some(a.s)
    && (forall e :: e in a.es && e.Input? ==> e.p in F.honest && PutInto(NodeOf(c, x, e.p), r, e.v))
    && (forall p, v :: p in F.honest && AbaOut(r, v) in x.nodes[p] ==> p in a.s.nodes && v in a.s.nodes[p].log.decisions)
  }

  // Input broadcast j gives its outputs to cbc_threads[j]; ballots hold tokens that exist.
  ghost predicate BroadcastJoined(c: Config, F: Faults, x: Validated, j: nat)
    requires x.nodes.Keys == F.honest
  {
    var b := x.broadcasts(j);
    && c.cbc(j).leader == j && CBS.Valid(c.cbc(j), F) && CBS.Run(c.cbc(j), F, b.es) == Some(b.s)
    && (forall p, e :: p in F.honest && e in x.nodes[p] && e.CbcEnd? && e.j == j ==>
          p in b.s.nodes && b.s.nodes[p].output == Some(e.out))
    && (forall p, e :: p in F.honest && e in x.nodes[p] && e.GetVote? && e.vote.a == j && e.vote.out.Some? ==>
          CBS.Unforged(F, b.s, e.vote.out.value.1))
  }

  // The permutation is drawn from the common coin.
  ghost predicate CoinJoined(F: Faults, x: Validated)
    requires x.nodes.Keys == F.honest
  {
    var k := x.coin;
    && CC.ValidSetup(k.setup, k.a) && k.setup.pk.l == F.N
    && forall p, pi :: p in F.honest && Permutation(pi) in x.nodes[p] ==> DrawnFrom(k, p, pi)
  }

  ghost predicate DrawnFrom(k: Coin, p: nat, pi: seq<nat>)
    requires CC.ValidSetup(k.setup, k.a)
  {
    && p in k.runs && (forall i :: 0 <= i < |k.runs[p]| ==> CC.Admissible(k.setup, k.a, p, k.runs[p][i]))
    && var coin := CC.Take(CC.Run(k.setup, p, k.runs[p]), k.round).1;
       coin.Some? && pi == k.permute(coin.value)
  }

  ghost predicate Composed(c: Config, F: Faults, x: Validated) {
    && Resilient(F) && F.N == c.N && F.f == c.f && x.nodes.Keys == F.honest
    && (forall r: nat :: AgreementJoined(c, F, x, r))
    && (forall j: nat :: BroadcastJoined(c, F, x, j))
    && CoinJoined(F, x)
  }

  lemma Locals(c: Config, F: Faults, x: Validated, p: nat)
    requires Composed(c, F, x) && p in F.honest
    ensures LocalInv(c, NodeOf(c, x, p), x.nodes[p])
  {
    LocalRun(c, x.nodes[p]);
  }

  /** All honest nodes draw the same permutation. */
  lemma SamePermutation(c: Config, F: Faults, x: Validated, p: nat, q: nat, pi: seq<nat>, pi': seq<nat>)
    requires Composed(c, F, x) && p in F.honest && q in F.honest
    requires Permutation(pi) in x.nodes[p] && Permutation(pi') in x.nodes[q]
    ensures pi == pi'
  {
    var k := x.coin;
    assert p in Below(F.N) && q in Below(F.N);
    assert DrawnFrom(k, p, pi) && DrawnFrom(k, q, pi');
    CC.CoinAgreement(k.setup, k.a, p, q, k.runs[p], k.runs[q], k.round);
  }

  lemma SameOutputs(c: Config, F: Faults, x: Validated, r: nat, p: nat, q: nat, u: int, v: int)
    requires Composed(c, F, x) && p in F.honest && q in F.honest
    requires AbaOut(r, u) in x.nodes[p] && AbaOut(r, v) in x.nodes[q]
    ensures u == v
  {
    assert AgreementJoined(c, F, x, r);
    var a := x.agreements(r);
    BAS.Agreement(a.c, F, a.es, a.s, p, q);
  }

  // The deciding round is the first whose agreement outputs 1, so it is common.
  lemma RoundNotAfter(c: Config, F: Faults, x: Validated, p: nat, q: nat)
    requires Composed(c, F, x) && p in F.honest && q in F.honest
    requires NodeOf(c, x, p).phase == Decided && NodeOf(c, x, q).phase == Decided
    ensures NodeOf(c, x, p).r <= NodeOf(c, x, q).r
  {
    var n, m := NodeOf(c, x, p), NodeOf(c, x, q);
    Locals(c, F, x, p);
    Locals(c, F, x, q);
    if m.r < n.r {
      assert AbaOut(m.r, m.abaOutputs[m.r]) in x.nodes[q] && AbaOut(m.r, n.abaOutputs[m.r]) in x.nodes[p];
      SameOutputs(c, F, x, m.r, p, q, n.abaOutputs[m.r], m.abaOutputs[m.r]);
      assert false;
    }
  }

  lemma SameLeader(c: Config, F: Faults, x: Validated, p: nat, q: nat)
    requires Composed(c, F, x) && p in F.honest && q in F.honest
    requires NodeOf(c, x, p).phase == Decided && NodeOf(c, x, q).phase == Decided
    ensures NodeOf(c, x, p).a == NodeOf(c, x, q).a && NodeOf(c, x, p).r == NodeOf(c, x, q).r
  {
    Locals(c, F, x, p);
    Locals(c, F, x, q);
    RoundNotAfter(c, F, x, p, q);
    RoundNotAfter(c, F, x, q, p);
    SamePermutation(c, F, x, p, q, NodeOf(c, x, p).pi, NodeOf(c, x, q).pi);
  }

  /** The value m has an accepted certificate in input broadcast j. */
  ghost predicate HasCertificate(c: Config, F: Faults, x: Validated, j: nat, m: Bytes) {
    exists sigmas :: CB.CbcValidate(c.cbc(j), m, sigmas) && CBS.Unforged(F, x.broadcasts(j).s, sigmas)
  }

  lemma SourceCertified(c: Config, F: Faults, x: Validated, p: nat, j: nat, out: Certified)
    requires Composed(c, F, x) && p in F.honest && OutputFrom(c, x.nodes[p], j, out)
    ensures HasCertificate(c, F, x, j, out.0)
  {
    assert BroadcastJoined(c, F, x, j);
    var b := x.broadcasts(j);
    if CbcEnd(j, out, true) in x.nodes[p] {
      CBS.RunInv(c.cbc(j), F, b.es);
      assert CBS.OutputOk(c.cbc(j), F, b.s, b.s.nodes[p]);
    } else {
      var e :| e in x.nodes[p] && e.GetVote? && e.vote == Vote(j, 1, Some(out)) && Supports(c, e.vote);
    }
    assert CB.CbcValidate(c.cbc(j), out.0, out.1) && CBS.Unforged(F, b.s, out.1);
  }

  /** What a node decides is the value of the leader of its round, with an N - f certificate. */
  lemma DecisionCertified(c: Config, F: Faults, x: Validated, p: nat)
    requires Composed(c, F, x) && p in F.honest && NodeOf(c, x, p).phase == Decided
    ensures var n := NodeOf(c, x, p);
      && n.decided.Some? && n.r < |n.pi| && n.decided.value.0 == n.pi[n.r]
      && HasCertificate(c, F, x, n.decided.value.0, n.decided.value.1)
  {
    var n := NodeOf(c, x, p);
    Locals(c, F, x, p);
    SourceCertified(c, F, x, p, n.a, n.cbcOutputs[n.a]);
  }

  ghost predicate Collides(c: Config) {
    exists j: nat, u, v :: Collision(c.cbc(j).digest, u, v)
  }

  lemma CertificateUnique(c: Config, F: Faults, x: Validated, j: nat, u: Bytes, v: Bytes)
    requires Composed(c, F, x) && HasCertificate(c, F, x, j, u) && HasCertificate(c, F, x, j, v)
    ensures u == v || Collides(c)
  {
    assert BroadcastJoined(c, F, x, j);
    var b := x.broadcasts(j);
    var su :| CB.CbcValidate(c.cbc(j), u, su) && CBS.Unforged(F, b.s, su);
    var sv :| CB.CbcValidate(c.cbc(j), v, sv) && CBS.Unforged(F, b.s, sv);
    CBS.CertificatesAgree(c.cbc(j), F, b.s, u, su, v, sv);
    assert Collision(c.cbc(j).digest, u, v) ==> Collides(c);
  }

  /**
   Agreement: any two honest nodes that decide, decide the same leader and the
   same message, unless the digests of its input broadcast collide.
   */
  lemma SameDecision(c: Config, F: Faults, x: Validated, p: nat, q: nat)
    requires Composed(c, F, x) && p in F.honest && q in F.honest
    requires NodeOf(c, x, p).phase == Decided && NodeOf(c, x, q).phase == Decided
    ensures NodeOf(c, x, p).decided.Some? && NodeOf(c, x, q).decided.Some?
    ensures NodeOf(c, x, p).decided.value.0 == NodeOf(c, x, q).decided.value.0
    ensures NodeOf(c, x, p).decided == NodeOf(c, x, q).decided || Collides(c)
  {
    Locals(c, F, x, p);
    Locals(c, F, x, q);
    SameLeader(c, F, x, p, q);
    DecisionCertified(c, F, x, p);
    DecisionCertified(c, F, x, q);
    var d, d' := NodeOf(c, x, p).decided.value, NodeOf(c, x, q).decided.value;
    CertificateUnique(c, F, x, d.0, d.1, d'.1);
  }

  /**
   A round is won only if some honest node put 1 into its agreement, having
   counted a ballot with a certificate for the leader of that round.
   */
  lemma WinnerCertified(c: Config, F: Faults, x: Validated, p: nat, r: nat) returns (q: nat, out: Certified)
    requires Composed(c, F, x) && p in F.honest && AbaOut(r, 1) in x.nodes[p]
    ensures q in F.honest && PutInto(NodeOf(c, x, q), r, 1)
    ensures r < |NodeOf(c, x, q).pi| && HasCertificate(c, F, x, NodeOf(c, x, q).pi[r], out.0)
  {
    assert AgreementJoined(c, F, x, r);
    var a := x.agreements(r);
    if e :| e in a.es && e.Input? && e.v == 1 {
      q := e.p;
    } else {
      forall e | e in a.es && e.Input? ensures e.v == 0 {
        Locals(c, F, x, e.p);
      }
      BAS.Validity(a.c, F, a.es, a.s, 0);
      assert false;
    }
    Locals(c, F, x, q);
    out :| BallotFor(c, x.nodes[q], NodeOf(c, x, q).pi[r], out);
    SourceCertified(c, F, x, q, NodeOf(c, x, q).pi[r], out);
  }
}