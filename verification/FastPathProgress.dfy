/**
 The fast path does not stall: unless the outer timer fires, an item is lost or a
 receive loop dies, the leader and N - f - 1 other nodes can take steps until they
 have passed all slots. The leader decides a slot exactly when N - f nodes have
 voted for it. When N - f nodes have left, every node gets its view change.
 */
module FastPathProgress {
  import opened FiniteSets
  import opened Options
  import opened Signatures
  import opened FastPath
  import opened FastPathSafety
  import opened FastPathBatches

  // ---------- what has been decided and sent ----------

  // The leader decides a slot with its (N - f)-th vote, and no slot beyond its own.
  ghost predicate TallyDecides(c: Config, n: Node) {
    forall k: nat ::
      && (k in n.lead.sent <==> |VotersAt(n.lead, k)| >= c.N - c.f)
      && (k in n.lead.sent ==> k <= n.chain.slot)
  }

  // What has been decided is on its way.
  ghost predicate DecidesSent(c: Config, s: System)
    requires c.leader in s.nodes
  {
    forall k: nat :: k in s.nodes[c.leader].lead.sent ==> exists d :: (c.leader, Decide(k, d)) in s.sent
  }

  // A node that waits has voted for its slot.
  ghost predicate HasVoted(s: System, p: nat)
    requires p in s.nodes
  {
    var n := s.nodes[p];
    n.phase == Waiting ==> (p, Vote(n.chain.slot, n.chain.hashPrev, Signature(p, n.chain.hashPrev))) in s.sent
  }

  /** A timer that only makes its node enter the slot again: the inner one, without loss of an item. */
  predicate Harmless(e: Event) {
    e.Timeout? ==> !e.outer && !e.lost
  }

  ghost predicate AllHarmless(es: seq<Event>) {
    forall e :: e in es ==> Harmless(e)
  }

  // Then the leader keeps its decision, and the fast path ends after the last slot only.
  ghost predicate Untimed(c: Config, p: nat, n: Node) {
    && (p == c.leader && n.chain.slot in n.lead.sent ==> n.chain.slot in n.decides)
    && (n.phase == Ended ==> n.chain.slot > c.slots + 2)
  }

  lemma TallyStep(c: Config, n: Node, e: Event)
    requires c.N > c.f && TallyDecides(c, n)
    ensures TallyDecides(c, Local(c, n, e).0)
  {
    var n' := Local(c, n, e).0;
    if e.Deliver? && e.m.Vote? && n.receiving && e.from < c.N && GoodVote(c, e.p, n, e.from, e.m.slot, e.m.prev, e.m.sig) {
      CountedTally(c, n, e.m.slot, e.from, e.m.sig, e.m.prev, e.batch);
    } else {
      assert n'.lead == n.lead && n.chain.slot <= n'.chain.slot;
    }
  }

  lemma CountedTally(c: Config, n: Node, k: nat, from: nat, sig: Signature, prev: ByteStrings.Bytes, batch: ByteStrings.Bytes)
    requires c.N > c.f && TallyDecides(c, n) && k == n.chain.slot
    requires |VotersAt(n.lead, k)| < c.N - c.f && from !in VotersAt(n.lead, k)
    ensures TallyDecides(c, AfterVote(c, n.(lead := AddVote(n.lead, k, from, sig)), k, prev, batch).0)
  {
    var n' := AfterVote(c, n.(lead := AddVote(n.lead, k, from, sig)), k, prev, batch).0;
    forall j: nat
      ensures j in n'.lead.sent <==> |VotersAt(n'.lead, j)| >= c.N - c.f
      ensures j in n'.lead.sent ==> j <= n'.chain.slot
    {
      assert VotersAt(n'.lead, j) == VotersAt(n.lead, j) + if j == k then {from} else {};
    }
  }

  // A new decision goes out with a DECIDE and into the leader's own queue.
  lemma SentStep(c: Config, n: Node, e: Event, k: nat)
    requires k in Local(c, n, e).0.lead.sent && k !in n.lead.sent
    ensures k == n.chain.slot && k in Local(c, n, e).0.decides && Local(c, n, e).0.chain == n.chain
    ensures exists d :: Decide(k, d) in Local(c, n, e).1
  {
    var out := Local(c, n, e).1;
    assert out[0].Decide? && out[0].slot == k;
    assert Decide(k, out[0].decision) in out;
  }

  lemma DecidesSentStep(c: Config, s: System, e: Event)
    requires c.leader in s.nodes && e.p in s.nodes && DecidesSent(c, s)
    ensures c.leader in Apply(c, s, e).nodes && DecidesSent(c, Apply(c, s, e))
  {
    var s', n := Apply(c, s, e), s.nodes[e.p];
    forall k: nat | k in s'.nodes[c.leader].lead.sent ensures exists d :: (c.leader, Decide(k, d)) in s'.sent {
      if k in s.nodes[c.leader].lead.sent {
        var d :| (c.leader, Decide(k, d)) in s.sent;
        assert (c.leader, Decide(k, d)) in s'.sent;
      } else {
        SentStep(c, n, e, k);
        var d :| Decide(k, d) in Local(c, n, e).1;
        assert (c.leader, Decide(k, d)) in s'.sent;
      }
    }
  }

  lemma VotedStep(c: Config, s: System, e: Event, p: nat)
    requires e.p in s.nodes && p in s.nodes && HasVoted(s, p)
    ensures HasVoted(Apply(c, s, e), p)
  {
    if e.p == p {
      WaitingStep(c, s.nodes[p], e);
      var s', n := Apply(c, s, e), s.nodes[p];
      if n.phase != Waiting && s'.nodes[p].phase == Waiting {
        assert Vote(n.chain.slot, n.chain.hashPrev, Signature(p, n.chain.hashPrev)) in Local(c, n, e).1;
      }
    }
  }

  // A node starts to wait by voting, and the slot does not change while it waits.
  lemma WaitingStep(c: Config, n: Node, e: Event)
    ensures var (n', out) := Local(c, n, e);
      n'.phase == Waiting ==>
        && n'.chain == n.chain
        && (n.phase == Waiting || Vote(n.chain.slot, n.chain.hashPrev, Signature(e.p, n.chain.hashPrev)) in out)
  {
  }

  lemma UntimedStep(c: Config, n: Node, e: Event)
    requires Untimed(c, e.p, n) && TallyDecides(c, n) && Harmless(e)
    ensures Untimed(c, e.p, Local(c, n, e).0)
  {
    var n' := Local(c, n, e).0;
    if e.p == c.leader && n'.chain.slot in n'.lead.sent && n'.chain.slot !in n.lead.sent {
      SentStep(c, n, e, n'.chain.slot);
    }
  }

  ghost predicate Progress(c: Config, s: System)
    requires c.leader in s.nodes
  {
    TallyDecides(c, s.nodes[c.leader]) && DecidesSent(c, s) && forall p :: p in s.nodes ==> HasVoted(s, p)
  }

  lemma ProgressStep(c: Config, s: System, e: Event)
    requires c.N > c.f && c.leader in s.nodes && e.p in s.nodes && Progress(c, s)
    ensures c.leader in Apply(c, s, e).nodes && Progress(c, Apply(c, s, e))
  {
    var s' := Apply(c, s, e);
    if e.p == c.leader {
      TallyStep(c, s.nodes[e.p], e);
    }
    DecidesSentStep(c, s, e);
    forall p | p in s'.nodes ensures HasVoted(s', p) {
      VotedStep(c, s, e, p);
    }
  }

  lemma {:induction false} RunProgress(c: Config, es: seq<Event>)
    requires Valid(c) && Run(c, es).Some?
    ensures c.leader in Run(c, es).value.nodes && Progress(c, Run(c, es).value)
  {
    if es == [] {
      assert c.leader in Below(c.N);
    } else {
      var init, e := es[..|es| - 1], es[|es| - 1];
      RunProgress(c, init);
      ProgressStep(c, Run(c, init).value, e);
    }
  }

  ghost predicate AllUntimed(c: Config, s: System) {
    forall p :: p in s.nodes ==> Untimed(c, p, s.nodes[p])
  }

  lemma {:induction false} RunUntimed(c: Config, es: seq<Event>)
    requires Valid(c) && Run(c, es).Some? && AllHarmless(es)
    ensures AllUntimed(c, Run(c, es).value)
  {
    if es != [] {
      var init, e := es[..|es| - 1], es[|es| - 1];
      assert e in es;
      RunUntimed(c, init);
      RunProgress(c, init);
      UntimedAll(c, Run(c, init).value, e);
    }
  }

  lemma UntimedAll(c: Config, s: System, e: Event)
    requires c.leader in s.nodes && e.p in s.nodes && Progress(c, s) && AllUntimed(c, s) && Harmless(e)
    ensures AllUntimed(c, Apply(c, s, e))
  {
    var n := s.nodes[e.p];
    if e.p == c.leader {
      UntimedStep(c, n, e);
    } else {
      EndedStep(c, n, e);
    }
  }

  lemma EndedStep(c: Config, n: Node, e: Event)
    requires Untimed(c, e.p, n) && e.p != c.leader && Harmless(e)
    ensures Untimed(c, e.p, Local(c, n, e).0)
  {
  }

  // ---------- the steps that go on ----------

  /** Event e lets its node take a step of the fast path, and its receive loop goes on. */
  ghost predicate Moves(c: Config, s: System, e: Event) {
    && Enabled(c, s, e) && !e.Timeout? && !e.Leave? && !(e.Deliver? && e.m.ViewChange?)
    && var n, n' := s.nodes[e.p], Apply(c, s, e).nodes[e.p];
       n'.receiving == n.receiving && n' != n
  }

  lemma EnterMoves(c: Config, s: System, p: nat)
    requires p in s.nodes && p < c.N && s.nodes[p].phase == Ready
    ensures Moves(c, s, Enter(p))
  {
  }

  lemma ProceedMoves(c: Config, s: System, p: nat)
    requires p in s.nodes && p < c.N && s.nodes[p].phase == Waiting && s.nodes[p].chain.slot in s.nodes[p].decides
    ensures Moves(c, s, Proceed(p))
  {
  }

  // A DECIDE for the slot of a follower is taken.
  lemma DecideMoves(c: Config, s: System, p: nat, d: Decision)
    requires p in s.nodes && p < c.N && c.leader < c.N && p != c.leader && s.nodes[p].receiving
    requires (c.leader, Decide(s.nodes[p].chain.slot, d)) in s.sent && Certified(c, d.prev, d.cert)
    requires s.nodes[p].chain.slot !in s.nodes[p].decides
    ensures Moves(c, s, Deliver(p, c.leader, Decide(s.nodes[p].chain.slot, d), []))
  {
    var n, k := s.nodes[p], s.nodes[p].chain.slot;
    assert k in OnDecide(c, p, n, k, d).decides;
  }

  // A VOTE for the slot of the leader is counted.
  lemma VoteMoves(c: Config, s: System, q: nat)
    requires c.leader in s.nodes && c.leader < c.N && q < c.N && s.nodes[c.leader].receiving
    requires var ch := s.nodes[c.leader].chain; (q, Vote(ch.slot, ch.hashPrev, Signature(q, ch.hashPrev))) in s.sent
    requires var n := s.nodes[c.leader]; q !in VotersAt(n.lead, n.chain.slot) && |VotersAt(n.lead, n.chain.slot)| < c.N - c.f
    ensures var ch := s.nodes[c.leader].chain;
      Moves(c, s, Deliver(c.leader, q, Vote(ch.slot, ch.hashPrev, Signature(q, ch.hashPrev)), []))
  {
    var n := s.nodes[c.leader];
    var k, h := n.chain.slot, n.chain.hashPrev;
    var e := Deliver(c.leader, q, Vote(k, h, Signature(q, h)), []);
    assert q in VotersAt(Local(c, n, e).0.lead, k);
  }

  // ---------- no stall ----------

  // What is used of a reachable state.
  ghost predicate Facts(c: Config, s: System) {
    && c.leader in s.nodes && c.leader < c.N && Progress(c, s) && AllUntimed(c, s) && VotesBounded(c, s)
    && var L := LogOf(c, s);
       && (forall k: nat :: k in s.nodes[c.leader].lead.sent <==> 1 <= k <= |L|)
       && (forall p :: p in s.nodes ==> Here(c, L, s.nodes[p]))
       && (forall k: nat, d :: (c.leader, Decide(k, d)) in s.sent ==> Certified(c, d.prev, d.cert))
  }

  ghost predicate Here(c: Config, L: seq<Block>, n: Node) {
    && n.phase != Broken && 1 <= n.chain.slot <= |L| + 1 && n.chain.hashPrev == HashAt(c, L, n.chain.slot)
  }

  lemma BlockCertified(c: Config, L: seq<Block>, k: nat, d: Decision)
    requires LogOk(c, L) && 1 <= k <= |L| && d == DecisionOf(L[k - 1])
    ensures Certified(c, d.prev, d.cert)
  {
    assert BlockOk(c, L, k - 1);
  }

  lemma SentCertified(c: Config, s: System, k: nat, d: Decision)
    requires Inv(c, s) && (c.leader, Decide(k, d)) in s.sent
    ensures Certified(c, d.prev, d.cert)
  {
    DecideFact(c, s, c.leader, Decide(k, d));
    LeaderFacts(c, s);
    BlockCertified(c, LogOf(c, s), k, d);
  }

  lemma NodeHere(c: Config, s: System, p: nat)
    requires Inv(c, s) && p in s.nodes
    ensures Here(c, LogOf(c, s), s.nodes[p])
  {
    assert NodeInv(c, s, LogOf(c, s), s.nodes[p]);
  }

  lemma RunFacts(c: Config, es: seq<Event>, s: System)
    requires Valid(c) && Run(c, es) == Some(s) && AllHarmless(es)
    ensures s.nodes.Keys == Below(c.N) && Facts(c, s)
  {
    RunInv(c, es);
    RunProgress(c, es);
    RunUntimed(c, es);
    RunVotesBounded(c, es);
    LeaderFacts(c, s);
    forall p | p in s.nodes ensures Here(c, LogOf(c, s), s.nodes[p]) {
      NodeHere(c, s, p);
    }
    forall k: nat, d | (c.leader, Decide(k, d)) in s.sent ensures Certified(c, d.prev, d.cert) {
      SentCertified(c, s, k, d);
    }
  }

  /** A node of Q that has neither ended nor an item to go on with. */
  predicate Stuck(s: System, q: nat)
    requires q in s.nodes
  {
    s.nodes[q].phase == Ended || (s.nodes[q].phase == Waiting && s.nodes[q].chain.slot !in s.nodes[q].decides)
  }

  // Followers that wait in a decided slot get its DECIDE.
  lemma FollowerMoves(c: Config, s: System, q: nat) returns (e: Event)
    requires Facts(c, s) && q in s.nodes && q < c.N && q != c.leader && s.nodes[q].receiving
    requires s.nodes[q].phase == Waiting && Stuck(s, q) && s.nodes[q].chain.slot <= |LogOf(c, s)|
    ensures e.p == q && Moves(c, s, e)
  {
    var k := s.nodes[q].chain.slot;
    assert k in s.nodes[c.leader].lead.sent;
    var d :| (c.leader, Decide(k, d)) in s.sent;
    DecideMoves(c, s, q, d);
    e := Deliver(q, c.leader, Decide(k, d), []);
  }

  // The votes of nodes that all wait in the leader's slot make it decide.
  lemma LeaderMoves(c: Config, s: System, Q: set<nat>) returns (e: Event)
    requires Facts(c, s) && Q <= Below(c.N) && |Q| >= c.N - c.f && s.nodes[c.leader].receiving
    requires s.nodes[c.leader].chain.slot !in s.nodes[c.leader].lead.sent
    requires forall q :: q in Q ==> q in s.nodes && s.nodes[q].phase == Waiting && s.nodes[q].chain.slot == s.nodes[c.leader].chain.slot
    ensures e.p == c.leader && Moves(c, s, e)
  {
    var n := s.nodes[c.leader];
    var voters := VotersAt(n.lead, n.chain.slot);
    if Q <= voters {
      SubsetSize(Q, voters);
    }
    var q :| q in Q && q !in voters;
    assert HasVoted(s, q) && Here(c, LogOf(c, s), s.nodes[q]) && Here(c, LogOf(c, s), n);
    VoteMoves(c, s, q);
    e := Deliver(c.leader, q, Vote(n.chain.slot, n.chain.hashPrev, Signature(q, n.chain.hashPrev)), []);
  }

  // Where the waiting nodes are, when no follower can get a DECIDE.
  lemma AllAtEnd(c: Config, s: System, q: nat)
    requires Facts(c, s) && q in s.nodes && Stuck(s, q) && Stuck(s, c.leader) && s.nodes[q].phase == Waiting
    requires q == c.leader || s.nodes[q].chain.slot == |LogOf(c, s)| + 1
    ensures s.nodes[q].chain.slot == |LogOf(c, s)| + 1 <= c.slots + 2
  {
    assert HasVoted(s, q) && Here(c, LogOf(c, s), s.nodes[q]);
    assert Untimed(c, c.leader, s.nodes[c.leader]);
  }

  lemma EndedBehind(c: Config, s: System, q: nat)
    requires Facts(c, s) && q in s.nodes && s.nodes[q].phase == Ended
    ensures |LogOf(c, s)| >= c.slots + 2
  {
    assert Untimed(c, q, s.nodes[q]) && Here(c, LogOf(c, s), s.nodes[q]);
  }

  lemma StuckMoves(c: Config, s: System, Q: set<nat>, p: nat) returns (e: Event)
    requires Facts(c, s) && Q <= Below(c.N) && |Q| >= c.N - c.f && c.leader in Q
    requires forall q :: q in Q ==> q in s.nodes && s.nodes[q].receiving && Stuck(s, q)
    requires p in Q && s.nodes[p].phase != Ended
    ensures e.p in Q && Moves(c, s, e)
  {
    if q :| q in Q && q != c.leader && s.nodes[q].phase == Waiting && s.nodes[q].chain.slot <= |LogOf(c, s)| {
      e := FollowerMoves(c, s, q);
    } else {
      var k := |LogOf(c, s)| + 1;
      forall q | q in Q && s.nodes[q].phase == Waiting ensures s.nodes[q].chain.slot == k <= c.slots + 2 {
        assert Here(c, LogOf(c, s), s.nodes[q]);
        AllAtEnd(c, s, q);
      }
      assert s.nodes[p].phase == Waiting;
      forall q | q in Q ensures s.nodes[q].phase == Waiting && s.nodes[q].chain.slot == k {
        if s.nodes[q].phase == Ended {
          EndedBehind(c, s, q);
        }
      }
      e := LeaderMoves(c, s, Q);
    }
  }

  /**
   No stall: in every run where timers have only made nodes enter a slot again, if
   N - f nodes with the leader among them still receive, and not all of them have passed all slots, then one of them
   can take a step of the fast path that leaves its receive loop alive.
   */
  lemma NoStall(c: Config, es: seq<Event>, s: System, Q: set<nat>, p: nat) returns (e: Event)
    requires Valid(c) && Run(c, es) == Some(s) && AllHarmless(es) && s.nodes.Keys == Below(c.N)
    requires Q <= Below(c.N) && |Q| >= c.N - c.f && c.leader in Q
    requires forall q :: q in Q ==> s.nodes[q].receiving
    requires p in Q && s.nodes[p].phase != Ended
    ensures e.p in Q && Moves(c, s, e)
  {
    RunFacts(c, es, s);
    if q :| q in Q && !Stuck(s, q) {
      assert Here(c, LogOf(c, s), s.nodes[q]);
      if s.nodes[q].phase == Ready {
        EnterMoves(c, s, q);
        e := Enter(q);
      } else {
        ProceedMoves(c, s, q);
        e := Proceed(q);
      }
    } else {
      e := StuckMoves(c, s, Q, p);
    }
  }

  /** In every run the leader has sent the DECIDE of a slot exactly when N - f nodes have voted for it there, and one block for each. */
  lemma DecidedExactly(c: Config, es: seq<Event>, s: System, k: nat)
    requires Valid(c) && Run(c, es) == Some(s)
    ensures c.leader in s.nodes
    ensures (exists d :: (c.leader, Decide(k, d)) in s.sent) <==> |VotersAt(s.nodes[c.leader].lead, k)| >= c.N - c.f
    ensures 1 <= k <= |LogOf(c, s)| <==> |VotersAt(s.nodes[c.leader].lead, k)| >= c.N - c.f
  {
    RunInv(c, es);
    RunProgress(c, es);
    LeaderFacts(c, s);
    if d :| (c.leader, Decide(k, d)) in s.sent {
      SentFact(c, s, c.leader, Decide(k, d));
    }
  }

  /**
   What ends a receive loop: a bad sender, a second valid DECIDE for the slot before
   the first is taken out of its queue, and the outer timer.
   */
  lemma LoopEndsExactly(c: Config, n: Node, e: Event)
    requires n.receiving
    ensures !Local(c, n, e).0.receiving <==>
      || (e.Deliver? && !e.m.ViewChange? && e.from >= c.N)
      || (e.Deliver? && e.m.Decide? && e.p != c.leader && e.m.slot == n.chain.slot && n.chain.slot in n.decides
          && Certified(c, e.m.decision.prev, e.m.decision.cert))
      || (e.Timeout? && e.outer && n.phase == Waiting)
  {
    match e
    case Deliver(p, from, m, batch) => ReceiveEnds(c, p, n, from, m, batch);
    case Enter(_) =>
    case Proceed(_) =>
    case Timeout(_, _, _) =>
    case Leave(_) =>
  }

  lemma ReceiveEnds(c: Config, p: nat, n: Node, from: nat, m: Message, batch: ByteStrings.Bytes)
    requires n.receiving
    ensures !Receive(c, p, n, from, m, batch).0.receiving <==>
      || (!m.ViewChange? && from >= c.N)
      || (m.Decide? && p != c.leader && m.slot == n.chain.slot && n.chain.slot in n.decides
          && Certified(c, m.decision.prev, m.decision.cert))
  {
    if m.Vote? && from < c.N {
      VoteGoesOn(c, p, n, from, m.slot, m.prev, m.sig, batch);
    }
  }

  lemma VoteGoesOn(c: Config, p: nat, n: Node, from: nat, k: nat, h: ByteStrings.Bytes, sig: Signature, batch: ByteStrings.Bytes)
    ensures OnVote(c, p, n, from, k, h, sig, batch).0.receiving == n.receiving
  {
  }

  /** A follower takes a DECIDE exactly when it is the first for its slot and carries N - f valid signatures on the hash it names. */
  lemma TakesDecide(c: Config, p: nat, n: Node, k: nat, d: Decision)
    requires p != c.leader
    ensures
      var fits := k == n.chain.slot && k !in n.decides && |d.cert| >= c.N - c.f
        && forall i :: 0 <= i < |d.cert| ==> d.cert[i].1 == Signature(d.cert[i].0, d.prev);
      && (fits ==> OnDecide(c, p, n, k, d) == n.(decides := n.decides[k := d]))
      && (!fits ==> OnDecide(c, p, n, k, d).decides == n.decides && OnDecide(c, p, n, k, d).chain == n.chain)
  {
  }

  /** The fast path ends when all slots are passed and when the outer timer fires in a slot; the inner one makes it enter the slot again. */
  lemma EndsExactly(c: Config, n: Node, e: Event)
    requires n.phase != Ended
    ensures Local(c, n, e).0.phase == Ended <==>
      (e.Enter? && n.phase == Ready && n.chain.slot > c.slots + 2) || (e.Timeout? && e.outer && n.phase == Waiting)
    ensures e.Timeout? && !e.outer && n.phase == Waiting ==>
      var n' := Local(c, n, e).0; n'.phase == Ready && n'.chain == n.chain && n'.receiving == n.receiving
    ensures e.Timeout? && n.phase == Waiting ==>
      Local(c, n, e).0.decides == if e.lost then n.decides - {n.chain.slot} else n.decides
  {
    if e.Deliver? {
      ReceivePhase(c, e.p, n, e.from, e.m, e.batch);
    }
  }

  lemma ReceivePhase(c: Config, p: nat, n: Node, from: nat, m: Message, batch: ByteStrings.Bytes)
    ensures Receive(c, p, n, from, m, batch).0.phase == n.phase
  {
    if m.Vote? {
      VotePhase(c, p, n, from, m.slot, m.prev, m.sig, batch);
    }
  }

  lemma VotePhase(c: Config, p: nat, n: Node, from: nat, k: nat, h: ByteStrings.Bytes, sig: Signature, batch: ByteStrings.Bytes)
    ensures OnVote(c, p, n, from, k, h, sig, batch).0.phase == n.phase
  {
  }

  // ---------- the view change completes ----------

  /** A VIEW_CHANGE is counted exactly when it carries nothing, or N - f valid signatures on the hash of its header. */
  lemma CountsExactly(c: Config, vc: ViewChanges, from: nat, tip: Option<(Header, Certificate)>)
    requires vc.input.None?
    ensures
      var vc', good := OnViewChange(c, vc, from, tip), tip.None? || (|tip.value.1| >= c.N - c.f
        && forall i :: 0 <= i < |tip.value.1| ==> tip.value.1[i].1 == Signature(tip.value.1[i].0, c.hashHeader(tip.value.0)));
      && vc'.counter == vc.counter + (if good then 1 else 0)
      && (vc'.input.Some? <==> good && vc.counter + 1 >= c.N - c.f)
      && (vc'.maxSlot != vc.maxSlot ==> good && tip.Some? && vc'.maxSlot == tip.value.0.slot > vc.maxSlot)
  {
  }

  // A node that has left has sent its VIEW_CHANGE.
  ghost predicate LeftSent(s: System, p: nat)
    requires p in s.nodes
  {
    s.nodes[p].sentAt.Some? ==> exists tip :: (p, ViewChange(tip)) in s.sent
  }

  lemma LeavingSends(c: Config, n: Node, e: Event)
    requires n.sentAt.None? && Local(c, n, e).0.sentAt.Some?
    ensures exists tip :: ViewChange(tip) in Local(c, n, e).1
  {
    var out := Local(c, n, e).1;
    assert out[0].ViewChange?;
    assert ViewChange(out[0].tip) in out;
  }

  lemma LeftStep(c: Config, s: System, e: Event, p: nat)
    requires e.p in s.nodes && p in s.nodes && LeftSent(s, p)
    ensures LeftSent(Apply(c, s, e), p)
  {
    var s', n := Apply(c, s, e), s.nodes[p];
    if n.sentAt.Some? {
      var tip :| (p, ViewChange(tip)) in s.sent;
      assert (p, ViewChange(tip)) in s'.sent;
    } else if s'.nodes[p].sentAt.Some? {
      LeavingSends(c, n, e);
      var tip :| ViewChange(tip) in Local(c, n, e).1;
      assert (p, ViewChange(tip)) in s'.sent;
    }
  }

  lemma {:induction false} RunLeft(c: Config, es: seq<Event>, p: nat)
    requires Run(c, es).Some? && p < c.N
    ensures p in Run(c, es).value.nodes && LeftSent(Run(c, es).value, p)
  {
    if es != [] {
      var init, e := es[..|es| - 1], es[|es| - 1];
      RunLeft(c, init, p);
      LeftStep(c, Run(c, init).value, e, p);
    }
  }

  /** Node p sends its VIEW_CHANGE, now if not before, when its main thread goes on. */
  ghost predicate GetsOut(c: Config, s: System, p: nat)
    requires p in s.nodes
  {
    exists tip :: (p, ViewChange(tip)) in Apply(c, s, Leave(p)).sent
  }

  /**
   A node sends its VIEW_CHANGE as soon as its fast path has ended or it has
   collected N - f of them; and a node that has handled those of N - f nodes has
   its input of the two-value agreement.
   */
  lemma ViewChangeCompletes(c: Config, es: seq<Event>, s: System, p: nat)
    requires Valid(c) && Run(c, es) == Some(s) && p < c.N && p in s.nodes
    ensures GetsOut(c, s, p) <==> s.nodes[p].sentAt.Some? || s.nodes[p].phase == Ended || s.nodes[p].vc.input.Some?
    ensures s.nodes[p].vc.input.Some? <==> |s.nodes[p].vc.from| >= c.N - c.f
  {
    RunLeft(c, es, p);
    LeftStep(c, s, Leave(p), p);
    RunInv(c, es);
    CountFacts(c, s, p);
    NotBefore(c, es, s, p);
  }

  lemma CountFacts(c: Config, s: System, p: nat)
    requires Inv(c, s) && p in s.nodes
    ensures CountOk(c, s, s.nodes[p].vc)
  {
    assert NodeInv(c, s, LogOf(c, s), s.nodes[p]);
  }

  // Nothing is sent before the node has left.
  lemma NotBefore(c: Config, es: seq<Event>, s: System, p: nat)
    requires Valid(c) && Run(c, es) == Some(s) && p in s.nodes
    ensures GetsOut(c, s, p) ==> s.nodes[p].sentAt.Some? || s.nodes[p].phase == Ended || s.nodes[p].vc.input.Some?
  {
    if s.nodes[p].sentAt.None? && GetsOut(c, s, p) {
      var tip :| (p, ViewChange(tip)) in Apply(c, s, Leave(p)).sent;
      if (p, ViewChange(tip)) in s.sent {
        RunInv(c, es);
        SentFact(c, s, p, ViewChange(tip));
      }
    }
  }
}
