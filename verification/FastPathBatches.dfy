/**
 What the blocks of an epoch carry: the batch that the leader drew when the votes
 of the slot were complete, and dummies in the two slots at the end.
 */
module FastPathBatches {
  import opened Options
  import opened ByteStrings
  import opened FastPath
  import opened FastPathSafety

  // ---------- which slots there are ----------

  // Nobody votes beyond slot SLOTS_NUM + 2.
  ghost predicate VotesBounded(c: Config, s: System) {
    forall q, m :: (q, m) in s.sent && m.Vote? ==> m.slot <= c.slots + 2
  }

  lemma VotesOut(c: Config, n: Node, e: Event, m: Message)
    requires m in Local(c, n, e).1 && m.Vote?
    ensures e.Enter? && m.slot == n.chain.slot <= c.slots + 2
  {
  }

  lemma {:induction false} RunVotesBounded(c: Config, es: seq<Event>)
    requires Run(c, es).Some?
    ensures VotesBounded(c, Run(c, es).value)
  {
    if es != [] {
      var init, e := es[..|es| - 1], es[|es| - 1];
      RunVotesBounded(c, init);
      var s, s' := Run(c, init).value, Run(c, es).value;
      forall q, m | (q, m) in s'.sent && m.Vote? ensures m.slot <= c.slots + 2 {
        if (q, m) !in s.sent {
          VotesOut(c, s.nodes[e.p], e, m);
        }
      }
    }
  }

  // ---------- the batch of a block ----------

  /** Event t of the run is a VOTE for slot k at the leader, the last that N - f votes needed. */
  ghost predicate Completes(c: Config, es: seq<Event>, t: nat, k: nat) {
    && t < |es| && es[t].Deliver? && es[t].p == c.leader && es[t].m.Vote? && es[t].m.slot == k
    && VotesBefore(c, es, t, k) == c.N - c.f - 1 && VotesBefore(c, es, t + 1, k) == c.N - c.f
  }

  /** How many nodes have voted for slot k, as the leader counts them, after t events. */
  ghost function VotesBefore(c: Config, es: seq<Event>, t: nat, k: nat): int
    requires t <= |es|
  {
    match Run(c, es[..t])
    case None => -1
    case Some(s) => if c.leader in s.nodes then |VotersAt(s.nodes[c.leader].lead, k)| else -1
  }

  /** The batch of slot k: what get_input yielded as the votes of the slot were complete, or the dummy in the last two slots. */
  ghost predicate BatchOf(c: Config, es: seq<Event>, k: nat, batch: Bytes) {
    && 1 <= k <= c.slots + 2
    && if k <= c.slots then exists t: nat :: Completes(c, es, t, k) && es[t].batch == batch else batch == c.dummy
  }

  // A new block comes from a VOTE at the leader.
  lemma LogStep(c: Config, n: Node, e: Event)
    requires Local(c, n, e).0.lead.log != n.lead.log
    ensures e.Deliver? && e.p == c.leader && e.m.Vote? && GoodVote(c, e.p, n, e.from, e.m.slot, e.m.prev, e.m.sig)
    ensures
      var k, l' := e.m.slot, Local(c, n, e).0.lead;
      && |VotersAt(l', k)| == c.N - c.f
      && l'.log == n.lead.log + [Block(k, e.m.prev, VotesAt(l', k), if k == c.slots + 1 || k == c.slots + 2 then c.dummy else e.batch)]
      && VotersAt(l', k) == VotersAt(n.lead, k) + {e.from} && e.from !in VotersAt(n.lead, k) && k !in n.lead.sent
  {
  }

  lemma BatchLater(c: Config, es: seq<Event>, e: Event, k: nat, batch: Bytes)
    requires BatchOf(c, es, k, batch)
    ensures BatchOf(c, es + [e], k, batch)
  {
    if k <= c.slots {
      var t: nat :| Completes(c, es, t, k) && es[t].batch == batch;
      assert (es + [e])[..t] == es[..t] && (es + [e])[..t + 1] == es[..t + 1];
      assert Completes(c, es + [e], t, k);
    }
  }

  // The event that makes the votes of slot k complete.
  lemma LastVote(c: Config, es: seq<Event>, s: System, e: Event, k: nat)
    requires Run(c, es) == Some(s) && Enabled(c, s, e) && c.leader in s.nodes
    requires e.Deliver? && e.p == c.leader && e.m.Vote? && e.m.slot == k
    requires |VotersAt(s.nodes[c.leader].lead, k)| == c.N - c.f - 1
    requires |VotersAt(Local(c, s.nodes[c.leader], e).0.lead, k)| == c.N - c.f
    ensures Completes(c, es + [e], |es|, k)
  {
    var es' := es + [e];
    assert es'[..|es|] == es && es'[..|es| + 1] == es';
    assert Run(c, es') == Some(Apply(c, s, e));
  }

  // The leader decides its slots in order, and none before its votes are complete.
  lemma NewSlot(c: Config, n: Node, k: nat)
    requires LeadOk(c, n) && OnChain(c, n.lead.log, n) && k == n.chain.slot && k !in n.lead.sent
    ensures k == |n.lead.log| + 1
  {
  }

  // The block that the last event has added.
  lemma NewBatch(c: Config, es: seq<Event>, s: System, e: Event, n: Node)
    requires Run(c, es) == Some(s) && Enabled(c, s, e) && VotesBounded(c, s) && e.p == c.leader && n == s.nodes[c.leader]
    requires LeadOk(c, n) && OnChain(c, n.lead.log, n) && Local(c, n, e).0.lead.log != n.lead.log
    ensures var L, L' := n.lead.log, Local(c, n, e).0.lead.log;
      |L'| == |L| + 1 && L <= L' && BatchOf(c, es + [e], |L'|, L'[|L|].batch)
  {
    LogStep(c, n, e);
    var k := e.m.slot;
    NewSlot(c, n, k);
    assert |VotersAt(n.lead, k) + {e.from}| == |VotersAt(n.lead, k)| + 1;
    LastVote(c, es, s, e, k);
    assert (es + [e])[|es|] == e;
  }

  ghost predicate BatchesOk(c: Config, es: seq<Event>, L: seq<Block>) {
    forall i: nat :: i < |L| ==> BatchOf(c, es, i + 1, L[i].batch)
  }

  lemma MoreBatches(c: Config, es: seq<Event>, e: Event, L: seq<Block>, L': seq<Block>)
    requires BatchesOk(c, es, L) && L <= L' && |L'| <= |L| + 1
    requires L' != L ==> BatchOf(c, es + [e], |L'|, L'[|L|].batch)
    ensures BatchesOk(c, es + [e], L')
  {
    forall i: nat | i < |L'| ensures BatchOf(c, es + [e], i + 1, L'[i].batch) {
      BatchKept(c, es, e, L, L', i);
    }
  }

  lemma BatchKept(c: Config, es: seq<Event>, e: Event, L: seq<Block>, L': seq<Block>, i: nat)
    requires i < |L'| && L <= L' && |L'| <= |L| + 1
    requires if i < |L| then BatchOf(c, es, i + 1, L[i].batch) else BatchOf(c, es + [e], |L'|, L'[|L|].batch)
    ensures BatchOf(c, es + [e], i + 1, L'[i].batch)
  {
    if i < |L| {
      BatchLater(c, es, e, i + 1, L[i].batch);
    }
  }

  lemma LeaderFacts(c: Config, s: System)
    requires Inv(c, s)
    ensures c.leader in s.nodes && LeadOk(c, s.nodes[c.leader]) && OnChain(c, LogOf(c, s), s.nodes[c.leader])
    ensures LogOk(c, LogOf(c, s))
  {
    assert NodeInv(c, s, LogOf(c, s), s.nodes[c.leader]);
  }

  lemma LeaderOnly(c: Config, s: System, e: Event)
    requires c.leader in s.nodes && e.p in s.nodes && e.p != c.leader
    ensures c.leader in Apply(c, s, e).nodes && LogOf(c, Apply(c, s, e)) == LogOf(c, s)
  {
  }

  lemma {:induction false} RunBatches(c: Config, es: seq<Event>)
    requires Valid(c) && Run(c, es).Some?
    ensures c.leader in Run(c, es).value.nodes && BatchesOk(c, es, LogOf(c, Run(c, es).value))
  {
    if es == [] {
      assert c.leader in FiniteSets.Below(c.N);
    } else {
      var init, e := es[..|es| - 1], es[|es| - 1];
      assert es == init + [e];
      RunBatches(c, init);
      RunInv(c, init);
      RunVotesBounded(c, init);
      var s := Run(c, init).value;
      BatchesStep(c, init, s, e);
    }
  }

  lemma BatchesStep(c: Config, es: seq<Event>, s: System, e: Event)
    requires Run(c, es) == Some(s) && Inv(c, s) && VotesBounded(c, s) && Enabled(c, s, e)
    requires c.leader in s.nodes && BatchesOk(c, es, LogOf(c, s))
    ensures c.leader in Apply(c, s, e).nodes && BatchesOk(c, es + [e], LogOf(c, Apply(c, s, e)))
  {
    LeaderFacts(c, s);
    var L, L' := LogOf(c, s), LogOf(c, Apply(c, s, e));
    if e.p != c.leader {
      LeaderOnly(c, s, e);
    } else if L' != L {
      NewBatch(c, es, s, e, s.nodes[c.leader]);
    }
    MoreBatches(c, es, e, L, L');
  }

  // ---------- the theorems ----------

  /**
   In every run block k of the leader carries, for k <= SLOTS_NUM, the batch that
   it drew when the votes of slot k were complete, and the dummy in the two slots
   after those; there are no more slots.
   */
  lemma BlockBatches(c: Config, es: seq<Event>, s: System, i: nat)
    requires Valid(c) && Run(c, es) == Some(s) && c.leader in s.nodes && i < |LogOf(c, s)|
    ensures BatchOf(c, es, i + 1, LogOf(c, s)[i].batch)
  {
    RunBatches(c, es);
  }

  /** So do the blocks that any node holds as pending, notarized and fixed. */
  lemma HeldBatches(c: Config, es: seq<Event>, s: System, p: nat)
    requires Valid(c) && Run(c, es) == Some(s) && p < c.N && p in s.nodes
    ensures var ch := s.nodes[p].chain;
      && (ch.pending.Some? ==> BatchOf(c, es, ch.pending.value.slot, ch.pending.value.batch))
      && (ch.notarized.Some? ==> BatchOf(c, es, ch.notarized.value.slot, ch.notarized.value.batch))
      && (ch.fixed.Some? ==> BatchOf(c, es, ch.fixed.value.slot, ch.fixed.value.batch))
  {
    RunBatches(c, es);
    ChainAgreement(c, es, s, p);
    BatchesBySlot(c, es, LogOf(c, s));
    HeldBy(c, es, LogOf(c, s), s.nodes[p].chain);
  }

  // The same, by the slots that the blocks carry.
  ghost predicate SlotBatches(c: Config, es: seq<Event>, L: seq<Block>) {
    forall i: nat :: i < |L| ==> BatchOf(c, es, L[i].slot, L[i].batch)
  }

  lemma BatchesBySlot(c: Config, es: seq<Event>, L: seq<Block>)
    requires LogOk(c, L) && BatchesOk(c, es, L)
    ensures SlotBatches(c, es, L)
  {
    forall i: nat | i < |L| ensures BatchOf(c, es, L[i].slot, L[i].batch) {
      assert BlockOk(c, L, i);
      assert BatchOf(c, es, i + 1, L[i].batch);
    }
  }

  lemma HeldBy(c: Config, es: seq<Event>, L: seq<Block>, ch: Chain)
    requires SlotBatches(c, es, L) && 1 <= ch.slot <= |L| + 1 && ch == ChainAt(c, L, ch.slot)
    ensures ch.pending.Some? ==> BatchOf(c, es, ch.pending.value.slot, ch.pending.value.batch)
    ensures ch.notarized.Some? ==> BatchOf(c, es, ch.notarized.value.slot, ch.notarized.value.batch)
    ensures ch.fixed.Some? ==> BatchOf(c, es, ch.fixed.value.slot, ch.fixed.value.batch)
  {
  }
}
