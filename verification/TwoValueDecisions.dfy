/**
 What the coins and the FINISH messages do to two-value agreement: the estimate
 and the decision that end a round, which steps decide, and that FINISH messages
 of f + 1 honest nodes let everyone decide and stop.
 */
module TwoValueDecisions {
  import opened FiniteSets
  import opened Quorums
  import opened Options
  import opened PowersOfTwo
  import opened TwoValueAgreement
  import opened TwoValueSafety

  // ---------- the end of a round ----------

  // A node that has left a round with one value of the coin's parity has decided.
  ghost predicate MetDecides(c: Config, n: Node) {
    forall r: nat :: r + 1 < |n.log.ests| && r < |n.log.vals| && |n.log.vals[r]| == 1 && n.log.ests[r + 1] % 2 == CoinAt(c, r) ==>
      n.fin.sent
  }

  lemma MetStep(c: Config, n: Node, e: Event)
    requires MetDecides(c, n) && Shape(n.inbox, n.loop, n.log)
    ensures MetDecides(c, Local(c, n, e).0)
  {
    if e.Wake? && n.loop.phase == WaitCoin {
      if |n.loop.values| == 1 || Consecutive(n.loop.values) {
        MetCoin(c, e.p, n);
      }
    } else {
      KeepsRounds(c, n, e);
    }
  }

  lemma MetCoin(c: Config, p: nat, n: Node)
    requires MetDecides(c, n) && Shape(n.inbox, n.loop, n.log) && n.loop.phase == WaitCoin
    requires |n.loop.values| == 1 || Consecutive(n.loop.values)
    ensures MetDecides(c, AfterCoin(c, p, n).0)
  {
    var n', est := AfterCoin(c, p, n).0, NewEst(n.loop.values, CoinAt(c, n.loop.r));
    assert n'.log.ests == n.log.ests + [est] && n'.log.vals == n.log.vals;
    assert n.fin.sent ==> n'.fin.sent;
  }

  // Other steps start no later round.
  lemma KeepsRounds(c: Config, n: Node, e: Event)
    requires !(e.Wake? && n.loop.phase == WaitCoin) && Shape(n.inbox, n.loop, n.log)
    ensures var n' := Local(c, n, e).0;
      && (n.fin.sent ==> n'.fin.sent) && n.log.vals <= n'.log.vals
      && (n'.log.ests == n.log.ests || |n'.log.ests| == 1)
      && (n'.log.vals == n.log.vals || |n.log.ests| <= |n.log.vals| + 1)
  {
  }

  lemma NodeShape(c: Config, F: Faults, s: System, p: nat)
    requires Inv(c, F, s) && p in F.honest
    ensures Shape(s.nodes[p].inbox, s.nodes[p].loop, s.nodes[p].log)
  {
    assert NodeInv(c, F, s.sent, s.nodes[p]);
  }

  lemma {:induction false} RunMet(c: Config, F: Faults, k: nat, es: seq<Event>, p: nat)
    requires Valid(c, F) && Run(c, F, k, es).Some? && p in F.honest
    ensures p in Run(c, F, k, es).value.nodes && MetDecides(c, Run(c, F, k, es).value.nodes[p])
  {
    if es != [] {
      var init, e := es[..|es| - 1], es[|es| - 1];
      RunMet(c, F, k, init, p);
      RunInv(c, F, k, init);
      if e.p == p {
        NodeShape(c, F, Run(c, F, k, init).value, p);
        MetStep(c, Run(c, F, k, init).value.nodes[p], e);
      }
    }
  }

  // The estimate after values w and coin bit b.
  ghost predicate Follows(w: set<int>, b: int, est: int) {
    est in w && (|w| == 1 || (est % 2 == b && Consecutive(w)))
  }

  lemma RoundOver(c: Config, F: Faults, k: nat, es: seq<Event>, s: System, p: nat, r: nat)
    requires Valid(c, F) && Run(c, F, k, es) == Some(s) && p in F.honest && p in s.nodes && r + 1 < |s.nodes[p].log.ests|
    ensures r < |s.nodes[p].log.vals| && Follows(s.nodes[p].log.vals[r], CoinAt(c, r), s.nodes[p].log.ests[r + 1])
    ensures |s.nodes[p].log.vals[r]| == 1 && s.nodes[p].log.ests[r + 1] % 2 == CoinAt(c, r) ==> s.nodes[p].log.decisions != []
  {
    RoundFacts(c, F, k, es, s, p, r);
    RunMet(c, F, k, es, p);
    RunDecided(c, F, k, es, p);
    if Consecutive(s.nodes[p].log.vals[r]) {
      Two(s.nodes[p].log.vals[r]);
    }
  }

  lemma RoundFacts(c: Config, F: Faults, k: nat, es: seq<Event>, s: System, p: nat, r: nat)
    requires Valid(c, F) && Run(c, F, k, es) == Some(s) && p in F.honest && p in s.nodes && r + 1 < |s.nodes[p].log.ests|
    ensures NextEst(c, s.nodes[p].log, r)
  {
    RunHistories(c, F, k, es, s);
  }

  lemma Two(w: set<int>)
    requires Consecutive(w)
    ensures |w| == 2
  {
    var x :| x in w && w == {x, x + 1};
    assert w == {x} + {x + 1};
  }

  /**
   Rounds 0 to 9 take bit r of the hash of sid as their coin: a node that starts
   the next round has the one value of the round as its estimate, or the one of two
   with the parity of that bit; and it has decided if the one value has that parity.
   */
  lemma CheapRound(c: Config, F: Faults, k: nat, es: seq<Event>, s: System, p: nat, r: nat)
    requires Valid(c, F) && Run(c, F, k, es) == Some(s) && p in F.honest && p in s.nodes && r + 1 < |s.nodes[p].log.ests|
    requires r < 10
    ensures r < |s.nodes[p].log.vals|
    ensures var w, est, b := s.nodes[p].log.vals[r], s.nodes[p].log.ests[r + 1], (c.cheapCoins / Pow2(r)) % 2;
      est in w && (|w| == 1 || est % 2 == b) && (|w| == 1 && est % 2 == b ==> s.nodes[p].log.decisions != [])
  {
    RoundOver(c, F, k, es, s, p, r);
  }

  /** From round 10 on the same with the low bit of the common coin. */
  lemma CoinRound(c: Config, F: Faults, k: nat, es: seq<Event>, s: System, p: nat, r: nat)
    requires Valid(c, F) && Run(c, F, k, es) == Some(s) && p in F.honest && p in s.nodes && r + 1 < |s.nodes[p].log.ests|
    requires r >= 10
    ensures r < |s.nodes[p].log.vals|
    ensures var w, est, b := s.nodes[p].log.vals[r], s.nodes[p].log.ests[r + 1], c.coin(r) % 2;
      est in w && (|w| == 1 || est % 2 == b) && (|w| == 1 && est % 2 == b ==> s.nodes[p].log.decisions != [])
  {
    RoundOver(c, F, k, es, s, p, r);
  }

  // ---------- the step that decides ----------

  /** Event e lets p leave round r with the one value v, which has the parity of the coin. */
  ghost predicate MeetsCoin(c: Config, s: System, p: nat, e: Event, v: int) {
    && p in s.nodes && e.Wake? && e.p == p && s.nodes[p].loop.phase == WaitCoin && s.nodes[p].loop.values == {v}
    && var r := s.nodes[p].loop.r; v % 2 == if r < 10 then (c.cheapCoins / Pow2(r)) % 2 else c.coin(r) % 2
  }

  /** Event e is a FINISH v that makes f + 1 at p, all for v. */
  ghost predicate HearsFinish(c: Config, s: System, p: nat, e: Event, v: int) {
    && p in s.nodes && e.Deliver? && e.p == p && e.m == Finish(v) && s.nodes[p].receiving && e.from < c.N
    && s.nodes[p].fin.value <= {v} && s.nodes[p].fin.cnt + 1 >= c.f + 1
  }

  /**
   In every run a step decides exactly when its node has not decided yet and the
   step leaves a round whose one value has the parity of the coin, or counts the
   (f + 1)-st FINISH; and it decides that value.
   */
  lemma DecidesExactly(c: Config, F: Faults, k: nat, s: System, e: Event, p: nat)
    requires p in F.honest && p in s.nodes && Enabled(c, F, k, s, e)
    ensures var n, n' := s.nodes[p], Apply(c, s, e).nodes[p];
      && (n'.log.decisions == n.log.decisions || exists v :: n'.log.decisions == n.log.decisions + [v])
      && forall v :: n'.log.decisions == n.log.decisions + [v] <==>
           !n.fin.sent && (MeetsCoin(c, s, p, e, v) || HearsFinish(c, s, p, e, v))
  {
    if e.p == p {
      var n := s.nodes[p];
      if e.Wake? && n.loop.phase == WaitCoin {
        CoinDecides(c, p, n);
      } else if e.Deliver? && e.m.Finish? && n.receiving && e.from < c.N {
        FinishDecides(c, n, e.from, e.m.v);
      } else {
        NothingNew(c, n, e);
      }
    }
  }

  lemma NothingNew(c: Config, n: Node, e: Event)
    requires !(e.Wake? && n.loop.phase == WaitCoin) && !(e.Deliver? && e.m.Finish? && n.receiving && e.from < c.N)
    ensures Local(c, n, e).0.log.decisions == n.log.decisions
  {
  }

  lemma CoinDecides(c: Config, p: nat, n: Node)
    ensures var n' := AfterCoin(c, p, n).0;
      && (n'.log.decisions == n.log.decisions || exists v :: n'.log.decisions == n.log.decisions + [v])
      && forall v :: n'.log.decisions == n.log.decisions + [v] <==> !n.fin.sent && n.loop.values == {v} && v % 2 == CoinAt(c, n.loop.r)
  {
    var n' := AfterCoin(c, p, n).0;
    if |n.loop.values| == 1 {
      var est := NewEst(n.loop.values, CoinAt(c, n.loop.r));
      OneElement(n.loop.values, est);
      assert n'.log.decisions == n.log.decisions || n'.log.decisions == n.log.decisions + [est];
      forall v | n'.log.decisions == n.log.decisions + [v] ensures v == est {
        assert (n.log.decisions + [v])[|n.log.decisions|] == v;
      }
    }
  }

  lemma FinishDecides(c: Config, n: Node, from: nat, u: int)
    ensures var n' := OnFinish(c, n, from, u).0;
      && (n'.log.decisions == n.log.decisions || exists v :: n'.log.decisions == n.log.decisions + [v])
      && forall v :: n'.log.decisions == n.log.decisions + [v] <==>
           !n.fin.sent && v == u && n.fin.value <= {u} && n.fin.cnt + 1 >= c.f + 1
  {
    var n' := OnFinish(c, n, from, u).0;
    assert n.fin.value + {u} == {u} <==> n.fin.value <= {u};
    assert n'.log.decisions == n.log.decisions || n'.log.decisions == n.log.decisions + [u];
    forall v | n'.log.decisions == n.log.decisions + [v] ensures v == u {
      assert (n.log.decisions + [v])[|n.log.decisions|] == v;
    }
  }

  // ---------- FINISH messages spread, and let nodes stop ----------

  // How FINISH messages are counted and followed.
  ghost predicate Counts(c: Config, n: Node) {
    && n.fin.cnt == |n.fin.from| + (if n.fin.sent then 1 else 0)
    && (n.receiving ==> n.fin.sent || n.fin.cnt < c.f + 1)
    && (n.loop.phase == Done ==> n.fin.cnt >= 2 * c.f + 1)
  }

  lemma CountsStep(c: Config, n: Node, e: Event)
    requires Counts(c, n)
    ensures Counts(c, Local(c, n, e).0)
  {
    if e.Deliver? && e.m.Finish? && n.receiving && e.from < c.N {
      CountsFinish(c, n, e.from, e.m.v);
    } else if e.Wake? && n.loop.phase == WaitCoin {
      CountsCoin(c, e.p, n);
    } else {
      CountsSame(c, n, e);
    }
  }

  lemma CountsFinish(c: Config, n: Node, from: nat, v: int)
    requires Counts(c, n)
    ensures Counts(c, OnFinish(c, n, from, v).0)
  {
  }

  lemma CountsCoin(c: Config, p: nat, n: Node)
    requires Counts(c, n) && n.loop.phase == WaitCoin
    ensures Counts(c, AfterCoin(c, p, n).0)
  {
  }

  lemma CountsSame(c: Config, n: Node, e: Event)
    requires Counts(c, n) && !(e.Wake? && n.loop.phase == WaitCoin)
    requires !(e.Deliver? && e.m.Finish? && n.receiving && e.from < c.N)
    ensures Counts(c, Local(c, n, e).0)
  {
  }

  // A node that has decided has sent its FINISH.
  ghost predicate FinishSent(s: System, p: nat)
    requires p in s.nodes
  {
    s.nodes[p].fin.sent ==> exists v :: (p, Finish(v)) in s.sent
  }

  lemma FinishOut(c: Config, n: Node, e: Event)
    requires !n.fin.sent && Local(c, n, e).0.fin.sent
    ensures exists v :: Finish(v) in Local(c, n, e).1
  {
    var out := Local(c, n, e).1;
    assert out[0].Finish?;
    assert Finish(out[0].v) in out;
  }

  lemma FinishSentStep(c: Config, s: System, e: Event, p: nat)
    requires e.p in s.nodes && p in s.nodes && FinishSent(s, p)
    ensures FinishSent(Apply(c, s, e), p)
  {
    var s', n := Apply(c, s, e), s.nodes[p];
    if n.fin.sent {
      var v :| (p, Finish(v)) in s.sent;
      assert (p, Finish(v)) in s'.sent;
    } else if s'.nodes[p].fin.sent {
      FinishOut(c, n, e);
      var v :| Finish(v) in Local(c, n, e).1;
      assert (p, Finish(v)) in s'.sent;
    }
  }

  lemma {:induction false} RunCounts(c: Config, F: Faults, k: nat, es: seq<Event>, p: nat)
    requires Run(c, F, k, es).Some? && p in F.honest
    ensures var s := Run(c, F, k, es).value; p in s.nodes && Counts(c, s.nodes[p]) && FinishSent(s, p)
  {
    if es != [] {
      var init, e := es[..|es| - 1], es[|es| - 1];
      var s := Run(c, F, k, init).value;
      RunCounts(c, F, k, init, p);
      FinishSentStep(c, s, e, p);
      if e.p == p {
        CountsStep(c, s.nodes[p], e);
      }
    }
  }

  /** The honest nodes that have decided. */
  function Finishers(F: Faults, s: System): set<nat> {
    set p | p in F.honest && p in s.nodes && s.nodes[p].fin.sent
  }

  /** Node p runs, and has counted a FINISH of every other honest node that has sent one. */
  ghost predicate HearsFinishers(F: Faults, s: System, p: nat)
    requires p in s.nodes
  {
    s.nodes[p].receiving && forall q :: q in F.honest && q != p && (exists v :: (q, Finish(v)) in s.sent) ==> q in s.nodes[p].fin.from
  }

  lemma CountBound(from: seq<nat>, A: set<nat>)
    requires A <= Members(from)
    ensures |A| <= |from|
  {
    MembersFewer(from);
    SubsetSize(A, Members(from));
  }

  lemma {:induction false} MembersFewer(from: seq<nat>)
    ensures |Members(from)| <= |from|
  {
    if from != [] {
      MembersFewer(from[..|from| - 1]);
      assert Members(from) == Members(from[..|from| - 1]) + {from[|from| - 1]};
    }
  }

  // A node that hears all finishers counts them, and itself if it is one.
  lemma HeardCount(c: Config, F: Faults, k: nat, es: seq<Event>, s: System, p: nat)
    requires Run(c, F, k, es) == Some(s) && p in F.honest && p in s.nodes && HearsFinishers(F, s, p)
    ensures s.nodes[p].fin.cnt >= |Finishers(F, s)|
    ensures s.nodes[p].fin.sent || s.nodes[p].fin.cnt < c.f + 1
  {
    var others := Finishers(F, s) - {p};
    RunCounts(c, F, k, es, p);
    forall q | q in others ensures q in Members(s.nodes[p].fin.from) {
      RunCounts(c, F, k, es, q);
    }
    CountBound(s.nodes[p].fin.from, others);
    if p in Finishers(F, s) {
      assert |others| == |Finishers(F, s)| - 1;
    } else {
      assert others == Finishers(F, s);
    }
  }

  /**
   Once f + 1 honest nodes have decided and every honest node has counted the
   FINISHes sent to it, all honest nodes have decided and can stop; and no node has
   stopped with fewer than 2f + 1.
   */
  lemma FinishSpreads(c: Config, F: Faults, k: nat, es: seq<Event>, s: System, p: nat)
    requires Valid(c, F) && Run(c, F, k, es) == Some(s) && s.nodes.Keys == F.honest
    requires |Finishers(F, s)| >= c.f + 1 && forall q :: q in F.honest ==> HearsFinishers(F, s, q)
    requires p in F.honest
    ensures s.nodes[p].log.decisions != [] && s.nodes[p].fin.cnt >= 2 * c.f + 1
    ensures Halt(c, s.nodes[p]).loop.phase == Done
  {
    forall q | q in F.honest ensures q in Finishers(F, s) {
      HeardCount(c, F, k, es, s, q);
    }
    SubsetSize(F.honest, Finishers(F, s));
    HeardCount(c, F, k, es, s, p);
    RunInv(c, F, k, es);
    assert NodeInv(c, F, s.sent, s.nodes[p]);
  }

  /** A node stops only after 2f + 1 FINISHes, its own among them, and always may after those. */
  lemma StopsExactly(c: Config, F: Faults, k: nat, es: seq<Event>, s: System, p: nat)
    requires Run(c, F, k, es) == Some(s) && p in F.honest && p in s.nodes
    ensures s.nodes[p].loop.phase == Done ==> s.nodes[p].fin.cnt >= 2 * c.f + 1
    ensures Halt(c, s.nodes[p]).loop.phase == Done <==> s.nodes[p].fin.cnt >= 2 * c.f + 1
    ensures s.nodes[p].fin.cnt == |s.nodes[p].fin.from| + (if s.nodes[p].log.decisions != [] then 1 else 0)
  {
    RunCounts(c, F, k, es, p);
    RunDecided(c, F, k, es, p);
  }

  // A FINISH goes with every decision.
  lemma {:induction false} RunDecided(c: Config, F: Faults, k: nat, es: seq<Event>, p: nat)
    requires Run(c, F, k, es).Some? && p in F.honest
    ensures p in Run(c, F, k, es).value.nodes
    ensures var n := Run(c, F, k, es).value.nodes[p]; n.fin.sent <==> n.log.decisions != []
  {
    if es != [] {
      var init, e := es[..|es| - 1], es[|es| - 1];
      RunDecided(c, F, k, init, p);
      if e.p == p {
        DecidedWithFinish(c, Run(c, F, k, init).value.nodes[p], e);
      }
    }
  }

  lemma DecidedWithFinish(c: Config, n: Node, e: Event)
    requires n.fin.sent <==> n.log.decisions != []
    ensures var n' := Local(c, n, e).0; n'.fin.sent <==> n'.log.decisions != []
  {
  }
}
