/**
 What the common coin does to binary agreement: which rounds decide, what the
 next estimate is, and when a node quits, in every run of both variants.
 */
module BinaryAgreementDecisions {
  import opened Quorums
  import opened Options
  import opened BinaryAgreement
  import opened BinaryAgreementSafety

  /** Node p has left round k with the one value v. */
  ghost predicate LeftWith(s: System, p: nat, k: nat, v: int) {
    p in s.nodes && k < |s.nodes[p].log.vals| && s.nodes[p].log.vals[k] == {v}
  }

  // ---------- the end of a round ----------

  // Round k of p is over, and its coin was v.
  lemma RoundOver(c: Config, F: Faults, es: seq<Event>, s: System, p: nat, k: nat, v: int)
    requires Valid(c, F) && Run(c, F, es) == Some(s) && p in F.honest && p in s.nodes && k < s.nodes[p].loop.r
    requires CoinAt(c, k) == v
    ensures k < |s.nodes[p].log.vals| && k + 1 < |s.nodes[p].log.ests|
    ensures s.nodes[p].log.vals[k] == {v} ==> s.nodes[p].log.decisions == [v]
    ensures s.nodes[p].log.ests[k + 1] == NewEst(s.nodes[p].log.vals[k], v)
    ensures s.nodes[p].log.vals[k] == {0} || s.nodes[p].log.vals[k] == {1} || s.nodes[p].log.vals[k] == {0, 1}
  {
    RunInv(c, F, es);
    InvHistories(c, F, s);
    var n := s.nodes[p];
    assert NodeInv(c, F, s.sent, n);
    assert NextEst(c, n.log, k) && ValBacked(F, s, p, k);
    if n.log.vals[k] == {v} {
      assert DecidesIn(c, n.loop, n.log, k, v);
      var l: nat :| DecidesIn(c, n.loop, n.log, l, n.log.decisions[0]);
      if l <= k {
        SameDecision(c, F, s, p, l, n.log.decisions[0], p, k, v);
      } else {
        SameDecision(c, F, s, p, k, v, p, l, n.log.decisions[0]);
      }
    }
  }

  /**
   The plain code: a node that has left round k with the one value coin(k) has
   decided it; the next estimate is the one value, or coin(k) if there are two.
   */
  lemma PlainRound(c: Config, F: Faults, es: seq<Event>, s: System, p: nat, k: nat)
    requires Valid(c, F) && Run(c, F, es) == Some(s) && p in F.honest && p in s.nodes && k < s.nodes[p].loop.r
    requires !c.biased
    ensures k < |s.nodes[p].log.vals| && k + 1 < |s.nodes[p].log.ests|
    ensures s.nodes[p].log.vals[k] == {c.coin(k)} ==> s.nodes[p].log.decisions == [c.coin(k)]
    ensures s.nodes[p].log.vals[k] == {0, 1} ==> s.nodes[p].log.ests[k + 1] == c.coin(k)
    ensures s.nodes[p].log.vals[k] != {0, 1} ==> s.nodes[p].log.vals[k] == {s.nodes[p].log.ests[k + 1]}
  {
    RoundOver(c, F, es, s, p, k, c.coin(k));
    OneOrTwo();
  }

  lemma OneOrTwo()
    ensures {0} != {0, 1} && {1} != {0, 1} && {0} != {1}
  {
    assert 1 in {0, 1} && 0 in {0, 1} && 1 !in {0} && 0 !in {1};
  }

  /** The biased code: the same with 1 in place of the coin of round 0, and the low bit of the coin from round 1 on. */
  lemma BiasedRound(c: Config, F: Faults, es: seq<Event>, s: System, p: nat, k: nat)
    requires Valid(c, F) && Run(c, F, es) == Some(s) && p in F.honest && p in s.nodes && k < s.nodes[p].loop.r
    requires c.biased
    ensures k < |s.nodes[p].log.vals| && k + 1 < |s.nodes[p].log.ests|
    ensures k == 0 && s.nodes[p].log.vals[0] == {1} ==> s.nodes[p].log.decisions == [1]
    ensures k == 0 && s.nodes[p].log.vals[0] == {0, 1} ==> s.nodes[p].log.ests[1] == 1
    ensures k >= 1 && s.nodes[p].log.vals[k] == {c.coin(k) % 2} ==> s.nodes[p].log.decisions == [c.coin(k) % 2]
    ensures k >= 1 && s.nodes[p].log.vals[k] == {0, 1} ==> s.nodes[p].log.ests[k + 1] == c.coin(k) % 2
    ensures s.nodes[p].log.vals[k] != {0, 1} ==> s.nodes[p].log.vals[k] == {s.nodes[p].log.ests[k + 1]}
  {
    RoundOver(c, F, es, s, p, k, if k == 0 then 1 else c.coin(k) % 2);
    OneOrTwo();
  }

  // ---------- the step that decides, and the step that quits ----------

  /** Node p has left round k with one value, that of the coin. */
  ghost predicate Met(c: Config, s: System, p: nat, k: nat) {
    if !c.biased then LeftWith(s, p, k, c.coin(k))
    else if k == 0 then LeftWith(s, p, 0, 1)
    else LeftWith(s, p, k, c.coin(k) % 2)
  }

  lemma MetCoin(c: Config, s: System, p: nat, k: nat)
    ensures Met(c, s, p, k) <==> LeftWith(s, p, k, CoinAt(c, k))
  {
  }

  /** Event e makes p leave round r, the round it is in, which has met its coin. */
  ghost predicate MeetsCoin(c: Config, s: System, p: nat, e: Event) {
    p in s.nodes && e.Wake? && e.p == p && s.nodes[p].loop.phase == WaitCoin && Met(c, s, p, s.nodes[p].loop.r)
  }

  ghost predicate MetBefore(c: Config, s: System, p: nat, r: nat) {
    exists k: nat :: k < r && Met(c, s, p, k)
  }

  // A node has decided exactly when one of its finished rounds has met its coin.
  lemma DecidedIffMet(c: Config, F: Faults, s: System, p: nat)
    requires Valid(c, F) && Inv(c, F, s) && p in F.honest
    ensures s.nodes[p].loop.alreadyDecided.Some? <==> MetBefore(c, s, p, s.nodes[p].loop.r)
    ensures s.nodes[p].loop.alreadyDecided.Some? <==> s.nodes[p].log.decisions != []
  {
    var n := s.nodes[p];
    assert NodeInv(c, F, s.sent, n);
    if n.loop.alreadyDecided.Some? {
      var k: nat :| DecidesIn(c, n.loop, n.log, k, n.loop.alreadyDecided.value);
      MetCoin(c, s, p, k);
      assert Met(c, s, p, k);
    } else if k: nat :| k < n.loop.r && Met(c, s, p, k) {
      MetCoin(c, s, p, k);
      assert DecidesIn(c, n.loop, n.log, k, CoinAt(c, k));
    }
  }

  // Only leaving a round that meets its coin decides or quits.
  lemma OnlyCoin(c: Config, n: Node, e: Event)
    requires n.loop.phase != Quit
    requires !(e.Wake? && n.loop.phase == WaitCoin && n.loop.values == {CoinAt(c, n.loop.r)})
    ensures Local(c, n, e).0.log.decisions == n.log.decisions && Local(c, n, e).0.loop.phase != Quit
  {
  }

  // What the code does when it leaves such a round.
  lemma AtCoin(c: Config, n: Node)
    requires n.loop.phase == WaitCoin && n.loop.values == {CoinAt(c, n.loop.r)}
    requires n.loop.alreadyDecided in {None, Some(CoinAt(c, n.loop.r))}
    ensures var n' := AfterCoin(c, n).0;
      if n.loop.alreadyDecided == None
      then n'.loop.phase != Quit && n'.log.decisions == n.log.decisions + [CoinAt(c, n.loop.r)]
      else n'.loop.phase == Quit && n'.log.decisions == n.log.decisions
  {
  }

  /**
   In every run a node decides exactly when it leaves the first round whose one
   value meets the coin, and quits exactly when it leaves the second.
   */
  lemma DecidesThenQuits(c: Config, F: Faults, es: seq<Event>, s: System, e: Event, p: nat)
    requires Valid(c, F) && Run(c, F, es) == Some(s) && Enabled(c, F, s, e) && p in F.honest
    requires p in s.nodes && s.nodes[p].loop.phase != Quit
    ensures var n, n' := s.nodes[p], Apply(c, s, e).nodes[p];
      && (n'.log.decisions != n.log.decisions <==> MeetsCoin(c, s, p, e) && !MetBefore(c, s, p, n.loop.r))
      && (n'.loop.phase == Quit <==> MeetsCoin(c, s, p, e) && MetBefore(c, s, p, n.loop.r))
  {
    CoinFacts(c, F, es, s, p);
    if e.p == p {
      DecidesOrQuits(c, s.nodes[p], e);
    }
  }

  lemma CoinFacts(c: Config, F: Faults, es: seq<Event>, s: System, p: nat)
    requires Valid(c, F) && Run(c, F, es) == Some(s) && p in F.honest && p in s.nodes
    ensures var n := s.nodes[p];
      && (n.loop.alreadyDecided.Some? <==> MetBefore(c, s, p, n.loop.r))
      && (n.loop.phase == WaitCoin ==> (Met(c, s, p, n.loop.r) <==> n.loop.values == {CoinAt(c, n.loop.r)}))
      && (n.loop.phase == WaitCoin && n.loop.values == {CoinAt(c, n.loop.r)} ==>
            n.loop.alreadyDecided in {None, Some(CoinAt(c, n.loop.r))})
  {
    RunInv(c, F, es);
    DecidedIffMet(c, F, s, p);
    if s.nodes[p].loop.phase == WaitCoin {
      MeetsIffValues(c, F, s, p);
      if s.nodes[p].loop.values == {CoinAt(c, s.nodes[p].loop.r)} {
        NoFallThrough(c, F, es, s, p);
      }
    }
  }

  // At the coin the last entry of the history is the current set of values.
  lemma MeetsIffValues(c: Config, F: Faults, s: System, p: nat)
    requires Inv(c, F, s) && p in F.honest && s.nodes[p].loop.phase == WaitCoin
    ensures Met(c, s, p, s.nodes[p].loop.r) <==> s.nodes[p].loop.values == {CoinAt(c, s.nodes[p].loop.r)}
  {
    assert NodeInv(c, F, s.sent, s.nodes[p]);
    MetCoin(c, s, p, s.nodes[p].loop.r);
  }

  lemma DecidesOrQuits(c: Config, n: Node, e: Event)
    requires n.loop.phase != Quit
    requires n.loop.phase == WaitCoin && n.loop.values == {CoinAt(c, n.loop.r)} ==>
      n.loop.alreadyDecided in {None, Some(CoinAt(c, n.loop.r))}
    ensures var n', meets := Local(c, n, e).0, e.Wake? && n.loop.phase == WaitCoin && n.loop.values == {CoinAt(c, n.loop.r)};
      && (n'.log.decisions != n.log.decisions <==> meets && n.loop.alreadyDecided == None)
      && (n'.loop.phase == Quit <==> meets && n.loop.alreadyDecided != None)
  {
    if e.Wake? && n.loop.phase == WaitCoin && n.loop.values == {CoinAt(c, n.loop.r)} {
      AtCoin(c, n);
    } else {
      OnlyCoin(c, n, e);
    }
  }

  /** At any time a node has decided exactly when some round that it has finished met the coin. */
  lemma DecidedExactly(c: Config, F: Faults, es: seq<Event>, s: System, p: nat)
    requires Valid(c, F) && Run(c, F, es) == Some(s) && p in F.honest && p in s.nodes
    ensures s.nodes[p].log.decisions != [] <==> MetBefore(c, s, p, s.nodes[p].loop.r)
  {
    RunInv(c, F, es);
    DecidedIffMet(c, F, s, p);
  }
}
