/**
 Two-value agreement when f Byzantine nodes of 3f + 1 are silent: an honest node
 has only its own estimate in int_values, so nobody passes the AUX wait of a
 round that the honest nodes start with different estimates.
 */
module TwoValueSilence {
  import opened FiniteSets
  import opened Quorums
  import opened Options
  import opened Tables
  import opened TwoValueAgreement
  import opened TwoValueSafety

  /** No message of a Byzantine node is delivered. */
  predicate Silent(F: Faults, es: seq<Event>) {
    forall e :: e in es && e.Deliver? ==> e.from in F.honest
  }

  // Honest senders only; a node counts its own EST only for its own estimate.
  ghost predicate EstFrom(F: Faults, p: nat, n: Node, r: nat, v: int) {
    At(n.inbox.est, (r, v)) <= F.honest && (p in At(n.inbox.est, (r, v)) ==> HasEst(n, r, v))
  }

  ghost predicate AuxFrom(F: Faults, sent: set<(nat, Message)>, box: Inbox, r: nat, v: int) {
    forall q :: q in At(box.aux, (r, v)) ==> q in F.honest && (q, Aux(r, v)) in sent
  }

  ghost predicate NodeSilent(F: Faults, sent: set<(nat, Message)>, p: nat, n: Node) {
    && (forall r: nat, v :: EstFrom(F, p, n, r, v))
    && (forall r: nat, v :: AuxFrom(F, sent, n.inbox, r, v))
  }

  // ---------- one node ----------

  // est_values unchanged, estimates and AUX messages added.
  lemma Unchanged(F: Faults, sent: set<(nat, Message)>, sent': set<(nat, Message)>, p: nat, n: Node, n': Node)
    requires NodeSilent(F, sent, p, n) && sent <= sent'
    requires n'.inbox.est == n.inbox.est && n'.inbox.aux == n.inbox.aux && n.log.ests <= n'.log.ests
    ensures NodeSilent(F, sent', p, n')
  {
    forall r: nat, v ensures EstFrom(F, p, n', r, v) && AuxFrom(F, sent', n'.inbox, r, v) {
      assert EstFrom(F, p, n, r, v) && AuxFrom(F, sent, n.inbox, r, v);
    }
  }

  // One more sender q of EST (r, v).
  lemma EstAdded(F: Faults, sent: set<(nat, Message)>, sent': set<(nat, Message)>, p: nat, n: Node, q: nat, r: nat, v: int, n': Node)
    requires NodeSilent(F, sent, p, n) && sent <= sent' && q in F.honest && (q == p ==> HasEst(n', r, v))
    requires n'.inbox.est == n.inbox.est[(r, v) := At(n.inbox.est, (r, v)) + {q}]
    requires n'.inbox.aux == n.inbox.aux && n.log.ests <= n'.log.ests
    ensures NodeSilent(F, sent', p, n')
  {
    forall r': nat, v' ensures EstFrom(F, p, n', r', v') && AuxFrom(F, sent', n'.inbox, r', v') {
      assert EstFrom(F, p, n, r', v') && AuxFrom(F, sent, n.inbox, r', v');
    }
  }

  // One more sender q of AUX (r, v).
  lemma AuxAdded(F: Faults, sent: set<(nat, Message)>, sent': set<(nat, Message)>, p: nat, n: Node, q: nat, r: nat, v: int, n': Node)
    requires NodeSilent(F, sent, p, n) && sent <= sent' && q in F.honest && (q, Aux(r, v)) in sent'
    requires n'.inbox.aux == n.inbox.aux[(r, v) := At(n.inbox.aux, (r, v)) + {q}]
    requires n'.inbox.est == n.inbox.est && n'.log.ests == n.log.ests
    ensures NodeSilent(F, sent', p, n')
  {
    forall r': nat, v' ensures EstFrom(F, p, n', r', v') && AuxFrom(F, sent', n'.inbox, r', v') {
      assert EstFrom(F, p, n, r', v') && AuxFrom(F, sent, n.inbox, r', v');
    }
  }

  lemma ReceiveStep(c: Config, F: Faults, sent: set<(nat, Message)>, p: nat, n: Node, from: nat, m: Message)
    requires NodeSilent(F, sent, p, n) && from in F.honest && from != p && (from, m) in sent
    ensures var (n', out) := Receive(c, n, from, m); NodeSilent(F, sent + Sending(p, out), p, n')
  {
    var (n', out) := Receive(c, n, from, m);
    var sent' := sent + Sending(p, out);
    if n'.inbox.est != n.inbox.est {
      EstAdded(F, sent, sent', p, n, from, m.round, m.v, n');
    } else if n'.inbox.aux != n.inbox.aux {
      AuxAdded(F, sent, sent', p, n, from, m.round, m.v, n');
    } else {
      Unchanged(F, sent, sent', p, n, n');
    }
  }

  // Entering round r; d is n, perhaps after a decision.
  lemma EnterStep(c: Config, F: Faults, sent: set<(nat, Message)>, sent': set<(nat, Message)>, p: nat, n: Node, d: Node, r: nat, est: int)
    requires NodeSilent(F, sent, p, n) && sent <= sent' && p in F.honest
    requires d.inbox == n.inbox && d.log.ests == n.log.ests && |n.log.ests| == r
    ensures NodeSilent(F, sent', p, EnterRound(c, p, d, r, est).0)
  {
    var n' := EnterRound(c, p, d, r, est).0;
    if n'.inbox == n.inbox {
      Unchanged(F, sent, sent', p, n, n');
    } else {
      EstAdded(F, sent, sent', p, n, p, r, est, n');
    }
  }

  lemma StartStep(c: Config, F: Faults, sent: set<(nat, Message)>, p: nat, n: Node, vi: int)
    requires NodeSilent(F, sent, p, n) && p in F.honest && Shape(n.inbox, n.loop, n.log)
    ensures var (n', out) := Start(c, p, n, vi); NodeSilent(F, sent + Sending(p, out), p, n')
  {
    var (n', out) := Start(c, p, n, vi);
    if n.loop.phase == NoInput {
      EnterStep(c, F, sent, sent + Sending(p, out), p, n, n, 0, vi);
    } else {
      Unchanged(F, sent, sent + Sending(p, out), p, n, n');
    }
  }

  lemma CoinStep(c: Config, F: Faults, sent: set<(nat, Message)>, p: nat, n: Node)
    requires NodeSilent(F, sent, p, n) && p in F.honest && Shape(n.inbox, n.loop, n.log) && n.loop.phase == WaitCoin
    ensures var (n', out) := AfterCoin(c, p, n); NodeSilent(F, sent + Sending(p, out), p, n')
  {
    var (n', out) := AfterCoin(c, p, n);
    if |n.loop.values| != 1 && !Consecutive(n.loop.values) {
      Unchanged(F, sent, sent + Sending(p, out), p, n, n');
    } else {
      var d, est, out0 := CoinParts(c, p, n);
      EnterStep(c, F, sent, sent + Sending(p, out), p, n, d, n.loop.r + 1, est);
    }
  }

  lemma ResumeStep(c: Config, F: Faults, sent: set<(nat, Message)>, p: nat, n: Node, w: int)
    requires NodeSilent(F, sent, p, n) && p in F.honest && Shape(n.inbox, n.loop, n.log)
    ensures var (n', out) := Resume(c, p, n, w); NodeSilent(F, sent + Sending(p, out), p, n')
  {
    var (n', out) := Resume(c, p, n, w);
    var sent' := sent + Sending(p, out);
    if n.loop.phase == WaitCoin {
      CoinStep(c, F, sent, p, n);
    } else if n.loop.phase == WaitInt && out != [] {
      assert Aux(n.loop.r, w) in out;
      AuxAdded(F, sent, sent', p, n, p, n.loop.r, w, n');
    } else {
      Unchanged(F, sent, sent', p, n, n');
    }
  }

  // ---------- the whole system ----------

  /** Every honest node started round r with the estimate of node p. */
  ghost predicate SameEst(F: Faults, s: System, p: nat, r: nat)
    requires s.nodes.Keys == F.honest && p in F.honest
  {
    r < |s.nodes[p].log.ests| && forall q :: q in F.honest ==> HasEst(s.nodes[q], r, s.nodes[p].log.ests[r])
  }

  // Node p has only passed the AUX wait of rounds that all nodes started alike.
  ghost predicate Passed(F: Faults, s: System, p: nat)
    requires s.nodes.Keys == F.honest && p in F.honest
  {
    forall r: nat :: r < |s.nodes[p].log.confs| ==> SameEst(F, s, p, r)
  }

  ghost predicate SilentInv(F: Faults, s: System) {
    && s.nodes.Keys == F.honest
    && (forall p :: p in F.honest ==> NodeSilent(F, s.sent, p, s.nodes[p]))
    && (forall p :: p in F.honest ==> Passed(F, s, p))
  }

  lemma LocalSilent(c: Config, F: Faults, k: nat, s: System, e: Event)
    requires Inv(c, F, s) && SilentInv(F, s) && Enabled(c, F, k, s, e) && (e.Deliver? ==> e.from in F.honest)
    ensures var (n', out) := Local(c, s.nodes[e.p], e); NodeSilent(F, s.sent + Sending(e.p, out), e.p, n')
  {
    var n := s.nodes[e.p];
    assert NodeInv(c, F, s.sent, n);
    match e
    case Input(p, v) => StartStep(c, F, s.sent, p, n, v);
    case Deliver(p, from, m) => ReceiveStep(c, F, s.sent, p, n, from, m);
    case Wake(p, w) => ResumeStep(c, F, s.sent, p, n, w);
    case Stop(p) => Unchanged(F, s.sent, s.sent + Sending(p, []), p, n, Halt(c, n));
  }

  // 2f + 1 senders are all honest nodes, the node itself among them.
  lemma OwnValue(c: Config, F: Faults, s: System, q: nat, r: nat, v: int)
    requires Valid(c, F) && |F.honest| == 2 * c.f + 1 && Inv(c, F, s) && SilentInv(F, s) && q in F.honest
    requires v in At(s.nodes[q].inbox.ints, r)
    ensures HasEst(s.nodes[q], r, v)
  {
    var n := s.nodes[q];
    assert NodeInv(c, F, s.sent, n) && NodeSilent(F, s.sent, q, n);
    assert IntOk(c, n.inbox, r, v) && EstFrom(F, q, n, r, v);
    SameSize(At(n.inbox.est, (r, v)), F.honest);
  }

  // Node p leaves the AUX wait: N - f AUX messages are those of all honest nodes.
  lemma AuxLeft(c: Config, F: Faults, s: System, p: nat)
    requires Valid(c, F) && |F.honest| == 2 * c.f + 1 && Inv(c, F, s) && SilentInv(F, s) && p in F.honest
    requires s.nodes[p].loop.phase == WaitAux && AuxDone(c, s.nodes[p].inbox, s.nodes[p].loop.r)
    ensures SameEst(F, s, p, s.nodes[p].loop.r)
  {
    var n := s.nodes[p];
    var r := n.loop.r;
    var v := OnlyValue(c, F, s, p);
    assert NodeSilent(F, s.sent, p, n);
    assert AuxFrom(F, s.sent, n.inbox, r, v);
    SubsetSize(F.honest, Below(F.N));
    SameSize(At(n.inbox.aux, (r, v)), F.honest);
    forall q | q in F.honest ensures HasEst(s.nodes[q], r, v) {
      assert (q, Aux(r, v)) in s.sent;
      assert SentOk(F, s, s.nodes[q], Aux(r, v));
      OwnValue(c, F, s, q, r, v);
    }
  }

  lemma OnlyValue(c: Config, F: Faults, s: System, p: nat) returns (v: int)
    requires Valid(c, F) && |F.honest| == 2 * c.f + 1 && Inv(c, F, s) && SilentInv(F, s) && p in F.honest
    requires s.nodes[p].loop.phase == WaitAux && AuxDone(c, s.nodes[p].inbox, s.nodes[p].loop.r)
    ensures var n := s.nodes[p]; HasEst(n, n.loop.r, v) && |At(n.inbox.aux, (n.loop.r, v))| >= c.N - c.f
  {
    var box, r := s.nodes[p].inbox, s.nodes[p].loop.r;
    var ints := At(box.ints, r);
    var x, y :| x in ints && y in ints && ints == {x, y}
      && (if x == y then |At(box.aux, (r, x))| else |At(box.aux, (r, x))| + |At(box.aux, (r, y))|) >= c.N - c.f;
    OwnValue(c, F, s, p, r, x);
    OwnValue(c, F, s, p, r, y);
    v := x;
  }

  // A node's CONFs grow only when it leaves an AUX wait.
  ghost predicate ConfsOf(c: Config, n: Node, n': Node) {
    || n'.log.confs == n.log.confs
    || (n.loop.phase == WaitAux && AuxDone(c, n.inbox, n.loop.r)
        && |n.log.confs| == n.loop.r && |n'.log.confs| == n.loop.r + 1)
  }

  lemma LocalConfs(c: Config, n: Node, e: Event)
    requires Shape(n.inbox, n.loop, n.log)
    ensures ConfsOf(c, n, Local(c, n, e).0)
  {
  }

  lemma PassedKept(F: Faults, s: System, s': System, p: nat, r: nat)
    requires s.nodes.Keys == F.honest && s'.nodes.Keys == F.honest && p in F.honest && SameEst(F, s, p, r)
    requires forall q :: q in F.honest ==> s.nodes[q].log.ests <= s'.nodes[q].log.ests
    ensures SameEst(F, s', p, r)
  {
    forall q | q in F.honest ensures HasEst(s'.nodes[q], r, s'.nodes[p].log.ests[r]) {
      assert HasEst(s.nodes[q], r, s.nodes[p].log.ests[r]);
    }
  }

  // A new CONF of node p is one of a round that all nodes started alike.
  ghost predicate NewConf(F: Faults, s: System, p: nat, n': Node)
    requires s.nodes.Keys == F.honest && p in F.honest
  {
    var k := |s.nodes[p].log.confs|;
    |n'.log.confs| <= k || (|n'.log.confs| == k + 1 && SameEst(F, s, p, k))
  }

  lemma LeavesAlike(c: Config, F: Faults, s: System, p: nat, n': Node)
    requires Valid(c, F) && |F.honest| == 2 * c.f + 1 && Inv(c, F, s) && SilentInv(F, s)
    requires p in F.honest && ConfsOf(c, s.nodes[p], n')
    ensures NewConf(F, s, p, n')
  {
    if n'.log.confs != s.nodes[p].log.confs {
      AuxLeft(c, F, s, p);
    }
  }

  lemma PassedStep(F: Faults, s: System, s': System, p: nat)
    requires s.nodes.Keys == F.honest && s'.nodes.Keys == F.honest && p in F.honest
    requires Passed(F, s, p) && NewConf(F, s, p, s'.nodes[p])
    requires forall q :: q in F.honest ==> s.nodes[q].log.ests <= s'.nodes[q].log.ests
    ensures Passed(F, s', p)
  {
    forall r: nat | r < |s'.nodes[p].log.confs| ensures SameEst(F, s', p, r) {
      assert SameEst(F, s, p, r);
      PassedKept(F, s, s', p, r);
    }
  }

  lemma LocalKept(c: Config, F: Faults, k: nat, s: System, e: Event)
    requires Valid(c, F) && Inv(c, F, s) && Enabled(c, F, k, s, e)
    ensures var (n, n') := (s.nodes[e.p], Local(c, s.nodes[e.p], e).0); n.log.ests <= n'.log.ests && ConfsOf(c, n, n')
  {
    LocalStep(c, F, k, s, e);
    assert NodeInv(c, F, s.sent, s.nodes[e.p]);
    LocalConfs(c, s.nodes[e.p], e);
  }

  lemma StepSilent(c: Config, F: Faults, k: nat, s: System, e: Event)
    requires Valid(c, F) && |F.honest| == 2 * c.f + 1 && Inv(c, F, s) && SilentInv(F, s)
    requires Enabled(c, F, k, s, e) && (e.Deliver? ==> e.from in F.honest)
    ensures SilentInv(F, Apply(c, s, e))
  {
    var (n', out) := Local(c, s.nodes[e.p], e);
    LocalSilent(c, F, k, s, e);
    LocalKept(c, F, k, s, e);
    SilentUpdate(c, F, s, e.p, n', out, Apply(c, s, e));
  }

  lemma SilentUpdate(c: Config, F: Faults, s: System, p: nat, n': Node, out: seq<Message>, s': System)
    requires Valid(c, F) && |F.honest| == 2 * c.f + 1 && Inv(c, F, s) && SilentInv(F, s) && p in F.honest
    requires NodeSilent(F, s.sent + Sending(p, out), p, n') && s.nodes[p].log.ests <= n'.log.ests
    requires ConfsOf(c, s.nodes[p], n') && s' == System(s.nodes[p := n'], s.sent + Sending(p, out))
    ensures SilentInv(F, s')
  {
    NodesStep(F, s, p, n', out, s');
    LeavesAlike(c, F, s, p, n');
    AllPassed(F, s, p, n', s');
  }

  lemma NodesStep(F: Faults, s: System, p: nat, n': Node, out: seq<Message>, s': System)
    requires SilentInv(F, s) && p in F.honest && NodeSilent(F, s.sent + Sending(p, out), p, n')
    requires s' == System(s.nodes[p := n'], s.sent + Sending(p, out))
    ensures forall q :: q in F.honest ==> NodeSilent(F, s'.sent, q, s'.nodes[q])
  {
    forall q | q in F.honest ensures NodeSilent(F, s'.sent, q, s'.nodes[q]) {
      if q != p {
        Unchanged(F, s.sent, s'.sent, q, s.nodes[q], s.nodes[q]);
      }
    }
  }

  lemma AllPassed(F: Faults, s: System, p: nat, n': Node, s': System)
    requires s.nodes.Keys == F.honest && p in F.honest && s'.nodes == s.nodes[p := n']
    requires NewConf(F, s, p, n') && s.nodes[p].log.ests <= n'.log.ests
    requires forall q :: q in F.honest ==> Passed(F, s, q)
    ensures forall q :: q in F.honest ==> Passed(F, s', q)
  {
    forall q | q in F.honest ensures Passed(F, s', q) {
      PassedStep(F, s, s', q);
    }
  }

  lemma {:induction false} RunSilent(c: Config, F: Faults, k: nat, es: seq<Event>)
    requires Valid(c, F) && |F.honest| == 2 * c.f + 1 && Silent(F, es) && Run(c, F, k, es).Some?
    ensures SilentInv(F, Run(c, F, k, es).value)
  {
    if es != [] {
      var init, e := es[..|es| - 1], es[|es| - 1];
      assert e in es && forall x :: x in init ==> x in es;
      RunSilent(c, F, k, init);
      RunInv(c, F, k, init);
      StepSilent(c, F, k, Run(c, F, k, init).value, e);
    }
  }

  /**
   With 2f + 1 honest nodes and silent Byzantine ones, an honest node that has
   passed the AUX wait of a round proves that all honest nodes started it with
   one estimate; int_values never hold anything but the node's own estimate.
   */
  lemma PassedAlike(c: Config, F: Faults, k: nat, es: seq<Event>, s: System, p: nat, r: nat)
    requires Valid(c, F) && |F.honest| == 2 * c.f + 1 && Silent(F, es) && Run(c, F, k, es) == Some(s)
    requires p in F.honest
    ensures s.nodes.Keys == F.honest && (r < |s.nodes[p].log.confs| ==> SameEst(F, s, p, r))
    ensures forall v :: v in At(s.nodes[p].inbox.ints, r) ==> HasEst(s.nodes[p], r, v)
  {
    RunSilent(c, F, k, es);
    RunInv(c, F, k, es);
    assert Passed(F, s, p);
    forall v | v in At(s.nodes[p].inbox.ints, r) ensures HasEst(s.nodes[p], r, v) {
      OwnValue(c, F, s, p, r, v);
    }
  }

  /**
   f silent nodes of 3f + 1 and two different honest inputs: in no run does any
   honest node send a CONF, start round 1 or decide.
   */
  lemma SplitInputsBlock(c: Config, F: Faults, k: nat, es: seq<Event>, s: System, p: nat, q: nat, u: int, v: int, h: nat)
    requires Valid(c, F) && Bounded(c, k) && |F.honest| == 2 * c.f + 1 && Silent(F, es) && Run(c, F, k, es) == Some(s)
    requires p in s.nodes && q in s.nodes && HasEst(s.nodes[p], 0, u) && HasEst(s.nodes[q], 0, v) && u != v
    requires h in F.honest
    ensures h in s.nodes && s.nodes[h].log.confs == [] && |s.nodes[h].log.ests| <= 1 && s.nodes[h].log.decisions == []
  {
    RunInv(c, F, k, es);
    RunFinInv(c, F, k, es);
    forall h' | h' in F.honest ensures s.nodes[h'].log.confs == [] {
      PassedAlike(c, F, k, es, s, h', 0);
      NoConf(F, s, p, q, u, v, h');
    }
    NoVals(c, F, s);
    assert NodeInv(c, F, s.sent, s.nodes[h]);
    FewRounds(c, s.nodes[h].inbox, s.nodes[h].loop.confSent, s.nodes[h].log);
    assert DecisionsLocked(F, s, s.nodes[h]);
    if s.nodes[h].log.decisions != [] {
      var h' := SomeLocked(F, s, s.nodes[h]);
      assert false;
    }
  }

  // A decision needs a node that has left a CONF wait.
  lemma SomeLocked(F: Faults, s: System, n: Node) returns (h: nat)
    requires DecisionsLocked(F, s, n) && n.log.decisions != []
    ensures h in F.honest && h in s.nodes && s.nodes[h].log.vals != []
  {
    var v := n.log.decisions[0];
    assert Locked(F, s, v);
    var q, r: nat :| q in F.honest && q in s.nodes && Single(s.nodes[q].log, r, v);
    h := q;
  }

  lemma NoConf(F: Faults, s: System, p: nat, q: nat, u: int, v: int, h: nat)
    requires s.nodes.Keys == F.honest && p in F.honest && q in F.honest && h in F.honest
    requires HasEst(s.nodes[p], 0, u) && HasEst(s.nodes[q], 0, v) && u != v
    requires 0 < |s.nodes[h].log.confs| ==> SameEst(F, s, h, 0)
    ensures s.nodes[h].log.confs == []
  {
  }

  // Leaving a CONF wait needs an honest CONF.
  lemma SomeConf(c: Config, F: Faults, s: System, h: nat) returns (q: nat)
    requires Valid(c, F) && Inv(c, F, s) && h in F.honest && s.nodes[h].log.vals != []
    ensures q in F.honest && s.nodes[q].log.confs != []
  {
    var Q := ConfQuorumOf(c, F, s, h, 0);
    q := HonestInBoth(F, Q, Q);
    assert SentOk(F, s, s.nodes[q], Conf(0, s.nodes[h].log.vals[0]));
  }

  lemma NoVals(c: Config, F: Faults, s: System)
    requires Valid(c, F) && Inv(c, F, s) && forall h :: h in F.honest ==> s.nodes[h].log.confs == []
    ensures forall h :: h in F.honest ==> s.nodes[h].log.vals == []
  {
    forall h | h in F.honest ensures s.nodes[h].log.vals == [] {
      if s.nodes[h].log.vals != [] {
        var q := SomeConf(c, F, s, h);
        assert false;
      }
    }
  }

  lemma FewRounds(c: Config, box: Inbox, confSent: set<(nat, set<int>)>, g: Log)
    requires LogInv(c, box, confSent, g)
    ensures |g.ests| > 1 ==> |g.vals| > 0
  {
    if |g.ests| > 1 {
      assert NextEst(c, g, 0);
    }
  }
}
