/**
 When a node of the two-value agreement can leave its wait, for any number of
 honest nodes, once every message between honest nodes is recorded. The condition
 counts what honest nodes have sent and what the node counts of Byzantine ones.
 */
module TwoValueWaits {
  import opened FiniteSets
  import opened Quorums
  import opened Options
  import opened Tables
  import opened TwoValueAgreement
  import opened TwoValueSafety
  import opened TwoValueProgress

  /** The honest nodes that have sent EST v of round r. */
  function EstSenders(F: Faults, s: System, r: nat, v: int): set<nat> {
    set q | q in F.honest && (q, Est(r, v)) in s.sent
  }

  /** The honest nodes that have sent AUX v of round r. */
  function AuxSenders(F: Faults, s: System, r: nat, v: int): set<nat> {
    set q | q in F.honest && (q, Aux(r, v)) in s.sent
  }

  // ---------- AUX messages are recorded as sent ----------

  // Honest AUXs recorded were sent, and the node's own are recorded.
  ghost predicate AuxKey(F: Faults, sent: set<(nat, Message)>, p: nat, box: Inbox, r: nat, v: int) {
    && (forall q :: q in At(box.aux, (r, v)) && q in F.honest ==> (q, Aux(r, v)) in sent)
    && ((p, Aux(r, v)) in sent ==> p in At(box.aux, (r, v)))
  }

  ghost predicate AuxRecord(F: Faults, sent: set<(nat, Message)>, p: nat, box: Inbox) {
    forall r: nat, v :: AuxKey(F, sent, p, box, r, v)
  }

  // No AUX is recorded, and node p sends none.
  lemma AuxSame(F: Faults, sent: set<(nat, Message)>, sent': set<(nat, Message)>, p: nat, b: Inbox, b': Inbox)
    requires AuxRecord(F, sent, p, b) && sent <= sent' && b'.aux == b.aux
    requires forall r: nat, v :: (p, Aux(r, v)) in sent' ==> (p, Aux(r, v)) in sent
    ensures AuxRecord(F, sent', p, b')
  {
    forall r: nat, v ensures AuxKey(F, sent', p, b', r, v) {
      assert AuxKey(F, sent, p, b, r, v);
    }
  }

  // One more sender q of AUX (r, v), which may be p itself.
  lemma AuxMore(F: Faults, sent: set<(nat, Message)>, sent': set<(nat, Message)>, p: nat, b: Inbox, q: nat, r: nat, v: int)
    requires AuxRecord(F, sent, p, b) && sent <= sent' && (q in F.honest ==> (q, Aux(r, v)) in sent')
    requires forall r': nat, v' :: (p, Aux(r', v')) in sent' ==> (p, Aux(r', v')) in sent || (q == p && r' == r && v' == v)
    ensures AuxRecord(F, sent', p, AddAux(b, q, r, v))
  {
    forall r': nat, v' ensures AuxKey(F, sent', p, AddAux(b, q, r, v), r', v') {
      assert AuxKey(F, sent, p, b, r', v');
    }
  }

  // A step that neither records nor sends an AUX.
  ghost predicate NoAux(n: Node, n': Node, out: seq<Message>) {
    n'.inbox.aux == n.inbox.aux && forall m :: m in out ==> !m.Aux?
  }

  lemma EstAux(c: Config, n: Node, from: nat, r: nat, v: int)
    ensures NoAux(n, OnEst(c, n, from, r, v).0, OnEst(c, n, from, r, v).1)
  {
  }

  lemma FinishAux(c: Config, n: Node, from: nat, v: int)
    ensures NoAux(n, OnFinish(c, n, from, v).0, OnFinish(c, n, from, v).1)
  {
  }

  lemma ReceiveAux(c: Config, n: Node, from: nat, m: Message)
    ensures var (n', out) := Receive(c, n, from, m);
      || NoAux(n, n', out)
      || (m.Aux? && n'.inbox == AddAux(n.inbox, from, m.round, m.v) && out == [])
  {
    match m
    case Est(r, v) => EstAux(c, n, from, r, v);
    case Finish(v) => FinishAux(c, n, from, v);
    case _ =>
  }

  lemma StartAux(c: Config, p: nat, n: Node, vi: int)
    ensures NoAux(n, Start(c, p, n, vi).0, Start(c, p, n, vi).1)
  {
  }

  lemma CoinAux(c: Config, p: nat, n: Node)
    ensures NoAux(n, AfterCoin(c, p, n).0, AfterCoin(c, p, n).1)
  {
  }

  lemma ResumeAux(c: Config, p: nat, n: Node, w: int)
    ensures var (n', out) := Resume(c, p, n, w);
      || NoAux(n, n', out)
      || (n'.inbox == AddAux(n.inbox, p, n.loop.r, w) && out == [Aux(n.loop.r, w)])
  {
    if n.loop.phase == WaitCoin {
      CoinAux(c, p, n);
    }
  }

  lemma Silent(F: Faults, sent: set<(nat, Message)>, p: nat, n: Node, n': Node, out: seq<Message>)
    requires AuxRecord(F, sent, p, n.inbox) && NoAux(n, n', out)
    ensures AuxRecord(F, sent + Sending(p, out), p, n'.inbox)
  {
    AuxSame(F, sent, sent + Sending(p, out), p, n.inbox, n'.inbox);
  }

  lemma ReceiveStep(c: Config, F: Faults, sent: set<(nat, Message)>, p: nat, n: Node, from: nat, m: Message)
    requires AuxRecord(F, sent, p, n.inbox) && (from in F.honest ==> (from, m) in sent)
    ensures var (n', out) := Receive(c, n, from, m); AuxRecord(F, sent + Sending(p, out), p, n'.inbox)
  {
    var (n', out) := Receive(c, n, from, m);
    ReceiveAux(c, n, from, m);
    if NoAux(n, n', out) {
      Silent(F, sent, p, n, n', out);
    } else {
      AuxMore(F, sent, sent + Sending(p, out), p, n.inbox, from, m.round, m.v);
    }
  }

  lemma ResumeStep(c: Config, F: Faults, sent: set<(nat, Message)>, p: nat, n: Node, w: int)
    requires AuxRecord(F, sent, p, n.inbox)
    ensures var (n', out) := Resume(c, p, n, w); AuxRecord(F, sent + Sending(p, out), p, n'.inbox)
  {
    var (n', out) := Resume(c, p, n, w);
    ResumeAux(c, p, n, w);
    if NoAux(n, n', out) {
      Silent(F, sent, p, n, n', out);
    } else {
      assert Aux(n.loop.r, w) in out;
      AuxMore(F, sent, sent + Sending(p, out), p, n.inbox, p, n.loop.r, w);
    }
  }

  lemma LocalAux(c: Config, F: Faults, k: nat, s: System, e: Event)
    requires Enabled(c, F, k, s, e) && AuxRecord(F, s.sent, e.p, s.nodes[e.p].inbox)
    ensures var (n', out) := Local(c, s.nodes[e.p], e); AuxRecord(F, s.sent + Sending(e.p, out), e.p, n'.inbox)
  {
    var n := s.nodes[e.p];
    match e
    case Input(p, v) =>
      StartAux(c, p, n, v);
      Silent(F, s.sent, p, n, Start(c, p, n, v).0, Start(c, p, n, v).1);
    case Deliver(p, from, m) => ReceiveStep(c, F, s.sent, p, n, from, m);
    case Wake(p, w) => ResumeStep(c, F, s.sent, p, n, w);
    case Stop(p) => Silent(F, s.sent, p, n, Halt(c, n), []);
  }

  ghost predicate AllAux(F: Faults, s: System) {
    s.nodes.Keys == F.honest && forall p :: p in F.honest ==> AuxRecord(F, s.sent, p, s.nodes[p].inbox)
  }

  lemma StepAux(c: Config, F: Faults, k: nat, s: System, e: Event)
    requires AllAux(F, s) && Enabled(c, F, k, s, e)
    ensures AllAux(F, Apply(c, s, e))
  {
    var s', out := Apply(c, s, e), Local(c, s.nodes[e.p], e).1;
    LocalAux(c, F, k, s, e);
    assert s'.sent == s.sent + Sending(e.p, out);
    forall p | p in F.honest ensures AuxRecord(F, s'.sent, p, s'.nodes[p].inbox) {
      if p != e.p {
        AuxSame(F, s.sent, s'.sent, p, s.nodes[p].inbox, s.nodes[p].inbox);
      }
    }
  }

  lemma {:induction false} RunAux(c: Config, F: Faults, k: nat, es: seq<Event>)
    requires Run(c, F, k, es).Some?
    ensures AllAux(F, Run(c, F, k, es).value)
  {
    if es != [] {
      var init := es[..|es| - 1];
      RunAux(c, F, k, init);
      StepAux(c, F, k, Run(c, F, k, init).value, es[|es| - 1]);
    }
  }

  // ---------- the conditions ----------

  /** EST v reaches node p: f + 1 honest nodes have sent it, and p counts 2f + 1 of them and others. */
  ghost predicate Reaches(c: Config, F: Faults, s: System, p: nat, r: nat, v: int)
    requires s.nodes.Keys == F.honest && p in F.honest
  {
    && |EstSenders(F, s, r, v)| >= c.f + 1
    && (|F.honest| >= 2 * c.f + 2 || !(At(s.nodes[p].inbox.est, (r, v)) <= F.honest - {p}))
  }

  /** The AUXs v of round r at node p: those of honest nodes, and of Byzantine nodes that it counts. */
  function AuxTotal(F: Faults, s: System, p: nat, r: nat, v: int): nat
    requires p in s.nodes
  {
    |AuxSenders(F, s, r, v)| + |At(s.nodes[p].inbox.aux, (r, v)) - F.honest|
  }

  /** N - f AUXs name values of int_values, which are among x and x + 1. */
  predicate AuxAgrees(c: Config, F: Faults, s: System, p: nat, x: int)
    requires p in s.nodes
  {
    var r := s.nodes[p].loop.r;
    var ints := At(s.nodes[p].inbox.ints, r);
    (if x in ints then AuxTotal(F, s, p, r, x) else 0)
    + (if x + 1 in ints then AuxTotal(F, s, p, r, x + 1) else 0) >= c.N - c.f
  }

  /** When node p can leave the wait that it is in. */
  ghost predicate Leaves(c: Config, F: Faults, s: System, p: nat, x: int)
    requires s.nodes.Keys == F.honest && p in F.honest
  {
    match s.nodes[p].loop.phase
    case WaitInt => exists v :: Reaches(c, F, s, p, s.nodes[p].loop.r, v)
    case WaitAux => AuxAgrees(c, F, s, p, x)
    case WaitConf => ConfAgrees(c, F, s, p)
    case _ => true
  }

  lemma ReachesExactly(c: Config, F: Faults, s: System, p: nat, r: nat, v: int)
    requires Valid(c, F) && Inv(c, F, s) && Live(c, F, s) && AllRecorded(F, s) && p in F.honest && (c.f >= 1 || c.N >= 2)
    ensures v in At(s.nodes[p].inbox.ints, r) <==> Reaches(c, F, s, p, r, v)
  {
    var S := At(s.nodes[p].inbox.est, (r, v));
    if v in At(s.nodes[p].inbox.ints, r) {
      assert NodeInv(c, F, s.sent, s.nodes[p]);
      assert IntOk(c, s.nodes[p].inbox, r, v) && EstRecord(F, s.sent, s.nodes[p].inbox, r, v);
      HonestPart(F, S);
      SubsetSize(S * F.honest, EstSenders(F, s, r, v));
      SpreadAt(c, F, s, r, v, S * F.honest, p);
    } else if |EstSenders(F, s, r, v)| >= c.f + 1 {
      SpreadAt(c, F, s, r, v, EstSenders(F, s, r, v), p);
    }
  }

  lemma AuxCount(F: Faults, s: System, p: nat, r: nat, v: int)
    requires AllAux(F, s) && AllRecorded(F, s) && p in F.honest
    ensures |At(s.nodes[p].inbox.aux, (r, v))| == AuxTotal(F, s, p, r, v)
  {
    var S := At(s.nodes[p].inbox.aux, (r, v));
    assert AuxRecord(F, s.sent, p, s.nodes[p].inbox);
    assert AuxKey(F, s.sent, p, s.nodes[p].inbox, r, v);
    forall q | q in AuxSenders(F, s, r, v) ensures q in S {
      assert q != p ==> Recorded(s.nodes[p], q, Aux(r, v));
    }
    assert S * F.honest == AuxSenders(F, s, r, v);
    assert S == S * F.honest + (S - F.honest);
  }

  lemma IntLeaves(c: Config, p: nat, n: Node)
    requires n.loop.phase == WaitInt
    ensures CanStep(c, p, n) <==> exists v :: v in At(n.inbox.ints, n.loop.r)
  {
    if v :| v in At(n.inbox.ints, n.loop.r) {
      assert Resume(c, p, n, v).0.loop != n.loop;
    }
  }

  lemma AuxLeaves(c: Config, p: nat, n: Node)
    requires n.loop.phase == WaitAux && (|At(n.inbox.ints, n.loop.r)| == 1 || |At(n.inbox.ints, n.loop.r)| == 2)
    ensures CanStep(c, p, n) <==> AuxDone(c, n.inbox, n.loop.r)
  {
    if AuxDone(c, n.inbox, n.loop.r) {
      LeavesAux(c, p, n);
    }
  }

  // The sum of the AUX wait, for int_values among x and x + 1.
  lemma AuxSum(c: Config, box: Inbox, r: nat, x: int)
    requires At(box.ints, r) != {} && forall v :: v in At(box.ints, r) ==> Within(x, v)
    ensures
      AuxDone(c, box, r)
      <==> (if x in At(box.ints, r) then |At(box.aux, (r, x))| else 0)
           + (if x + 1 in At(box.ints, r) then |At(box.aux, (r, x + 1))| else 0) >= c.N - c.f
  {
    OneOrTwo(At(box.ints, r), x);
  }

  lemma AuxLeavesExactly(c: Config, F: Faults, s: System, p: nat, x: int)
    requires Valid(c, F) && Inv(c, F, s) && AllAux(F, s) && AllRecorded(F, s) && Ranged(F, s, x)
    requires p in F.honest && s.nodes[p].loop.phase == WaitAux
    ensures CanStep(c, p, s.nodes[p]) <==> AuxAgrees(c, F, s, p, x)
  {
    var n := s.nodes[p];
    var r := n.loop.r;
    assert NodeInv(c, F, s.sent, n);
    IntsWithin(c, F, s, p, r, x);
    SmallSet(At(n.inbox.ints, r), x);
    AuxLeaves(c, p, n);
    AuxSum(c, n.inbox, r, x);
    AuxCount(F, s, p, r, x);
    AuxCount(F, s, p, r, x + 1);
  }

  lemma IntLeavesExactly(c: Config, F: Faults, s: System, p: nat)
    requires Valid(c, F) && Inv(c, F, s) && Live(c, F, s) && AllRecorded(F, s) && (c.f >= 1 || c.N >= 2)
    requires p in F.honest && s.nodes[p].loop.phase == WaitInt
    ensures CanStep(c, p, s.nodes[p]) <==> exists v :: Reaches(c, F, s, p, s.nodes[p].loop.r, v)
  {
    var n := s.nodes[p];
    IntLeaves(c, p, n);
    forall v ensures v in At(n.inbox.ints, n.loop.r) <==> Reaches(c, F, s, p, n.loop.r, v) {
      ReachesExactly(c, F, s, p, n.loop.r, v);
    }
  }

  /**
   Exactly when an active node can leave its wait, however many honest nodes there
   are, for inputs x and x + 1 and with all messages between honest nodes recorded.
   */
  lemma LeavesExactly(c: Config, F: Faults, k: nat, es: seq<Event>, s: System, x: int, p: nat)
    requires Valid(c, F) && Run(c, F, k, es) == Some(s) && s.nodes.Keys == F.honest && AllRecorded(F, s)
    requires forall e :: e in es && e.Input? ==> Within(x, e.v)
    requires p in F.honest && Active(s.nodes[p]) && (c.f >= 1 || c.N >= 2)
    ensures CanStep(c, p, s.nodes[p]) <==> Leaves(c, F, s, p, x)
  {
    RunInv(c, F, k, es);
    RunLive(c, F, k, es);
    RunAux(c, F, k, es);
    NoFailedAssertion(c, F, k, es, x);
    LeavesIn(c, F, s, x, p);
  }

  lemma LeavesIn(c: Config, F: Faults, s: System, x: int, p: nat)
    requires Valid(c, F) && Inv(c, F, s) && Live(c, F, s) && AllAux(F, s) && AllRecorded(F, s) && Ranged(F, s, x)
    requires p in F.honest && Active(s.nodes[p]) && (c.f >= 1 || c.N >= 2)
    ensures CanStep(c, p, s.nodes[p]) <==> Leaves(c, F, s, p, x)
  {
    var n := s.nodes[p];
    if n.loop.phase == WaitInt {
      IntLeavesExactly(c, F, s, p);
    } else if n.loop.phase == WaitAux {
      AuxLeavesExactly(c, F, s, p, x);
    } else if n.loop.phase == WaitConf {
      ConfCount(c, F, s, p, n.loop.r, At(n.inbox.ints, n.loop.r));
      LeavesConf(c, p, n);
    } else {
      LeavesCoin(c, p, n);
    }
  }
}
