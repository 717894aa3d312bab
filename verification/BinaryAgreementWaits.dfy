/**
 When a node of the binary agreement can leave its wait although others may have
 quit: the exact condition once all messages between honest nodes are recorded
 where a receive loop still runs, and that a node which cannot leave stays where
 it is until a Byzantine node helps.
 */
module BinaryAgreementWaits {
  import opened Quorums
  import opened Options
  import opened Tables
  import opened BinaryAgreement
  import opened BinaryAgreementSafety
  import opened BinaryAgreementProgress

  /** The honest nodes that have sent m. */
  function SendersOf(F: Faults, s: System, m: Message): set<nat> {
    set q | q in F.honest && (q, m) in s.sent
  }

  /** Node p has recorded every message of an honest node. */
  ghost predicate Hears(s: System, p: nat)
    requires p in s.nodes
  {
    forall x :: x in s.sent ==> Recorded(s.nodes[p], x.0, x.1)
  }

  // ---------- AUX messages recorded were sent ----------

  ghost predicate AuxKey(F: Faults, sent: set<(nat, Message)>, box: Inbox, r: nat, v: int) {
    forall q :: q in At(box.aux, (r, v)) && q in F.honest ==> (q, Aux(r, v)) in sent
  }

  ghost predicate AuxRecord(F: Faults, sent: set<(nat, Message)>, box: Inbox) {
    forall r: nat, v :: AuxKey(F, sent, box, r, v)
  }

  lemma AuxSame(F: Faults, sent: set<(nat, Message)>, sent': set<(nat, Message)>, b: Inbox, b': Inbox)
    requires AuxRecord(F, sent, b) && sent <= sent' && b'.aux == b.aux
    ensures AuxRecord(F, sent', b')
  {
    forall r: nat, v ensures AuxKey(F, sent', b', r, v) {
      assert AuxKey(F, sent, b, r, v);
    }
  }

  lemma AuxMore(F: Faults, sent: set<(nat, Message)>, b: Inbox, b': Inbox, from: nat, r: nat, v: int)
    requires AuxRecord(F, sent, b) && (from in F.honest ==> (from, Aux(r, v)) in sent)
    requires b'.aux == b.aux[(r, v) := At(b.aux, (r, v)) + {from}]
    ensures AuxRecord(F, sent, b')
  {
    forall r': nat, v' ensures AuxKey(F, sent, b', r', v') {
      assert AuxKey(F, sent, b, r', v');
    }
  }

  lemma ReceiveAux(c: Config, n: Node, from: nat, m: Message)
    ensures var b' := Receive(c, n, from, m).0.inbox;
      || b'.aux == n.inbox.aux
      || (m.Aux? && b'.aux == n.inbox.aux[(m.round, m.v) := At(n.inbox.aux, (m.round, m.v)) + {from}])
  {
  }

  lemma OtherAux(c: Config, n: Node, e: Event)
    requires !e.Deliver?
    ensures Local(c, n, e).0.inbox.aux == n.inbox.aux
  {
  }

  lemma LocalAux(c: Config, F: Faults, s: System, e: Event)
    requires Enabled(c, F, s, e) && AuxRecord(F, s.sent, s.nodes[e.p].inbox)
    ensures AuxRecord(F, s.sent, Local(c, s.nodes[e.p], e).0.inbox)
  {
    var b, b' := s.nodes[e.p].inbox, Local(c, s.nodes[e.p], e).0.inbox;
    if e.Deliver? {
      ReceiveAux(c, s.nodes[e.p], e.from, e.m);
    } else {
      OtherAux(c, s.nodes[e.p], e);
    }
    if b'.aux == b.aux {
      AuxSame(F, s.sent, s.sent, b, b');
    } else {
      AuxMore(F, s.sent, b, b', e.from, e.m.round, e.m.v);
    }
  }

  ghost predicate AllAux(F: Faults, s: System) {
    s.nodes.Keys == F.honest && forall p :: p in F.honest ==> AuxRecord(F, s.sent, s.nodes[p].inbox)
  }

  lemma StepAux(c: Config, F: Faults, s: System, e: Event)
    requires AllAux(F, s) && Enabled(c, F, s, e)
    ensures AllAux(F, Apply(c, s, e))
  {
    var s' := Apply(c, s, e);
    LocalAux(c, F, s, e);
    forall p | p in F.honest ensures AuxRecord(F, s'.sent, s'.nodes[p].inbox) {
      AuxSame(F, s.sent, s'.sent, s'.nodes[p].inbox, s'.nodes[p].inbox);
    }
  }

  lemma {:induction false} RunAux(c: Config, F: Faults, es: seq<Event>)
    requires Run(c, F, es).Some?
    ensures AllAux(F, Run(c, F, es).value)
  {
    if es != [] {
      var init := es[..|es| - 1];
      RunAux(c, F, init);
      StepAux(c, F, Run(c, F, init).value, es[|es| - 1]);
    }
  }

  // ---------- the conditions ----------

  /** The nodes with EST v at node p: the honest ones that have sent it, and those of Byzantine nodes that p counts. */
  function EstTotal(F: Faults, s: System, p: nat, r: nat, v: int): nat
    requires p in s.nodes
  {
    |SendersOf(F, s, Est(r, v))| + |At(s.nodes[p].inbox.est, (r, v)) - F.honest|
  }

  function AuxTotal(F: Faults, s: System, p: nat, r: nat, v: int): nat
    requires p in s.nodes
  {
    |SendersOf(F, s, Aux(r, v))| + |At(s.nodes[p].inbox.aux, (r, v)) - F.honest|
  }

  function ConfTotal(F: Faults, s: System, p: nat, r: nat, b: seq<int>): nat
    requires p in s.nodes
  {
    |SendersOf(F, s, Conf(r, b))| + |At(s.nodes[p].inbox.conf, (r, b)) - F.honest|
  }

  /** Value v is in bin_values[r] of node p. */
  predicate InBin(c: Config, F: Faults, s: System, p: nat, r: nat, v: int)
    requires p in s.nodes
  {
    EstTotal(F, s, p, r, v) >= 2 * c.f + 1
  }

  /** When node p can leave its wait: 2f + 1 ESTs of one value, or N - f AUXs or CONFs that name such values only. */
  ghost predicate Leaves(c: Config, F: Faults, s: System, p: nat)
    requires p in s.nodes
  {
    var r := s.nodes[p].loop.r;
    var zero, one := InBin(c, F, s, p, r, 0), InBin(c, F, s, p, r, 1);
    match s.nodes[p].loop.phase
    case WaitBin => zero || one
    case WaitAux =>
      (if zero then AuxTotal(F, s, p, r, 0) else 0) + (if one then AuxTotal(F, s, p, r, 1) else 0) >= c.N - c.f
    case WaitConf =>
      (if zero then ConfTotal(F, s, p, r, [0]) else 0) + (if one then ConfTotal(F, s, p, r, [1]) else 0)
      + (if zero && one then ConfTotal(F, s, p, r, [0, 1]) else 0) >= c.N - c.f
    case _ => true
  }

  // Honest senders recorded are those that have sent.
  lemma Split(S: set<nat>, H: set<nat>, A: set<nat>)
    requires S * H == A
    ensures |S| == |A| + |S - H|
  {
    assert S == S * H + (S - H);
  }

  lemma EstCount(c: Config, F: Faults, s: System, p: nat, r: nat, v: int)
    requires Inv(c, F, s) && p in F.honest && Hears(s, p)
    ensures |At(s.nodes[p].inbox.est, (r, v))| == EstTotal(F, s, p, r, v)
  {
    var S := At(s.nodes[p].inbox.est, (r, v));
    assert NodeInv(c, F, s.sent, s.nodes[p]);
    assert EstRecord(F, s.sent, s.nodes[p].inbox, r, v);
    forall q | q in SendersOf(F, s, Est(r, v)) ensures q in S {
      assert Recorded(s.nodes[p], q, Est(r, v));
    }
    Split(S, F.honest, SendersOf(F, s, Est(r, v)));
  }

  lemma BinExactly(c: Config, F: Faults, s: System, p: nat, r: nat, v: int)
    requires Inv(c, F, s) && Live(c, F, s) && p in F.honest && Hears(s, p)
    ensures v in At(s.nodes[p].inbox.bin, r) <==> InBin(c, F, s, p, r, v)
  {
    EstCount(c, F, s, p, r, v);
    assert NodeInv(c, F, s.sent, s.nodes[p]) && NodeLive(c, s.sent, p, s.nodes[p]);
    assert BinOk(c, s.nodes[p].inbox, r, v) && Thresholds(c, s.nodes[p], r, v);
  }

  lemma AuxCount(c: Config, F: Faults, s: System, p: nat, r: nat, v: int)
    requires AllAux(F, s) && p in F.honest && Hears(s, p)
    ensures |At(s.nodes[p].inbox.aux, (r, v))| == AuxTotal(F, s, p, r, v)
  {
    var S := At(s.nodes[p].inbox.aux, (r, v));
    assert AuxRecord(F, s.sent, s.nodes[p].inbox);
    assert AuxKey(F, s.sent, s.nodes[p].inbox, r, v);
    forall q | q in SendersOf(F, s, Aux(r, v)) ensures q in S {
      assert Recorded(s.nodes[p], q, Aux(r, v));
    }
    Split(S, F.honest, SendersOf(F, s, Aux(r, v)));
  }

  lemma ConfCount(c: Config, F: Faults, s: System, p: nat, r: nat, b: seq<int>)
    requires Inv(c, F, s) && p in F.honest && Hears(s, p)
    ensures |At(s.nodes[p].inbox.conf, (r, b))| == ConfTotal(F, s, p, r, b)
  {
    var S := At(s.nodes[p].inbox.conf, (r, b));
    assert NodeInv(c, F, s.sent, s.nodes[p]);
    assert ConfRecord(F, s.sent, s.nodes[p].inbox, r, b);
    forall q | q in SendersOf(F, s, Conf(r, b)) ensures q in S {
      assert Recorded(s.nodes[p], q, Conf(r, b));
    }
    Split(S, F.honest, SendersOf(F, s, Conf(r, b)));
  }

  // In terms of the inbox.
  predicate BoxLeaves(c: Config, box: Inbox, r: nat, phase: Phase) {
    match phase
    case WaitBin => 0 in At(box.bin, r) || 1 in At(box.bin, r)
    case WaitAux => AuxDone(c, box, r).Some?
    case WaitConf => ConfDone(c, box, r).Some?
    case _ => true
  }

  lemma StepsExactly(c: Config, n: Node)
    requires Active(n) && forall v :: v in At(n.inbox.bin, n.loop.r) ==> Bit(v)
    ensures CanStep(c, n) <==> BoxLeaves(c, n.inbox, n.loop.r, n.loop.phase)
  {
    if BoxLeaves(c, n.inbox, n.loop.r, n.loop.phase) {
      if n.loop.phase == WaitBin {
        LeavesBin(c, n, if 0 in At(n.inbox.bin, n.loop.r) then 0 else 1);
      } else {
        BinaryAgreementProgress.Leaves(c, n);
      }
    }
  }

  lemma BinBits(c: Config, F: Faults, sent: set<(nat, Message)>, n: Node, r: nat)
    requires NodeInv(c, F, sent, n)
    ensures forall v :: v in At(n.inbox.bin, r) ==> Bit(v)
  {
    forall v | v in At(n.inbox.bin, r) ensures Bit(v) {
      assert BinOk(c, n.inbox, r, v);
    }
  }

  /**
   Exactly when an active node that has recorded all honest messages can leave its
   wait, whoever has quit: 2f + 1 ESTs of one value have been sent to it, or N - f
   AUXs, or CONFs, that name only values with 2f + 1 ESTs.
   */
  lemma LeavesExactly(c: Config, F: Faults, es: seq<Event>, s: System, p: nat)
    requires Valid(c, F) && Run(c, F, es) == Some(s) && p in F.honest && p in s.nodes
    requires Active(s.nodes[p]) && Hears(s, p)
    ensures CanStep(c, s.nodes[p]) <==> Leaves(c, F, s, p)
  {
    RunInv(c, F, es);
    RunLive(c, F, es);
    RunAux(c, F, es);
    LeavesIn(c, F, s, p);
  }

  // The sums that the two waits come to.
  lemma AuxSum(c: Config, box: Inbox, r: nat)
    ensures AuxDone(c, box, r).Some? <==>
      (if 0 in At(box.bin, r) then |At(box.aux, (r, 0))| else 0)
      + (if 1 in At(box.bin, r) then |At(box.aux, (r, 1))| else 0) >= c.N - c.f
  {
  }

  lemma ConfSum(c: Config, box: Inbox, r: nat)
    ensures ConfDone(c, box, r).Some? <==>
      (if 0 in At(box.bin, r) then |At(box.conf, (r, [0]))| else 0)
      + (if 1 in At(box.bin, r) then |At(box.conf, (r, [1]))| else 0)
      + (if 0 in At(box.bin, r) && 1 in At(box.bin, r) then |At(box.conf, (r, [0, 1]))| else 0) >= c.N - c.f
  {
  }

  lemma AuxLeaves(c: Config, F: Faults, s: System, p: nat)
    requires AllAux(F, s) && p in F.honest && Hears(s, p) && s.nodes[p].loop.phase == WaitAux
    requires forall v :: v in At(s.nodes[p].inbox.bin, s.nodes[p].loop.r) <==> InBin(c, F, s, p, s.nodes[p].loop.r, v)
    ensures AuxDone(c, s.nodes[p].inbox, s.nodes[p].loop.r).Some? <==> Leaves(c, F, s, p)
  {
    var r := s.nodes[p].loop.r;
    AuxSum(c, s.nodes[p].inbox, r);
    AuxCount(c, F, s, p, r, 0);
    AuxCount(c, F, s, p, r, 1);
  }

  lemma ConfLeaves(c: Config, F: Faults, s: System, p: nat)
    requires Inv(c, F, s) && p in F.honest && Hears(s, p) && s.nodes[p].loop.phase == WaitConf
    requires forall v :: v in At(s.nodes[p].inbox.bin, s.nodes[p].loop.r) <==> InBin(c, F, s, p, s.nodes[p].loop.r, v)
    ensures ConfDone(c, s.nodes[p].inbox, s.nodes[p].loop.r).Some? <==> Leaves(c, F, s, p)
  {
    var r := s.nodes[p].loop.r;
    ConfSum(c, s.nodes[p].inbox, r);
    ConfCount(c, F, s, p, r, [0]);
    ConfCount(c, F, s, p, r, [1]);
    ConfCount(c, F, s, p, r, [0, 1]);
  }

  lemma LeavesIn(c: Config, F: Faults, s: System, p: nat)
    requires Inv(c, F, s) && Live(c, F, s) && AllAux(F, s) && p in F.honest && Active(s.nodes[p]) && Hears(s, p)
    ensures CanStep(c, s.nodes[p]) <==> Leaves(c, F, s, p)
  {
    var n := s.nodes[p];
    var r := n.loop.r;
    NodeSteps(c, F, s, p);
    forall v ensures v in At(n.inbox.bin, r) <==> InBin(c, F, s, p, r, v) {
      BinExactly(c, F, s, p, r, v);
    }
    if n.loop.phase == WaitAux {
      AuxLeaves(c, F, s, p);
    } else if n.loop.phase == WaitConf {
      ConfLeaves(c, F, s, p);
    }
  }

  lemma NodeSteps(c: Config, F: Faults, s: System, p: nat)
    requires Inv(c, F, s) && p in F.honest && Active(s.nodes[p])
    ensures var n := s.nodes[p]; CanStep(c, n) <==> BoxLeaves(c, n.inbox, n.loop.r, n.loop.phase)
  {
    var n := s.nodes[p];
    assert NodeInv(c, F, s.sent, n);
    BinBits(c, F, s.sent, n, n.loop.r);
    StepsExactly(c, n);
  }

  // ---------- no help, no step ----------

  /** No message of a Byzantine node is delivered. */
  predicate Silent(F: Faults, es: seq<Event>) {
    forall e :: e in es && e.Deliver? ==> e.from in F.honest
  }

  /** Node q will send no more messages that node n waits for: it is past this wait of round r, or has quit. */
  ghost predicate Spent(n: Node, r: nat, phase: Phase) {
    n.loop.phase == Quit || AtLeast(n, r, phase)
  }

  // Messages of round r up to the kind that is waited for.
  predicate Counts(m: Message, r: nat, phase: Phase) {
    m.round == r && (m.Est? || (m.Aux? && phase != WaitBin) || (m.Conf? && phase == WaitConf))
  }

  // Nothing of round r is under way: no EST to a receive loop that runs, nothing that counts to node p.
  ghost predicate Quiet(s: System, p: nat, r: nat, phase: Phase)
    requires p in s.nodes
  {
    && (forall q, x :: q in s.nodes && s.nodes[q].receiving && x in s.sent && x.1.Est? && x.1.round == r ==> Recorded(s.nodes[q], x.0, x.1))
    && (forall x :: x in s.sent && Counts(x.1, r, phase) ==> Recorded(s.nodes[p], x.0, x.1))
  }

  // What node n waits with is the same in n'.
  ghost predicate SameWait(n: Node, n': Node, r: nat, phase: Phase) {
    && n'.loop == n.loop && At(n'.inbox.bin, r) == At(n.inbox.bin, r)
    && (phase == WaitAux ==> forall v :: At(n'.inbox.aux, (r, v)) == At(n.inbox.aux, (r, v)))
    && (phase == WaitConf ==> forall b :: At(n'.inbox.conf, (r, b)) == At(n.inbox.conf, (r, b)))
  }

  lemma SameLeaves(c: Config, n: Node, n': Node, r: nat, phase: Phase)
    requires SameWait(n, n', r, phase)
    ensures BoxLeaves(c, n'.inbox, r, phase) <==> BoxLeaves(c, n.inbox, r, phase)
  {
  }

  // A message of round r that is recorded, or one that does not count, leaves node n where it waits.
  lemma ReceiveSame(c: Config, n: Node, from: nat, m: Message, r: nat, phase: Phase)
    requires phase in {WaitBin, WaitAux, WaitConf} && (Counts(m, r, phase) ==> Recorded(n, from, m))
    requires m.Est? ==> Thresholds(c, n, m.round, m.v)
    ensures SameWait(n, Receive(c, n, from, m).0, r, phase)
  {
    match m
    case Est(k, v) => EstSame(c, n, from, k, v, r, phase);
    case Aux(_, _) =>
    case Conf(_, _) =>
  }

  lemma EstSame(c: Config, n: Node, from: nat, k: nat, v: int, r: nat, phase: Phase)
    requires k == r ==> from in At(n.inbox.est, (k, v))
    requires Thresholds(c, n, k, v)
    ensures SameWait(n, OnEst(c, n, from, k, v).0, r, phase)
  {
    EstRest(c, n, from, k, v);
    EstBin(c, n, from, k, v, r);
  }

  lemma EstRest(c: Config, n: Node, from: nat, k: nat, v: int)
    ensures var n' := OnEst(c, n, from, k, v).0;
      && n'.loop == n.loop && n'.inbox.aux == n.inbox.aux && n'.inbox.conf == n.inbox.conf
      && (n'.inbox == n.inbox || n'.inbox == AddEst(c, n.inbox, from, k, v))
  {
    var box := AddEst(c, n.inbox, from, k, v);
    if Bit(v) && !(from in At(n.inbox.est, (k, v)) && !c.biased) {
      BoxRest(c, n.inbox, from, k, v);
      var n' := OnEst(c, n, from, k, v).0;
      assert n'.inbox == box;
    }
  }

  lemma BoxRest(c: Config, b: Inbox, from: nat, k: nat, v: int)
    ensures AddEst(c, b, from, k, v).aux == b.aux && AddEst(c, b, from, k, v).conf == b.conf
  {
  }

  lemma EstBin(c: Config, n: Node, from: nat, k: nat, v: int, r: nat)
    requires k == r ==> from in At(n.inbox.est, (k, v))
    requires Thresholds(c, n, k, v)
    ensures At(OnEst(c, n, from, k, v).0.inbox.bin, r) == At(n.inbox.bin, r)
  {
    EstRest(c, n, from, k, v);
    AddBin(c, n, from, k, v, r);
  }

  lemma AddBin(c: Config, n: Node, from: nat, k: nat, v: int, r: nat)
    requires k == r ==> from in At(n.inbox.est, (k, v))
    requires Thresholds(c, n, k, v)
    ensures At(AddEst(c, n.inbox, from, k, v).bin, r) == At(n.inbox.bin, r)
  {
    var S, bin := At(n.inbox.est, (k, v)), At(n.inbox.bin, k);
    if k == r {
      SameSet(S, from);
      if |S| >= 2 * c.f + 1 {
        SameSet(bin, v);
      }
    }
  }

  lemma SameSet<T>(S: set<T>, x: T)
    requires x in S
    ensures S + {x} == S
  {
  }

  // A node that has spent its messages of this wait sends no more of them.
  ghost predicate NoneCount(out: seq<Message>, r: nat, phase: Phase) {
    forall m :: m in out ==> !Counts(m, r, phase)
  }

  predicate Waits(phase: Phase) {
    phase in {WaitBin, WaitAux, WaitConf}
  }

  lemma InputSpent(n: Node, v: int, r: nat, phase: Phase)
    requires Waits(phase) && Spent(n, r, phase) && Shape(n.loop, n.log)
    ensures Start(n, v) == (n, [])
  {
  }

  lemma EstSpent(c: Config, n: Node, from: nat, k: nat, v: int, r: nat, phase: Phase)
    requires Thresholds(c, n, k, v) && (k == r ==> from in At(n.inbox.est, (k, v)))
    ensures NoneCount(OnEst(c, n, from, k, v).1, r, phase)
  {
    if k == r {
      assert At(n.inbox.est, (k, v)) + {from} == At(n.inbox.est, (k, v));
    }
  }

  lemma CoinSpent(c: Config, n: Node, r: nat, phase: Phase)
    requires Waits(phase) && Spent(n, r, phase) && Shape(n.loop, n.log) && n.loop.phase == WaitCoin
    ensures NoneCount(AfterCoin(c, n).1, r, phase) && Spent(AfterCoin(c, n).0, r, phase)
  {
    var s := CoinAt(c, n.loop.r);
    if n.loop.values == {s} && n.loop.alreadyDecided == Some(s) {
      CoinQuits(c, n);
    } else {
      var d := CoinParts(c, n);
      EnterSpent(d, n.loop.r + 1, NewEst(n.loop.values, s), r, phase);
    }
  }

  lemma EnterSpent(d: Node, k: nat, est: int, r: nat, phase: Phase)
    requires Waits(phase) && |d.log.ests| == k == |d.log.confs| && r < k
    ensures NoneCount(EnterRound(d, k, est).1, r, phase) && Spent(EnterRound(d, k, est).0, r, phase)
  {
  }

  lemma WakeSpent(c: Config, n: Node, w: int, r: nat, phase: Phase)
    requires Waits(phase) && Spent(n, r, phase) && Shape(n.loop, n.log)
    requires forall x :: x in n.loop.confSent ==> x.0 < |n.log.confs|
    ensures NoneCount(Resume(c, n, w).1, r, phase) && Spent(Resume(c, n, w).0, r, phase)
  {
    if n.loop.phase == WaitCoin {
      CoinSpent(c, n, r, phase);
    }
  }

  lemma ReceiveSpent(c: Config, n: Node, from: nat, m: Message, r: nat, phase: Phase)
    requires Waits(phase) && Spent(n, r, phase)
    requires m.Est? ==> Thresholds(c, n, m.round, m.v)
    requires n.receiving && m.Est? && m.round == r ==> Recorded(n, from, m)
    ensures NoneCount(Receive(c, n, from, m).1, r, phase) && Spent(Receive(c, n, from, m).0, r, phase)
  {
    if m.Est? && n.receiving {
      EstSpent(c, n, from, m.round, m.v, r, phase);
    }
    LoopKept(c, n, from, m);
  }

  lemma LoopKept(c: Config, n: Node, from: nat, m: Message)
    ensures var n' := Receive(c, n, from, m).0; n'.loop == n.loop && n'.log == n.log && (n'.receiving ==> n.receiving)
  {
  }

  // Inboxes only grow.
  ghost predicate More(b: Inbox, b': Inbox) {
    && (forall k :: At(b.est, k) <= At(b'.est, k))
    && (forall k :: At(b.aux, k) <= At(b'.aux, k))
    && (forall k :: At(b.conf, k) <= At(b'.conf, k))
  }

  lemma EstMore(c: Config, n: Node, from: nat, r: nat, v: int)
    ensures var n' := OnEst(c, n, from, r, v).0; More(n.inbox, n'.inbox) && (n'.receiving ==> n.receiving)
  {
  }

  lemma AuxConfMore(c: Config, n: Node, from: nat, m: Message)
    requires !m.Est?
    ensures var n' := Receive(c, n, from, m).0; More(n.inbox, n'.inbox) && (n'.receiving ==> n.receiving)
  {
  }

  lemma QuietMore(c: Config, n: Node, e: Event)
    requires !e.Deliver?
    ensures Local(c, n, e).0.inbox == n.inbox && (Local(c, n, e).0.receiving ==> n.receiving)
  {
  }

  // What is recorded stays recorded, and a receive loop that has ended stays so.
  lemma LocalMore(c: Config, n: Node, e: Event)
    ensures var n' := Local(c, n, e).0; More(n.inbox, n'.inbox) && (n'.receiving ==> n.receiving)
  {
    if !e.Deliver? {
      QuietMore(c, n, e);
    } else if e.m.Est? {
      EstMore(c, n, e.from, e.m.round, e.m.v);
    } else {
      AuxConfMore(c, n, e.from, e.m);
    }
  }

  lemma RecordedMore(n: Node, n': Node, q: nat, m: Message)
    requires More(n.inbox, n'.inbox) && Recorded(n, q, m)
    ensures Recorded(n', q, m)
  {
  }

  // ---------- the whole system ----------

  /** Node p cannot leave its wait of round r, and nothing that could change this is under way. */
  ghost predicate Held(c: Config, F: Faults, s: System, p: nat, l: Loop) {
    && s.nodes.Keys == F.honest && p in F.honest && Waits(l.phase)
    && s.nodes[p].loop == l && !BoxLeaves(c, s.nodes[p].inbox, l.r, l.phase)
    && (forall q :: q in F.honest ==> Spent(s.nodes[q], l.r, l.phase))
    && Quiet(s, p, l.r, l.phase)
  }

  lemma LocalSpent(c: Config, F: Faults, s: System, e: Event, p: nat, l: Loop)
    requires Inv(c, F, s) && Live(c, F, s) && Held(c, F, s, p, l) && Enabled(c, F, s, e)
    requires e.Deliver? ==> e.from in F.honest
    ensures var (n', out) := Local(c, s.nodes[e.p], e); NoneCount(out, l.r, l.phase) && Spent(n', l.r, l.phase)
  {
    var n := s.nodes[e.p];
    assert NodeInv(c, F, s.sent, n) && NodeLive(c, s.sent, e.p, n) && Spent(n, l.r, l.phase);
    match e
    case Input(_, v) => InputSpent(n, v, l.r, l.phase);
    case Deliver(_, from, m) =>
      assert m.Est? ==> Thresholds(c, n, m.round, m.v);
      ReceiveSpent(c, n, from, m, l.r, l.phase);
    case Wake(_, w) => WakeSpent(c, n, w, l.r, l.phase);
  }

  // A node that cannot leave does not move when it is woken.
  lemma WakeSame(c: Config, n: Node, w: int)
    requires Waits(n.loop.phase) && !BoxLeaves(c, n.inbox, n.loop.r, n.loop.phase)
    requires forall v :: v in At(n.inbox.bin, n.loop.r) ==> Bit(v)
    ensures Resume(c, n, w) == (n, [])
  {
  }

  lemma LocalSame(c: Config, F: Faults, s: System, e: Event, p: nat, l: Loop)
    requires Inv(c, F, s) && Live(c, F, s) && Held(c, F, s, p, l) && Enabled(c, F, s, e) && e.p == p
    requires e.Deliver? ==> e.from in F.honest
    ensures SameWait(s.nodes[p], Local(c, s.nodes[p], e).0, l.r, l.phase)
  {
    var n := s.nodes[p];
    assert NodeInv(c, F, s.sent, n) && NodeLive(c, s.sent, p, n);
    match e
    case Input(_, v) => InputSpent(n, v, l.r, l.phase);
    case Deliver(_, from, m) =>
      assert m.Est? ==> Thresholds(c, n, m.round, m.v);
      ReceiveSame(c, n, from, m, l.r, l.phase);
    case Wake(_, w) =>
      BinBits(c, F, s.sent, n, l.r);
      WakeSame(c, n, w);
  }

  lemma QuietStep(c: Config, s: System, p: nat, q: nat, n': Node, out: seq<Message>, r: nat, phase: Phase, s': System)
    requires p in s.nodes && q in s.nodes && Quiet(s, p, r, phase) && Waits(phase) && NoneCount(out, r, phase)
    requires More(s.nodes[q].inbox, n'.inbox) && (n'.receiving ==> s.nodes[q].receiving)
    requires s' == System(s.nodes[q := n'], s.sent + Sending(q, out))
    ensures Quiet(s', p, r, phase)
  {
    forall q', x | q' in s'.nodes && s'.nodes[q'].receiving && x in s'.sent && x.1.Est? && x.1.round == r
      ensures Recorded(s'.nodes[q'], x.0, x.1)
    {
      assert Counts(x.1, r, phase);
      assert Recorded(s.nodes[q'], x.0, x.1);
      if q' == q {
        RecordedMore(s.nodes[q], n', x.0, x.1);
      }
    }
    forall x | x in s'.sent && Counts(x.1, r, phase) ensures Recorded(s'.nodes[p], x.0, x.1) {
      assert Recorded(s.nodes[p], x.0, x.1);
      if p == q {
        RecordedMore(s.nodes[p], n', x.0, x.1);
      }
    }
  }

  lemma HeldUpdate(c: Config, F: Faults, s: System, q: nat, n': Node, out: seq<Message>, s': System, p: nat, l: Loop)
    requires Held(c, F, s, p, l) && q in F.honest && NoneCount(out, l.r, l.phase) && Spent(n', l.r, l.phase)
    requires More(s.nodes[q].inbox, n'.inbox) && (n'.receiving ==> s.nodes[q].receiving)
    requires q == p ==> SameWait(s.nodes[p], n', l.r, l.phase)
    requires s' == System(s.nodes[q := n'], s.sent + Sending(q, out))
    ensures Held(c, F, s', p, l)
  {
    QuietStep(c, s, p, q, n', out, l.r, l.phase, s');
    if q == p {
      SameLeaves(c, s.nodes[p], n', l.r, l.phase);
    }
  }

  lemma StepHeld(c: Config, F: Faults, s: System, e: Event, p: nat, l: Loop)
    requires Inv(c, F, s) && Live(c, F, s) && Held(c, F, s, p, l) && Enabled(c, F, s, e)
    requires e.Deliver? ==> e.from in F.honest
    ensures Held(c, F, Apply(c, s, e), p, l)
  {
    var (n', out) := Local(c, s.nodes[e.p], e);
    LocalSpent(c, F, s, e, p, l);
    LocalMore(c, s.nodes[e.p], e);
    if e.p == p {
      LocalSame(c, F, s, e, p, l);
    }
    HeldUpdate(c, F, s, e.p, n', out, Apply(c, s, e), p, l);
  }

  lemma RunLast(c: Config, F: Faults, es: seq<Event>, e: Event)
    requires Run(c, F, es + [e]).Some?
    ensures Run(c, F, es).Some?
    ensures var s := Run(c, F, es).value; Enabled(c, F, s, e) && Run(c, F, es + [e]) == Some(Apply(c, s, e))
  {
    assert (es + [e])[..|es + [e]| - 1] == es;
  }

  lemma LastHeld(c: Config, F: Faults, es: seq<Event>, e: Event, p: nat, l: Loop)
    requires Valid(c, F) && Run(c, F, es + [e]).Some? && (e.Deliver? ==> e.from in F.honest)
    requires Run(c, F, es).Some? && Held(c, F, Run(c, F, es).value, p, l)
    ensures Held(c, F, Run(c, F, es + [e]).value, p, l)
  {
    RunLast(c, F, es, e);
    RunInv(c, F, es);
    RunLive(c, F, es);
    StepHeld(c, F, Run(c, F, es).value, e, p, l);
  }

  lemma {:induction false} RunHeld(c: Config, F: Faults, es: seq<Event>, more: seq<Event>, p: nat, l: Loop)
    requires Valid(c, F) && Run(c, F, es).Some? && Held(c, F, Run(c, F, es).value, p, l)
    requires Silent(F, more) && Run(c, F, es + more).Some?
    ensures Held(c, F, Run(c, F, es + more).value, p, l)
  {
    if more == [] {
      SplitNone(es);
    } else {
      var init, e := more[..|more| - 1], more[|more| - 1];
      SplitLast(es, more);
      RunLast(c, F, es + init, e);
      RunHeld(c, F, es, init, p, l);
      LastHeld(c, F, es + init, e, p, l);
    }
  }

  /** Nothing that counts is under way: every honest message is recorded by node p and by every receive loop that runs. */
  ghost predicate Heard(F: Faults, s: System, p: nat)
    requires s.nodes.Keys == F.honest && p in F.honest
  {
    Hears(s, p) && forall q :: q in F.honest && s.nodes[q].receiving ==> Hears(s, q)
  }

  /**
   Blocked for good: when no honest node is behind node p except those that have
   quit, all honest messages are recorded and p cannot leave its wait, it stays in
   that wait until a message of a Byzantine node is delivered.
   */
  lemma BlockedForGood(c: Config, F: Faults, es: seq<Event>, s: System, p: nat, more: seq<Event>, s': System)
    requires Valid(c, F) && Run(c, F, es) == Some(s) && s.nodes.Keys == F.honest && p in F.honest && Heard(F, s, p)
    requires Active(s.nodes[p]) && !CanStep(c, s.nodes[p])
    requires forall q :: q in F.honest ==> Spent(s.nodes[q], s.nodes[p].loop.r, s.nodes[p].loop.phase)
    requires Silent(F, more) && Run(c, F, es + more) == Some(s')
    ensures p in s'.nodes && s'.nodes[p].loop == s.nodes[p].loop && !CanStep(c, s'.nodes[p])
  {
    RunInv(c, F, es);
    HeldNow(c, F, s, p);
    RunHeld(c, F, es, more, p, s.nodes[p].loop);
    RunInv(c, F, es + more);
    NodeSteps(c, F, s', p);
  }

  lemma HeldNow(c: Config, F: Faults, s: System, p: nat)
    requires Inv(c, F, s) && p in F.honest && Heard(F, s, p) && Active(s.nodes[p]) && !CanStep(c, s.nodes[p])
    requires forall q :: q in F.honest ==> Spent(s.nodes[q], s.nodes[p].loop.r, s.nodes[p].loop.phase)
    ensures Held(c, F, s, p, s.nodes[p].loop)
  {
    NodeSteps(c, F, s, p);
  }

  /** With everybody active or quit, a node that is last and blocked is blocked by a quit. */
  lemma BlockedByQuit(c: Config, F: Faults, es: seq<Event>, s: System, p: nat) returns (q: nat)
    requires Valid(c, F) && Run(c, F, es) == Some(s) && s.nodes.Keys == F.honest && p in F.honest
    requires Active(s.nodes[p]) && !CanStep(c, s.nodes[p])
    requires forall q :: q in F.honest && s.nodes[q].loop.phase != Quit ==> Active(s.nodes[q]) && Hears(s, q)
    requires forall q :: q in F.honest && Active(s.nodes[q]) ==> Progress(s.nodes[p]) <= Progress(s.nodes[q])
    ensures q in F.honest && s.nodes[q].loop.phase == Quit
  {
    if forall q' :: q' in F.honest ==> s.nodes[q'].loop.phase != Quit {
      LastCanStep(c, F, es, s, p);
      assert false;
    }
    q :| q in F.honest && s.nodes[q].loop.phase == Quit;
  }
}
