/**
 When two-value agreement blocks. A node never sends a second CONF, waits for
 N - f CONFs equal to its current int_values, and does not count an EST of its
 own that it has only relayed. Exact conditions for leaving the waits once all
 messages between honest nodes are recorded, for inputs x and x + 1.
 */
module TwoValueProgress {
  import opened FiniteSets
  import opened Quorums
  import opened Options
  import opened Tables
  import opened TwoValueAgreement
  import opened TwoValueSafety

  /** Node n counts message m of node q. */
  predicate Recorded(n: Node, q: nat, m: Message) {
    match m
    case Est(r, v) => q in At(n.inbox.est, (r, v))
    case Aux(r, v) => q in At(n.inbox.aux, (r, v))
    case Conf(r, b) => q in At(n.inbox.conf, (r, b))
    case Finish(_) => true
  }

  /** Quiescence: every EST, AUX and CONF of an honest node is recorded by every other honest node. */
  ghost predicate AllRecorded(F: Faults, s: System)
    requires s.nodes.Keys == F.honest
  {
    forall p, x :: p in F.honest && x in s.sent && x.0 != p ==> Recorded(s.nodes[p], x.0, x.1)
  }

  /** The node has its input and has neither failed nor ended. */
  predicate Active(n: Node) {
    n.loop.phase in {WaitInt, WaitAux, WaitConf, WaitCoin}
  }

  /** The main loop of node p can leave its wait. */
  ghost predicate CanStep(c: Config, p: nat, n: Node) {
    exists w :: Resume(c, p, n, w).0.loop != n.loop
  }

  /** How far a node is: its round, then its wait. */
  function Progress(n: Node): nat {
    4 * n.loop.r + match n.loop.phase case WaitAux => 1 case WaitConf => 2 case WaitCoin => 3 case _ => 0
  }

  // ---------- what a node has sent and counted ----------

  // f + 1 ESTs are relayed; 2f + 1 enter int_values, as far as the last one was received.
  ghost predicate Thresholds(c: Config, p: nat, n: Node, r: nat, v: int) {
    var S := At(n.inbox.est, (r, v));
    && (|S| >= c.f + 1 ==> (r, v) in n.estSent)
    && (|S - {p}| >= 2 * c.f + 1 ==> v in At(n.inbox.ints, r))
    && (c.f >= 1 && |S| >= 2 * c.f + 1 ==> v in At(n.inbox.ints, r))
  }

  ghost predicate EstLive(c: Config, sent: set<(nat, Message)>, p: nat, n: Node) {
    && (forall r: nat, v :: HasEst(n, r, v) ==> (r, v) in n.estSent)
    && (forall x :: x in n.estSent ==> (p, Est(x.0, x.1)) in sent)
    && (forall r: nat, v :: Thresholds(c, p, n, r, v))
  }

  // The AUX of round k has been sent.
  predicate PastInt(n: Node, k: nat) {
    k < |n.log.confs| || (k == n.loop.r && n.loop.phase == WaitAux)
  }

  ghost predicate AuxSent(sent: set<(nat, Message)>, p: nat, box: Inbox, k: nat) {
    exists w :: (p, Aux(k, w)) in sent && p in At(box.aux, (k, w)) && w in At(box.ints, k)
  }

  ghost predicate AuxLive(sent: set<(nat, Message)>, p: nat, n: Node) {
    forall k: nat :: PastInt(n, k) ==> AuxSent(sent, p, n.inbox, k)
  }

  ghost predicate ConfSentOk(sent: set<(nat, Message)>, p: nat, box: Inbox, k: nat, b: set<int>) {
    (p, Conf(k, b)) in sent && p in At(box.conf, (k, b))
  }

  ghost predicate ConfLive(sent: set<(nat, Message)>, p: nat, n: Node) {
    forall k: nat :: k < |n.log.confs| ==> ConfSentOk(sent, p, n.inbox, k, n.log.confs[k])
  }

  ghost predicate NodeLive(c: Config, sent: set<(nat, Message)>, p: nat, n: Node) {
    EstLive(c, sent, p, n) && AuxLive(sent, p, n) && ConfLive(sent, p, n)
  }

  // ---------- one node ----------

  // What inboxes keep.
  ghost predicate Keeps(b: Inbox, b': Inbox) {
    Grows(b, b') && forall k :: At(b.aux, k) <= At(b'.aux, k)
  }

  // Past AUX and CONF messages stay.
  lemma PastKept(sent: set<(nat, Message)>, sent': set<(nat, Message)>, p: nat, b: Inbox, b': Inbox)
    requires sent <= sent' && Keeps(b, b')
    ensures forall k: nat :: AuxSent(sent, p, b, k) ==> AuxSent(sent', p, b', k)
    ensures forall k: nat, w :: ConfSentOk(sent, p, b, k, w) ==> ConfSentOk(sent', p, b', k, w)
  {
    forall k: nat | AuxSent(sent, p, b, k) ensures AuxSent(sent', p, b', k) {
      var w :| (p, Aux(k, w)) in sent && p in At(b.aux, (k, w)) && w in At(b.ints, k);
      assert (p, Aux(k, w)) in sent' && p in At(b'.aux, (k, w)) && w in At(b'.ints, k);
    }
  }

  // Only EST messages are new: inbox and EST messages sent.
  lemma EstOnly(c: Config, sent: set<(nat, Message)>, sent': set<(nat, Message)>, p: nat, n: Node, n': Node)
    requires NodeLive(c, sent, p, n) && sent <= sent' && Keeps(n.inbox, n'.inbox)
    requires n'.log.confs == n.log.confs && EstLive(c, sent', p, n')
    requires forall k: nat :: PastInt(n', k) ==> PastInt(n, k)
    ensures NodeLive(c, sent', p, n')
  {
    PastKept(sent, sent', p, n.inbox, n'.inbox);
    forall k: nat | PastInt(n', k) ensures AuxSent(sent', p, n'.inbox, k) {
      assert AuxSent(sent, p, n.inbox, k);
    }
    forall k: nat | k < |n'.log.confs| ensures ConfSentOk(sent', p, n'.inbox, k, n'.log.confs[k]) {
      assert ConfSentOk(sent, p, n.inbox, k, n.log.confs[k]);
    }
  }

  // One key of est_values after a new EST.
  lemma ReceivedKey(c: Config, p: nat, n: Node, from: nat, r: nat, v: int, r': nat, v': int)
    requires Thresholds(c, p, n, r', v')
    ensures Thresholds(c, p, OnEst(c, n, from, r, v).0, r', v')
  {
    var n' := OnEst(c, n, from, r, v).0;
    OnEstParts(c, n, from, r, v);
    if n' == n || r' != r || v' != v {
      KeyKept(c, p, n, n', r', v');
    } else {
      var S := At(n'.inbox.est, (r, v));
      SubsetSize(S - {p}, S);
      KeyReached(c, p, n', r, v);
    }
  }

  lemma OnEstParts(c: Config, n: Node, from: nat, r: nat, v: int)
    ensures var n' := OnEst(c, n, from, r, v).0;
      && n.estSent <= n'.estSent
      && (forall k :: k != (r, v) ==> At(n'.inbox.est, k) == At(n.inbox.est, k))
      && (forall k :: At(n.inbox.ints, k) <= At(n'.inbox.ints, k))
      && (n' != n ==>
        && (|At(n'.inbox.est, (r, v))| >= c.f + 1 ==> (r, v) in n'.estSent)
        && (|At(n'.inbox.est, (r, v))| >= 2 * c.f + 1 ==> v in At(n'.inbox.ints, r)))
  {
  }

  lemma KeyKept(c: Config, p: nat, n: Node, n': Node, r: nat, v: int)
    requires Thresholds(c, p, n, r, v) && At(n'.inbox.est, (r, v)) == At(n.inbox.est, (r, v))
    requires n.estSent <= n'.estSent && At(n.inbox.ints, r) <= At(n'.inbox.ints, r)
    ensures Thresholds(c, p, n', r, v)
  {
  }

  lemma KeyReached(c: Config, p: nat, n: Node, r: nat, v: int)
    requires var S := At(n.inbox.est, (r, v));
      && |S - {p}| <= |S|
      && (|S| >= c.f + 1 ==> (r, v) in n.estSent) && (|S| >= 2 * c.f + 1 ==> v in At(n.inbox.ints, r))
    ensures Thresholds(c, p, n, r, v)
  {
  }

  lemma EstGrowth(c: Config, n: Node, from: nat, r: nat, v: int)
    ensures Keeps(n.inbox, OnEst(c, n, from, r, v).0.inbox)
  {
    EstGrows(c, n.inbox, from, r, v, AddEst(c, n.inbox, from, r, v));
  }

  lemma EstStep(c: Config, sent: set<(nat, Message)>, p: nat, n: Node, from: nat, r: nat, v: int)
    requires NodeLive(c, sent, p, n)
    ensures var (n', out) := OnEst(c, n, from, r, v); NodeLive(c, sent + Sending(p, out), p, n')
  {
    var (n', out) := OnEst(c, n, from, r, v);
    var sent' := sent + Sending(p, out);
    if out != [] {
      assert Est(r, v) in out;
      assert (p, Est(r, v)) in sent';
    }
    forall r': nat, v' ensures Thresholds(c, p, n', r', v') {
      assert Thresholds(c, p, n, r', v');
      ReceivedKey(c, p, n, from, r, v, r', v');
    }
    EstGrowth(c, n, from, r, v);
    EstOnly(c, sent, sent', p, n, n');
  }

  // A step that leaves EST messages, int_values and the rounds alone.
  lemma QuietStep(c: Config, sent: set<(nat, Message)>, sent': set<(nat, Message)>, p: nat, n: Node, n': Node)
    requires NodeLive(c, sent, p, n) && sent <= sent' && n'.inbox.est == n.inbox.est && n'.inbox.ints == n.inbox.ints
    requires Keeps(n.inbox, n'.inbox) && n'.estSent == n.estSent && n'.log.ests == n.log.ests && n'.log.confs == n.log.confs
    requires forall k: nat :: PastInt(n', k) ==> PastInt(n, k)
    ensures NodeLive(c, sent', p, n')
  {
    forall r: nat, v ensures Thresholds(c, p, n', r, v) {
      assert Thresholds(c, p, n, r, v);
    }
    forall r: nat, v | HasEst(n', r, v) ensures (r, v) in n'.estSent {
      assert HasEst(n, r, v);
    }
    EstOnly(c, sent, sent', p, n, n');
  }

  lemma ReceiveStep(c: Config, sent: set<(nat, Message)>, p: nat, n: Node, from: nat, m: Message)
    requires NodeLive(c, sent, p, n)
    ensures var (n', out) := Receive(c, n, from, m); NodeLive(c, sent + Sending(p, out), p, n')
  {
    var (n', out) := Receive(c, n, from, m);
    if m.Est? && n.receiving && from < c.N {
      EstStep(c, sent, p, n, from, m.round, m.v);
    } else {
      ReceiveKeeps(c, n, from, m);
      QuietStep(c, sent, sent + Sending(p, out), p, n, n');
    }
  }

  lemma ReceiveKeeps(c: Config, n: Node, from: nat, m: Message)
    requires !(m.Est? && n.receiving && from < c.N)
    ensures var n' := Receive(c, n, from, m).0;
      && Keeps(n.inbox, n'.inbox) && n'.inbox.est == n.inbox.est && n'.inbox.ints == n.inbox.ints
      && n'.estSent == n.estSent && n'.log.ests == n.log.ests && n'.log.confs == n.log.confs && n'.loop == n.loop
  {
  }

  // The node's own EST: it is counted only while fewer than f + 1 others are.
  lemma OwnKey(c: Config, p: nat, n: Node, r: nat, est: int, r': nat, v': int)
    requires Thresholds(c, p, n, r, est) && Thresholds(c, p, n, r', v') && (r, est) !in n.estSent
    ensures Thresholds(c, p, EnterRound(c, p, n, r, est).0, r', v')
  {
    var n' := EnterRound(c, p, n, r, est).0;
    assert n'.inbox.ints == n.inbox.ints && n'.estSent == n.estSent + {(r, est)};
    if r' != r || v' != est {
      assert At(n'.inbox.est, (r', v')) == At(n.inbox.est, (r', v'));
      KeyKept(c, p, n, n', r', v');
    } else {
      var S := At(n.inbox.est, (r, est));
      assert At(n'.inbox.est, (r, est)) == S + {p} && (S + {p}) - {p} == S - {p};
      assert |S + {p}| <= |S| + 1;
    }
  }

  // All keys when round r is entered.
  lemma EnterKeys(c: Config, p: nat, n: Node, r: nat, est: int, r': nat, v': int)
    requires Thresholds(c, p, n, r, est) && Thresholds(c, p, n, r', v')
    ensures Thresholds(c, p, EnterRound(c, p, n, r, est).0, r', v')
  {
    if (r, est) !in n.estSent {
      OwnKey(c, p, n, r, est, r', v');
    } else {
      KeyKept(c, p, n, EnterRound(c, p, n, r, est).0, r', v');
    }
  }

  lemma EnterKeeps(c: Config, p: nat, n: Node, r: nat, est: int)
    ensures Keeps(n.inbox, EnterRound(c, p, n, r, est).0.inbox)
  {
  }

  lemma EnterSent(c: Config, sent: set<(nat, Message)>, p: nat, n: Node, r: nat, est: int)
    requires forall x :: x in n.estSent ==> (p, Est(x.0, x.1)) in sent
    ensures var (n', out) := EnterRound(c, p, n, r, est);
      (r, est) in n'.estSent && forall x :: x in n'.estSent ==> (p, Est(x.0, x.1)) in sent + Sending(p, out)
  {
    var (n', out) := EnterRound(c, p, n, r, est);
    if out != [] {
      assert Est(r, est) in out;
      assert (p, Est(r, est)) in sent + Sending(p, out);
    }
  }

  lemma EnterEst(c: Config, sent: set<(nat, Message)>, p: nat, n: Node, r: nat, est: int)
    requires EstLive(c, sent, p, n) && |n.log.ests| == r
    ensures var (n', out) := EnterRound(c, p, n, r, est); EstLive(c, sent + Sending(p, out), p, n')
  {
    var (n', out) := EnterRound(c, p, n, r, est);
    EnterSent(c, sent, p, n, r, est);
    forall r': nat, v' | HasEst(n', r', v') ensures (r', v') in n'.estSent {
      assert r' < r ==> HasEst(n, r', v');
    }
    forall r': nat, v' ensures Thresholds(c, p, n', r', v') {
      assert Thresholds(c, p, n, r', v') && Thresholds(c, p, n, r, est);
      EnterKeys(c, p, n, r, est, r', v');
    }
  }

  // A decision changes nothing of this.
  lemma SameEst(c: Config, sent: set<(nat, Message)>, p: nat, n: Node, d: Node)
    requires EstLive(c, sent, p, n) && d.inbox == n.inbox && d.estSent == n.estSent && d.log.ests == n.log.ests
    ensures EstLive(c, sent, p, d)
  {
    forall r: nat, v | HasEst(d, r, v) ensures (r, v) in d.estSent {
      assert HasEst(n, r, v);
    }
    forall r: nat, v ensures Thresholds(c, p, d, r, v) {
      assert Thresholds(c, p, n, r, v);
    }
  }

  lemma MoreSent(c: Config, sent: set<(nat, Message)>, sent': set<(nat, Message)>, p: nat, n: Node)
    requires EstLive(c, sent, p, n) && sent <= sent'
    ensures EstLive(c, sent', p, n)
  {
  }

  // Entering round r; d is n, perhaps after a decision.
  lemma EnterStep(c: Config, sent: set<(nat, Message)>, p: nat, n: Node, d: Node, r: nat, est: int, out0: seq<Message>)
    requires NodeLive(c, sent, p, n) && d.inbox == n.inbox && d.estSent == n.estSent
    requires d.log.ests == n.log.ests && d.log.confs == n.log.confs && |n.log.ests| == r && n.loop.phase != WaitAux
    ensures var (n', out) := EnterRound(c, p, d, r, est); NodeLive(c, sent + Sending(p, out0 + out), p, n')
  {
    var (n', out) := EnterRound(c, p, d, r, est);
    var sent' := sent + Sending(p, out0 + out);
    SameEst(c, sent, p, n, d);
    EnterEst(c, sent, p, d, r, est);
    EnterKeeps(c, p, d, r, est);
    forall m | m in out ensures m in out0 + out {}
    assert Sending(p, out) <= Sending(p, out0 + out);
    MoreSent(c, sent + Sending(p, out), sent', p, n');
    EstOnly(c, sent, sent', p, n, n');
  }

  lemma IntStep(c: Config, sent: set<(nat, Message)>, p: nat, n: Node, w: int)
    requires NodeLive(c, sent, p, n) && n.loop.phase == WaitInt
    ensures var (n', out) := Resume(c, p, n, w); NodeLive(c, sent + Sending(p, out), p, n')
  {
    var (n', out) := Resume(c, p, n, w);
    var sent', r := sent + Sending(p, out), n.loop.r;
    forall r': nat, v ensures Thresholds(c, p, n', r', v) {
      assert Thresholds(c, p, n, r', v);
    }
    PastKept(sent, sent', p, n.inbox, n'.inbox);
    forall k: nat | PastInt(n', k) ensures AuxSent(sent', p, n'.inbox, k) {
      if PastInt(n, k) {
        assert AuxSent(sent, p, n.inbox, k);
      } else {
        assert Aux(r, w) in out;
        assert (p, Aux(r, w)) in sent' && p in At(n'.inbox.aux, (r, w));
      }
    }
    forall k: nat | k < |n'.log.confs| ensures ConfSentOk(sent', p, n'.inbox, k, n'.log.confs[k]) {
      assert ConfSentOk(sent, p, n.inbox, k, n.log.confs[k]);
    }
  }

  lemma ConfStep(c: Config, sent: set<(nat, Message)>, p: nat, n: Node)
    requires NodeLive(c, sent, p, n) && n.loop.phase == WaitAux && |n.log.confs| == n.loop.r
    requires forall x :: x in n.loop.confSent ==> x.0 < |n.log.confs|
    ensures var (n', out) := ToConf(p, n); NodeLive(c, sent + Sending(p, out), p, n')
  {
    var (n', out) := ToConf(p, n);
    var sent', r, ints := sent + Sending(p, out), n.loop.r, At(n.inbox.ints, n.loop.r);
    assert Conf(r, ints) in out;
    assert (p, Conf(r, ints)) in sent';
    ConfGrows(n.inbox, p, r, ints);
    forall r': nat, v ensures Thresholds(c, p, n', r', v) {
      assert Thresholds(c, p, n, r', v);
    }
    PastKept(sent, sent', p, n.inbox, n'.inbox);
    forall k: nat | PastInt(n', k) ensures AuxSent(sent', p, n'.inbox, k) {
      assert PastInt(n, k);
      assert AuxSent(sent, p, n.inbox, k);
    }
    forall k: nat | k < |n'.log.confs| ensures ConfSentOk(sent', p, n'.inbox, k, n'.log.confs[k]) {
      if k < r {
        assert ConfSentOk(sent, p, n.inbox, k, n.log.confs[k]);
      }
    }
  }

  lemma CoinStep(c: Config, sent: set<(nat, Message)>, p: nat, n: Node)
    requires NodeLive(c, sent, p, n) && Shape(n.inbox, n.loop, n.log) && n.loop.phase == WaitCoin
    ensures var (n', out) := AfterCoin(c, p, n); NodeLive(c, sent + Sending(p, out), p, n')
  {
    var (n', out) := AfterCoin(c, p, n);
    if |n.loop.values| != 1 && !Consecutive(n.loop.values) {
      QuietStep(c, sent, sent + Sending(p, out), p, n, n');
    } else {
      var d, est, out0 := CoinParts(c, p, n);
      EnterStep(c, sent, p, n, d, n.loop.r + 1, est, out0);
    }
  }

  lemma ResumeStep(c: Config, sent: set<(nat, Message)>, p: nat, n: Node, w: int)
    requires NodeLive(c, sent, p, n) && Shape(n.inbox, n.loop, n.log) && LogInv(c, n.inbox, n.loop.confSent, n.log)
    ensures var (n', out) := Resume(c, p, n, w); NodeLive(c, sent + Sending(p, out), p, n')
  {
    var (n', out) := Resume(c, p, n, w);
    if n.loop.phase == WaitInt {
      IntStep(c, sent, p, n, w);
    } else if n.loop.phase == WaitAux && n'.loop.phase == WaitConf {
      ConfStep(c, sent, p, n);
    } else if n.loop.phase == WaitCoin {
      CoinStep(c, sent, p, n);
    } else {
      QuietStep(c, sent, sent + Sending(p, out), p, n, n');
    }
  }

  lemma StartStep(c: Config, sent: set<(nat, Message)>, p: nat, n: Node, vi: int)
    requires NodeLive(c, sent, p, n) && Shape(n.inbox, n.loop, n.log)
    ensures var (n', out) := Start(c, p, n, vi); NodeLive(c, sent + Sending(p, out), p, n')
  {
    var (n', out) := Start(c, p, n, vi);
    if n.loop.phase != NoInput {
      QuietStep(c, sent, sent + Sending(p, out), p, n, n');
    } else {
      EnterStep(c, sent, p, n, n, 0, vi, []);
      assert [] + out == out;
    }
  }

  // ---------- the whole system ----------

  ghost predicate Live(c: Config, F: Faults, s: System) {
    s.nodes.Keys == F.honest && forall p :: p in F.honest ==> NodeLive(c, s.sent, p, s.nodes[p])
  }

  lemma LocalLive(c: Config, F: Faults, k: nat, s: System, e: Event)
    requires Inv(c, F, s) && Live(c, F, s) && Enabled(c, F, k, s, e)
    ensures var (n', out) := Local(c, s.nodes[e.p], e); NodeLive(c, s.sent + Sending(e.p, out), e.p, n')
  {
    var n := s.nodes[e.p];
    assert NodeInv(c, F, s.sent, n) && NodeLive(c, s.sent, e.p, n);
    match e
    case Input(p, v) => StartStep(c, s.sent, p, n, v);
    case Deliver(p, from, m) => ReceiveStep(c, s.sent, p, n, from, m);
    case Wake(p, w) => ResumeStep(c, s.sent, p, n, w);
    case Stop(p) => QuietStep(c, s.sent, s.sent + Sending(p, []), p, n, Halt(c, n));
  }

  lemma StepLive(c: Config, F: Faults, k: nat, s: System, e: Event)
    requires Inv(c, F, s) && Live(c, F, s) && Enabled(c, F, k, s, e)
    ensures Live(c, F, Apply(c, s, e))
  {
    var s', out := Apply(c, s, e), Local(c, s.nodes[e.p], e).1;
    LocalLive(c, F, k, s, e);
    assert s'.sent == s.sent + Sending(e.p, out);
    forall p | p in F.honest ensures NodeLive(c, s'.sent, p, s'.nodes[p]) {
      if p != e.p {
        QuietStep(c, s.sent, s'.sent, p, s.nodes[p], s.nodes[p]);
      }
    }
  }

  lemma {:induction false} RunLive(c: Config, F: Faults, k: nat, es: seq<Event>)
    requires Valid(c, F) && Run(c, F, k, es).Some?
    ensures Live(c, F, Run(c, F, k, es).value)
  {
    if es != [] {
      var init := es[..|es| - 1];
      RunLive(c, F, k, init);
      RunInv(c, F, k, init);
      StepLive(c, F, k, Run(c, F, k, init).value, es[|es| - 1]);
    }
  }

  // ---------- EST: what spreads ----------

  // Everyone has sent EST v of round r.
  ghost predicate AllSent(F: Faults, s: System, r: nat, v: int) {
    forall q :: q in F.honest ==> (q, Est(r, v)) in s.sent
  }

  // f + 1 honest nodes have sent it, so all others relay it.
  lemma RelayedAt(c: Config, F: Faults, s: System, r: nat, v: int, A: set<nat>, p: nat)
    requires Live(c, F, s) && AllRecorded(F, s) && p in F.honest
    requires A <= F.honest && |A| >= c.f + 1 && forall q :: q in A ==> (q, Est(r, v)) in s.sent
    ensures (p, Est(r, v)) in s.sent
  {
    if p !in A {
      forall q | q in A ensures q in At(s.nodes[p].inbox.est, (r, v)) {
        assert Recorded(s.nodes[p], q, Est(r, v));
      }
      SubsetSize(A, At(s.nodes[p].inbox.est, (r, v)));
      assert NodeLive(c, s.sent, p, s.nodes[p]);
      assert Thresholds(c, p, s.nodes[p], r, v);
    }
  }

  // Everyone else's EST is recorded.
  lemma OthersCounted(F: Faults, s: System, r: nat, v: int, p: nat)
    requires s.nodes.Keys == F.honest && AllRecorded(F, s) && AllSent(F, s, r, v) && p in F.honest
    ensures F.honest - {p} <= At(s.nodes[p].inbox.est, (r, v))
  {
    forall q | q in F.honest - {p} ensures q in At(s.nodes[p].inbox.est, (r, v)) {
      assert Recorded(s.nodes[p], q, Est(r, v));
    }
  }

  // Node p has v in int_values exactly when 2f + 1 senders are counted.
  lemma CountedInt(c: Config, F: Faults, p: nat, n: Node, r: nat, v: int)
    requires Valid(c, F) && p in F.honest && (c.f >= 1 || c.N >= 2)
    requires Thresholds(c, p, n, r, v) && IntOk(c, n.inbox, r, v) && F.honest - {p} <= At(n.inbox.est, (r, v))
    ensures v in At(n.inbox.ints, r) <==> |F.honest| >= 2 * c.f + 2 || !(At(n.inbox.est, (r, v)) <= F.honest - {p})
  {
    var S, others := At(n.inbox.est, (r, v)), F.honest - {p};
    assert |F.honest| == |others| + 1;
    if |F.honest| >= 2 * c.f + 2 {
      SubsetSize(others, S - {p});
    } else if y :| y in S && y !in others {
      SubsetSize(others + {y}, S);
    } else {
      SubsetSize(S, others);
    }
  }

  /**
   Where ESTs end: once f + 1 honest nodes have sent EST v of a round, all honest
   nodes send it, and v is in int_values of node p exactly when there are 2f + 2
   honest nodes or p counts an EST v of its own or of a Byzantine node. A node
   that has only relayed v does not count itself: with 2f + 1 honest nodes and
   silent Byzantine ones it never gets v.
   */
  lemma SpreadExactly(c: Config, F: Faults, k: nat, es: seq<Event>, s: System, r: nat, v: int, A: set<nat>, p: nat)
    requires Valid(c, F) && Run(c, F, k, es) == Some(s) && s.nodes.Keys == F.honest && AllRecorded(F, s)
    requires A <= F.honest && |A| >= c.f + 1 && forall q :: q in A ==> (q, Est(r, v)) in s.sent
    requires p in F.honest && (c.f >= 1 || c.N >= 2)
    ensures AllSent(F, s, r, v)
    ensures
      v in At(s.nodes[p].inbox.ints, r)
      <==> |F.honest| >= 2 * c.f + 2 || !(At(s.nodes[p].inbox.est, (r, v)) <= F.honest - {p})
  {
    RunInv(c, F, k, es);
    RunLive(c, F, k, es);
    SpreadAt(c, F, s, r, v, A, p);
  }

  lemma SpreadAt(c: Config, F: Faults, s: System, r: nat, v: int, A: set<nat>, p: nat)
    requires Valid(c, F) && Inv(c, F, s) && Live(c, F, s) && AllRecorded(F, s)
    requires A <= F.honest && |A| >= c.f + 1 && forall q :: q in A ==> (q, Est(r, v)) in s.sent
    requires p in F.honest && (c.f >= 1 || c.N >= 2)
    ensures AllSent(F, s, r, v)
    ensures
      v in At(s.nodes[p].inbox.ints, r)
      <==> |F.honest| >= 2 * c.f + 2 || !(At(s.nodes[p].inbox.est, (r, v)) <= F.honest - {p})
  {
    forall q | q in F.honest ensures (q, Est(r, v)) in s.sent {
      RelayedAt(c, F, s, r, v, A, q);
    }
    OthersCounted(F, s, r, v, p);
    assert NodeInv(c, F, s.sent, s.nodes[p]) && NodeLive(c, s.sent, p, s.nodes[p]);
    assert IntOk(c, s.nodes[p].inbox, r, v) && Thresholds(c, p, s.nodes[p], r, v);
    CountedInt(c, F, p, s.nodes[p], r, v);
  }

  // With 2f + 2 honest nodes every honest node has v.
  lemma SpreadAll(c: Config, F: Faults, s: System, r: nat, v: int, A: set<nat>, p: nat)
    requires Valid(c, F) && Inv(c, F, s) && Live(c, F, s) && AllRecorded(F, s) && |F.honest| >= 2 * c.f + 2
    requires A <= F.honest && |A| >= c.f + 1 && forall q :: q in A ==> (q, Est(r, v)) in s.sent
    requires p in F.honest
    ensures v in At(s.nodes[p].inbox.ints, r)
  {
    SubsetSize(F.honest, Below(F.N));
    SpreadAt(c, F, s, r, v, A, p);
  }

  // What one honest node has in int_values, all have.
  lemma IntSpread(c: Config, F: Faults, s: System, q: nat, p: nat, r: nat, v: int)
    requires Valid(c, F) && Inv(c, F, s) && Live(c, F, s) && AllRecorded(F, s) && |F.honest| >= 2 * c.f + 2
    requires q in F.honest && p in F.honest && v in At(s.nodes[q].inbox.ints, r)
    ensures v in At(s.nodes[p].inbox.ints, r)
  {
    var S := At(s.nodes[q].inbox.est, (r, v));
    assert NodeInv(c, F, s.sent, s.nodes[q]);
    assert IntOk(c, s.nodes[q].inbox, r, v) && EstRecord(F, s.sent, s.nodes[q].inbox, r, v);
    HonestPart(F, S);
    SpreadAll(c, F, s, r, v, S * F.honest, p);
  }

  lemma SameInts(c: Config, F: Faults, s: System, p: nat, q: nat, r: nat)
    requires Valid(c, F) && Inv(c, F, s) && Live(c, F, s) && AllRecorded(F, s) && |F.honest| >= 2 * c.f + 2
    requires p in F.honest && q in F.honest
    ensures At(s.nodes[p].inbox.ints, r) == At(s.nodes[q].inbox.ints, r)
  {
    forall v | v in At(s.nodes[p].inbox.ints, r) ensures v in At(s.nodes[q].inbox.ints, r) {
      IntSpread(c, F, s, p, q, r, v);
    }
    forall v | v in At(s.nodes[q].inbox.ints, r) ensures v in At(s.nodes[p].inbox.ints, r) {
      IntSpread(c, F, s, q, p, r, v);
    }
  }

  // The honest nodes that started round r with estimate v.
  function Supporters(F: Faults, s: System, r: nat, v: int): set<nat>
    requires s.nodes.Keys == F.honest
  {
    set q | q in F.honest && HasEst(s.nodes[q], r, v)
  }

  lemma SupportersSent(c: Config, F: Faults, s: System, r: nat, v: int)
    requires Live(c, F, s)
    ensures forall q :: q in Supporters(F, s, r, v) ==> (q, Est(r, v)) in s.sent
  {
    forall q | q in Supporters(F, s, r, v) ensures (q, Est(r, v)) in s.sent {
      assert NodeLive(c, s.sent, q, s.nodes[q]);
      assert (r, v) in s.nodes[q].estSent;
    }
  }

  // f + 1 honest nodes start a round with the same one of x and x + 1.
  lemma Majority(F: Faults, s: System, r: nat, x: int) returns (v: int)
    requires Resilient(F) && s.nodes.Keys == F.honest && Ranged(F, s, x)
    requires forall q :: q in F.honest ==> r < |s.nodes[q].log.ests|
    ensures |Supporters(F, s, r, v)| >= F.f + 1
  {
    var A, B := Supporters(F, s, r, x), Supporters(F, s, r, x + 1);
    forall q | q in F.honest ensures q in A + B {
      assert NodeRanged(s.nodes[q], x);
      assert Within(x, s.nodes[q].log.ests[r]);
    }
    SubsetSize(F.honest, A + B);
    assert |A + B| <= |A| + |B|;
    v := if |A| >= F.f + 1 then x else x + 1;
  }

  // ---------- the waits ----------

  lemma SomeInt(c: Config, F: Faults, s: System, r: nat, x: int, p: nat)
    requires Valid(c, F) && Inv(c, F, s) && Live(c, F, s) && AllRecorded(F, s) && |F.honest| >= 2 * c.f + 2
    requires Ranged(F, s, x) && p in F.honest
    requires forall q :: q in F.honest ==> r < |s.nodes[q].log.ests|
    ensures At(s.nodes[p].inbox.ints, r) != {}
  {
    var v := Majority(F, s, r, x);
    SupportersSent(c, F, s, r, v);
    SpreadAll(c, F, s, r, v, Supporters(F, s, r, v), p);
  }

  // Node q's AUX of round r counts in this inbox.
  ghost predicate AuxFrom(box: Inbox, r: nat, q: nat) {
    exists w :: w in At(box.ints, r) && q in At(box.aux, (r, w))
  }

  lemma AuxEnough(c: Config, F: Faults, box: Inbox, r: nat, x: int)
    requires |F.honest| >= c.N - c.f && forall q :: q in F.honest ==> AuxFrom(box, r, q)
    requires At(box.ints, r) != {} && forall v :: v in At(box.ints, r) ==> Within(x, v)
    ensures AuxDone(c, box, r)
  {
    var ints := At(box.ints, r);
    var A := if x in ints then At(box.aux, (r, x)) else {};
    var B := if x + 1 in ints then At(box.aux, (r, x + 1)) else {};
    forall q | q in F.honest ensures q in A + B {
      assert AuxFrom(box, r, q);
    }
    SubsetSize(F.honest, A + B);
    assert |A + B| <= |A| + |B|;
    OneOrTwo(ints, x);
  }

  lemma OneOrTwo(w: set<int>, x: int)
    requires w != {} && forall v :: v in w ==> Within(x, v)
    ensures w == {x, x + 1} || w == {x, x} || w == {x + 1, x + 1}
  {
    SmallSet(w, x);
    if x in w && x + 1 in w {
      SameSize({x, x + 1}, w);
    } else {
      var v := Element(w);
      OneElement(w, v);
    }
  }

  lemma Element<T>(w: set<T>) returns (v: T)
    requires w != {}
    ensures v in w
  {
    v :| v in w;
  }

  lemma AuxCounted(c: Config, F: Faults, s: System, p: nat, q: nat, r: nat)
    requires Valid(c, F) && Inv(c, F, s) && Live(c, F, s) && AllRecorded(F, s) && |F.honest| >= 2 * c.f + 2
    requires p in F.honest && q in F.honest && PastInt(s.nodes[q], r)
    ensures AuxFrom(s.nodes[p].inbox, r, q)
  {
    assert NodeLive(c, s.sent, q, s.nodes[q]);
    assert AuxSent(s.sent, q, s.nodes[q].inbox, r);
    var w :| (q, Aux(r, w)) in s.sent && q in At(s.nodes[q].inbox.aux, (r, w)) && w in At(s.nodes[q].inbox.ints, r);
    assert q != p ==> Recorded(s.nodes[p], q, Aux(r, w));
    IntSpread(c, F, s, q, p, r, w);
  }

  lemma IntsWithin(c: Config, F: Faults, s: System, p: nat, r: nat, x: int)
    requires Valid(c, F) && Inv(c, F, s) && Ranged(F, s, x) && p in F.honest
    ensures forall v :: v in At(s.nodes[p].inbox.ints, r) ==> Within(x, v)
  {
    forall v | v in At(s.nodes[p].inbox.ints, r) ensures Within(x, v) {
      IntBacked(c, F, s, p, r, v);
      var h :| h in F.honest && h in s.nodes && HasEst(s.nodes[h], r, v);
      assert NodeRanged(s.nodes[h], x);
    }
  }

  lemma AuxCounts(c: Config, F: Faults, s: System, p: nat, r: nat, x: int)
    requires Valid(c, F) && Inv(c, F, s) && Live(c, F, s) && AllRecorded(F, s) && |F.honest| >= 2 * c.f + 2
    requires Ranged(F, s, x) && p in F.honest && At(s.nodes[p].inbox.ints, r) != {}
    requires forall q :: q in F.honest ==> PastInt(s.nodes[q], r)
    ensures AuxDone(c, s.nodes[p].inbox, r)
  {
    forall q | q in F.honest ensures AuxFrom(s.nodes[p].inbox, r, q) {
      AuxCounted(c, F, s, p, q, r);
    }
    IntsWithin(c, F, s, p, r, x);
    AuxEnough(c, F, s.nodes[p].inbox, r, x);
  }

  /** The honest nodes whose CONF of round r is b. */
  function Voters(F: Faults, s: System, r: nat, b: set<int>): set<nat>
    requires s.nodes.Keys == F.honest
  {
    set q | q in F.honest && r < |s.nodes[q].log.confs| && s.nodes[q].log.confs[r] == b
  }

  // A CONF of an honest node is counted only where it was sent.
  lemma VotersOnly(c: Config, F: Faults, s: System, p: nat, r: nat, b: set<int>)
    requires Inv(c, F, s) && p in F.honest
    ensures At(s.nodes[p].inbox.conf, (r, b)) * F.honest <= Voters(F, s, r, b)
    ensures At(s.nodes[p].inbox.conf, (r, b)) <= Below(F.N)
  {
    assert NodeInv(c, F, s.sent, s.nodes[p]);
    assert ConfRecord(F, s.sent, s.nodes[p].inbox, r, b);
    forall q | q in At(s.nodes[p].inbox.conf, (r, b)) * F.honest ensures q in Voters(F, s, r, b) {
      assert SentOk(F, s, s.nodes[q], Conf(r, b));
    }
  }

  lemma VotersCounted(c: Config, F: Faults, s: System, p: nat, r: nat, b: set<int>)
    requires Live(c, F, s) && AllRecorded(F, s) && p in F.honest
    ensures Voters(F, s, r, b) <= At(s.nodes[p].inbox.conf, (r, b))
  {
    forall q | q in Voters(F, s, r, b) ensures q in At(s.nodes[p].inbox.conf, (r, b)) {
      assert NodeLive(c, s.sent, q, s.nodes[q]);
      assert ConfSentOk(s.sent, q, s.nodes[q].inbox, r, b);
      assert q != p ==> Recorded(s.nodes[p], q, Conf(r, b));
    }
  }

  // The CONFs b counted at p: all honest ones and some of Byzantine nodes.
  lemma ConfCount(c: Config, F: Faults, s: System, p: nat, r: nat, b: set<int>)
    requires Inv(c, F, s) && Live(c, F, s) && AllRecorded(F, s) && p in F.honest
    ensures var S := At(s.nodes[p].inbox.conf, (r, b)); |S| == |Voters(F, s, r, b)| + |S - F.honest|
  {
    var S := At(s.nodes[p].inbox.conf, (r, b));
    VotersOnly(c, F, s, p, r, b);
    VotersCounted(c, F, s, p, r, b);
    assert Voters(F, s, r, b) == S * F.honest;
    assert S == S * F.honest + (S - F.honest);
  }

  // ---------- progress ----------

  // Node n has done what one does before this wait of round r.
  ghost predicate AtLeast(n: Node, r: nat, phase: Phase) {
    match phase
    case WaitInt => r < |n.log.ests|
    case WaitAux => PastInt(n, r)
    case _ => true
  }

  lemma NotBehind(n: Node, m: Node)
    requires Active(n) && Active(m) && Progress(n) <= Progress(m) && Shape(m.inbox, m.loop, m.log)
    ensures AtLeast(m, n.loop.r, n.loop.phase)
  {
  }

  lemma LeavesInt(c: Config, p: nat, n: Node)
    requires n.loop.phase == WaitInt && At(n.inbox.ints, n.loop.r) != {}
    ensures CanStep(c, p, n)
  {
    var w := Element(At(n.inbox.ints, n.loop.r));
    assert Resume(c, p, n, w).0.loop != n.loop;
  }

  lemma LeavesAux(c: Config, p: nat, n: Node)
    requires n.loop.phase == WaitAux && AuxDone(c, n.inbox, n.loop.r)
    ensures CanStep(c, p, n)
  {
    assert Resume(c, p, n, 0).0.loop.phase != n.loop.phase;
    assert Resume(c, p, n, 0).0.loop != n.loop;
  }

  lemma LeavesConf(c: Config, p: nat, n: Node)
    requires n.loop.phase == WaitConf
    ensures CanStep(c, p, n) <==> |At(n.inbox.conf, (n.loop.r, At(n.inbox.ints, n.loop.r)))| >= c.N - c.f
  {
    if |At(n.inbox.conf, (n.loop.r, At(n.inbox.ints, n.loop.r)))| >= c.N - c.f {
      assert Resume(c, p, n, 0).0.loop.phase != n.loop.phase;
      assert Resume(c, p, n, 0).0.loop != n.loop;
    }
  }

  lemma LeavesCoin(c: Config, p: nat, n: Node)
    requires n.loop.phase == WaitCoin
    ensures CanStep(c, p, n)
  {
    assert Resume(c, p, n, 0).0.loop.phase != n.loop.phase;
    assert Resume(c, p, n, 0).0.loop != n.loop;
  }

  /** Enough honest CONFs equal int_values of node p, together with those of Byzantine nodes that it counts. */
  ghost predicate ConfAgrees(c: Config, F: Faults, s: System, p: nat)
    requires s.nodes.Keys == F.honest && p in F.honest
  {
    var n := s.nodes[p];
    var ints := At(n.inbox.ints, n.loop.r);
    |Voters(F, s, n.loop.r, ints)| + |At(n.inbox.conf, (n.loop.r, ints)) - F.honest| >= c.N - c.f
  }

  /**
   Progress: for inputs x and x + 1, when every message between honest nodes is
   recorded, all honest nodes are active and there are 2f + 2 of them, they share
   int_values, and a node that no honest node is behind of can leave its wait,
   except for the CONF wait, which it can leave exactly when N - f counted CONFs
   are its int_values.
   */
  lemma LastLeavesExactly(c: Config, F: Faults, k: nat, es: seq<Event>, s: System, x: int, p: nat)
    requires Valid(c, F) && Run(c, F, k, es) == Some(s) && s.nodes.Keys == F.honest && AllRecorded(F, s)
    requires forall e :: e in es && e.Input? ==> Within(x, e.v)
    requires |F.honest| >= 2 * c.f + 2 && forall q :: q in F.honest ==> Active(s.nodes[q])
    requires p in F.honest && forall q :: q in F.honest ==> Progress(s.nodes[p]) <= Progress(s.nodes[q])
    ensures CanStep(c, p, s.nodes[p]) <==> (s.nodes[p].loop.phase == WaitConf ==> ConfAgrees(c, F, s, p))
    ensures forall q, r :: q in F.honest ==> At(s.nodes[p].inbox.ints, r) == At(s.nodes[q].inbox.ints, r)
  {
    RunInv(c, F, k, es);
    RunLive(c, F, k, es);
    NoFailedAssertion(c, F, k, es, x);
    forall q, r | q in F.honest ensures At(s.nodes[p].inbox.ints, r) == At(s.nodes[q].inbox.ints, r) {
      SameInts(c, F, s, p, q, r);
    }
    forall q | q in F.honest ensures AtLeast(s.nodes[q], s.nodes[p].loop.r, s.nodes[p].loop.phase) {
      assert NodeInv(c, F, s.sent, s.nodes[q]);
      NotBehind(s.nodes[p], s.nodes[q]);
    }
    LastLeaves(c, F, s, x, p);
  }

  lemma LastLeaves(c: Config, F: Faults, s: System, x: int, p: nat)
    requires Valid(c, F) && Inv(c, F, s) && Live(c, F, s) && AllRecorded(F, s) && |F.honest| >= 2 * c.f + 2
    requires Ranged(F, s, x) && p in F.honest && Active(s.nodes[p])
    requires forall q :: q in F.honest ==> AtLeast(s.nodes[q], s.nodes[p].loop.r, s.nodes[p].loop.phase)
    ensures CanStep(c, p, s.nodes[p]) <==> (s.nodes[p].loop.phase == WaitConf ==> ConfAgrees(c, F, s, p))
  {
    var n := s.nodes[p];
    var r := n.loop.r;
    if n.loop.phase == WaitInt {
      SomeInt(c, F, s, r, x, p);
      LeavesInt(c, p, n);
    } else if n.loop.phase == WaitAux {
      assert NodeInv(c, F, s.sent, n);
      AuxCounts(c, F, s, p, r, x);
      LeavesAux(c, p, n);
    } else if n.loop.phase == WaitConf {
      ConfCount(c, F, s, p, r, At(n.inbox.ints, r));
      LeavesConf(c, p, n);
    } else {
      LeavesCoin(c, p, n);
    }
  }

  // ---------- blocked for good ----------

  /** All honest nodes have sent their CONF of round r, and no value has N - f of them, even with all Byzantine nodes. */
  ghost predicate Divided(c: Config, F: Faults, s: System, r: nat)
    requires s.nodes.Keys == F.honest
  {
    && (forall q :: q in F.honest ==> r < |s.nodes[q].log.confs|)
    && (forall b :: |Voters(F, s, r, b)| + (c.N - |F.honest|) < c.N - c.f)
  }

  // A step only extends histories.
  lemma StepExtends(c: Config, F: Faults, k: nat, s: System, e: Event)
    requires Valid(c, F) && Inv(c, F, s) && Enabled(c, F, k, s, e)
    ensures forall q :: q in F.honest ==> s.nodes[q].log.confs <= Apply(c, s, e).nodes[q].log.confs
  {
    LocalStep(c, F, k, s, e);
  }

  lemma RunLast(c: Config, F: Faults, k: nat, es: seq<Event>, e: Event)
    requires Run(c, F, k, es + [e]).Some?
    ensures Run(c, F, k, es).Some?
    ensures var s := Run(c, F, k, es).value; Enabled(c, F, k, s, e) && Run(c, F, k, es + [e]) == Some(Apply(c, s, e))
  {
    assert (es + [e])[..|es + [e]| - 1] == es;
  }

  ghost predicate ConfsExtend(F: Faults, s: System, s': System) {
    && s.nodes.Keys == F.honest && s'.nodes.Keys == F.honest
    && forall q :: q in F.honest ==> s.nodes[q].log.confs <= s'.nodes[q].log.confs
  }

  lemma LastExtends(c: Config, F: Faults, k: nat, es: seq<Event>, e: Event)
    requires Valid(c, F) && Run(c, F, k, es + [e]).Some?
    ensures Run(c, F, k, es).Some? && ConfsExtend(F, Run(c, F, k, es).value, Run(c, F, k, es + [e]).value)
  {
    RunLast(c, F, k, es, e);
    RunInv(c, F, k, es);
    StepExtends(c, F, k, Run(c, F, k, es).value, e);
  }

  lemma {:induction false} RunExtends(c: Config, F: Faults, k: nat, es: seq<Event>, more: seq<Event>)
    requires Valid(c, F) && Run(c, F, k, es).Some? && Run(c, F, k, es + more).Some?
    ensures ConfsExtend(F, Run(c, F, k, es).value, Run(c, F, k, es + more).value)
  {
    if more == [] {
      SplitNone(es);
      RunInv(c, F, k, es);
    } else {
      var init, e := more[..|more| - 1], more[|more| - 1];
      SplitLast(es, more);
      LastExtends(c, F, k, es + init, e);
      RunExtends(c, F, k, es, init);
      ConfsTrans(F, Run(c, F, k, es).value, Run(c, F, k, es + init).value, Run(c, F, k, es + more).value);
    }
  }

  lemma ConfsTrans(F: Faults, s1: System, s2: System, s3: System)
    requires ConfsExtend(F, s1, s2) && ConfsExtend(F, s2, s3)
    ensures ConfsExtend(F, s1, s3)
  {
  }

  lemma StaysDivided(c: Config, F: Faults, s: System, s': System, r: nat)
    requires ConfsExtend(F, s, s') && Divided(c, F, s, r)
    ensures Divided(c, F, s', r)
  {
    forall b ensures |Voters(F, s', r, b)| + (c.N - |F.honest|) < c.N - c.f {
      assert Voters(F, s', r, b) == Voters(F, s, r, b);
    }
  }

  // Nobody has left the CONF wait of a divided round.
  lemma NobodyLeft(c: Config, F: Faults, s: System, r: nat, p: nat)
    requires Valid(c, F) && Inv(c, F, s) && Divided(c, F, s, r) && p in F.honest
    ensures |s.nodes[p].log.vals| <= r && |s.nodes[p].log.ests| <= r + 1
  {
    var n := s.nodes[p];
    assert NodeInv(c, F, s.sent, n);
    if r + 1 < |n.log.ests| {
      assert NextEst(c, n.log, r);
    }
    if r < |n.log.vals| {
      var w := n.log.vals[r];
      assert ValOk(c, n.inbox, r, w);
      var S := At(n.inbox.conf, (r, w));
      VotersOnly(c, F, s, p, r, w);
      OutsideSize(F, S, Voters(F, s, r, w));
      assert false;
    }
  }

  lemma OutsideSize(F: Faults, S: set<nat>, V: set<nat>)
    requires Resilient(F) && S <= Below(F.N) && S * F.honest <= V
    ensures |S| <= |V| + F.N - |F.honest|
  {
    var outside := Below(F.N) - F.honest;
    assert Below(F.N) == outside + F.honest;
    SubsetSize(S, V + outside);
    assert |V + outside| <= |V| + |outside|;
  }

  /**
   No second CONF: once a round is divided, no honest node leaves its CONF wait or
   starts the next round, whatever is delivered later and whatever Byzantine nodes
   send.
   */
  lemma BlockedForGood(c: Config, F: Faults, k: nat, es: seq<Event>, s: System, r: nat, more: seq<Event>, s': System, p: nat)
    requires Valid(c, F) && Run(c, F, k, es) == Some(s) && s.nodes.Keys == F.honest && Divided(c, F, s, r)
    requires Run(c, F, k, es + more) == Some(s') && p in F.honest
    ensures p in s'.nodes && |s'.nodes[p].log.vals| <= r && |s'.nodes[p].log.ests| <= r + 1
  {
    RunExtends(c, F, k, es, more);
    StaysDivided(c, F, s, s', r);
    RunInv(c, F, k, es + more);
    NobodyLeft(c, F, s', r, p);
  }

  /** When round 0 is divided, no honest node ever decides. */
  lemma NeverDecides(c: Config, F: Faults, k: nat, es: seq<Event>, s: System, more: seq<Event>, s': System, p: nat)
    requires Valid(c, F) && Bounded(c, k) && Run(c, F, k, es) == Some(s) && s.nodes.Keys == F.honest && Divided(c, F, s, 0)
    requires Run(c, F, k, es + more) == Some(s') && p in F.honest
    ensures p in s'.nodes && s'.nodes[p].log.decisions == []
  {
    RunFinInv(c, F, k, es + more);
    assert DecisionsLocked(F, s', s'.nodes[p]);
    if s'.nodes[p].log.decisions != [] {
      var v := s'.nodes[p].log.decisions[0];
      assert Locked(F, s', v);
      var q, r: nat :| q in F.honest && q in s'.nodes && Single(s'.nodes[q].log, r, v);
      BlockedForGood(c, F, k, es, s, 0, more, s', q);
      assert false;
    }
  }
}
