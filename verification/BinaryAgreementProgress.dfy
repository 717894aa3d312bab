/**
 Binary agreement does not deadlock: once all messages between honest nodes are
 recorded, the honest nodes that are furthest behind can leave their wait. Both
 variants, with any Byzantine messages on top.
 */
module BinaryAgreementProgress {
  import opened FiniteSets
  import opened Quorums
  import opened Options
  import opened Tables
  import opened BinaryAgreement
  import opened BinaryAgreementSafety

  /** Node n counts message m of node q. */
  predicate Recorded(n: Node, q: nat, m: Message) {
    match m
    case Est(r, v) => q in At(n.inbox.est, (r, v))
    case Aux(r, v) => q in At(n.inbox.aux, (r, v))
    case Conf(r, b) => q in At(n.inbox.conf, (r, b))
  }

  /** Quiescence: every message of an honest node is recorded by every honest node. */
  ghost predicate AllRecorded(F: Faults, s: System)
    requires s.nodes.Keys == F.honest
  {
    forall p, x :: p in F.honest && x in s.sent ==> Recorded(s.nodes[p], x.0, x.1)
  }

  /** The node has its input and has neither failed nor quit. */
  predicate Active(n: Node) {
    n.loop.phase in {WaitBin, WaitAux, WaitConf, WaitCoin}
  }

  /** The main loop can leave its wait. */
  ghost predicate CanStep(c: Config, n: Node) {
    exists w :: Resume(c, n, w).0.loop != n.loop
  }

  /** How far a node is: its round, then its wait. */
  function Progress(n: Node): nat {
    4 * n.loop.r + match n.loop.phase case WaitAux => 1 case WaitConf => 2 case WaitCoin => 3 case _ => 0
  }

  // ---------- what a node has sent ----------

  // EST messages: own estimates are sent, f + 1 are relayed, 2f + 1 enter bin_values.
  ghost predicate EstLive(c: Config, sent: set<(nat, Message)>, p: nat, n: Node) {
    && (forall r: nat, v :: HasEst(n, r, v) ==> (r, v) in n.estSent)
    && (forall x :: x in n.estSent ==> (p, Est(x.0, x.1)) in sent)
    && (forall r: nat, v :: Thresholds(c, n, r, v))
  }

  ghost predicate Thresholds(c: Config, n: Node, r: nat, v: int) {
    && (|At(n.inbox.est, (r, v))| >= c.f + 1 ==> (r, v) in n.estSent)
    && (|At(n.inbox.est, (r, v))| >= 2 * c.f + 1 ==> v in At(n.inbox.bin, r))
  }

  // The AUX of round k has been sent.
  predicate PastBin(n: Node, k: nat) {
    k < |n.log.confs| || (k == n.loop.r && n.loop.phase == WaitAux)
  }

  ghost predicate AuxLive(sent: set<(nat, Message)>, p: nat, n: Node) {
    forall k: nat :: PastBin(n, k) ==> exists w :: (p, Aux(k, w)) in sent && w in At(n.inbox.bin, k)
  }

  ghost predicate ConfLive(sent: set<(nat, Message)>, p: nat, n: Node) {
    forall k: nat :: k < |n.log.confs| ==> (p, Conf(k, n.log.confs[k])) in sent && ConfFrom(n.log.confs[k], At(n.inbox.bin, k))
  }

  // A CONF lists some of bin_values.
  predicate ConfFrom(b: seq<int>, bin: set<int>) {
    IsConf(b) && forall v :: v in b ==> v in bin
  }

  ghost predicate NodeLive(c: Config, sent: set<(nat, Message)>, p: nat, n: Node) {
    EstLive(c, sent, p, n) && AuxLive(sent, p, n) && ConfLive(sent, p, n)
  }

  function Sending(p: nat, out: seq<Message>): set<(nat, Message)> {
    set m | m in out :: (p, m)
  }

  // Nothing but the inbox grows, and what is sent.
  lemma LiveKept(c: Config, sent: set<(nat, Message)>, sent': set<(nat, Message)>, p: nat, n: Node, n': Node)
    requires NodeLive(c, sent, p, n) && sent <= sent' && n'.log == n.log && n'.loop == n.loop
    requires forall r :: At(n.inbox.bin, r) <= At(n'.inbox.bin, r)
    requires EstLive(c, sent', p, n')
    ensures NodeLive(c, sent', p, n')
  {
    forall k: nat | PastBin(n', k) ensures exists w :: (p, Aux(k, w)) in sent' && w in At(n'.inbox.bin, k) {
      assert PastBin(n, k);
      var w :| (p, Aux(k, w)) in sent && w in At(n.inbox.bin, k);
      assert (p, Aux(k, w)) in sent' && w in At(n'.inbox.bin, k);
    }
    forall k: nat | k < |n'.log.confs| ensures ConfFrom(n'.log.confs[k], At(n'.inbox.bin, k)) {
      assert ConfFrom(n.log.confs[k], At(n.inbox.bin, k));
    }
  }

  lemma EstStep(c: Config, sent: set<(nat, Message)>, p: nat, n: Node, from: nat, r: nat, v: int)
    requires NodeLive(c, sent, p, n)
    ensures var (n', out) := OnEst(c, n, from, r, v); NodeLive(c, sent + Sending(p, out), p, n')
  {
    var (n', out) := OnEst(c, n, from, r, v);
    var sent' := sent + Sending(p, out);
    if out != [] {
      assert Est(r, v) in out;
      assert (p, Est(r, v)) in sent';
    }
    forall r': nat, v' ensures Thresholds(c, n', r', v') {
      assert Thresholds(c, n, r', v');
      ThresholdKey(c, n, from, r, v, r', v');
    }
    LiveKept(c, sent, sent', p, n, n');
  }

  // One key of est_values after a new EST.
  lemma ThresholdKey(c: Config, n: Node, from: nat, r: nat, v: int, r': nat, v': int)
    requires Thresholds(c, n, r', v')
    ensures Thresholds(c, OnEst(c, n, from, r, v).0, r', v')
  {
    if r' != r || v' != v {
      assert At(OnEst(c, n, from, r, v).0.inbox.est, (r', v')) == At(n.inbox.est, (r', v'));
    }
  }

  // A step that leaves EST messages and bin_values alone.
  lemma QuietStep(c: Config, sent: set<(nat, Message)>, p: nat, n: Node, n': Node)
    requires NodeLive(c, sent, p, n) && n'.inbox.est == n.inbox.est && n'.inbox.bin == n.inbox.bin
    requires n'.estSent == n.estSent && n'.log == n.log && n'.loop == n.loop
    ensures NodeLive(c, sent + Sending(p, []), p, n')
  {
    forall r: nat, v ensures Thresholds(c, n', r, v) {
      assert Thresholds(c, n, r, v);
    }
    LiveKept(c, sent, sent + Sending(p, []), p, n, n');
  }

  lemma ReceiveStep(c: Config, sent: set<(nat, Message)>, p: nat, n: Node, from: nat, m: Message)
    requires NodeLive(c, sent, p, n)
    ensures var (n', out) := Receive(c, n, from, m); NodeLive(c, sent + Sending(p, out), p, n')
  {
    var (n', out) := Receive(c, n, from, m);
    if n.receiving && from < c.N && m.Est? {
      EstStep(c, sent, p, n, from, m.round, m.v);
    } else {
      QuietStep(c, sent, p, n, n');
    }
  }

  // Entering round r: its estimate is sent now or was relayed before.
  lemma EnterStep(c: Config, sent: set<(nat, Message)>, p: nat, n: Node, d: Node, r: nat, est: int)
    requires NodeLive(c, sent, p, n) && d.inbox == n.inbox && d.estSent == n.estSent
    requires d.log.ests == n.log.ests && d.log.confs == n.log.confs && |n.log.ests| == r && n.loop.phase != WaitAux
    ensures var (n', out) := EnterRound(d, r, est); NodeLive(c, sent + Sending(p, out), p, n')
  {
    var (n', out) := EnterRound(d, r, est);
    var sent' := sent + Sending(p, out);
    if out != [] {
      assert Est(r, est) in out;
      assert (p, Est(r, est)) in sent';
    }
    forall r': nat, v' | HasEst(n', r', v') ensures (r', v') in n'.estSent {
      assert r' < r ==> HasEst(n, r', v');
    }
    forall r': nat, v' ensures Thresholds(c, n', r', v') {
      assert Thresholds(c, n, r', v');
    }
    forall k: nat | PastBin(n', k) ensures exists w :: (p, Aux(k, w)) in sent' && w in At(n'.inbox.bin, k) {
      assert PastBin(n, k);
      var w :| (p, Aux(k, w)) in sent && w in At(n.inbox.bin, k);
      assert (p, Aux(k, w)) in sent';
    }
  }

  lemma AuxStep(c: Config, sent: set<(nat, Message)>, p: nat, n: Node, w: int)
    requires NodeLive(c, sent, p, n) && n.loop.phase == WaitBin
    ensures var (n', out) := Resume(c, n, w); NodeLive(c, sent + Sending(p, out), p, n')
  {
    var (n', out) := Resume(c, n, w);
    var sent' := sent + Sending(p, out);
    if out != [] {
      assert Aux(n.loop.r, w) in out;
      assert (p, Aux(n.loop.r, w)) in sent';
    }
    forall r: nat, v ensures Thresholds(c, n', r, v) {
      assert Thresholds(c, n, r, v);
    }
    forall k: nat | PastBin(n', k) ensures exists u :: (p, Aux(k, u)) in sent' && u in At(n'.inbox.bin, k) {
      if PastBin(n, k) {
        var u :| (p, Aux(k, u)) in sent && u in At(n.inbox.bin, k);
        assert (p, Aux(k, u)) in sent';
      }
    }
  }

  lemma TupleFrom(bin: set<int>, w: int)
    requires w in bin && Bit(w)
    ensures ConfFrom(Tuple(bin), bin)
  {
  }

  lemma ConfStep(c: Config, sent: set<(nat, Message)>, p: nat, n: Node, values: set<int>)
    requires NodeLive(c, sent, p, n) && n.loop.phase == WaitAux && |n.log.confs| == n.loop.r
    requires forall v :: v in At(n.inbox.bin, n.loop.r) ==> Bit(v)
    ensures var (n', out) := ToConf(n, values); NodeLive(c, sent + Sending(p, out), p, n')
  {
    var (n', out) := ToConf(n, values);
    var sent', conf := sent + Sending(p, out), Tuple(At(n.inbox.bin, n.loop.r));
    assert PastBin(n, n.loop.r);
    var u :| (p, Aux(n.loop.r, u)) in sent && u in At(n.inbox.bin, n.loop.r);
    TupleFrom(At(n.inbox.bin, n.loop.r), u);
    assert Conf(n.loop.r, conf) in out;
    assert (p, Conf(n.loop.r, conf)) in sent';
    forall r: nat, v ensures Thresholds(c, n', r, v) {
      assert Thresholds(c, n, r, v);
    }
    forall k: nat | PastBin(n', k) ensures exists w :: (p, Aux(k, w)) in sent' && w in At(n'.inbox.bin, k) {
      assert PastBin(n, k);
      var w :| (p, Aux(k, w)) in sent && w in At(n.inbox.bin, k);
      assert (p, Aux(k, w)) in sent';
    }
  }

  // Leaving for the coin, or the end: nothing is sent and no CONF is new.
  lemma LaterPhase(c: Config, sent: set<(nat, Message)>, p: nat, n: Node, n': Node)
    requires NodeLive(c, sent, p, n) && n'.inbox == n.inbox && n'.estSent == n.estSent
    requires n'.log.ests == n.log.ests && n'.log.confs == n.log.confs && n'.loop.phase != WaitAux
    ensures NodeLive(c, sent + Sending(p, []), p, n')
  {
    forall r: nat, v ensures Thresholds(c, n', r, v) {
      assert Thresholds(c, n, r, v);
    }
    forall r: nat, v | HasEst(n', r, v) ensures (r, v) in n'.estSent {
      assert HasEst(n, r, v);
    }
    forall k: nat | PastBin(n', k)
      ensures exists w :: (p, Aux(k, w)) in sent + Sending(p, []) && w in At(n'.inbox.bin, k)
    {
      assert PastBin(n, k);
      var w :| (p, Aux(k, w)) in sent && w in At(n.inbox.bin, k);
      assert (p, Aux(k, w)) in sent + Sending(p, []);
    }
  }

  // ---------- the whole system ----------

  // What the steps use of the safety invariant.
  ghost predicate Sound(c: Config, n: Node) {
    Shape(n.loop, n.log) && forall r: nat, v :: BinOk(c, n.inbox, r, v)
  }

  lemma ResumeStep(c: Config, sent: set<(nat, Message)>, p: nat, n: Node, w: int)
    requires NodeLive(c, sent, p, n) && Sound(c, n)
    ensures var (n', out) := Resume(c, n, w); NodeLive(c, sent + Sending(p, out), p, n')
  {
    var (n', out) := Resume(c, n, w);
    match n.loop.phase
    case WaitBin => AuxStep(c, sent, p, n, w);
    case WaitAux =>
      if out != [] {
        forall v | v in At(n.inbox.bin, n.loop.r) ensures Bit(v) {
          assert BinOk(c, n.inbox, n.loop.r, v);
        }
        ConfStep(c, sent, p, n, AuxDone(c, n.inbox, n.loop.r).value);
      } else if n' != n {
        LaterPhase(c, sent, p, n, n');
      } else {
        QuietStep(c, sent, p, n, n');
      }
    case WaitCoin => CoinStep(c, sent, p, n);
    case WaitConf => LaterPhase(c, sent, p, n, n');
    case _ => QuietStep(c, sent, p, n, n');
  }

  lemma CoinStep(c: Config, sent: set<(nat, Message)>, p: nat, n: Node)
    requires NodeLive(c, sent, p, n) && Shape(n.loop, n.log) && n.loop.phase == WaitCoin
    ensures var (n', out) := AfterCoin(c, n); NodeLive(c, sent + Sending(p, out), p, n')
  {
    var s := CoinAt(c, n.loop.r);
    if n.loop.values == {s} && n.loop.alreadyDecided == Some(s) {
      CoinQuits(c, n);
      LaterPhase(c, sent, p, n, AfterCoin(c, n).0);
    } else {
      var d := CoinParts(c, n);
      EnterStep(c, sent, p, n, d, n.loop.r + 1, NewEst(n.loop.values, s));
    }
  }

  lemma CoinQuits(c: Config, n: Node)
    requires var s := CoinAt(c, n.loop.r); n.loop.values == {s} && n.loop.alreadyDecided == Some(s)
    ensures AfterCoin(c, n) == (n.(loop := n.loop.(phase := Quit), receiving := false), [])
  {
  }

  // The node that enters the next round: n, perhaps after a decision.
  lemma CoinParts(c: Config, n: Node) returns (d: Node)
    requires var s := CoinAt(c, n.loop.r); !(n.loop.values == {s} && n.loop.alreadyDecided == Some(s))
    ensures d.inbox == n.inbox && d.estSent == n.estSent && d.log.ests == n.log.ests && d.log.confs == n.log.confs
    ensures AfterCoin(c, n) == EnterRound(d, n.loop.r + 1, NewEst(n.loop.values, CoinAt(c, n.loop.r)))
  {
    var s := CoinAt(c, n.loop.r);
    d := if n.loop.values == {s} && n.loop.alreadyDecided == None
      then n.(loop := n.loop.(alreadyDecided := Some(s)), log := n.log.(decisions := n.log.decisions + [s])) else n;
  }

  lemma StartStep(c: Config, sent: set<(nat, Message)>, p: nat, n: Node, vi: int)
    requires NodeLive(c, sent, p, n) && Shape(n.loop, n.log)
    ensures var (n', out) := Start(n, vi); NodeLive(c, sent + Sending(p, out), p, n')
  {
    if n.loop.phase != NoInput {
      QuietStep(c, sent, p, n, n);
    } else if !Bit(vi) {
      LaterPhase(c, sent, p, n, Start(n, vi).0);
    } else {
      EnterStep(c, sent, p, n, n, 0, vi);
    }
  }

  ghost predicate Live(c: Config, F: Faults, s: System) {
    s.nodes.Keys == F.honest && forall p :: p in F.honest ==> NodeLive(c, s.sent, p, s.nodes[p])
  }

  lemma LocalLive(c: Config, F: Faults, s: System, e: Event)
    requires Inv(c, F, s) && Live(c, F, s) && Enabled(c, F, s, e)
    ensures var (n', out) := Local(c, s.nodes[e.p], e); NodeLive(c, s.sent + Sending(e.p, out), e.p, n')
  {
    var n := s.nodes[e.p];
    assert NodeInv(c, F, s.sent, n) && NodeLive(c, s.sent, e.p, n);
    match e
    case Input(p, v) => StartStep(c, s.sent, p, n, v);
    case Deliver(p, from, m) => ReceiveStep(c, s.sent, p, n, from, m);
    case Wake(p, w) => ResumeStep(c, s.sent, p, n, w);
  }

  // More messages sent.
  lemma SentMore(c: Config, sent: set<(nat, Message)>, sent': set<(nat, Message)>, p: nat, n: Node)
    requires NodeLive(c, sent, p, n) && sent <= sent'
    ensures NodeLive(c, sent', p, n)
  {
    LiveKept(c, sent, sent', p, n, n);
  }

  lemma {:induction false} RunLive(c: Config, F: Faults, es: seq<Event>)
    requires Valid(c, F) && Run(c, F, es).Some?
    ensures Live(c, F, Run(c, F, es).value)
  {
    if es == [] {
      InitLive(c, F);
    } else {
      var init, e := es[..|es| - 1], es[|es| - 1];
      RunLive(c, F, init);
      RunInv(c, F, init);
      StepLive(c, F, Run(c, F, init).value, e);
    }
  }

  lemma InitLive(c: Config, F: Faults)
    ensures Live(c, F, InitSystem(F))
  {
  }

  lemma StepLive(c: Config, F: Faults, s: System, e: Event)
    requires Inv(c, F, s) && Live(c, F, s) && Enabled(c, F, s, e)
    ensures Live(c, F, Apply(c, s, e))
  {
    var s', out := Apply(c, s, e), Local(c, s.nodes[e.p], e).1;
    LocalLive(c, F, s, e);
    assert s'.sent == s.sent + Sending(e.p, out);
    forall p | p in F.honest ensures NodeLive(c, s'.sent, p, s'.nodes[p]) {
      if p != e.p {
        SentMore(c, s.sent, s'.sent, p, s.nodes[p]);
      }
    }
  }

  // ---------- quorums of honest messages ----------

  // f + 1 honest nodes have sent EST v: then everybody has v in bin_values.
  lemma Spread(c: Config, F: Faults, s: System, r: nat, v: int, A: set<nat>)
    requires Valid(c, F) && Live(c, F, s) && AllRecorded(F, s)
    requires A <= F.honest && |A| >= c.f + 1 && forall q :: q in A ==> (q, Est(r, v)) in s.sent
    ensures forall p :: p in F.honest ==> v in At(s.nodes[p].inbox.bin, r)
  {
    forall p | p in F.honest ensures (p, Est(r, v)) in s.sent {
      forall q | q in A ensures q in At(s.nodes[p].inbox.est, (r, v)) {
        assert Recorded(s.nodes[p], q, Est(r, v));
      }
      SubsetSize(A, At(s.nodes[p].inbox.est, (r, v)));
      assert Thresholds(c, s.nodes[p], r, v) && NodeLive(c, s.sent, p, s.nodes[p]);
    }
    forall p | p in F.honest ensures v in At(s.nodes[p].inbox.bin, r) {
      forall q | q in F.honest ensures q in At(s.nodes[p].inbox.est, (r, v)) {
        assert Recorded(s.nodes[p], q, Est(r, v));
      }
      SubsetSize(F.honest, At(s.nodes[p].inbox.est, (r, v)));
      assert Thresholds(c, s.nodes[p], r, v);
    }
  }

  /** Values spread: what one honest node has in bin_values, all honest nodes have. */
  lemma BinSpread(c: Config, F: Faults, s: System, q: nat, r: nat, v: int)
    requires Valid(c, F) && Inv(c, F, s) && Live(c, F, s) && AllRecorded(F, s)
    requires q in F.honest && v in At(s.nodes[q].inbox.bin, r)
    ensures forall p :: p in F.honest ==> v in At(s.nodes[p].inbox.bin, r)
  {
    var S := At(s.nodes[q].inbox.est, (r, v));
    assert NodeInv(c, F, s.sent, s.nodes[q]);
    assert BinOk(c, s.nodes[q].inbox, r, v) && EstRecord(F, s.sent, s.nodes[q].inbox, r, v);
    HonestPart(F, S);
    Spread(c, F, s, r, v, S * F.honest);
  }

  // The honest nodes that started round r with estimate v.
  function Supporters(F: Faults, s: System, r: nat, v: int): set<nat>
    requires s.nodes.Keys == F.honest
  {
    set q | q in F.honest && HasEst(s.nodes[q], r, v)
  }

  /** When all honest nodes are in round r or beyond, one value reaches every bin_values[r]. */
  lemma SomeValue(c: Config, F: Faults, s: System, r: nat) returns (v: int)
    requires Valid(c, F) && Inv(c, F, s) && Live(c, F, s) && AllRecorded(F, s)
    requires forall q :: q in F.honest ==> r < |s.nodes[q].log.ests|
    ensures forall p :: p in F.honest ==> v in At(s.nodes[p].inbox.bin, r)
  {
    var A, B := Supporters(F, s, r, 0), Supporters(F, s, r, 1);
    forall q | q in F.honest ensures q in A + B {
      assert NodeInv(c, F, s.sent, s.nodes[q]);
      assert Bit(s.nodes[q].log.ests[r]);
    }
    SubsetSize(F.honest, A + B);
    assert |A + B| <= |A| + |B|;
    v := if |A| >= c.f + 1 then 0 else 1;
    forall q | q in Supporters(F, s, r, v) ensures (q, Est(r, v)) in s.sent {
      assert NodeLive(c, s.sent, q, s.nodes[q]);
      assert (r, v) in s.nodes[q].estSent;
    }
    Spread(c, F, s, r, v, Supporters(F, s, r, v));
  }

  // ---------- the waits ----------

  // Node q's AUX of round r counts in this inbox.
  predicate AuxFrom(box: Inbox, r: nat, q: nat) {
    || (0 in At(box.bin, r) && q in At(box.aux, (r, 0)))
    || (1 in At(box.bin, r) && q in At(box.aux, (r, 1)))
  }

  lemma AuxEnough(c: Config, F: Faults, box: Inbox, r: nat)
    requires |F.honest| >= c.N - c.f && forall q :: q in F.honest ==> AuxFrom(box, r, q)
    ensures AuxDone(c, box, r).Some?
  {
    var A := if 0 in At(box.bin, r) then At(box.aux, (r, 0)) else {};
    var B := if 1 in At(box.bin, r) then At(box.aux, (r, 1)) else {};
    SubsetSize(F.honest, A + B);
    assert |A + B| <= |A| + |B|;
  }

  // Every honest node's AUX of round r counts at p.
  lemma AuxCounts(c: Config, F: Faults, s: System, p: nat, r: nat)
    requires Valid(c, F) && Inv(c, F, s) && Live(c, F, s) && AllRecorded(F, s) && p in F.honest
    requires forall q :: q in F.honest ==> PastBin(s.nodes[q], r)
    ensures AuxDone(c, s.nodes[p].inbox, r).Some?
  {
    forall q | q in F.honest ensures AuxFrom(s.nodes[p].inbox, r, q) {
      AuxCounted(c, F, s, p, q, r);
    }
    AuxEnough(c, F, s.nodes[p].inbox, r);
  }

  lemma AuxCounted(c: Config, F: Faults, s: System, p: nat, q: nat, r: nat)
    requires Valid(c, F) && Inv(c, F, s) && Live(c, F, s) && AllRecorded(F, s) && p in F.honest && q in F.honest
    requires PastBin(s.nodes[q], r)
    ensures AuxFrom(s.nodes[p].inbox, r, q)
  {
    assert NodeLive(c, s.sent, q, s.nodes[q]);
    var w :| (q, Aux(r, w)) in s.sent && w in At(s.nodes[q].inbox.bin, r);
    assert Recorded(s.nodes[p], q, Aux(r, w));
    BinSpread(c, F, s, q, r, w);
    BinBacked(c, F, s, q, r, w);
  }

  // Node q's CONF of round r counts in this inbox.
  ghost predicate ConfAt(box: Inbox, r: nat, q: nat) {
    exists b :: q in At(box.conf, (r, b)) && ConfFrom(b, At(box.bin, r))
  }

  lemma ConfEnough(c: Config, F: Faults, box: Inbox, r: nat)
    requires |F.honest| >= c.N - c.f && forall q :: q in F.honest ==> ConfAt(box, r, q)
    ensures ConfDone(c, box, r).Some?
  {
    var A := if 0 in At(box.bin, r) then At(box.conf, (r, [0])) else {};
    var B := if 1 in At(box.bin, r) then At(box.conf, (r, [1])) else {};
    var C := if 0 in At(box.bin, r) && 1 in At(box.bin, r) then At(box.conf, (r, [0, 1])) else {};
    forall q | q in F.honest ensures q in A + B + C {
      assert ConfAt(box, r, q);
      var b :| q in At(box.conf, (r, b)) && ConfFrom(b, At(box.bin, r));
      assert 0 in [0] && 1 in [1] && 0 in [0, 1] && [0, 1][1] == 1;
    }
    SubsetSize(F.honest, A + B + C);
    assert |A + B + C| <= |A + B| + |C| && |A + B| <= |A| + |B|;
  }

  // Every honest node's CONF of round r counts at p.
  lemma ConfCounts(c: Config, F: Faults, s: System, p: nat, r: nat)
    requires Valid(c, F) && Inv(c, F, s) && Live(c, F, s) && AllRecorded(F, s) && p in F.honest
    requires forall q :: q in F.honest ==> r < |s.nodes[q].log.confs|
    ensures ConfDone(c, s.nodes[p].inbox, r).Some?
  {
    forall q | q in F.honest ensures ConfAt(s.nodes[p].inbox, r, q) {
      ConfCounted(c, F, s, p, q, r);
    }
    ConfEnough(c, F, s.nodes[p].inbox, r);
  }

  lemma ConfCounted(c: Config, F: Faults, s: System, p: nat, q: nat, r: nat)
    requires Valid(c, F) && Inv(c, F, s) && Live(c, F, s) && AllRecorded(F, s) && p in F.honest && q in F.honest
    requires r < |s.nodes[q].log.confs|
    ensures var b := s.nodes[q].log.confs[r]; q in At(s.nodes[p].inbox.conf, (r, b)) && ConfFrom(b, At(s.nodes[p].inbox.bin, r))
  {
    var b := s.nodes[q].log.confs[r];
    assert NodeLive(c, s.sent, q, s.nodes[q]);
    assert Recorded(s.nodes[p], q, Conf(r, b));
    forall v | v in b ensures v in At(s.nodes[p].inbox.bin, r) {
      BinSpread(c, F, s, q, r, v);
    }
  }

  // ---------- the theorems ----------

  /**
   No deadlock: when every honest node is active and every message between honest
   nodes is recorded, each node that no honest node is behind of can leave its wait.
   */
  lemma LastCanStep(c: Config, F: Faults, es: seq<Event>, s: System, p: nat)
    requires Valid(c, F) && Run(c, F, es) == Some(s) && s.nodes.Keys == F.honest && AllRecorded(F, s)
    requires forall q :: q in F.honest ==> Active(s.nodes[q])
    requires p in F.honest && forall q :: q in F.honest ==> Progress(s.nodes[p]) <= Progress(s.nodes[q])
    ensures CanStep(c, s.nodes[p])
  {
    RunInv(c, F, es);
    RunLive(c, F, es);
    LastLeaves(c, F, s, p);
  }

  lemma LastLeaves(c: Config, F: Faults, s: System, p: nat)
    requires Valid(c, F) && Inv(c, F, s) && Live(c, F, s) && AllRecorded(F, s)
    requires forall q :: q in F.honest ==> Active(s.nodes[q])
    requires p in F.honest && forall q :: q in F.honest ==> Progress(s.nodes[p]) <= Progress(s.nodes[q])
    ensures CanStep(c, s.nodes[p])
  {
    var r, phase := s.nodes[p].loop.r, s.nodes[p].loop.phase;
    forall q | q in F.honest ensures AtLeast(s.nodes[q], r, phase) {
      assert NodeInv(c, F, s.sent, s.nodes[q]);
      NotBehind(s.nodes[p], s.nodes[q]);
    }
    AllLeaves(c, F, s, p);
  }

  lemma NotBehind(n: Node, m: Node)
    requires Active(n) && Active(m) && Progress(n) <= Progress(m) && Shape(m.loop, m.log)
    ensures AtLeast(m, n.loop.r, n.loop.phase)
  {
  }

  lemma AllLeaves(c: Config, F: Faults, s: System, p: nat)
    requires Valid(c, F) && Inv(c, F, s) && Live(c, F, s) && AllRecorded(F, s) && p in F.honest && Active(s.nodes[p])
    requires forall q :: q in F.honest ==> AtLeast(s.nodes[q], s.nodes[p].loop.r, s.nodes[p].loop.phase)
    ensures CanStep(c, s.nodes[p])
  {
    var n := s.nodes[p];
    if n.loop.phase == WaitBin {
      var v := SomeValue(c, F, s, n.loop.r);
      LeavesBin(c, n, v);
    } else if n.loop.phase == WaitAux {
      AuxCounts(c, F, s, p, n.loop.r);
      Leaves(c, n);
    } else {
      if n.loop.phase == WaitConf {
        ConfCounts(c, F, s, p, n.loop.r);
      }
      Leaves(c, n);
    }
  }

  lemma LeavesBin(c: Config, n: Node, v: int)
    requires n.loop.phase == WaitBin && v in At(n.inbox.bin, n.loop.r)
    ensures CanStep(c, n)
  {
    assert Resume(c, n, v).0.loop != n.loop;
  }

  lemma Leaves(c: Config, n: Node)
    requires n.loop.phase in {WaitAux, WaitConf, WaitCoin}
    requires n.loop.phase == WaitAux ==> AuxDone(c, n.inbox, n.loop.r).Some?
    requires n.loop.phase == WaitConf ==> ConfDone(c, n.inbox, n.loop.r).Some?
    ensures CanStep(c, n)
  {
    assert Resume(c, n, 0).0.loop.phase != n.loop.phase;
    assert Resume(c, n, 0).0.loop != n.loop;
  }

  // Node n has done what one does before this wait of round r.
  ghost predicate AtLeast(n: Node, r: nat, phase: Phase) {
    match phase
    case WaitBin => r < |n.log.ests|
    case WaitAux => PastBin(n, r)
    case WaitConf => r < |n.log.confs|
    case _ => true
  }

  // Some honest node is not ahead of any other.
  lemma {:induction false} Hindmost(s: System, S: set<nat>) returns (p: nat)
    requires S != {} && S <= s.nodes.Keys
    ensures p in S && forall q :: q in S ==> Progress(s.nodes[p]) <= Progress(s.nodes[q])
    decreases S
  {
    var x :| x in S;
    p := x;
    if S != {x} {
      assert S - {x} != {};
      var y := Hindmost(s, S - {x});
      p := if Progress(s.nodes[x]) <= Progress(s.nodes[y]) then x else y;
    }
  }

  /** In a quiescent state with all honest nodes active, some honest node can step. */
  lemma NoDeadlock(c: Config, F: Faults, es: seq<Event>, s: System) returns (p: nat)
    requires Valid(c, F) && Run(c, F, es) == Some(s) && s.nodes.Keys == F.honest && AllRecorded(F, s)
    requires forall q :: q in F.honest ==> Active(s.nodes[q])
    ensures p in F.honest && CanStep(c, s.nodes[p])
  {
    assert F.honest != {};
    p := Hindmost(s, F.honest);
    LastCanStep(c, F, es, s, p);
  }
}
