/**
 Two-value agreement among N nodes, at most f of them Byzantine: lockstep of the
 rounds, absence of failed assertions, and agreement of the decisions, exactly
 when FINISH messages cannot be repeated or no node is Byzantine.
 */
module TwoValueSafety {
  import opened FiniteSets
  import opened Quorums
  import opened Options
  import opened Tables
  import opened TwoValueAgreement

  /** The honest nodes, and what they have sent so far (to everyone else). */
  datatype System = System(nodes: map<nat, Node>, sent: set<(nat, Message)>)

  datatype Event =
    | Input(p: nat, v: int)
    | Deliver(p: nat, from: nat, m: Message)
    | Wake(p: nat, w: int)
    | Stop(p: nat)

  ghost predicate Valid(c: Config, F: Faults) {
    Resilient(F) && F.N == c.N && F.f == c.f
  }

  function InitSystem(F: Faults): System {
    System(map p | p in F.honest :: TwoValueAgreement.Init(), {})
  }

  /**
   A Byzantine sender may send anything, an honest one only what it has sent;
   a node counts at most k FINISH messages of one sender.
   */
  predicate Enabled(c: Config, F: Faults, k: nat, s: System, e: Event) {
    && e.p in F.honest && e.p in s.nodes
    && (e.Deliver? ==> e.from < c.N && e.from != e.p && (e.from in F.honest ==> (e.from, e.m) in s.sent))
    && (e.Deliver? && e.m.Finish? ==> multiset(s.nodes[e.p].fin.from)[e.from] < k)
  }

  ghost function Local(c: Config, n: Node, e: Event): (Node, seq<Message>) {
    match e
    case Input(p, v) => Start(c, p, n, v)
    case Deliver(_, from, m) => Receive(c, n, from, m)
    case Wake(p, w) => Resume(c, p, n, w)
    case Stop(_) => (Halt(c, n), [])
  }

  ghost function Apply(c: Config, s: System, e: Event): System
    requires e.p in s.nodes
  {
    var (n', out) := Local(c, s.nodes[e.p], e);
    System(s.nodes[e.p := n'], s.sent + set m | m in out :: (e.p, m))
  }

  /** The state after the events es, if they are a run from the initial state. */
  ghost function Run(c: Config, F: Faults, k: nat, es: seq<Event>): Option<System> {
    if es == [] then Some(InitSystem(F))
    else
      match Run(c, F, k, es[..|es| - 1])
      case None => None
      case Some(s) => if Enabled(c, F, k, s, es[|es| - 1]) then Some(Apply(c, s, es[|es| - 1])) else None
  }

  // ---------- the invariant of the rounds ----------

  predicate HasEst(n: Node, r: nat, v: int) {
    r < |n.log.ests| && n.log.ests[r] == v
  }

  /** Some honest node started round r with est v. */
  ghost predicate Backed(F: Faults, s: System, r: nat, v: int) {
    exists q :: q in F.honest && q in s.nodes && HasEst(s.nodes[q], r, v)
  }

  // Recorded senders are nodes, and the honest ones did send.
  ghost predicate EstRecord(F: Faults, sent: set<(nat, Message)>, box: Inbox, r: nat, v: int) {
    Senders(F, sent, At(box.est, (r, v)), Est(r, v))
  }

  ghost predicate ConfRecord(F: Faults, sent: set<(nat, Message)>, box: Inbox, r: nat, b: set<int>) {
    Senders(F, sent, At(box.conf, (r, b)), Conf(r, b))
  }

  ghost predicate IntOk(c: Config, box: Inbox, r: nat, v: int) {
    v in At(box.ints, r) ==> |At(box.est, (r, v))| >= 2 * c.f + 1
  }

  ghost predicate BoxInv(c: Config, F: Faults, sent: set<(nat, Message)>, box: Inbox) {
    && (forall r: nat, v :: EstRecord(F, sent, box, r, v))
    && (forall r: nat, b :: ConfRecord(F, sent, box, r, b))
    && (forall r: nat, v :: IntOk(c, box, r, v))
  }

  // What the CONF wait of round r left with.
  ghost predicate ValOk(c: Config, box: Inbox, r: nat, w: set<int>) {
    w != {} && w <= At(box.ints, r) && |At(box.conf, (r, w))| >= c.N - c.f
  }

  // How far the history reaches in each phase.
  ghost predicate Shape(box: Inbox, l: Loop, g: Log) {
    match l.phase
    case NoInput => g.ests == [] && g.confs == [] && g.vals == [] && l.confSent == {}
    case WaitInt => |g.ests| == l.r + 1 && |g.confs| == l.r && |g.vals| == l.r
    case WaitAux => |g.ests| == l.r + 1 && |g.confs| == l.r && |g.vals| == l.r && At(box.ints, l.r) != {}
    case WaitConf => |g.ests| == l.r + 1 && |g.confs| == l.r + 1 && |g.vals| == l.r && At(box.ints, l.r) != {}
    case WaitCoin => |g.ests| == l.r + 1 && |g.confs| == l.r + 1 && |g.vals| == l.r + 1 && l.values == g.vals[l.r]
    case _ => true
  }

  // The estimate of round r + 1 follows from the values of round r and its coin.
  ghost predicate NextEst(c: Config, g: Log, r: nat)
    requires r + 1 < |g.ests|
  {
    && r < |g.vals| && (|g.vals[r]| == 1 || Consecutive(g.vals[r]))
    && g.ests[r + 1] == NewEst(g.vals[r], CoinAt(c, r))
  }

  ghost predicate LogInv(c: Config, box: Inbox, confSent: set<(nat, set<int>)>, g: Log) {
    && (forall r :: 0 <= r < |g.vals| ==> ValOk(c, box, r, g.vals[r]))
    && (forall r :: 0 <= r < |g.ests| - 1 ==> NextEst(c, g, r))
    && (forall x :: x in confSent ==> x.0 < |g.confs|)
  }

  // decide is called at most once, together with the FINISH.
  ghost predicate Decided(fin: Finishing, g: Log) {
    |g.decisions| == if fin.sent then 1 else 0
  }

  ghost predicate NodeInv(c: Config, F: Faults, sent: set<(nat, Message)>, n: Node) {
    && BoxInv(c, F, sent, n.inbox)
    && Shape(n.inbox, n.loop, n.log)
    && LogInv(c, n.inbox, n.loop.confSent, n.log)
    && Decided(n.fin, n.log)
  }

  // What node n has sent is in its history.
  ghost predicate SentOk(F: Faults, s: System, n: Node, m: Message) {
    match m
    case Est(r, v) => HasEst(n, r, v) || Backed(F, s, r, v)
    case Aux(r, w) => w in At(n.inbox.ints, r)
    case Conf(r, b) => r < |n.log.confs| && n.log.confs[r] == b
    case Finish(v) => v in n.log.decisions
  }

  ghost predicate Inv(c: Config, F: Faults, s: System) {
    && s.nodes.Keys == F.honest
    && (forall p :: p in F.honest ==> NodeInv(c, F, s.sent, s.nodes[p]))
    && (forall x :: x in s.sent ==> x.0 in F.honest && SentOk(F, s, s.nodes[x.0], x.1))
  }

  // ---------- one node ----------

  // Inboxes only grow, and logs are only appended to.
  ghost predicate Grows(b: Inbox, b': Inbox) {
    && (forall k :: At(b.est, k) <= At(b'.est, k))
    && (forall k :: At(b.conf, k) <= At(b'.conf, k))
    && (forall r :: At(b.ints, r) <= At(b'.ints, r))
  }

  ghost predicate Extends(n: Node, n': Node) {
    && Grows(n.inbox, n'.inbox) && n.log.ests <= n'.log.ests && n.log.confs <= n'.log.confs
    && n.log.vals <= n'.log.vals && n.log.decisions <= n'.log.decisions
  }

  function Sending(p: nat, out: seq<Message>): set<(nat, Message)> {
    set m | m in out :: (p, m)
  }

  lemma SentGrows(c: Config, F: Faults, sent: set<(nat, Message)>, sent': set<(nat, Message)>, box: Inbox)
    requires sent <= sent' && BoxInv(c, F, sent, box)
    ensures BoxInv(c, F, sent', box)
  {
    forall r: nat, v ensures EstRecord(F, sent', box, r, v) {
      assert EstRecord(F, sent, box, r, v);
    }
    forall r: nat, b ensures ConfRecord(F, sent', box, r, b) {
      assert ConfRecord(F, sent, box, r, b);
    }
  }

  lemma LogKept(c: Config, b: Inbox, b': Inbox, confSent: set<(nat, set<int>)>, g: Log)
    requires LogInv(c, b, confSent, g) && Grows(b, b')
    ensures LogInv(c, b', confSent, g)
  {
    forall r | 0 <= r < |g.vals| ensures ValOk(c, b', r, g.vals[r]) {
      assert ValOk(c, b, r, g.vals[r]);
      SubsetSize(At(b.conf, (r, g.vals[r])), At(b'.conf, (r, g.vals[r])));
    }
  }

  // One key of est_values and int_values after a new EST.
  lemma EstKey(c: Config, F: Faults, sent: set<(nat, Message)>, b: Inbox, from: nat, r: nat, v: int, b': Inbox, r': nat, v': int)
    requires EstRecord(F, sent, b, r', v') && IntOk(c, b, r', v')
    requires b' == AddEst(c, b, from, r, v) || b' == b.(est := b.est[(r, v) := At(b.est, (r, v)) + {from}])
    requires var S := At(b.est, (r, v)); Senders(F, sent, S + {from}, Est(r, v)) && |S| <= |S + {from}|
    ensures EstRecord(F, sent, b', r', v') && IntOk(c, b', r', v')
  {
    if r' != r || v' != v {
      assert At(b'.est, (r', v')) == At(b.est, (r', v'));
    }
  }

  lemma EstGrows(c: Config, b: Inbox, from: nat, r: nat, v: int, b': Inbox)
    requires b' == AddEst(c, b, from, r, v) || b' == b.(est := b.est[(r, v) := At(b.est, (r, v)) + {from}])
    ensures Grows(b, b')
  {
  }

  // One more sender of EST (r, v), counted towards int_values or, for a node's own, not.
  lemma EstInv(c: Config, F: Faults, sent: set<(nat, Message)>, b: Inbox, from: nat, r: nat, v: int, b': Inbox)
    requires F.N == c.N && BoxInv(c, F, sent, b)
    requires from < c.N && (from in F.honest ==> (from, Est(r, v)) in sent)
    requires b' == AddEst(c, b, from, r, v) || b' == b.(est := b.est[(r, v) := At(b.est, (r, v)) + {from}])
    ensures BoxInv(c, F, sent, b') && Grows(b, b')
  {
    assert EstRecord(F, sent, b, r, v);
    SendersAdd(F, sent, At(b.est, (r, v)), Est(r, v), from);
    forall r': nat, v' ensures EstRecord(F, sent, b', r', v') && IntOk(c, b', r', v') {
      assert EstRecord(F, sent, b, r', v') && IntOk(c, b, r', v');
      EstKey(c, F, sent, b, from, r, v, b', r', v');
    }
    forall r', b0 ensures ConfRecord(F, sent, b', r', b0) {
      assert ConfRecord(F, sent, b, r', b0);
    }
    EstGrows(c, b, from, r, v, b');
  }

  // One key of conf_values after a new CONF.
  lemma ConfKey(F: Faults, sent: set<(nat, Message)>, b: Inbox, from: nat, r: nat, vals: set<int>, r': nat, b0: set<int>)
    requires ConfRecord(F, sent, b, r', b0) && Senders(F, sent, At(b.conf, (r, vals)) + {from}, Conf(r, vals))
    ensures ConfRecord(F, sent, AddConf(b, from, r, vals), r', b0)
  {
    if r' != r || b0 != vals {
      assert At(AddConf(b, from, r, vals).conf, (r', b0)) == At(b.conf, (r', b0));
    }
  }

  lemma ConfInv(c: Config, F: Faults, sent: set<(nat, Message)>, b: Inbox, from: nat, r: nat, vals: set<int>)
    requires F.N == c.N && BoxInv(c, F, sent, b)
    requires from < c.N && (from in F.honest ==> (from, Conf(r, vals)) in sent)
    ensures BoxInv(c, F, sent, AddConf(b, from, r, vals)) && Grows(b, AddConf(b, from, r, vals))
  {
    var b' := AddConf(b, from, r, vals);
    assert ConfRecord(F, sent, b, r, vals);
    SendersAdd(F, sent, At(b.conf, (r, vals)), Conf(r, vals), from);
    forall r', b0 ensures ConfRecord(F, sent, b', r', b0) {
      assert ConfRecord(F, sent, b, r', b0);
      ConfKey(F, sent, b, from, r, vals, r', b0);
    }
    forall r': nat, v ensures EstRecord(F, sent, b', r', v) && IntOk(c, b', r', v) {
      assert EstRecord(F, sent, b, r', v) && IntOk(c, b, r', v);
    }
    ConfGrows(b, from, r, vals);
  }

  lemma ConfGrows(b: Inbox, from: nat, r: nat, vals: set<int>)
    ensures Grows(b, AddConf(b, from, r, vals))
  {
  }

  lemma AuxInv(c: Config, F: Faults, sent: set<(nat, Message)>, b: Inbox, b': Inbox)
    requires BoxInv(c, F, sent, b) && b' == b.(aux := b'.aux)
    ensures BoxInv(c, F, sent, b') && Grows(b, b')
  {
    forall r', v ensures EstRecord(F, sent, b', r', v) {
      assert EstRecord(F, sent, b, r', v);
    }
    forall r', b0 ensures ConfRecord(F, sent, b', r', b0) {
      assert ConfRecord(F, sent, b, r', b0);
    }
    forall r': nat, v ensures IntOk(c, b', r', v) {
      assert IntOk(c, b, r', v);
    }
  }

  // What one step of node p must establish.
  ghost predicate StepOk(c: Config, F: Faults, s: System, p: nat, n: Node, n': Node, out: seq<Message>) {
    && NodeInv(c, F, s.sent + Sending(p, out), n')
    && Extends(n, n')
    && forall m :: m in out ==> SentOk(F, s, n', m)
  }

  // The inbox has only grown; loop and rounds of the log are unchanged.
  lemma InboxStep(c: Config, F: Faults, s: System, p: nat, n: Node, n': Node, out: seq<Message>)
    requires NodeInv(c, F, s.sent, n) && n'.loop == n.loop && n'.log == n.log.(decisions := n'.log.decisions)
    requires n.log.decisions <= n'.log.decisions && Decided(n'.fin, n'.log)
    requires BoxInv(c, F, s.sent, n'.inbox) && Grows(n.inbox, n'.inbox)
    requires forall m :: m in out ==> SentOk(F, s, n', m)
    ensures StepOk(c, F, s, p, n, n', out)
  {
    LogKept(c, n.inbox, n'.inbox, n.loop.confSent, n.log);
    SameRounds(c, n'.inbox, n.loop.confSent, n.log, n'.log);
    SentGrows(c, F, s.sent, s.sent + Sending(p, out), n'.inbox);
  }

  lemma SameRounds(c: Config, b: Inbox, confSent: set<(nat, set<int>)>, g: Log, g': Log)
    requires LogInv(c, b, confSent, g) && g' == g.(decisions := g'.decisions)
    ensures LogInv(c, b, confSent, g')
  {
    forall r | 0 <= r < |g'.ests| - 1 ensures NextEst(c, g', r) {
      assert NextEst(c, g, r);
    }
  }

  // An EST that an honest node has sent is backed.
  ghost predicate EstSentBacked(F: Faults, s: System, r: nat, v: int) {
    (exists q :: q in F.honest && (q, Est(r, v)) in s.sent) ==> Backed(F, s, r, v)
  }

  // f + 1 nodes sent EST v, so an honest one did.
  lemma EstBacked(c: Config, F: Faults, s: System, b: Inbox, r: nat, v: int)
    requires Resilient(F) && F.f == c.f && EstSentBacked(F, s, r, v)
    requires EstRecord(F, s.sent, b, r, v) && |At(b.est, (r, v))| >= c.f + 1
    ensures Backed(F, s, r, v)
  {
    var q := HonestMember(F, At(b.est, (r, v)));
    assert (q, Est(r, v)) in s.sent;
  }

  lemma EstStep(c: Config, F: Faults, s: System, p: nat, n: Node, from: nat, r: nat, v: int)
    requires Valid(c, F) && NodeInv(c, F, s.sent, n) && EstSentBacked(F, s, r, v)
    requires from < c.N && (from in F.honest ==> (from, Est(r, v)) in s.sent)
    ensures var (n', out) := OnEst(c, n, from, r, v); StepOk(c, F, s, p, n, n', out)
  {
    var (n', out) := OnEst(c, n, from, r, v);
    EstFrame(c, n, from, r, v);
    EstInv(c, F, s.sent, n.inbox, from, r, v, AddEst(c, n.inbox, from, r, v));
    if out != [] {
      EstBacked(c, F, s, n'.inbox, r, v);
    }
    InboxStep(c, F, s, p, n, n', out);
  }

  // An EST changes the inbox only, and is relayed with f + 1 senders.
  lemma EstFrame(c: Config, n: Node, from: nat, r: nat, v: int)
    ensures var (n', out) := OnEst(c, n, from, r, v);
      && n'.loop == n.loop && n'.log == n.log && n'.fin == n.fin
      && (n'.inbox == n.inbox || n'.inbox == AddEst(c, n.inbox, from, r, v))
      && (out == [] || (out == [Est(r, v)] && |At(n'.inbox.est, (r, v))| >= c.f + 1))
  {
  }

  lemma ReceiveStep(c: Config, F: Faults, s: System, p: nat, n: Node, from: nat, m: Message)
    requires Valid(c, F) && NodeInv(c, F, s.sent, n)
    requires m.Est? ==> EstSentBacked(F, s, m.round, m.v)
    requires from < c.N && (from in F.honest ==> (from, m) in s.sent)
    ensures var (n', out) := Receive(c, n, from, m); StepOk(c, F, s, p, n, n', out)
  {
    var (n', out) := Receive(c, n, from, m);
    if !n.receiving {
      InboxStep(c, F, s, p, n, n', out);
    } else {
      match m
      case Est(r, v) => EstStep(c, F, s, p, n, from, r, v);
      case Aux(r, v) =>
        AuxInv(c, F, s.sent, n.inbox, n'.inbox);
        InboxStep(c, F, s, p, n, n', out);
      case Conf(r, vals) =>
        ConfInv(c, F, s.sent, n.inbox, from, r, vals);
        InboxStep(c, F, s, p, n, n', out);
      case Finish(v) =>
        InboxStep(c, F, s, p, n, n', out);
    }
  }

  // Round |ests| starts with the estimate that the round before it left.
  lemma EnterLog(c: Config, b: Inbox, confSent: set<(nat, set<int>)>, g: Log, est: int)
    requires LogInv(c, b, confSent, g) && |g.ests| == |g.vals|
    requires
      g.ests != [] ==>
        var w := g.vals[|g.vals| - 1];
        (|w| == 1 || Consecutive(w)) && est == NewEst(w, CoinAt(c, |g.vals| - 1))
    ensures LogInv(c, b, confSent, g.(ests := g.ests + [est]))
  {
    var g' := g.(ests := g.ests + [est]);
    forall r | 0 <= r < |g'.ests| - 1 ensures NextEst(c, g', r) {
      if r < |g.ests| - 1 {
        assert NextEst(c, g, r);
      }
    }
  }

  // d has entered all rounds before r and starts round r; what it has already sent in this step is out0.
  lemma EnterStep(c: Config, F: Faults, s: System, p: nat, n: Node, d: Node, r: nat, est: int, out0: seq<Message>)
    requires Valid(c, F) && p in F.honest && BoxInv(c, F, s.sent, n.inbox)
    requires d.inbox == n.inbox && d.loop == n.loop && d.log == n.log.(decisions := d.log.decisions)
    requires n.log.decisions <= d.log.decisions && Decided(d.fin, d.log)
    requires |d.log.ests| == r && |d.log.confs| == r && |d.log.vals| == r
    requires LogInv(c, n.inbox, n.loop.confSent, d.log.(ests := d.log.ests + [est]))
    requires forall m :: m in out0 ==> m.Finish? && m.v in d.log.decisions
    ensures var (n', out) := EnterRound(c, p, d, r, est); StepOk(c, F, s, p, n, n', out0 + out)
  {
    var (n', out) := EnterRound(c, p, d, r, est);
    var sent' := s.sent + Sending(p, out0 + out);
    SentGrows(c, F, s.sent, sent', n.inbox);
    if out != [] {
      assert Est(r, est) in out0 + out;
      assert (p, Est(r, est)) in sent';
      EstInv(c, F, sent', n.inbox, p, r, est, n'.inbox);
    }
    LogKept(c, n.inbox, n'.inbox, n.loop.confSent, n'.log);
    assert HasEst(n', r, est);
  }

  lemma StartStep(c: Config, F: Faults, s: System, p: nat, n: Node, v: int)
    requires Valid(c, F) && p in F.honest && NodeInv(c, F, s.sent, n)
    ensures var (n', out) := Start(c, p, n, v); StepOk(c, F, s, p, n, n', out)
  {
    var (n', out) := Start(c, p, n, v);
    if n.loop.phase == NoInput {
      EnterLog(c, n.inbox, n.loop.confSent, n.log, v);
      EnterStep(c, F, s, p, n, n, 0, v, []);
      assert [] + out == out;
    } else {
      InboxStep(c, F, s, p, n, n', out);
    }
  }

  lemma CoinStep(c: Config, F: Faults, s: System, p: nat, n: Node)
    requires Valid(c, F) && p in F.honest && NodeInv(c, F, s.sent, n) && n.loop.phase == WaitCoin
    ensures var (n', out) := AfterCoin(c, p, n); StepOk(c, F, s, p, n, n', out)
  {
    if |n.loop.values| != 1 && !Consecutive(n.loop.values) {
      SentGrows(c, F, s.sent, s.sent + Sending(p, []), n.inbox);
    } else {
      var d, est, out0 := CoinParts(c, p, n);
      NextStep(c, F, s, p, n, d, est, out0);
    }
  }

  // The end of a round: maybe a decision, then the next round.
  lemma CoinParts(c: Config, p: nat, n: Node) returns (d: Node, est: int, out0: seq<Message>)
    requires |n.loop.values| == 1 || Consecutive(n.loop.values)
    ensures est == NewEst(n.loop.values, CoinAt(c, n.loop.r))
    ensures (d, out0) == (n, []) || (!n.fin.sent && (d, out0) == Decide(n, est))
    ensures AfterCoin(c, p, n) == var (n', out) := EnterRound(c, p, d, n.loop.r + 1, est); (n', out0 + out)
  {
    est := NewEst(n.loop.values, CoinAt(c, n.loop.r));
    if |n.loop.values| == 1 && est % 2 == CoinAt(c, n.loop.r) && !n.fin.sent {
      d, out0 := Decide(n, est).0, Decide(n, est).1;
    } else {
      d, out0 := n, [];
    }
  }

  lemma NextStep(c: Config, F: Faults, s: System, p: nat, n: Node, d: Node, est: int, out0: seq<Message>)
    requires Valid(c, F) && p in F.honest && NodeInv(c, F, s.sent, n) && n.loop.phase == WaitCoin
    requires |n.loop.values| == 1 || Consecutive(n.loop.values)
    requires est == NewEst(n.loop.values, CoinAt(c, n.loop.r))
    requires (d, out0) == (n, []) || (!n.fin.sent && (d, out0) == Decide(n, est))
    ensures var (n', out) := EnterRound(c, p, d, n.loop.r + 1, est); StepOk(c, F, s, p, n, n', out0 + out)
  {
    SameRounds(c, n.inbox, n.loop.confSent, n.log, d.log);
    EnterLog(c, n.inbox, n.loop.confSent, d.log, est);
    EnterStep(c, F, s, p, n, d, n.loop.r + 1, est, out0);
  }

  lemma IntStep(c: Config, F: Faults, s: System, p: nat, n: Node, w: int)
    requires NodeInv(c, F, s.sent, n) && n.loop.phase == WaitInt
    ensures var (n', out) := Resume(c, p, n, w); StepOk(c, F, s, p, n, n', out)
  {
    var (n', out) := Resume(c, p, n, w);
    AuxInv(c, F, s.sent, n.inbox, n'.inbox);
    SentGrows(c, F, s.sent, s.sent + Sending(p, out), n'.inbox);
    LogKept(c, n.inbox, n'.inbox, n.loop.confSent, n.log);
  }

  lemma AuxStep(c: Config, F: Faults, s: System, p: nat, n: Node, w: int)
    requires Valid(c, F) && p in F.honest && NodeInv(c, F, s.sent, n) && n.loop.phase == WaitAux
    ensures var (n', out) := Resume(c, p, n, w); StepOk(c, F, s, p, n, n', out)
  {
    var (n', out) := Resume(c, p, n, w);
    if out == [] {
      SentGrows(c, F, s.sent, s.sent + Sending(p, out), n.inbox);
    } else {
      ToConfStep(c, F, s, p, n);
    }
  }

  lemma ToConfStep(c: Config, F: Faults, s: System, p: nat, n: Node)
    requires Valid(c, F) && p in F.honest && NodeInv(c, F, s.sent, n) && n.loop.phase == WaitAux
    requires At(n.inbox.ints, n.loop.r) != {}
    ensures var (n', out) := ToConf(p, n); StepOk(c, F, s, p, n, n', out)
  {
    var (n', out) := ToConf(p, n);
    var sent', r, ints := s.sent + Sending(p, out), n.loop.r, At(n.inbox.ints, n.loop.r);
    assert out == [Conf(r, ints)];
    assert (p, Conf(r, ints)) in sent';
    SentGrows(c, F, s.sent, sent', n.inbox);
    ConfInv(c, F, sent', n.inbox, p, r, ints);
    LogKept(c, n.inbox, n'.inbox, n.loop.confSent, n.log);
    ConfLog(c, n'.inbox, n.loop.confSent, n.log, n'.loop.confSent, n'.log);
  }

  lemma ConfLog(c: Config, b: Inbox, confSent: set<(nat, set<int>)>, g: Log, confSent': set<(nat, set<int>)>, g': Log)
    requires LogInv(c, b, confSent, g)
    requires exists x :: confSent' == confSent + {(|g.confs|, x)} && g' == g.(confs := g.confs + [x])
    ensures LogInv(c, b, confSent', g')
  {
    forall r | 0 <= r < |g'.ests| - 1 ensures NextEst(c, g', r) {
      assert NextEst(c, g, r);
    }
  }

  lemma ConfStep(c: Config, F: Faults, s: System, p: nat, n: Node, w: int)
    requires NodeInv(c, F, s.sent, n) && n.loop.phase == WaitConf
    ensures var (n', out) := Resume(c, p, n, w); StepOk(c, F, s, p, n, n', out)
  {
    var (n', out) := Resume(c, p, n, w);
    SentGrows(c, F, s.sent, s.sent + Sending(p, out), n.inbox);
    forall r | 0 <= r < |n'.log.ests| - 1 ensures NextEst(c, n'.log, r) {
      assert NextEst(c, n.log, r);
    }
  }

  lemma ResumeStep(c: Config, F: Faults, s: System, p: nat, n: Node, w: int)
    requires Valid(c, F) && p in F.honest && NodeInv(c, F, s.sent, n)
    ensures var (n', out) := Resume(c, p, n, w); StepOk(c, F, s, p, n, n', out)
  {
    match n.loop.phase
    case WaitInt => IntStep(c, F, s, p, n, w);
    case WaitAux => AuxStep(c, F, s, p, n, w);
    case WaitConf => ConfStep(c, F, s, p, n, w);
    case WaitCoin => CoinStep(c, F, s, p, n);
    case _ => InboxStep(c, F, s, p, n, n, []);
  }

  // ---------- the whole system ----------

  lemma LocalStep(c: Config, F: Faults, k: nat, s: System, e: Event)
    requires Valid(c, F) && Inv(c, F, s) && Enabled(c, F, k, s, e)
    ensures var (n', out) := Local(c, s.nodes[e.p], e); StepOk(c, F, s, e.p, s.nodes[e.p], n', out)
  {
    var n := s.nodes[e.p];
    match e
    case Input(p, v) => StartStep(c, F, s, p, n, v);
    case Deliver(p, from, m) =>
      if m.Est? {
        SentEstBacked(c, F, s, m.round, m.v);
      }
      ReceiveStep(c, F, s, p, n, from, m);
    case Wake(p, w) => ResumeStep(c, F, s, p, n, w);
    case Stop(p) => SentGrows(c, F, s.sent, s.sent + Sending(p, []), n.inbox);
  }

  lemma SentEstBacked(c: Config, F: Faults, s: System, r: nat, v: int)
    requires Inv(c, F, s)
    ensures EstSentBacked(F, s, r, v)
  {
    if q :| q in F.honest && (q, Est(r, v)) in s.sent {
      assert SentOk(F, s, s.nodes[q], Est(r, v));
    }
  }

  lemma BackedKept(F: Faults, s: System, s': System, p: nat, n': Node, r: nat, v: int)
    requires p in s.nodes && s'.nodes == s.nodes[p := n'] && Extends(s.nodes[p], n') && Backed(F, s, r, v)
    ensures Backed(F, s', r, v)
  {
    var q :| q in F.honest && q in s.nodes && HasEst(s.nodes[q], r, v);
    assert HasEst(s'.nodes[q], r, v);
  }

  // What was sent stays in the history when nodes only extend it.
  lemma SentKept(F: Faults, s: System, s': System, p: nat, n': Node, n: Node, nn: Node, m: Message)
    requires p in s.nodes && s'.nodes == s.nodes[p := n'] && Extends(s.nodes[p], n')
    requires SentOk(F, s, n, m) && (nn == n || Extends(n, nn))
    ensures SentOk(F, s', nn, m)
  {
    if m.Est? && Backed(F, s, m.round, m.v) {
      BackedKept(F, s, s', p, n', m.round, m.v);
    }
  }

  lemma StepInv(c: Config, F: Faults, k: nat, s: System, e: Event)
    requires Valid(c, F) && Inv(c, F, s) && Enabled(c, F, k, s, e)
    ensures Inv(c, F, Apply(c, s, e))
  {
    LocalStep(c, F, k, s, e);
    var (n', out) := Local(c, s.nodes[e.p], e);
    Update(c, F, s, e.p, n', out, Apply(c, s, e));
  }

  lemma Update(c: Config, F: Faults, s: System, p: nat, n': Node, out: seq<Message>, s': System)
    requires Inv(c, F, s) && p in F.honest && StepOk(c, F, s, p, s.nodes[p], n', out)
    requires s' == System(s.nodes[p := n'], s.sent + Sending(p, out))
    ensures Inv(c, F, s')
  {
    forall q | q in F.honest ensures NodeInv(c, F, s'.sent, s'.nodes[q]) {
      if q != p {
        SentGrows(c, F, s.sent, s'.sent, s'.nodes[q].inbox);
      }
    }
    forall x | x in s'.sent ensures x.0 in F.honest && SentOk(F, s', s'.nodes[x.0], x.1) {
      if x in s.sent {
        SentKept(F, s, s', p, n', s.nodes[x.0], s'.nodes[x.0], x.1);
      } else {
        SentKept(F, s, s', p, n', n', n', x.1);
      }
    }
  }

  lemma {:induction false} RunInv(c: Config, F: Faults, k: nat, es: seq<Event>)
    requires Valid(c, F) && Run(c, F, k, es).Some?
    ensures Inv(c, F, Run(c, F, k, es).value)
  {
    if es != [] {
      var init := es[..|es| - 1];
      RunInv(c, F, k, init);
      StepInv(c, F, k, Run(c, F, k, init).value, es[|es| - 1]);
    }
  }

  // ---------- justification and lockstep ----------

  // A value in int_values of an honest node was some honest node's est of that round.
  lemma IntBacked(c: Config, F: Faults, s: System, q: nat, r: nat, v: int)
    requires Valid(c, F) && Inv(c, F, s) && q in F.honest && v in At(s.nodes[q].inbox.ints, r)
    ensures Backed(F, s, r, v)
  {
    var box := s.nodes[q].inbox;
    assert IntOk(c, box, r, v) && EstRecord(F, s.sent, box, r, v);
    SentEstBacked(c, F, s, r, v);
    EstBacked(c, F, s, box, r, v);
  }

  // Values are backed, and nonempty.
  ghost predicate ValBacked(F: Faults, s: System, p: nat, r: nat)
    requires p in s.nodes && r < |s.nodes[p].log.vals|
  {
    s.nodes[p].log.vals[r] != {} && forall u :: u in s.nodes[p].log.vals[r] ==> Backed(F, s, r, u)
  }

  ghost predicate SameVals(s: System, p: nat, q: nat, r: nat)
    requires p in s.nodes && q in s.nodes
  {
    r < |s.nodes[p].log.vals| && r < |s.nodes[q].log.vals| ==> s.nodes[p].log.vals[r] == s.nodes[q].log.vals[r]
  }

  /** What the proofs about decisions use of the rounds. */
  ghost predicate Histories(c: Config, F: Faults, s: System) {
    && s.nodes.Keys == F.honest
    && (forall p, r: nat :: p in F.honest && r < |s.nodes[p].log.vals| ==> ValBacked(F, s, p, r))
    && (forall p, r: nat :: p in F.honest && r + 1 < |s.nodes[p].log.ests| ==> NextEst(c, s.nodes[p].log, r))
    && (forall p, q, r: nat :: p in F.honest && q in F.honest ==> SameVals(s, p, q, r))
  }

  // The CONF messages behind the values w.
  ghost predicate ConfQuorum(F: Faults, sent: set<(nat, Message)>, r: nat, w: set<int>, Q: set<nat>) {
    Q <= Below(F.N) && |Q| >= F.N - F.f && forall h :: h in Q && h in F.honest ==> (h, Conf(r, w)) in sent
  }

  lemma ConfQuorumOf(c: Config, F: Faults, s: System, p: nat, r: nat) returns (Q: set<nat>)
    requires Valid(c, F) && Inv(c, F, s) && p in F.honest && r < |s.nodes[p].log.vals|
    ensures ConfQuorum(F, s.sent, r, s.nodes[p].log.vals[r], Q)
  {
    var box, w := s.nodes[p].inbox, s.nodes[p].log.vals[r];
    assert ValOk(c, box, r, w) && ConfRecord(F, s.sent, box, r, w);
    Q := At(box.conf, (r, w));
  }

  // Two CONF quorums of one round share an honest node, which sent one CONF.
  lemma LeaveTogether(c: Config, F: Faults, s: System, p: nat, q: nat, r: nat)
    requires Valid(c, F) && Inv(c, F, s) && p in F.honest && q in F.honest
    ensures SameVals(s, p, q, r)
  {
    if r < |s.nodes[p].log.vals| && r < |s.nodes[q].log.vals| {
      var A := ConfQuorumOf(c, F, s, p, r);
      var B := ConfQuorumOf(c, F, s, q, r);
      var h := HonestInBoth(F, A, B);
      OneConf(c, F, s, h, r, s.nodes[p].log.vals[r], s.nodes[q].log.vals[r]);
    }
  }

  lemma OneConf(c: Config, F: Faults, s: System, h: nat, r: nat, b: set<int>, b': set<int>)
    requires Inv(c, F, s) && (h, Conf(r, b)) in s.sent && (h, Conf(r, b')) in s.sent
    ensures b == b'
  {
    assert SentOk(F, s, s.nodes[h], Conf(r, b)) && SentOk(F, s, s.nodes[h], Conf(r, b'));
  }

  lemma InvHistories(c: Config, F: Faults, s: System)
    requires Valid(c, F) && Inv(c, F, s)
    ensures Histories(c, F, s)
  {
    forall p, r: nat | p in F.honest && r < |s.nodes[p].log.vals| ensures ValBacked(F, s, p, r) {
      assert ValOk(c, s.nodes[p].inbox, r, s.nodes[p].log.vals[r]);
      forall u | u in s.nodes[p].log.vals[r] ensures Backed(F, s, r, u) {
        IntBacked(c, F, s, p, r, u);
      }
    }
    forall p, q, r: nat | p in F.honest && q in F.honest ensures SameVals(s, p, q, r) {
      LeaveTogether(c, F, s, p, q, r);
    }
  }

  lemma RunHistories(c: Config, F: Faults, k: nat, es: seq<Event>, s: System)
    requires Valid(c, F) && Run(c, F, k, es) == Some(s)
    ensures Histories(c, F, s)
  {
    RunInv(c, F, k, es);
    InvHistories(c, F, s);
  }

  /**
   Lockstep: all honest nodes that leave the CONF wait of a round hold the same
   values, and from round 1 on all honest nodes have the same estimate.
   */
  lemma Lockstep(c: Config, F: Faults, k: nat, es: seq<Event>, s: System, p: nat, q: nat, r: nat)
    requires Valid(c, F) && Run(c, F, k, es) == Some(s) && p in F.honest && q in F.honest
    ensures p in s.nodes && q in s.nodes && SameVals(s, p, q, r)
    ensures r >= 1 && r < |s.nodes[p].log.ests| && r < |s.nodes[q].log.ests| ==> s.nodes[p].log.ests[r] == s.nodes[q].log.ests[r]
  {
    RunHistories(c, F, k, es, s);
    if r >= 1 && r < |s.nodes[p].log.ests| && r < |s.nodes[q].log.ests| {
      assert NextEst(c, s.nodes[p].log, r - 1) && NextEst(c, s.nodes[q].log, r - 1);
      assert SameVals(s, p, q, r - 1);
    }
  }

  /** Justification: in every run, a value in int_values of an honest node was the est of some honest node in that round. */
  lemma Justification(c: Config, F: Faults, k: nat, es: seq<Event>, s: System, q: nat, r: nat, v: int)
    requires Valid(c, F) && Run(c, F, k, es) == Some(s) && q in F.honest && q in s.nodes
    requires v in At(s.nodes[q].inbox.ints, r)
    ensures Backed(F, s, r, v)
  {
    RunInv(c, F, k, es);
    IntBacked(c, F, s, q, r, v);
  }

  // ---------- inputs x and x + 1 ----------

  predicate Within(x: int, v: int) {
    v == x || v == x + 1
  }

  /** Every honest estimate is x or x + 1 and no assertion of main_loop has failed. */
  ghost predicate Ranged(F: Faults, s: System, x: int)
    requires s.nodes.Keys == F.honest
  {
    forall q :: q in F.honest ==> NodeRanged(s.nodes[q], x)
  }

  ghost predicate NodeRanged(n: Node, x: int) {
    n.loop.phase != Failed && forall r :: 0 <= r < |n.log.ests| ==> Within(x, n.log.ests[r])
  }

  lemma SmallSet(w: set<int>, x: int)
    requires w != {} && forall v :: v in w ==> Within(x, v)
    ensures |w| == 1 || (|w| == 2 && Consecutive(w))
  {
    var both := {x, x + 1};
    forall v | v in w ensures v in both {
      assert Within(x, v);
    }
    if x in w && x + 1 in w {
      assert w == both;
    } else if x in w {
      assert w == {x};
    } else {
      assert w == {x + 1};
    }
  }

  lemma RangedLocal(c: Config, n: Node, e: Event, x: int)
    requires NodeRanged(n, x) && (e.Input? ==> Within(x, e.v))
    requires Shape(n.inbox, n.loop, n.log) && LogInv(c, n.inbox, n.loop.confSent, n.log)
    requires forall v :: v in At(n.inbox.ints, n.loop.r) ==> Within(x, v)
    ensures NodeRanged(Local(c, n, e).0, x)
  {
    if e.Wake? && n.loop.phase == WaitAux {
      SmallSet(At(n.inbox.ints, n.loop.r), x);
    } else if e.Wake? && n.loop.phase == WaitCoin {
      assert ValOk(c, n.inbox, n.loop.r, n.loop.values);
      RangedCoin(c, e.p, n, x);
    }
  }

  lemma RangedCoin(c: Config, p: nat, n: Node, x: int)
    requires NodeRanged(n, x) && n.loop.values != {} && forall v :: v in n.loop.values ==> Within(x, v)
    ensures NodeRanged(AfterCoin(c, p, n).0, x)
  {
    SmallSet(n.loop.values, x);
  }

  lemma RangedStep(c: Config, F: Faults, k: nat, s: System, e: Event, x: int)
    requires Valid(c, F) && Inv(c, F, s) && Enabled(c, F, k, s, e)
    requires Ranged(F, s, x) && (e.Input? ==> Within(x, e.v))
    ensures Ranged(F, Apply(c, s, e), x)
  {
    var n := s.nodes[e.p];
    forall v | v in At(n.inbox.ints, n.loop.r) ensures Within(x, v) {
      IntBacked(c, F, s, e.p, n.loop.r, v);
    }
    RangedLocal(c, n, e, x);
  }

  /** If every honest input is x or x + 1, so is every honest estimate, and no assertion of main_loop fails. */
  lemma {:induction false} NoFailedAssertion(c: Config, F: Faults, k: nat, es: seq<Event>, x: int)
    requires Valid(c, F) && Run(c, F, k, es).Some?
    requires forall e :: e in es && e.Input? ==> Within(x, e.v)
    ensures Run(c, F, k, es).value.nodes.Keys == F.honest && Ranged(F, Run(c, F, k, es).value, x)
  {
    if es != [] {
      var init, e := es[..|es| - 1], es[|es| - 1];
      assert forall y :: y in init ==> y in es;
      assert e in es;
      NoFailedAssertion(c, F, k, init, x);
      RunInv(c, F, k, init);
      RangedStep(c, F, k, Run(c, F, k, init).value, e, x);
    }
  }

  // ---------- decisions ----------

  /** Some honest node left a round with the single value v. */
  ghost predicate Locked(F: Faults, s: System, v: int) {
    exists q, r: nat :: q in F.honest && q in s.nodes && Single(s.nodes[q].log, r, v)
  }

  predicate Single(g: Log, r: nat, v: int) {
    r < |g.vals| && g.vals[r] == {v}
  }

  /** FINISH messages cannot make an honest node follow Byzantine ones alone. */
  predicate Bounded(c: Config, k: nat) {
    c.f == 0 || k <= 1
  }

  // The FINISH messages counted: at most k of each sender, those of honest nodes were sent.
  ghost predicate FinOk(F: Faults, k: nat, sent: set<(nat, Message)>, fin: Finishing) {
    && fin.cnt == |fin.from| + (if fin.sent then 1 else 0)
    && (forall i :: 0 <= i < |fin.from| ==> FromOk(F, sent, fin, fin.from[i]))
    && (forall q :: multiset(fin.from)[q] <= k)
  }

  ghost predicate FromOk(F: Faults, sent: set<(nat, Message)>, fin: Finishing, q: nat) {
    q < F.N && (q in F.honest ==> exists u :: u in fin.value && (q, Finish(u)) in sent)
  }

  ghost predicate DecisionsLocked(F: Faults, s: System, n: Node) {
    forall v :: v in n.log.decisions ==> Locked(F, s, v)
  }

  ghost predicate FinInv(F: Faults, k: nat, s: System)
    requires s.nodes.Keys == F.honest
  {
    forall p :: p in F.honest ==> FinOk(F, k, s.sent, s.nodes[p].fin) && DecisionsLocked(F, s, s.nodes[p])
  }

  function Members(from: seq<nat>): set<nat> {
    set q | q in from
  }

  // Senders that are counted at most once make a set of the same size.
  lemma {:induction false} DistinctSenders(from: seq<nat>)
    requires forall q :: multiset(from)[q] <= 1
    ensures |Members(from)| == |from|
  {
    if from != [] {
      var init, last := from[..|from| - 1], from[|from| - 1];
      assert from == init + [last];
      assert multiset(from)[last] <= 1;
      forall q ensures multiset(init)[q] <= 1 {
        assert multiset(from)[q] <= 1;
      }
      DistinctSenders(init);
      assert Members(from) == Members(init) + {last};
      assert last !in init by {
        assert multiset(from)[last] == multiset(init)[last] + 1;
      }
    }
  }

  // f + 1 FINISH messages come from an honest node.
  lemma HonestFinish(c: Config, F: Faults, k: nat, sent: set<(nat, Message)>, fin: Finishing) returns (q: nat)
    requires Valid(c, F) && Bounded(c, k) && FinOk(F, k, sent, fin) && |fin.from| >= c.f + 1
    ensures q in F.honest && FromOk(F, sent, fin, q)
  {
    if c.f == 0 {
      q := fin.from[0];
      assert FromOk(F, sent, fin, q);
      SameSize(F.honest, Below(F.N));
    } else {
      forall q' ensures multiset(fin.from)[q'] <= 1 {
        assert multiset(fin.from)[q'] <= k;
      }
      DistinctSenders(fin.from);
      forall q' | q' in Members(fin.from) ensures q' in Below(F.N) {
        var i :| 0 <= i < |fin.from| && fin.from[i] == q';
        assert FromOk(F, sent, fin, fin.from[i]);
      }
      q := HonestMember(F, Members(fin.from));
      var i :| 0 <= i < |fin.from| && fin.from[i] == q;
      assert FromOk(F, sent, fin, fin.from[i]);
    }
  }

  // One more FINISH is counted, and possibly followed.
  lemma FinCounted(c: Config, F: Faults, k: nat, sent: set<(nat, Message)>, n: Node, from: nat, v: int)
    requires Valid(c, F) && FinOk(F, k, sent, n.fin) && from < F.N
    requires (from in F.honest ==> (from, Finish(v)) in sent) && multiset(n.fin.from)[from] < k
    ensures FinOk(F, k, sent, OnFinish(c, n, from, v).0.fin)
  {
    var fin := OnFinish(c, n, from, v).0.fin;
    forall i | 0 <= i < |fin.from| ensures FromOk(F, sent, fin, fin.from[i]) {
      if i < |n.fin.from| {
        assert FromOk(F, sent, n.fin, n.fin.from[i]);
      }
    }
    forall q ensures multiset(fin.from)[q] <= k {
      assert multiset(fin.from)[q] == multiset(n.fin.from)[q] + if q == from then 1 else 0;
      assert multiset(n.fin.from)[q] <= k;
    }
  }

  // Following f + 1 FINISHes of v: some honest node had decided v.
  lemma FollowedLocked(c: Config, F: Faults, k: nat, s: System, fin: Finishing, v: int)
    requires Valid(c, F) && Inv(c, F, s) && FinInv(F, k, s) && Bounded(c, k)
    requires FinOk(F, k, s.sent, fin) && fin.value == {v} && |fin.from| >= c.f + 1
    ensures Locked(F, s, v)
  {
    var q := HonestFinish(c, F, k, s.sent, fin);
    assert (q, Finish(v)) in s.sent;
    assert SentOk(F, s, s.nodes[q], Finish(v));
    assert DecisionsLocked(F, s, s.nodes[q]);
  }

  lemma FinishStep(c: Config, F: Faults, k: nat, s: System, p: nat, from: nat, v: int)
    requires Valid(c, F) && Inv(c, F, s) && FinInv(F, k, s) && Bounded(c, k) && p in F.honest
    requires from < c.N && (from in F.honest ==> (from, Finish(v)) in s.sent)
    requires multiset(s.nodes[p].fin.from)[from] < k
    ensures var n' := OnFinish(c, s.nodes[p], from, v).0; FinOk(F, k, s.sent, n'.fin) && DecisionsLocked(F, s, n')
  {
    var n := s.nodes[p];
    var n' := OnFinish(c, n, from, v).0;
    FinCounted(c, F, k, s.sent, n, from, v);
    assert DecisionsLocked(F, s, n);
    if n'.log != n.log {
      FollowedLocked(c, F, k, s, n'.fin, v);
    }
  }

  // A step other than a FINISH decides only its round's single value.
  lemma OtherStep(c: Config, F: Faults, k: nat, s: System, e: Event)
    requires Inv(c, F, s) && FinInv(F, k, s) && e.p in F.honest && !(e.Deliver? && e.m.Finish?)
    ensures var n' := Local(c, s.nodes[e.p], e).0; FinOk(F, k, s.sent, n'.fin) && DecisionsLocked(F, s, n')
  {
    var n := s.nodes[e.p];
    assert FinOk(F, k, s.sent, n.fin) && DecisionsLocked(F, s, n);
    if e.Wake? && n.loop.phase == WaitCoin && |n.loop.values| == 1 {
      SingleLocked(F, s, e.p, NewEst(n.loop.values, CoinAt(c, n.loop.r)));
      CoinDecision(c, F, k, s, e.p, n);
    } else {
      NothingDecided(c, n, e);
    }
  }

  lemma NothingDecided(c: Config, n: Node, e: Event)
    requires !(e.Deliver? && e.m.Finish?) && !(e.Wake? && n.loop.phase == WaitCoin && |n.loop.values| == 1)
    ensures var n' := Local(c, n, e).0; n'.fin == n.fin && n'.log.decisions == n.log.decisions
  {
  }

  lemma SingleLocked(F: Faults, s: System, p: nat, v: int)
    requires p in F.honest && p in s.nodes && s.nodes[p].loop.phase == WaitCoin
    requires Shape(s.nodes[p].inbox, s.nodes[p].loop, s.nodes[p].log)
    requires |s.nodes[p].loop.values| == 1 && v in s.nodes[p].loop.values
    ensures Locked(F, s, v)
  {
    OneElement(s.nodes[p].loop.values, v);
    assert Single(s.nodes[p].log, s.nodes[p].loop.r, v);
  }

  lemma CoinDecision(c: Config, F: Faults, k: nat, s: System, p: nat, n: Node)
    requires n.loop.phase == WaitCoin && |n.loop.values| == 1 && FinOk(F, k, s.sent, n.fin) && DecisionsLocked(F, s, n)
    requires Locked(F, s, NewEst(n.loop.values, CoinAt(c, n.loop.r)))
    ensures var n' := AfterCoin(c, p, n).0; FinOk(F, k, s.sent, n'.fin) && DecisionsLocked(F, s, n')
  {
    var fin := AfterCoin(c, p, n).0.fin;
    forall i | 0 <= i < |fin.from| ensures FromOk(F, s.sent, fin, fin.from[i]) {
      assert FromOk(F, s.sent, n.fin, n.fin.from[i]);
    }
  }

  lemma OneElement(w: set<int>, v: int)
    requires |w| == 1 && v in w
    ensures w == {v}
  {
    SameSize({v}, w);
  }

  lemma LockedKept(F: Faults, s: System, s': System, p: nat, n': Node, v: int)
    requires p in s.nodes && s'.nodes == s.nodes[p := n'] && s.nodes[p].log.vals <= n'.log.vals && Locked(F, s, v)
    ensures Locked(F, s', v)
  {
    var q, r: nat :| q in F.honest && q in s.nodes && Single(s.nodes[q].log, r, v);
    assert Single(s'.nodes[q].log, r, v);
  }

  lemma FinInvStep(c: Config, F: Faults, k: nat, s: System, e: Event)
    requires Valid(c, F) && Inv(c, F, s) && FinInv(F, k, s) && Bounded(c, k) && Enabled(c, F, k, s, e)
    ensures FinInv(F, k, Apply(c, s, e))
  {
    var s', n' := Apply(c, s, e), Local(c, s.nodes[e.p], e).0;
    LocalStep(c, F, k, s, e);
    if e.Deliver? && e.m.Finish? && s.nodes[e.p].receiving {
      FinishStep(c, F, k, s, e.p, e.from, e.m.v);
    } else if !(e.Deliver? && e.m.Finish?) {
      OtherStep(c, F, k, s, e);
    }
    FinUpdate(F, k, s, s', e.p, n');
  }

  lemma FinUpdate(F: Faults, k: nat, s: System, s': System, p: nat, n': Node)
    requires s.nodes.Keys == F.honest && FinInv(F, k, s) && p in F.honest && s.sent <= s'.sent
    requires s'.nodes == s.nodes[p := n'] && s.nodes[p].log.vals <= n'.log.vals
    requires FinOk(F, k, s.sent, n'.fin) && DecisionsLocked(F, s, n')
    ensures FinInv(F, k, s')
  {
    forall q | q in F.honest ensures FinOk(F, k, s'.sent, s'.nodes[q].fin) && DecisionsLocked(F, s', s'.nodes[q]) {
      var fin := s'.nodes[q].fin;
      assert FinOk(F, k, s.sent, fin) && DecisionsLocked(F, s, s'.nodes[q]);
      forall i | 0 <= i < |fin.from| ensures FromOk(F, s'.sent, fin, fin.from[i]) {
        assert FromOk(F, s.sent, fin, fin.from[i]);
      }
      forall v | v in s'.nodes[q].log.decisions ensures Locked(F, s', v) {
        LockedKept(F, s, s', p, n', v);
      }
    }
  }

  lemma {:induction false} RunFinInv(c: Config, F: Faults, k: nat, es: seq<Event>)
    requires Valid(c, F) && Bounded(c, k) && Run(c, F, k, es).Some?
    ensures Run(c, F, k, es).value.nodes.Keys == F.honest && FinInv(F, k, Run(c, F, k, es).value)
  {
    if es != [] {
      var init := es[..|es| - 1];
      RunFinInv(c, F, k, init);
      RunInv(c, F, k, init);
      FinInvStep(c, F, k, Run(c, F, k, init).value, es[|es| - 1]);
    }
  }

  // ---------- agreement ----------

  /** Every honest node that starts round r does so with estimate v. */
  ghost predicate Unanimous(F: Faults, s: System, r: nat, v: int)
    requires s.nodes.Keys == F.honest
  {
    forall q :: q in F.honest && r < |s.nodes[q].log.ests| ==> s.nodes[q].log.ests[r] == v
  }

  lemma UnanimousVals(c: Config, F: Faults, s: System, r: nat, v: int, q: nat)
    requires Histories(c, F, s) && Unanimous(F, s, r, v) && q in F.honest && r < |s.nodes[q].log.vals|
    ensures Single(s.nodes[q].log, r, v)
  {
    var w := s.nodes[q].log.vals[r];
    assert ValBacked(F, s, q, r);
    forall u | u in w ensures u == v {
      var h :| h in F.honest && h in s.nodes && HasEst(s.nodes[h], r, u);
    }
    assert w == {v};
  }

  lemma {:induction false} UnanimousLater(c: Config, F: Faults, s: System, r: nat, v: int, r': nat)
    requires Histories(c, F, s) && Unanimous(F, s, r, v) && r <= r'
    ensures Unanimous(F, s, r', v)
    decreases r' - r
  {
    if r < r' {
      forall q | q in F.honest && r + 1 < |s.nodes[q].log.ests| ensures s.nodes[q].log.ests[r + 1] == v {
        assert NextEst(c, s.nodes[q].log, r);
        UnanimousVals(c, F, s, r, v, q);
      }
      UnanimousLater(c, F, s, r + 1, v, r');
    }
  }

  lemma SameLock(c: Config, F: Faults, s: System, p: nat, k: nat, u: int, q: nat, l: nat, v: int)
    requires Histories(c, F, s) && p in F.honest && q in F.honest && k <= l
    requires Single(s.nodes[p].log, k, u) && Single(s.nodes[q].log, l, v)
    ensures u == v
  {
    assert u in {u} && v in {v};
    if k == l {
      assert SameVals(s, p, q, k);
    } else {
      forall h | h in F.honest && k + 1 < |s.nodes[h].log.ests| ensures s.nodes[h].log.ests[k + 1] == u {
        assert NextEst(c, s.nodes[h].log, k) && SameVals(s, p, h, k);
      }
      UnanimousLater(c, F, s, k + 1, u, l);
      UnanimousVals(c, F, s, l, u, q);
    }
  }

  lemma LocksAgree(c: Config, F: Faults, s: System, u: int, v: int)
    requires Histories(c, F, s) && Locked(F, s, u) && Locked(F, s, v)
    ensures u == v
  {
    var p, k: nat :| p in F.honest && p in s.nodes && Single(s.nodes[p].log, k, u);
    var q, l: nat :| q in F.honest && q in s.nodes && Single(s.nodes[q].log, l, v);
    if k <= l {
      SameLock(c, F, s, p, k, u, q, l, v);
    } else {
      SameLock(c, F, s, q, l, v, p, k, u);
    }
  }

  /** Every node decides at most once, however often a FINISH is repeated. */
  lemma OneDecision(c: Config, F: Faults, k: nat, es: seq<Event>, s: System, p: nat)
    requires Valid(c, F) && Run(c, F, k, es) == Some(s) && p in F.honest
    ensures p in s.nodes && |s.nodes[p].log.decisions| <= 1
  {
    RunInv(c, F, k, es);
    assert NodeInv(c, F, s.sent, s.nodes[p]);
  }

  /** All honest decisions are equal. */
  ghost predicate DecisionsAgree(F: Faults, s: System) {
    forall p, q, u, v :: p in F.honest && q in F.honest && Decides(s, p, u) && Decides(s, q, v) ==> u == v
  }

  ghost predicate Decides(s: System, p: nat, v: int) {
    p in s.nodes && v in s.nodes[p].log.decisions
  }

  /** Agreement, when no sender's FINISH is counted twice or no node is Byzantine. */
  lemma Agreement(c: Config, F: Faults, k: nat, es: seq<Event>, s: System)
    requires Valid(c, F) && Bounded(c, k) && Run(c, F, k, es) == Some(s)
    ensures DecisionsAgree(F, s)
  {
    RunHistories(c, F, k, es, s);
    RunFinInv(c, F, k, es);
    forall p, q, u, v | p in F.honest && q in F.honest && Decides(s, p, u) && Decides(s, q, v) ensures u == v {
      assert DecisionsLocked(F, s, s.nodes[p]) && DecisionsLocked(F, s, s.nodes[q]);
      LocksAgree(c, F, s, u, v);
    }
  }

  /** With inputs x and x + 1, a decision is x or x + 1. */
  lemma DecisionInRange(c: Config, F: Faults, k: nat, es: seq<Event>, s: System, x: int, p: nat, v: int)
    requires Valid(c, F) && Bounded(c, k) && Run(c, F, k, es) == Some(s) && p in F.honest && Decides(s, p, v)
    requires forall e :: e in es && e.Input? ==> Within(x, e.v)
    ensures Within(x, v)
  {
    NoFailedAssertion(c, F, k, es, x);
    RunHistories(c, F, k, es, s);
    RunFinInv(c, F, k, es);
    assert DecisionsLocked(F, s, s.nodes[p]);
    var q, r: nat :| q in F.honest && q in s.nodes && Single(s.nodes[q].log, r, v);
    assert ValBacked(F, s, q, r) && v in {v};
    var h :| h in F.honest && h in s.nodes && HasEst(s.nodes[h], r, v);
    assert NodeRanged(s.nodes[h], x);
  }

  // ---------- when FINISH messages are repeated ----------

  // A run written as the states it goes through.
  ghost predicate TraceStep(c: Config, F: Faults, k: nat, s: System, e: Event, s': System) {
    Enabled(c, F, k, s, e) && s' == Apply(c, s, e)
  }

  ghost predicate Trace(c: Config, F: Faults, k: nat, ss: seq<System>, es: seq<Event>) {
    && |ss| == |es| + 1 && ss[0] == InitSystem(F)
    && forall i :: 0 <= i < |es| ==> TraceStep(c, F, k, ss[i], es[i], ss[i + 1])
  }

  lemma {:induction false} TraceRun(c: Config, F: Faults, k: nat, ss: seq<System>, es: seq<Event>)
    requires Trace(c, F, k, ss, es)
    ensures Run(c, F, k, es) == Some(ss[|es|])
  {
    if es != [] {
      TracePrefix(c, F, k, ss, es);
      TraceRun(c, F, k, ss[..|es|], es[..|es| - 1]);
      assert TraceStep(c, F, k, ss[|es| - 1], es[|es| - 1], ss[|es|]);
    }
  }

  lemma TracePrefix(c: Config, F: Faults, k: nat, ss: seq<System>, es: seq<Event>)
    requires Trace(c, F, k, ss, es) && es != []
    ensures Trace(c, F, k, ss[..|es|], es[..|es| - 1])
  {
    forall i | 0 <= i < |es| - 1 ensures TraceStep(c, F, k, ss[..|es|][i], es[..|es| - 1][i], ss[..|es|][i + 1]) {
      assert TraceStep(c, F, k, ss[i], es[i], ss[i + 1]);
    }
  }

  // The senders of f + 1 FINISH messages: 0, ..., f - 1, and 0 once more.
  function Source(f: nat, i: nat): nat {
    if i < f then i else 0
  }

  function Sources(f: nat, n: nat): (from: seq<nat>)
    requires n <= f + 1 && f >= 1
    ensures |from| == n
    ensures forall q: nat :: multiset(from)[q] <= if q == 0 && n == f + 1 then 2 else if q < n then 1 else 0
  {
    if n == 0 then [] else Sources(f, n - 1) + [Source(f, n - 1)]
  }

  // A fresh node that has counted the first n of them, all with value v.
  function Repeated(f: nat, v: int, n: nat): Node
    requires n <= f + 1 && f >= 1
  {
    TwoValueAgreement.Init().(
      fin := Finishing(n == f + 1, if n == 0 then {} else {v}, if n == f + 1 then n + 1 else n, Sources(f, n)),
      log := Log([], [], [], if n == f + 1 then [v] else []))
  }

  lemma RepeatReceive(c: Config, v: int, n: nat)
    requires c.N >= 3 * c.f + 1 && n <= c.f && c.f >= 1
    ensures
      Receive(c, Repeated(c.f, v, n), Source(c.f, n), Finish(v))
      == (Repeated(c.f, v, n + 1), if n == c.f then [Finish(v)] else [])
  {
    var out := Receive(c, Repeated(c.f, v, n), Source(c.f, n), Finish(v));
    assert out.0.fin.value == {v};
    assert out.0.log.decisions == if n == c.f then [v] else [];
  }

  // Node f has counted na messages with value 1, node f + 1 has counted nb with value 2.
  function RepeatNodes(c: Config, F: Faults, na: nat, nb: nat): map<nat, Node>
    requires c.f >= 1 && na <= c.f + 1 && nb <= c.f + 1
  {
    map p | p in F.honest ::
      if p == c.f then Repeated(c.f, 1, na) else if p == c.f + 1 then Repeated(c.f, 2, nb) else TwoValueAgreement.Init()
  }

  function RepeatState(c: Config, F: Faults, na: nat, nb: nat): System
    requires c.f >= 1 && na <= c.f + 1 && nb <= c.f + 1
  {
    System(RepeatNodes(c, F, na, nb),
           (if na == c.f + 1 then {(c.f, Finish(1))} else {}) + (if nb == c.f + 1 then {(c.f + 1, Finish(2))} else {}))
  }

  ghost predicate FirstByzantine(c: Config, F: Faults) {
    c.f >= 1 && c.N >= 3 * c.f + 1 && forall p: nat :: p in F.honest <==> c.f <= p < c.N
  }

  lemma RepeatNodesAt(c: Config, F: Faults, na: nat, nb: nat)
    requires FirstByzantine(c, F) && na <= c.f + 1 && nb <= c.f + 1
    ensures var nodes := RepeatNodes(c, F, na, nb);
      c.f in nodes && nodes[c.f] == Repeated(c.f, 1, na) && c.f + 1 in nodes && nodes[c.f + 1] == Repeated(c.f, 2, nb)
  {
  }

  lemma RepeatUpdate(c: Config, F: Faults, na: nat, nb: nat)
    requires FirstByzantine(c, F) && na <= c.f + 1 && nb <= c.f + 1
    ensures na <= c.f ==> RepeatNodes(c, F, na, nb)[c.f := Repeated(c.f, 1, na + 1)] == RepeatNodes(c, F, na + 1, nb)
    ensures nb <= c.f ==> RepeatNodes(c, F, na, nb)[c.f + 1 := Repeated(c.f, 2, nb + 1)] == RepeatNodes(c, F, na, nb + 1)
  {
  }

  // Node p counts the n-th message in s, which leads to s'.
  ghost predicate RepeatHop(c: Config, F: Faults, s: System, p: nat, v: int, n: nat, s': System)
    requires 1 <= c.f && n <= c.f
  {
    && p in F.honest && p in s.nodes
    && s.nodes[p] == Repeated(c.f, v, n) && s'.nodes == s.nodes[p := Repeated(c.f, v, n + 1)]
    && s'.sent == s.sent + if n == c.f then {(p, Finish(v))} else {}
  }

  lemma RepeatA(c: Config, F: Faults, na: nat)
    requires FirstByzantine(c, F) && na <= c.f
    ensures RepeatHop(c, F, RepeatState(c, F, na, 0), c.f, 1, na, RepeatState(c, F, na + 1, 0))
  {
    RepeatNodesAt(c, F, na, 0);
    RepeatUpdate(c, F, na, 0);
  }

  lemma RepeatB(c: Config, F: Faults, nb: nat)
    requires FirstByzantine(c, F) && nb <= c.f
    ensures RepeatHop(c, F, RepeatState(c, F, c.f + 1, nb), c.f + 1, 2, nb, RepeatState(c, F, c.f + 1, nb + 1))
  {
    RepeatNodesAt(c, F, c.f + 1, nb);
    RepeatUpdate(c, F, c.f + 1, nb);
  }

  lemma DeliverTrace(c: Config, F: Faults, k: nat, s: System, p: nat, v: int, n: nat, s': System)
    requires FirstByzantine(c, F) && k >= 2 && n <= c.f && RepeatHop(c, F, s, p, v, n, s')
    ensures TraceStep(c, F, k, s, Deliver(p, Source(c.f, n), Finish(v)), s')
  {
    RepeatReceive(c, v, n);
    var out := if n == c.f then [Finish(v)] else [];
    assert Sending(p, out) == if n == c.f then {(p, Finish(v))} else {};
    RepeatCounts(c.f, v, n);
    FinishTrace(c, F, k, s, p, Source(c.f, n), v, Repeated(c.f, v, n + 1), out, s');
  }

  lemma RepeatCounts(f: nat, v: int, n: nat)
    requires f >= 1 && n <= f
    ensures multiset(Repeated(f, v, n).fin.from)[Source(f, n)] <= 1
  {
    assert multiset(Sources(f, n))[Source(f, n)] <= 1;
  }

  lemma FinishTrace(c: Config, F: Faults, k: nat, s: System, p: nat, from: nat, v: int, n': Node, out: seq<Message>, s': System)
    requires p in F.honest && p in s.nodes && from < c.N && from != p && from !in F.honest
    requires multiset(s.nodes[p].fin.from)[from] < k && Receive(c, s.nodes[p], from, Finish(v)) == (n', out)
    requires s' == System(s.nodes[p := n'], s.sent + Sending(p, out))
    ensures TraceStep(c, F, k, s, Deliver(p, from, Finish(v)), s')
  {
  }

  // The i-th step of the run: the first f + 1 steps are at node f, the others at node f + 1.
  function RepeatTarget(f: nat, i: nat): nat {
    if i <= f then f else f + 1
  }

  function RepeatValue(f: nat, i: nat): int {
    if i <= f then 1 else 2
  }

  function RepeatCount(f: nat, i: nat): nat {
    if i <= f then i else i - f - 1
  }

  function RepeatEvent(f: nat, i: nat): Event {
    Deliver(RepeatTarget(f, i), Source(f, RepeatCount(f, i)), Finish(RepeatValue(f, i)))
  }

  function RepeatAt(c: Config, F: Faults, i: nat): System
    requires c.f >= 1 && i <= 2 * c.f + 2
  {
    if i <= c.f + 1 then RepeatState(c, F, i, 0) else RepeatState(c, F, c.f + 1, i - c.f - 1)
  }

  lemma RepeatHops(c: Config, F: Faults, i: nat)
    requires FirstByzantine(c, F) && i < 2 * c.f + 2
    ensures RepeatHop(c, F, RepeatAt(c, F, i), RepeatTarget(c.f, i), RepeatValue(c.f, i), RepeatCount(c.f, i), RepeatAt(c, F, i + 1))
  {
    if i <= c.f {
      RepeatA(c, F, i);
    } else {
      RepeatHopsB(c, F, i);
    }
  }

  lemma RepeatHopsB(c: Config, F: Faults, i: nat)
    requires FirstByzantine(c, F) && c.f < i < 2 * c.f + 2
    ensures RepeatHop(c, F, RepeatAt(c, F, i), c.f + 1, 2, i - c.f - 1, RepeatAt(c, F, i + 1))
  {
    var j := i - c.f - 1;
    SecondHalf(c, F, j);
    SecondHalf(c, F, j + 1);
    RepeatB(c, F, j);
  }

  lemma SecondHalf(c: Config, F: Faults, j: nat)
    requires c.f >= 1 && j <= c.f + 1
    ensures RepeatAt(c, F, c.f + 1 + j) == RepeatState(c, F, c.f + 1, j)
  {
  }

  lemma RepeatStarts(c: Config, F: Faults)
    requires FirstByzantine(c, F)
    ensures RepeatAt(c, F, 0) == InitSystem(F)
  {
    assert RepeatAt(c, F, 0).nodes == InitSystem(F).nodes;
  }

  lemma RepeatStep(c: Config, F: Faults, k: nat, i: nat, s: System, s': System)
    requires FirstByzantine(c, F) && k >= 2 && i < 2 * c.f + 2
    requires RepeatHop(c, F, s, RepeatTarget(c.f, i), RepeatValue(c.f, i), RepeatCount(c.f, i), s')
    ensures TraceStep(c, F, k, s, RepeatEvent(c.f, i), s')
  {
    DeliverTrace(c, F, k, s, RepeatTarget(c.f, i), RepeatValue(c.f, i), RepeatCount(c.f, i), s');
  }

  lemma RepeatTrace(c: Config, F: Faults, k: nat) returns (ss: seq<System>, es: seq<Event>)
    requires FirstByzantine(c, F) && k >= 2
    ensures Trace(c, F, k, ss, es) && ss[|es|] == RepeatAt(c, F, 2 * c.f + 2)
  {
    es := seq(2 * c.f + 2, i requires 0 <= i => RepeatEvent(c.f, i));
    ss := seq(2 * c.f + 3, i requires 0 <= i <= 2 * c.f + 2 => RepeatAt(c, F, i));
    RepeatStarts(c, F);
    forall i | 0 <= i < |es| ensures TraceStep(c, F, k, ss[i], es[i], ss[i + 1]) {
      RepeatHops(c, F, i);
      RepeatStep(c, F, k, i, ss[i], ss[i + 1]);
    }
  }

  ghost predicate AgreesOn(c: Config, F: Faults, k: nat, es: seq<Event>) {
    Valid(c, F) && Run(c, F, k, es).Some? ==> DecisionsAgree(F, Run(c, F, k, es).value)
  }

  lemma Disagreement(c: Config, k: nat) returns (F: Faults, es: seq<Event>)
    requires c.N >= 3 * c.f + 1 && c.f >= 1 && k >= 2
    ensures Valid(c, F) && !AgreesOn(c, F, k, es)
  {
    F := Faults(c.N, c.f, Below(c.N) - Below(c.f));
    assert Below(c.N) * Below(c.f) == Below(c.f);
    var ss;
    ss, es := RepeatTrace(c, F, k);
    TraceRun(c, F, k, ss, es);
    Disagree(c, F);
  }

  lemma Disagree(c: Config, F: Faults)
    requires FirstByzantine(c, F)
    ensures !DecisionsAgree(F, RepeatAt(c, F, 2 * c.f + 2))
  {
    var s := RepeatAt(c, F, 2 * c.f + 2);
    assert Decides(s, c.f, 1) && Decides(s, c.f + 1, 2);
  }

  /**
   The receive loop counts FINISH messages, not their senders. All honest
   decisions are equal in every run exactly when no node is Byzantine or no
   sender's FINISH is counted twice.
   */
  lemma AgreementExactly(c: Config, k: nat)
    requires c.N >= 3 * c.f + 1
    ensures (forall F, es :: AgreesOn(c, F, k, es)) <==> Bounded(c, k)
  {
    if Bounded(c, k) {
      forall F, es ensures AgreesOn(c, F, k, es) {
        if Valid(c, F) && Run(c, F, k, es).Some? {
          Agreement(c, F, k, es, Run(c, F, k, es).value);
        }
      }
    } else {
      var F, es := Disagreement(c, k);
    }
  }
}
