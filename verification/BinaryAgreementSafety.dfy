/**
 Binary agreement among N nodes, at most f of them Byzantine, with messages in
 any order, repeated or lost: agreement, justification and validity over every
 reachable state, for both variants of the code.
 */
module BinaryAgreementSafety {
  import opened FiniteSets
  import opened Quorums
  import opened Options
  import opened Tables
  import opened BinaryAgreement

  /** The honest nodes, and what they have sent so far (to everyone). */
  datatype System = System(nodes: map<nat, Node>, sent: set<(nat, Message)>)

  datatype Event =
    | Input(p: nat, v: int)
    | Deliver(p: nat, from: nat, m: Message)
    | Wake(p: nat, w: int)

  /** The common coin of the plain code yields bits; the biased code reduces it to one. */
  ghost predicate Valid(c: Config, F: Faults) {
    Resilient(F) && F.N == c.N && F.f == c.f && (c.biased || forall r: nat :: Bit(c.coin(r)))
  }

  lemma CoinBits(c: Config, F: Faults)
    requires Valid(c, F)
    ensures forall r: nat :: Bit(CoinAt(c, r))
  {
  }

  function InitSystem(F: Faults): System {
    System(map p | p in F.honest :: BinaryAgreement.Init(), {})
  }

  /** A Byzantine sender may send anything; an honest one only what it has sent. */
  predicate Enabled(c: Config, F: Faults, s: System, e: Event) {
    && e.p in F.honest && e.p in s.nodes
    && (e.Deliver? ==> e.from < c.N && (e.from in F.honest ==> (e.from, e.m) in s.sent))
  }

  function Local(c: Config, n: Node, e: Event): (Node, seq<Message>) {
    match e
    case Input(_, v) => Start(n, v)
    case Deliver(_, from, m) => Receive(c, n, from, m)
    case Wake(_, w) => Resume(c, n, w)
  }

  function Apply(c: Config, s: System, e: Event): System
    requires e.p in s.nodes
  {
    var (n', out) := Local(c, s.nodes[e.p], e);
    System(s.nodes[e.p := n'], s.sent + set m | m in out :: (e.p, m))
  }

  /** The state after the events es, if they are a run from the initial state. */
  ghost function Run(c: Config, F: Faults, es: seq<Event>): Option<System> {
    if es == [] then Some(InitSystem(F))
    else
      match Run(c, F, es[..|es| - 1])
      case None => None
      case Some(s) => if Enabled(c, F, s, es[|es| - 1]) then Some(Apply(c, s, es[|es| - 1])) else None
  }

  // ---------- the invariant ----------

  predicate HasEst(n: Node, r: nat, v: int) {
    r < |n.log.ests| && n.log.ests[r] == v
  }

  /** Some honest node started round r with est v. */
  ghost predicate Backed(F: Faults, s: System, r: nat, v: int) {
    exists q :: q in F.honest && q in s.nodes && HasEst(s.nodes[q], r, v)
  }

  // Recorded senders are nodes, and the honest ones did send.
  ghost predicate EstRecord(F: Faults, sent: set<(nat, Message)>, box: Inbox, r: nat, v: int) {
    Senders(F, sent, At(box.est, (r, v)), Est(r, v))
  }

  ghost predicate ConfRecord(F: Faults, sent: set<(nat, Message)>, box: Inbox, r: nat, b: seq<int>) {
    Senders(F, sent, At(box.conf, (r, b)), Conf(r, b))
  }

  ghost predicate BinOk(c: Config, box: Inbox, r: nat, v: int) {
    v in At(box.bin, r) ==> Bit(v) && |At(box.est, (r, v))| >= 2 * c.f + 1
  }

  ghost predicate BoxInv(c: Config, F: Faults, sent: set<(nat, Message)>, box: Inbox) {
    && (forall r: nat, v :: EstRecord(F, sent, box, r, v))
    && (forall r: nat, b :: ConfRecord(F, sent, box, r, b))
    && (forall r: nat, v :: BinOk(c, box, r, v))
  }

  // What the CONF wait of round r returned.
  ghost predicate ValOk(c: Config, box: Inbox, r: nat, w: set<int>) {
    && (w == {0} || w == {1} || w == {0, 1})
    && w <= At(box.bin, r)
    && (w == {0} ==> |At(box.conf, (r, [0]))| >= c.N - c.f)
    && (w == {1} ==> |At(box.conf, (r, [1]))| >= c.N - c.f)
  }

  // How far the history reaches in each phase.
  ghost predicate Shape(l: Loop, g: Log) {
    match l.phase
    case NoInput => g == Log([], [], [], []) && l.r == 0 && l.alreadyDecided == None && l.confSent == {}
    case Failed => g == Log([], [], [], []) && l.r == 0 && l.alreadyDecided == None
    case WaitBin => |g.ests| == l.r + 1 && |g.confs| == l.r && |g.vals| == l.r && l.est == g.ests[l.r]
    case WaitAux => |g.ests| == l.r + 1 && |g.confs| == l.r && |g.vals| == l.r && l.est == g.ests[l.r]
    case WaitConf => |g.ests| == l.r + 1 && |g.confs| == l.r + 1 && |g.vals| == l.r && l.est == g.ests[l.r]
    case WaitCoin => |g.ests| == l.r + 1 && |g.confs| == l.r + 1 && |g.vals| == l.r + 1 && l.values == g.vals[l.r]
    case Quit => |g.ests| == l.r + 1 && |g.confs| == l.r + 1 && |g.vals| == l.r + 1 && l.values == g.vals[l.r]
  }

  // Round k is over with values {v} and coin v.
  ghost predicate DecidesIn(c: Config, l: Loop, g: Log, k: nat, v: int) {
    k < l.r && k < |g.vals| && g.vals[k] == {v} && CoinAt(c, k) == v
  }

  // The estimate of round r + 1 follows from the values of round r and its coin.
  ghost predicate NextEst(c: Config, g: Log, r: nat)
    requires r + 1 < |g.ests|
  {
    r < |g.vals| && g.ests[r + 1] == NewEst(g.vals[r], CoinAt(c, r))
  }

  ghost predicate LogInv(c: Config, box: Inbox, confSent: set<(nat, seq<int>)>, g: Log) {
    && (forall r :: 0 <= r < |g.ests| ==> Bit(g.ests[r]))
    && (forall r :: 0 <= r < |g.vals| ==> ValOk(c, box, r, g.vals[r]))
    && (forall r :: 0 <= r < |g.ests| - 1 ==> NextEst(c, g, r))
    && (forall x :: x in confSent ==> x.0 < |g.confs|)
  }

  ghost predicate Decided(c: Config, l: Loop, g: Log) {
    match l.alreadyDecided
    case None => g.decisions == [] && forall k: nat, v :: !DecidesIn(c, l, g, k, v)
    case Some(v) => g.decisions == [v] && exists k: nat :: DecidesIn(c, l, g, k, v)
  }

  ghost predicate NodeInv(c: Config, F: Faults, sent: set<(nat, Message)>, n: Node) {
    && BoxInv(c, F, sent, n.inbox)
    && Shape(n.loop, n.log)
    && LogInv(c, n.inbox, n.loop.confSent, n.log)
    && Decided(c, n.loop, n.log)
  }

  // What node n has sent is in its history.
  ghost predicate SentOk(F: Faults, s: System, n: Node, m: Message) {
    match m
    case Est(r, v) => HasEst(n, r, v) || Backed(F, s, r, v)
    case Aux(r, w) => w in At(n.inbox.bin, r)
    case Conf(r, b) => r < |n.log.confs| && n.log.confs[r] == b
  }

  ghost predicate Inv(c: Config, F: Faults, s: System) {
    && s.nodes.Keys == F.honest
    && (forall p :: p in F.honest ==> NodeInv(c, F, s.sent, s.nodes[p]))
    && (forall x :: x in s.sent ==> x.0 in F.honest && SentOk(F, s, s.nodes[x.0], x.1))
  }

  // ---------- one node ----------

  // Inboxes only grow, and logs are only appended to.
  ghost predicate Grows(b: Inbox, b': Inbox) {
    && (forall k :: At(b.est, k) <= At(b'.est, k))
    && (forall k :: At(b.conf, k) <= At(b'.conf, k))
    && (forall r :: At(b.bin, r) <= At(b'.bin, r))
  }

  ghost predicate Extends(n: Node, n': Node) {
    Grows(n.inbox, n'.inbox) && n.log.ests <= n'.log.ests && n.log.confs <= n'.log.confs
  }

  lemma SentGrows(c: Config, F: Faults, sent: set<(nat, Message)>, sent': set<(nat, Message)>, box: Inbox)
    requires sent <= sent' && BoxInv(c, F, sent, box)
    ensures BoxInv(c, F, sent', box)
  {
    forall r: nat, v ensures EstRecord(F, sent', box, r, v) {
      assert EstRecord(F, sent, box, r, v);
    }
    forall r: nat, b ensures ConfRecord(F, sent', box, r, b) {
      assert ConfRecord(F, sent, box, r, b);
    }
  }

  lemma LogKept(c: Config, b: Inbox, b': Inbox, confSent: set<(nat, seq<int>)>, g: Log)
    requires LogInv(c, b, confSent, g) && Grows(b, b')
    ensures LogInv(c, b', confSent, g)
  {
    forall r | 0 <= r < |g.vals| ensures ValOk(c, b', r, g.vals[r]) {
      assert ValOk(c, b, r, g.vals[r]);
      SubsetSize(At(b.conf, (r, [0])), At(b'.conf, (r, [0])));
      SubsetSize(At(b.conf, (r, [1])), At(b'.conf, (r, [1])));
    }
  }

  // One key of est_values and bin_values after a new EST.
  lemma EstKey(c: Config, F: Faults, sent: set<(nat, Message)>, b: Inbox, from: nat, r: nat, v: int, r': nat, v': int)
    requires Bit(v) && EstRecord(F, sent, b, r', v') && BinOk(c, b, r', v')
    requires var S := At(b.est, (r, v)); Senders(F, sent, S + {from}, Est(r, v)) && |S| <= |S + {from}|
    ensures EstRecord(F, sent, AddEst(c, b, from, r, v), r', v') && BinOk(c, AddEst(c, b, from, r, v), r', v')
  {
    if r' != r || v' != v {
      assert At(AddEst(c, b, from, r, v).est, (r', v')) == At(b.est, (r', v'));
    }
  }

  lemma EstGrows(c: Config, b: Inbox, from: nat, r: nat, v: int)
    ensures Grows(b, AddEst(c, b, from, r, v))
  {
  }

  lemma AddEstInv(c: Config, F: Faults, sent: set<(nat, Message)>, b: Inbox, from: nat, r: nat, v: int)
    requires F.N == c.N && BoxInv(c, F, sent, b) && Bit(v)
    requires from < c.N && (from in F.honest ==> (from, Est(r, v)) in sent)
    ensures BoxInv(c, F, sent, AddEst(c, b, from, r, v)) && Grows(b, AddEst(c, b, from, r, v))
  {
    var b' := AddEst(c, b, from, r, v);
    assert EstRecord(F, sent, b, r, v);
    SendersAdd(F, sent, At(b.est, (r, v)), Est(r, v), from);
    forall r': nat, v' ensures EstRecord(F, sent, b', r', v') && BinOk(c, b', r', v') {
      assert EstRecord(F, sent, b, r', v') && BinOk(c, b, r', v');
      EstKey(c, F, sent, b, from, r, v, r', v');
    }
    forall r', b0 ensures ConfRecord(F, sent, b', r', b0) {
      assert ConfRecord(F, sent, b, r', b0);
    }
    EstGrows(c, b, from, r, v);
  }

  // One key of conf_values after a new CONF.
  lemma ConfKey(F: Faults, sent: set<(nat, Message)>, b: Inbox, from: nat, r: nat, vals: seq<int>, b': Inbox, r': nat, b0: seq<int>)
    requires b' == b.(conf := b.conf[(r, vals) := At(b.conf, (r, vals)) + {from}]) && ConfRecord(F, sent, b, r', b0)
    requires Senders(F, sent, At(b.conf, (r, vals)) + {from}, Conf(r, vals))
    ensures ConfRecord(F, sent, b', r', b0)
  {
    if r' != r || b0 != vals {
      assert At(b'.conf, (r', b0)) == At(b.conf, (r', b0));
    }
  }

  lemma AddConfInv(c: Config, F: Faults, sent: set<(nat, Message)>, b: Inbox, from: nat, r: nat, vals: seq<int>, b': Inbox)
    requires F.N == c.N && BoxInv(c, F, sent, b)
    requires from < c.N && (from in F.honest ==> (from, Conf(r, vals)) in sent)
    requires b' == b.(conf := b.conf[(r, vals) := At(b.conf, (r, vals)) + {from}])
    ensures BoxInv(c, F, sent, b') && Grows(b, b')
  {
    assert ConfRecord(F, sent, b, r, vals);
    SendersAdd(F, sent, At(b.conf, (r, vals)), Conf(r, vals), from);
    forall r', b0 ensures ConfRecord(F, sent, b', r', b0) {
      assert ConfRecord(F, sent, b, r', b0);
      ConfKey(F, sent, b, from, r, vals, b', r', b0);
    }
    forall r': nat, v ensures EstRecord(F, sent, b', r', v) && BinOk(c, b', r', v) {
      assert EstRecord(F, sent, b, r', v) && BinOk(c, b, r', v);
    }
  }

  lemma AddAuxInv(c: Config, F: Faults, sent: set<(nat, Message)>, b: Inbox, b': Inbox)
    requires BoxInv(c, F, sent, b) && b' == b.(aux := b'.aux)
    ensures BoxInv(c, F, sent, b') && Grows(b, b')
  {
    forall r', v ensures EstRecord(F, sent, b', r', v) {
      assert EstRecord(F, sent, b, r', v);
    }
    forall r', b0 ensures ConfRecord(F, sent, b', r', b0) {
      assert ConfRecord(F, sent, b, r', b0);
    }
    forall r': nat, v ensures BinOk(c, b', r', v) {
      assert BinOk(c, b, r', v);
    }
  }

  // What one step of a node must establish.
  ghost predicate StepOk(c: Config, F: Faults, s: System, n: Node, n': Node, out: seq<Message>) {
    && NodeInv(c, F, s.sent, n')
    && Extends(n, n')
    && forall m :: m in out ==> SentOk(F, s, n', m)
  }

  // A new inbox that has only grown, with loop and log unchanged.
  lemma InboxStep(c: Config, F: Faults, s: System, n: Node, n': Node)
    requires NodeInv(c, F, s.sent, n) && n'.loop == n.loop && n'.log == n.log
    requires BoxInv(c, F, s.sent, n'.inbox) && Grows(n.inbox, n'.inbox)
    ensures StepOk(c, F, s, n, n', [])
  {
    LogKept(c, n.inbox, n'.inbox, n.loop.confSent, n.log);
  }

  // An EST that an honest node has sent is backed.
  ghost predicate EstSentBacked(F: Faults, s: System, r: nat, v: int) {
    (exists q :: q in F.honest && (q, Est(r, v)) in s.sent) ==> Backed(F, s, r, v)
  }

  lemma EstStep(c: Config, F: Faults, s: System, n: Node, from: nat, r: nat, v: int)
    requires Valid(c, F) && NodeInv(c, F, s.sent, n) && EstSentBacked(F, s, r, v)
    requires from < c.N && (from in F.honest ==> (from, Est(r, v)) in s.sent)
    ensures var (n', out) := OnEst(c, n, from, r, v); StepOk(c, F, s, n, n', out)
  {
    if Bit(v) {
      var (n', out) := OnEst(c, n, from, r, v);
      AddEstInv(c, F, s.sent, n.inbox, from, r, v);
      InboxStep(c, F, s, n, n');
      if out != [] {
        EstBacked(c, F, s, n'.inbox, r, v);
      }
    }
  }

  // f + 1 nodes sent EST v, so an honest one did.
  lemma EstBacked(c: Config, F: Faults, s: System, b: Inbox, r: nat, v: int)
    requires Resilient(F) && F.f == c.f && EstSentBacked(F, s, r, v)
    requires EstRecord(F, s.sent, b, r, v) && |At(b.est, (r, v))| >= c.f + 1
    ensures Backed(F, s, r, v)
  {
    var q := HonestMember(F, At(b.est, (r, v)));
    assert (q, Est(r, v)) in s.sent;
  }

  lemma ReceiveStep(c: Config, F: Faults, s: System, n: Node, from: nat, m: Message)
    requires Valid(c, F) && NodeInv(c, F, s.sent, n)
    requires m.Est? ==> EstSentBacked(F, s, m.round, m.v)
    requires from < c.N && (from in F.honest ==> (from, m) in s.sent)
    ensures var (n', out) := Receive(c, n, from, m); StepOk(c, F, s, n, n', out)
  {
    match m
    case Est(r, v) => EstStep(c, F, s, n, from, r, v);
    case Aux(r, v) =>
      var n' := OnAux(c, n, from, r, v);
      AddAuxInv(c, F, s.sent, n.inbox, n'.inbox);
      InboxStep(c, F, s, n, n');
    case Conf(r, vals) =>
      var n' := OnConf(n, from, r, vals);
      AddConfInv(c, F, s.sent, n.inbox, from, r, vals,
                 n.inbox.(conf := n.inbox.conf[(r, vals) := At(n.inbox.conf, (r, vals)) + {from}]));
      InboxStep(c, F, s, n, n');
  }

  // Round |ests| starts with the estimate that the round before it left.
  lemma EnterLog(c: Config, b: Inbox, confSent: set<(nat, seq<int>)>, g: Log, est: int)
    requires LogInv(c, b, confSent, g) && Bit(est) && |g.ests| == |g.vals|
    requires g.ests != [] ==> est == NewEst(g.vals[|g.vals| - 1], CoinAt(c, |g.vals| - 1))
    ensures LogInv(c, b, confSent, g.(ests := g.ests + [est]))
  {
    var g' := g.(ests := g.ests + [est]);
    forall r | 0 <= r < |g'.ests| - 1 ensures NextEst(c, g', r) {
      if r < |g.ests| - 1 {
        assert NextEst(c, g, r);
      }
    }
  }

  lemma StartStep(c: Config, F: Faults, s: System, n: Node, v: int)
    requires NodeInv(c, F, s.sent, n)
    ensures var (n', out) := Start(n, v); StepOk(c, F, s, n, n', out)
  {
    if n.loop.phase == NoInput && Bit(v) {
      EnterLog(c, n.inbox, n.loop.confSent, n.log, v);
    }
  }

  // The values that end round r, and how they enter the log.
  lemma ValLog(c: Config, b: Inbox, confSent: set<(nat, seq<int>)>, g: Log, w: set<int>)
    requires LogInv(c, b, confSent, g) && ValOk(c, b, |g.vals|, w) && |g.ests| == |g.vals| + 1
    ensures LogInv(c, b, confSent, g.(vals := g.vals + [w]))
  {
    var g' := g.(vals := g.vals + [w]);
    forall r | 0 <= r < |g'.ests| - 1 ensures NextEst(c, g', r) {
      assert NextEst(c, g, r);
    }
  }

  lemma WaitStep(c: Config, F: Faults, s: System, n: Node, w: int)
    requires c.N > c.f && NodeInv(c, F, s.sent, n) && n.loop.phase != WaitCoin
    ensures var (n', out) := Resume(c, n, w); StepOk(c, F, s, n, n', out)
  {
    var (n', out) := Resume(c, n, w);
    if n.loop.phase == WaitAux && out != [] {
      ConfLog(c, n.inbox, n.loop, n.log, n'.loop, n'.log);
    }
    if n.loop.phase == WaitConf && n' != n {
      ConfWait(c, n.inbox, n.loop.r);
      ValLog(c, n.inbox, n.loop.confSent, n.log, n'.loop.values);
    }
    DecidedKept(c, n.loop, n.log, n'.loop, n'.log);
  }

  lemma ConfLog(c: Config, b: Inbox, l: Loop, g: Log, l': Loop, g': Log)
    requires LogInv(c, b, l.confSent, g) && |g.confs| == l.r
    requires exists x, y :: l'.confSent == l.confSent + {(l.r, x)} && g' == g.(confs := g.confs + [y])
    ensures LogInv(c, b, l'.confSent, g')
  {
    forall r | 0 <= r < |g'.ests| - 1 ensures NextEst(c, g', r) {
      assert NextEst(c, g, r);
    }
  }

  // While the round lasts nothing is decided.
  lemma DecidedKept(c: Config, l: Loop, g: Log, l': Loop, g': Log)
    requires Decided(c, l, g) && l'.r == l.r && l'.alreadyDecided == l.alreadyDecided && g'.decisions == g.decisions
    requires g.vals <= g'.vals && |g.vals| >= l.r
    ensures Decided(c, l', g')
  {
    forall k: nat, v ensures DecidesIn(c, l', g', k, v) == DecidesIn(c, l, g, k, v) {}
  }

  /** The AUX wait leaves with a single value exactly when N - f AUXs are for it and it is in bin_values; 1 goes first. */
  lemma AuxWait(c: Config, b: Inbox, r: nat)
    requires AuxDone(c, b, r).Some? && c.N > c.f
    ensures var w, bin := AuxDone(c, b, r).value, At(b.bin, r);
      && (w == {1} <==> 1 in bin && |At(b.aux, (r, 1))| >= c.N - c.f)
      && (w == {0} <==> 0 in bin && |At(b.aux, (r, 0))| >= c.N - c.f && w != {1})
      && (w == {0} || w == {1} || w == {0, 1})
  {
    assert 0 in {0, 1} && 1 in {0, 1} && 0 !in {1} && 1 !in {0};
  }

  // The CONF wait returns {0, 1} only when bin_values is {0, 1}.
  lemma ConfWait(c: Config, b: Inbox, r: nat)
    requires ConfDone(c, b, r).Some? && c.N > c.f
    ensures ValOk(c, b, r, ConfDone(c, b, r).value)
  {
  }

  lemma CoinStep(c: Config, F: Faults, s: System, n: Node)
    requires Valid(c, F) && NodeInv(c, F, s.sent, n) && n.loop.phase == WaitCoin
    ensures var (n', out) := AfterCoin(c, n); StepOk(c, F, s, n, n', out)
  {
    var coin := CoinAt(c, n.loop.r);
    if n.loop.values == {coin} && n.loop.alreadyDecided == Some(coin) {
      DecidedKept(c, n.loop, n.log, AfterCoin(c, n).0.loop, AfterCoin(c, n).0.log);
    } else {
      var d := if n.loop.values == {coin} && n.loop.alreadyDecided == None
        then n.(loop := n.loop.(alreadyDecided := Some(coin)), log := n.log.(decisions := n.log.decisions + [coin]))
        else n;
      assert AfterCoin(c, n) == EnterRound(d, n.loop.r + 1, NewEst(n.loop.values, coin));
      CoinBits(c, F);
      NextRound(c, F, s, n, d);
    }
  }

  // d is n with the decision of its round, if any, already made.
  ghost predicate DecisionMade(c: Config, n: Node, d: Node) {
    && d == n.(loop := n.loop.(alreadyDecided := d.loop.alreadyDecided), log := n.log.(decisions := d.log.decisions))
    && if n.loop.values == {CoinAt(c, n.loop.r)} && n.loop.alreadyDecided == None
       then d.loop.alreadyDecided == Some(CoinAt(c, n.loop.r)) && d.log.decisions == n.log.decisions + [CoinAt(c, n.loop.r)]
       else d == n
  }

  // The inbox does not change.
  lemma SameInbox(c: Config, F: Faults, s: System, n: Node, n': Node, out: seq<Message>)
    requires BoxInv(c, F, s.sent, n.inbox) && n'.inbox == n.inbox && Extends(n, n')
    requires Shape(n'.loop, n'.log) && LogInv(c, n'.inbox, n'.loop.confSent, n'.log) && Decided(c, n'.loop, n'.log)
    requires forall m :: m in out ==> SentOk(F, s, n', m)
    ensures StepOk(c, F, s, n, n', out)
  {
  }

  lemma NextRound(c: Config, F: Faults, s: System, n: Node, d: Node)
    requires (forall r: nat :: Bit(CoinAt(c, r))) && NodeInv(c, F, s.sent, n) && n.loop.phase == WaitCoin && DecisionMade(c, n, d)
    ensures
      var (n', out) := EnterRound(d, n.loop.r + 1, NewEst(n.loop.values, CoinAt(c, n.loop.r)));
      StepOk(c, F, s, n, n', out)
  {
    var est := NewEst(n.loop.values, CoinAt(c, n.loop.r));
    var (n', out) := EnterRound(d, n.loop.r + 1, est);
    NextRoundLog(c, n, d);
    NextRoundOut(n, d, est);
    SameInbox(c, F, s, n, n', out);
  }

  lemma NextRoundOut(n: Node, d: Node, est: int)
    requires d == n.(loop := d.loop, log := n.log.(decisions := d.log.decisions)) && |n.log.ests| == n.loop.r + 1
    ensures
      var (n', out) := EnterRound(d, n.loop.r + 1, est);
      Extends(n, n') && HasEst(n', n.loop.r + 1, est) && forall m :: m in out ==> m == Est(n.loop.r + 1, est)
  {
  }

  lemma NextRoundLog(c: Config, n: Node, d: Node)
    requires (forall r: nat :: Bit(CoinAt(c, r))) && n.loop.phase == WaitCoin && DecisionMade(c, n, d)
    requires Shape(n.loop, n.log) && LogInv(c, n.inbox, n.loop.confSent, n.log) && Decided(c, n.loop, n.log)
    ensures
      var n' := EnterRound(d, n.loop.r + 1, NewEst(n.loop.values, CoinAt(c, n.loop.r))).0;
      Shape(n'.loop, n'.log) && LogInv(c, n'.inbox, n'.loop.confSent, n'.log) && Decided(c, n'.loop, n'.log)
  {
    var n' := EnterRound(d, n.loop.r + 1, NewEst(n.loop.values, CoinAt(c, n.loop.r))).0;
    assert ValOk(c, n.inbox, n.loop.r, n.log.vals[n.loop.r]);
    LogDecisions(c, n.inbox, n.loop.confSent, n.log, d.log);
    EnterLog(c, n.inbox, n.loop.confSent, d.log, NewEst(n.loop.values, CoinAt(c, n.loop.r)));
    DecidedStep(c, n.loop, n.log, n'.loop, n'.log);
  }

  lemma LogDecisions(c: Config, b: Inbox, confSent: set<(nat, seq<int>)>, g: Log, g': Log)
    requires LogInv(c, b, confSent, g) && g' == g.(decisions := g'.decisions)
    ensures LogInv(c, b, confSent, g')
  {
    forall r | 0 <= r < |g'.ests| - 1 ensures NextEst(c, g', r) {
      assert NextEst(c, g, r);
    }
  }

  lemma DecidedStep(c: Config, l: Loop, g: Log, l': Loop, g': Log)
    requires Decided(c, l, g) && |g.vals| == l.r + 1 && l'.r == l.r + 1 && g'.vals == g.vals
    requires
      if g.vals[l.r] == {CoinAt(c, l.r)} && l.alreadyDecided == None
      then l'.alreadyDecided == Some(CoinAt(c, l.r)) && g'.decisions == g.decisions + [CoinAt(c, l.r)]
      else l'.alreadyDecided == l.alreadyDecided && g'.decisions == g.decisions
    ensures Decided(c, l', g')
  {
    forall k: nat, v
      ensures DecidesIn(c, l', g', k, v) <==> DecidesIn(c, l, g, k, v) || (k == l.r && g.vals[l.r] == {v} && CoinAt(c, l.r) == v)
    {}
    if g.vals[l.r] == {CoinAt(c, l.r)} {
      assert DecidesIn(c, l', g', l.r, CoinAt(c, l.r));
    }
  }

  // ---------- the whole system ----------

  lemma {:induction false} InitInv(c: Config, F: Faults)
    requires Valid(c, F)
    ensures Inv(c, F, InitSystem(F))
  {
  }

  lemma LocalStep(c: Config, F: Faults, s: System, e: Event)
    requires Valid(c, F) && Inv(c, F, s) && Enabled(c, F, s, e)
    ensures var (n', out) := Local(c, s.nodes[e.p], e); StepOk(c, F, s, s.nodes[e.p], n', out)
  {
    var n := s.nodes[e.p];
    match e
    case Input(_, v) => StartStep(c, F, s, n, v);
    case Deliver(_, from, m) =>
      if m.Est? {
        SentEstBacked(c, F, s, m.round, m.v);
      }
      ReceiveStep(c, F, s, n, from, m);
    case Wake(_, w) =>
      if n.loop.phase == WaitCoin {
        CoinStep(c, F, s, n);
      } else {
        WaitStep(c, F, s, n, w);
      }
  }

  lemma SentEstBacked(c: Config, F: Faults, s: System, r: nat, v: int)
    requires Inv(c, F, s)
    ensures EstSentBacked(F, s, r, v)
  {
    if q :| q in F.honest && (q, Est(r, v)) in s.sent {
      assert SentOk(F, s, s.nodes[q], Est(r, v));
    }
  }

  // What was sent stays in the history when nodes only extend it.
  lemma SentKept(F: Faults, s: System, s': System, p: nat, n: Node, n': Node, q: nat, m: Message)
    requires s.nodes.Keys == F.honest && p in F.honest && q in F.honest
    requires n == s.nodes[p] && s'.nodes == s.nodes[p := n'] && Extends(n, n')
    requires SentOk(F, s, s.nodes[q], m)
    ensures SentOk(F, s', s'.nodes[q], m)
  {
    if m.Est? && Backed(F, s, m.round, m.v) {
      var q' :| q' in F.honest && q' in s.nodes && HasEst(s.nodes[q'], m.round, m.v);
      assert HasEst(s'.nodes[q'], m.round, m.v);
    }
  }

  lemma StepInv(c: Config, F: Faults, s: System, e: Event)
    requires Valid(c, F) && Inv(c, F, s) && Enabled(c, F, s, e)
    ensures Inv(c, F, Apply(c, s, e))
  {
    LocalStep(c, F, s, e);
    var (n', out) := Local(c, s.nodes[e.p], e);
    Update(c, F, s, e.p, n', out, Apply(c, s, e));
  }

  lemma Update(c: Config, F: Faults, s: System, p: nat, n': Node, out: seq<Message>, s': System)
    requires Inv(c, F, s) && p in F.honest && StepOk(c, F, s, s.nodes[p], n', out)
    requires s' == System(s.nodes[p := n'], s.sent + set m | m in out :: (p, m))
    ensures Inv(c, F, s')
  {
    forall q | q in F.honest ensures NodeInv(c, F, s'.sent, s'.nodes[q]) {
      SentGrows(c, F, s.sent, s'.sent, s'.nodes[q].inbox);
    }
    forall x | x in s'.sent ensures x.0 in F.honest && SentOk(F, s', s'.nodes[x.0], x.1) {
      if x in s.sent {
        SentKept(F, s, s', p, s.nodes[p], n', x.0, x.1);
      } else {
        NewSent(F, s, s', p, s.nodes[p], n', x.1);
      }
    }
  }

  lemma NewSent(F: Faults, s: System, s': System, p: nat, n: Node, n': Node, m: Message)
    requires s.nodes.Keys == F.honest && p in F.honest
    requires n == s.nodes[p] && s'.nodes == s.nodes[p := n'] && Extends(n, n')
    requires SentOk(F, s, n', m)
    ensures SentOk(F, s', n', m)
  {
    if m.Est? && !HasEst(n', m.round, m.v) {
      var q :| q in F.honest && q in s.nodes && HasEst(s.nodes[q], m.round, m.v);
      assert HasEst(s'.nodes[q], m.round, m.v);
    }
  }

  lemma {:induction false} RunInv(c: Config, F: Faults, es: seq<Event>)
    requires Valid(c, F) && Run(c, F, es).Some?
    ensures Inv(c, F, Run(c, F, es).value)
  {
    if es == [] {
      InitInv(c, F);
    } else {
      var init := es[..|es| - 1];
      RunInv(c, F, init);
      StepInv(c, F, Run(c, F, init).value, es[|es| - 1]);
    }
  }

  // ---------- what holds in every reachable state ----------

  // A value in bin_values of an honest node was some honest node's est of that round.
  lemma BinBacked(c: Config, F: Faults, s: System, q: nat, r: nat, v: int)
    requires Valid(c, F) && Inv(c, F, s) && q in F.honest
    requires v in At(s.nodes[q].inbox.bin, r)
    ensures Bit(v) && Backed(F, s, r, v)
  {
    var box := s.nodes[q].inbox;
    assert BinOk(c, box, r, v) && EstRecord(F, s.sent, box, r, v);
    SentEstBacked(c, F, s, r, v);
    EstBacked(c, F, s, box, r, v);
  }

  // The CONF messages behind a single value.
  ghost predicate ConfQuorum(F: Faults, sent: set<(nat, Message)>, r: nat, v: int, Q: set<nat>) {
    Q <= Below(F.N) && |Q| >= F.N - F.f && forall h :: h in Q && h in F.honest ==> (h, Conf(r, [v])) in sent
  }

  lemma ConfQuorumOf(c: Config, F: Faults, s: System, p: nat, r: nat, v: int) returns (Q: set<nat>)
    requires Valid(c, F) && Inv(c, F, s) && p in F.honest
    requires r < |s.nodes[p].log.vals| && s.nodes[p].log.vals[r] == {v}
    ensures ConfQuorum(F, s.sent, r, v, Q)
  {
    var box := s.nodes[p].inbox;
    assert ValOk(c, box, r, {v});
    assert v in {v};
    assert ConfRecord(F, s.sent, box, r, [v]);
    Q := At(box.conf, (r, [v]));
  }

  ghost predicate ConfsUnique(F: Faults, sent: set<(nat, Message)>) {
    forall h, r, b, b' :: h in F.honest && (h, Conf(r, b)) in sent && (h, Conf(r, b')) in sent ==> b == b'
  }

  lemma SentConfsUnique(c: Config, F: Faults, s: System)
    requires Inv(c, F, s)
    ensures ConfsUnique(F, s.sent)
  {
    forall h, r, b, b' | h in F.honest && (h, Conf(r, b)) in s.sent && (h, Conf(r, b')) in s.sent ensures b == b' {
      assert SentOk(F, s, s.nodes[h], Conf(r, b)) && SentOk(F, s, s.nodes[h], Conf(r, b'));
    }
  }

  // Two CONF quorums of one round share an honest node, which sent one CONF.
  lemma QuorumsAgree(F: Faults, sent: set<(nat, Message)>, r: nat, u: int, v: int, A: set<nat>, B: set<nat>)
    requires Resilient(F) && ConfsUnique(F, sent) && ConfQuorum(F, sent, r, u, A) && ConfQuorum(F, sent, r, v, B)
    ensures u == v
  {
    var h := HonestInBoth(F, A, B);
    assert (h, Conf(r, [u])) in sent && (h, Conf(r, [v])) in sent;
    assert [u][0] == [v][0];
  }

  // Two honest nodes cannot leave the same round with different single values.
  lemma OneValue(c: Config, F: Faults, s: System, p: nat, q: nat, r: nat, u: int, v: int)
    requires Valid(c, F) && Inv(c, F, s) && p in F.honest && q in F.honest
    requires r < |s.nodes[p].log.vals| && s.nodes[p].log.vals[r] == {u}
    requires r < |s.nodes[q].log.vals| && s.nodes[q].log.vals[r] == {v}
    ensures u == v
  {
    var A := ConfQuorumOf(c, F, s, p, r, u);
    var B := ConfQuorumOf(c, F, s, q, r, v);
    SentConfsUnique(c, F, s);
    QuorumsAgree(F, s.sent, r, u, v, A, B);
  }

  // ---------- the histories alone ----------

  // Values are backed estimates, and estimates follow from values and coins.
  ghost predicate ValBacked(F: Faults, s: System, p: nat, r: nat)
    requires p in s.nodes && r < |s.nodes[p].log.vals|
  {
    var w := s.nodes[p].log.vals[r];
    (w == {0} || w == {1} || w == {0, 1}) && forall u :: u in w ==> Backed(F, s, r, u)
  }

  ghost predicate SameSingle(s: System, p: nat, q: nat, r: nat)
    requires p in s.nodes && q in s.nodes
  {
    forall u, v :: Single(s.nodes[p].log, r, u) && Single(s.nodes[q].log, r, v) ==> u == v
  }

  ghost predicate Single(g: Log, r: nat, v: int) {
    r < |g.vals| && g.vals[r] == {v}
  }

  /** What the proofs of agreement and validity use. */
  ghost predicate Histories(c: Config, F: Faults, s: System) {
    && s.nodes.Keys == F.honest
    && (forall p, r: nat :: p in F.honest && r < |s.nodes[p].log.vals| ==> ValBacked(F, s, p, r))
    && (forall p, r: nat :: p in F.honest && r + 1 < |s.nodes[p].log.ests| ==> NextEst(c, s.nodes[p].log, r))
    && (forall p, r: nat :: p in F.honest && r < |s.nodes[p].log.ests| ==> Bit(s.nodes[p].log.ests[r]))
    && (forall p, q, r: nat :: p in F.honest && q in F.honest ==> SameSingle(s, p, q, r))
    && (forall p :: p in F.honest ==> Decided(c, s.nodes[p].loop, s.nodes[p].log))
  }

  lemma InvHistories(c: Config, F: Faults, s: System)
    requires Valid(c, F) && Inv(c, F, s)
    ensures Histories(c, F, s)
  {
    forall p, r: nat | p in F.honest && r < |s.nodes[p].log.vals| ensures ValBacked(F, s, p, r) {
      ValuesBacked(c, F, s, p, r);
    }
    forall p, q, r: nat | p in F.honest && q in F.honest ensures SameSingle(s, p, q, r) {
      forall u, v | Single(s.nodes[p].log, r, u) && Single(s.nodes[q].log, r, v) ensures u == v {
        OneValue(c, F, s, p, q, r, u, v);
      }
    }
  }

  lemma ValuesBacked(c: Config, F: Faults, s: System, p: nat, r: nat)
    requires Valid(c, F) && Inv(c, F, s) && p in F.honest && r < |s.nodes[p].log.vals|
    ensures ValBacked(F, s, p, r)
  {
    assert ValOk(c, s.nodes[p].inbox, r, s.nodes[p].log.vals[r]);
    forall u | u in s.nodes[p].log.vals[r] ensures Backed(F, s, r, u) {
      BinBacked(c, F, s, p, r, u);
    }
  }

  lemma RunHistories(c: Config, F: Faults, es: seq<Event>, s: System)
    requires Valid(c, F) && Run(c, F, es) == Some(s)
    ensures Histories(c, F, s)
  {
    RunInv(c, F, es);
    InvHistories(c, F, s);
  }

  /** Every honest node that starts round r does so with estimate v. */
  ghost predicate Unanimous(F: Faults, s: System, r: nat, v: int)
    requires s.nodes.Keys == F.honest
  {
    forall q :: q in F.honest && r < |s.nodes[q].log.ests| ==> s.nodes[q].log.ests[r] == v
  }

  lemma UnanimousVals(c: Config, F: Faults, s: System, r: nat, v: int, q: nat)
    requires Histories(c, F, s) && Unanimous(F, s, r, v)
    requires q in F.honest && r < |s.nodes[q].log.vals|
    ensures Single(s.nodes[q].log, r, v)
  {
    var w := s.nodes[q].log.vals[r];
    assert ValBacked(F, s, q, r);
    forall u | u in w ensures u == v {
      var h :| h in F.honest && h in s.nodes && HasEst(s.nodes[h], r, u);
    }
    assert w != {};
  }

  lemma {:induction false} UnanimousLater(c: Config, F: Faults, s: System, r: nat, v: int, r': nat)
    requires Histories(c, F, s) && Unanimous(F, s, r, v) && r <= r'
    ensures Unanimous(F, s, r', v)
    decreases r' - r
  {
    if r < r' {
      forall q | q in F.honest && r + 1 < |s.nodes[q].log.ests| ensures s.nodes[q].log.ests[r + 1] == v {
        var g := s.nodes[q].log;
        assert NextEst(c, g, r);
        UnanimousVals(c, F, s, r, v, q);
        assert g.ests[r] == v && Bit(g.ests[r]);
      }
      UnanimousLater(c, F, s, r + 1, v, r');
    }
  }

  lemma UnanimousAfterDecision(c: Config, F: Faults, s: System, p: nat, k: nat, v: int)
    requires Histories(c, F, s) && p in F.honest && Single(s.nodes[p].log, k, v) && CoinAt(c, k) == v
    ensures Unanimous(F, s, k + 1, v)
  {
    forall q | q in F.honest && k + 1 < |s.nodes[q].log.ests| ensures s.nodes[q].log.ests[k + 1] == v {
      var g := s.nodes[q].log;
      assert NextEst(c, g, k);
      assert SameSingle(s, p, q, k);
      assert Single(g, k, 0) ==> v == 0;
      assert Single(g, k, 1) ==> v == 1;
    }
  }

  // Values {u} met with coin u in a round after k, where {v} met coin v.
  lemma SameDecision(c: Config, F: Faults, s: System, p: nat, k: nat, v: int, q: nat, l: nat, u: int)
    requires Histories(c, F, s) && p in F.honest && q in F.honest && k <= l
    requires Single(s.nodes[p].log, k, v) && CoinAt(c, k) == v
    requires Single(s.nodes[q].log, l, u) && CoinAt(c, l) == u
    ensures u == v
  {
    if k < l {
      UnanimousAfterDecision(c, F, s, p, k, v);
      UnanimousLater(c, F, s, k + 1, v, l);
      UnanimousVals(c, F, s, l, v, q);
      assert u in {u};
    }
  }

  // ---------- the theorems ----------

  /**
   Agreement: in every run, no two honest nodes pass different values to decide,
   and no node calls decide twice.
   */
  lemma Agreement(c: Config, F: Faults, es: seq<Event>, s: System, p: nat, q: nat)
    requires Valid(c, F) && Run(c, F, es) == Some(s) && p in F.honest && q in F.honest
    ensures p in s.nodes && q in s.nodes
    ensures |s.nodes[p].log.decisions| <= 1
    ensures forall v, u :: v in s.nodes[p].log.decisions && u in s.nodes[q].log.decisions ==> v == u
  {
    RunHistories(c, F, es, s);
    DecisionsAgree(c, F, s, p, q);
  }

  lemma DecisionsAgree(c: Config, F: Faults, s: System, p: nat, q: nat)
    requires Histories(c, F, s) && p in F.honest && q in F.honest
    ensures |s.nodes[p].log.decisions| <= 1
    ensures forall v, u :: v in s.nodes[p].log.decisions && u in s.nodes[q].log.decisions ==> v == u
  {
    var n, m := s.nodes[p], s.nodes[q];
    assert Decided(c, n.loop, n.log) && Decided(c, m.loop, m.log);
    if n.log.decisions != [] && m.log.decisions != [] {
      var v, u := n.log.decisions[0], m.log.decisions[0];
      var k: nat :| DecidesIn(c, n.loop, n.log, k, v);
      var l: nat :| DecidesIn(c, m.loop, m.log, l, u);
      if k <= l {
        SameDecision(c, F, s, p, k, v, q, l, u);
      } else {
        SameDecision(c, F, s, q, l, u, p, k, v);
      }
    }
  }

  /** Once an honest node has decided v, in a round k, every honest estimate of every later round is v. */
  lemma DecisionLocks(c: Config, F: Faults, es: seq<Event>, s: System, p: nat, v: int) returns (k: nat)
    requires Valid(c, F) && Run(c, F, es) == Some(s) && p in F.honest
    requires p in s.nodes && s.nodes[p].loop.alreadyDecided == Some(v)
    ensures s.nodes.Keys == F.honest && k < s.nodes[p].loop.r
    ensures Single(s.nodes[p].log, k, v) && CoinAt(c, k) == v
    ensures forall r: nat :: r > k ==> Unanimous(F, s, r, v)
  {
    RunHistories(c, F, es, s);
    k := LockRound(c, F, s, p, v);
  }

  lemma LockRound(c: Config, F: Faults, s: System, p: nat, v: int) returns (k: nat)
    requires Histories(c, F, s) && p in F.honest && s.nodes[p].loop.alreadyDecided == Some(v)
    ensures DecidesIn(c, s.nodes[p].loop, s.nodes[p].log, k, v)
    ensures forall r: nat :: r > k ==> Unanimous(F, s, r, v)
  {
    var n := s.nodes[p];
    assert Decided(c, n.loop, n.log);
    k :| DecidesIn(c, n.loop, n.log, k, v);
    UnanimousAfterDecision(c, F, s, p, k, v);
    forall r: nat | r > k ensures Unanimous(F, s, r, v) {
      UnanimousLater(c, F, s, k + 1, v, r);
    }
  }

  /**
   The fall-through of set_new_estimate is dead code: a node whose single value
   meets the coin has not decided anything else.
   */
  lemma NoFallThrough(c: Config, F: Faults, es: seq<Event>, s: System, p: nat)
    requires Valid(c, F) && Run(c, F, es) == Some(s) && p in F.honest && p in s.nodes
    requires s.nodes[p].loop.phase == WaitCoin && s.nodes[p].loop.values == {CoinAt(c, s.nodes[p].loop.r)}
    ensures s.nodes[p].loop.alreadyDecided in {None, Some(CoinAt(c, s.nodes[p].loop.r))}
  {
    RunInv(c, F, es);
    InvHistories(c, F, s);
    assert NodeInv(c, F, s.sent, s.nodes[p]);
    if s.nodes[p].loop.alreadyDecided.Some? {
      var k := LockRound(c, F, s, p, s.nodes[p].loop.alreadyDecided.value);
      MeetsLock(c, F, s, p, k);
    }
  }

  // The single value that meets the coin is the one decided in round k.
  lemma MeetsLock(c: Config, F: Faults, s: System, p: nat, k: nat)
    requires Histories(c, F, s) && p in F.honest && s.nodes[p].loop.alreadyDecided.Some?
    requires Shape(s.nodes[p].loop, s.nodes[p].log) && s.nodes[p].loop.phase == WaitCoin
    requires s.nodes[p].loop.values == {CoinAt(c, s.nodes[p].loop.r)}
    requires var v := s.nodes[p].loop.alreadyDecided.value; Single(s.nodes[p].log, k, v) && v == CoinAt(c, k)
    ensures s.nodes[p].loop.alreadyDecided.value == CoinAt(c, s.nodes[p].loop.r)
  {
    var n := s.nodes[p];
    assert Single(n.log, n.loop.r, CoinAt(c, n.loop.r));
    SameDecision(c, F, s, p, k, n.loop.alreadyDecided.value, p, n.loop.r, CoinAt(c, n.loop.r));
  }

  /**
   Justification: in every run, a value in bin_values of an honest node, and a
   value that a CONF wait has returned, was the est of some honest node in that round.
   */
  lemma Justification(c: Config, F: Faults, es: seq<Event>, s: System, q: nat, r: nat, v: int)
    requires Valid(c, F) && Run(c, F, es) == Some(s) && q in F.honest && q in s.nodes
    requires v in At(s.nodes[q].inbox.bin, r) || (r < |s.nodes[q].log.vals| && v in s.nodes[q].log.vals[r])
    ensures Bit(v) && Backed(F, s, r, v)
  {
    RunInv(c, F, es);
    if r < |s.nodes[q].log.vals| && v in s.nodes[q].log.vals[r] {
      assert ValOk(c, s.nodes[q].inbox, r, s.nodes[q].log.vals[r]);
    }
    BinBacked(c, F, s, q, r, v);
  }

  /** In every run, the single values with which honest nodes leave one round are equal. */
  lemma SameSingleValue(c: Config, F: Faults, es: seq<Event>, s: System, p: nat, q: nat, r: nat)
    requires Valid(c, F) && Run(c, F, es) == Some(s) && p in F.honest && q in F.honest
    ensures p in s.nodes && q in s.nodes && SameSingle(s, p, q, r)
  {
    RunHistories(c, F, es, s);
  }

  // Estimates of round 0 are inputs.
  ghost predicate FirstEst(n: Node, v: int) {
    (n.loop.phase != NoInput && n.loop.phase != Failed ==> n.log.ests != []) && (n.log.ests != [] ==> n.log.ests[0] == v)
  }

  lemma FirstEstStep(c: Config, n: Node, e: Event, v: int)
    requires FirstEst(n, v) && (e.Input? ==> e.v == v)
    ensures FirstEst(Local(c, n, e).0, v)
  {
  }

  lemma {:induction false} FirstEsts(c: Config, F: Faults, es: seq<Event>, v: int)
    requires Run(c, F, es).Some?
    requires forall e :: e in es && e.Input? ==> e.v == v
    ensures forall q :: q in Run(c, F, es).value.nodes ==> FirstEst(Run(c, F, es).value.nodes[q], v)
  {
    if es != [] {
      var init, e := es[..|es| - 1], es[|es| - 1];
      assert forall x :: x in init ==> x in es;
      assert e in es;
      FirstEsts(c, F, init, v);
      var s := Run(c, F, init).value;
      FirstEstStep(c, s.nodes[e.p], e, v);
    }
  }

  /** Validity: if every honest input is v, every honest estimate is v and only v is decided. */
  lemma Validity(c: Config, F: Faults, es: seq<Event>, s: System, v: int)
    requires Valid(c, F) && Run(c, F, es) == Some(s)
    requires forall e :: e in es && e.Input? ==> e.v == v
    ensures s.nodes.Keys == F.honest
    ensures forall r: nat :: Unanimous(F, s, r, v)
    ensures forall q, u :: q in F.honest && u in s.nodes[q].log.decisions ==> u == v
  {
    RunHistories(c, F, es, s);
    FirstEsts(c, F, es, v);
    UnanimousInputs(c, F, s, v);
  }

  lemma UnanimousInputs(c: Config, F: Faults, s: System, v: int)
    requires Histories(c, F, s) && Unanimous(F, s, 0, v)
    ensures forall r: nat :: Unanimous(F, s, r, v)
    ensures forall q, u :: q in F.honest && u in s.nodes[q].log.decisions ==> u == v
  {
    forall r: nat ensures Unanimous(F, s, r, v) {
      UnanimousLater(c, F, s, 0, v, r);
    }
    forall q, u | q in F.honest && u in s.nodes[q].log.decisions ensures u == v {
      var n := s.nodes[q];
      assert Decided(c, n.loop, n.log);
      var k: nat :| DecidesIn(c, n.loop, n.log, k, u);
      UnanimousVals(c, F, s, k, v, q);
      assert u in {u};
    }
  }

  /** In the biased variant unanimous input 1 is decided in round 0 by every node that completes it. */
  lemma BiasedFastDecision(c: Config, F: Faults, es: seq<Event>, s: System, q: nat)
    requires Valid(c, F) && c.biased && Run(c, F, es) == Some(s)
    requires forall e :: e in es && e.Input? ==> e.v == 1
    requires q in F.honest && q in s.nodes && s.nodes[q].loop.r >= 1
    ensures s.nodes[q].log.decisions == [1] && DecidesIn(c, s.nodes[q].loop, s.nodes[q].log, 0, 1)
  {
    Validity(c, F, es, s, 1);
    RunInv(c, F, es);
    assert Shape(s.nodes[q].loop, s.nodes[q].log);
    InvHistories(c, F, s);
    FirstRound(c, F, s, q);
  }

  lemma FirstRound(c: Config, F: Faults, s: System, q: nat)
    requires Histories(c, F, s) && c.biased && Unanimous(F, s, 0, 1)
    requires q in F.honest && s.nodes[q].loop.r >= 1 && |s.nodes[q].log.vals| >= 1
    requires forall u :: u in s.nodes[q].log.decisions ==> u == 1
    ensures s.nodes[q].log.decisions == [1] && DecidesIn(c, s.nodes[q].loop, s.nodes[q].log, 0, 1)
  {
    var n := s.nodes[q];
    UnanimousVals(c, F, s, 0, 1, q);
    assert DecidesIn(c, n.loop, n.log, 0, 1);
    assert Decided(c, n.loop, n.log);
    if n.loop.alreadyDecided.Some? {
      assert n.loop.alreadyDecided.value in n.log.decisions;
    }
  }
}
