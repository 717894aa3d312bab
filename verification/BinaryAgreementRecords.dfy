/**
 What a node of binary agreement records, repeats and survives: its vote sets are
 what it has handled, it sends no message twice, and a message of an honest node
 that arrives once never ends its receive loop.
 */
module BinaryAgreementRecords {
  import opened Quorums
  import opened Options
  import opened Tables
  import opened BinaryAgreement
  import opened BinaryAgreementSafety
  import opened BinaryAgreementProgress

  /** A message that the handlers accept: bits, and tuples of bits. */
  predicate Fine(m: Message) {
    match m
    case Est(_, v) => Bit(v)
    case Aux(_, v) => Bit(v)
    case Conf(_, b) => IsConf(b)
  }

  // ---------- the vote sets ----------

  /** Node p has handled message m of q while its receive loop ran. */
  ghost predicate Handled(c: Config, F: Faults, es: seq<Event>, p: nat, q: nat, m: Message) {
    exists t: nat :: HandledAt(c, F, es, t, p, q, m)
  }

  ghost predicate HandledAt(c: Config, F: Faults, es: seq<Event>, t: nat, p: nat, q: nat, m: Message) {
    && t < |es| && es[t] == Deliver(p, q, m)
    && var s := Run(c, F, es[..t]); s.Some? && p in s.value.nodes && s.value.nodes[p].receiving
  }

  lemma RecordStep(c: Config, n: Node, e: Event, q: nat, m: Message)
    ensures Recorded(Local(c, n, e).0, q, m) <==>
      Recorded(n, q, m) || (e.Deliver? && e.from == q && e.m == m && n.receiving && q < c.N && Fine(m))
  {
    if e.Deliver? && n.receiving && e.from < c.N {
      match e.m
      case Est(r, v) => EstRecords(c, n, e.from, r, v, q, m);
      case Aux(r, v) =>
      case Conf(r, b) =>
    }
  }

  lemma EstRecords(c: Config, n: Node, from: nat, r: nat, v: int, q: nat, m: Message)
    ensures Recorded(OnEst(c, n, from, r, v).0, q, m) <==> Recorded(n, q, m) || (from == q && m == Est(r, v) && Bit(v))
  {
  }

  lemma HandledMore(c: Config, F: Faults, es: seq<Event>, s: System, e: Event, p: nat, q: nat, m: Message)
    requires Run(c, F, es) == Some(s)
    ensures Handled(c, F, es + [e], p, q, m) <==>
      Handled(c, F, es, p, q, m) || (e == Deliver(p, q, m) && p in s.nodes && s.nodes[p].receiving)
  {
    var es' := es + [e];
    assert es'[..|es|] == es;
    if t: nat :| HandledAt(c, F, es, t, p, q, m) {
      assert es'[..t] == es[..t];
      assert HandledAt(c, F, es', t, p, q, m);
    }
    if e == Deliver(p, q, m) && p in s.nodes && s.nodes[p].receiving {
      assert HandledAt(c, F, es', |es|, p, q, m);
    }
    if t: nat :| HandledAt(c, F, es', t, p, q, m) {
      if t < |es| {
        assert es'[..t] == es[..t];
        assert HandledAt(c, F, es, t, p, q, m);
      }
    }
  }

  /**
   In every run the vote sets are exactly what was handled: q is recorded for a
   message of bits if and only if the message was handled by a running receive loop.
   */
  lemma {:induction false} RecordedExactly(c: Config, F: Faults, es: seq<Event>, p: nat, q: nat, m: Message)
    requires F.N == c.N && Run(c, F, es).Some? && p in Run(c, F, es).value.nodes
    ensures Recorded(Run(c, F, es).value.nodes[p], q, m) <==> Handled(c, F, es, p, q, m) && Fine(m)
  {
    if es == [] {
      if t: nat :| HandledAt(c, F, es, t, p, q, m) {
        assert false;
      }
    } else {
      var init, e := es[..|es| - 1], es[|es| - 1];
      assert es == init + [e];
      var s := Run(c, F, init).value;
      RecordedExactly(c, F, init, p, q, m);
      HandledMore(c, F, init, s, e, p, q, m);
      if e.p == p {
        RecordStep(c, s.nodes[p], e, q, m);
      }
    }
  }

  // ---------- the end of a receive loop ----------

  /** What ends a receive loop: a bad sender or value, a second CONF or (in the plain code) AUX, and quitting. */
  lemma LoopEndsExactly(c: Config, n: Node, e: Event)
    requires n.receiving && n.loop.phase != Quit
    ensures !Local(c, n, e).0.receiving <==>
      || (e.Deliver? && (e.from >= c.N || !Fine(e.m)))
      || (e.Deliver? && Recorded(n, e.from, e.m) && (e.m.Conf? || (e.m.Aux? && !c.biased)))
      || Local(c, n, e).0.loop.phase == Quit
  {
    match e
    case Input(_, v) =>
    case Wake(_, w) => WakeEnds(c, n, w);
    case Deliver(_, from, m) =>
  }

  lemma WakeEnds(c: Config, n: Node, w: int)
    requires n.receiving && n.loop.phase != Quit
    ensures !Resume(c, n, w).0.receiving <==> Resume(c, n, w).0.loop.phase == Quit
  {
    if n.loop.phase == WaitCoin {
      CoinEnds(c, n);
    }
  }

  lemma CoinEnds(c: Config, n: Node)
    requires n.receiving
    ensures !AfterCoin(c, n).0.receiving <==> AfterCoin(c, n).0.loop.phase == Quit
  {
  }

  // What an honest node sends is fine.
  lemma HonestFine(c: Config, F: Faults, es: seq<Event>, s: System, q: nat, m: Message)
    requires Valid(c, F) && Run(c, F, es) == Some(s) && (q, m) in s.sent
    ensures q in F.honest && Fine(m)
  {
    RunInv(c, F, es);
    RunLive(c, F, es);
    assert SentOk(F, s, s.nodes[q], m);
    FineSent(c, F, s, q, m);
  }

  lemma FineSent(c: Config, F: Faults, s: System, q: nat, m: Message)
    requires Inv(c, F, s) && q in F.honest && SentOk(F, s, s.nodes[q], m) && NodeLive(c, s.sent, q, s.nodes[q])
    ensures Fine(m)
  {
    var n := s.nodes[q];
    assert NodeInv(c, F, s.sent, n);
    match m
    case Est(r, v) =>
      if !HasEst(n, r, v) {
        var h :| h in F.honest && h in s.nodes && HasEst(s.nodes[h], r, v);
        assert NodeInv(c, F, s.sent, s.nodes[h]);
      }
    case Aux(r, v) => assert BinOk(c, n.inbox, r, v);
    case Conf(r, b) => assert ConfFrom(n.log.confs[r], At(n.inbox.bin, r));
  }

  /**
   A message of an honest node that a node has not handled before is recorded by its
   running receive loop, which goes on.
   */
  lemma HonestOnce(c: Config, F: Faults, es: seq<Event>, s: System, p: nat, q: nat, m: Message)
    requires Valid(c, F) && Run(c, F, es) == Some(s) && p in F.honest && p in s.nodes && s.nodes[p].receiving
    requires q in F.honest && (q, m) in s.sent && Deliver(p, q, m) !in es
    ensures Receive(c, s.nodes[p], q, m).0.receiving && Recorded(Receive(c, s.nodes[p], q, m).0, q, m)
  {
    HonestFine(c, F, es, s, q, m);
    RecordedExactly(c, F, es, p, q, m);
    RecordStep(c, s.nodes[p], Deliver(p, q, m), q, m);
    assert q < c.N by {
      assert q in FiniteSets.Below(F.N);
    }
    FreshGoesOn(c, s.nodes[p], q, m);
  }

  lemma FreshGoesOn(c: Config, n: Node, q: nat, m: Message)
    requires n.receiving && q < c.N && Fine(m) && !Recorded(n, q, m)
    ensures Receive(c, n, q, m).0.receiving
  {
  }

  // ---------- no message twice ----------

  // The messages of node p are marked in its state.
  ghost predicate Marked(sent: set<(nat, Message)>, p: nat, n: Node) {
    && (forall r: nat, v :: (p, Est(r, v)) in sent ==> (r, v) in n.estSent)
    && (forall r: nat, w :: (p, Aux(r, w)) in sent ==> PastBin(n, r))
    && (forall r: nat, b :: (p, Conf(r, b)) in sent ==> r < |n.log.confs|)
  }

  // How far the CONFs of a node reach.
  ghost predicate Regular(n: Node) {
    Shape(n.loop, n.log) && forall x :: x in n.loop.confSent ==> x.0 < |n.log.confs|
  }

  lemma MarkedLocal(c: Config, sent: set<(nat, Message)>, n: Node, e: Event)
    requires Regular(n) && Marked(sent, e.p, n)
    ensures var (n', out) := Local(c, n, e);
      && |out| <= 1 && (forall m :: m in out ==> (e.p, m) !in sent)
      && Marked(sent + Sending(e.p, out), e.p, n')
  {
    match e
    case Input(_, v) =>
    case Deliver(_, from, m) => MarkedReceive(c, sent, e.p, n, from, m);
    case Wake(_, w) =>
      if n.loop.phase == WaitCoin {
        MarkedCoin(c, sent, e.p, n);
      } else {
        MarkedWait(c, sent, e.p, n, w);
      }
  }

  lemma MarkedReceive(c: Config, sent: set<(nat, Message)>, p: nat, n: Node, from: nat, m: Message)
    requires Marked(sent, p, n)
    ensures var (n', out) := Receive(c, n, from, m);
      && |out| <= 1 && (forall x :: x in out ==> (p, x) !in sent) && Marked(sent + Sending(p, out), p, n')
  {
  }

  lemma MarkedWait(c: Config, sent: set<(nat, Message)>, p: nat, n: Node, w: int)
    requires Regular(n) && Marked(sent, p, n) && n.loop.phase != WaitCoin
    ensures var (n', out) := Resume(c, n, w);
      && |out| <= 1 && (forall m :: m in out ==> (p, m) !in sent) && Marked(sent + Sending(p, out), p, n')
  {
  }

  lemma MarkedCoin(c: Config, sent: set<(nat, Message)>, p: nat, n: Node)
    requires Regular(n) && Marked(sent, p, n) && n.loop.phase == WaitCoin
    ensures var (n', out) := AfterCoin(c, n);
      && |out| <= 1 && (forall m :: m in out ==> (p, m) !in sent) && Marked(sent + Sending(p, out), p, n')
  {
  }

  lemma NodeRegular(c: Config, F: Faults, s: System, p: nat)
    requires Inv(c, F, s) && p in F.honest
    ensures Regular(s.nodes[p])
  {
    assert NodeInv(c, F, s.sent, s.nodes[p]);
  }

  lemma {:induction false} RunMarked(c: Config, F: Faults, es: seq<Event>, p: nat)
    requires Valid(c, F) && Run(c, F, es).Some? && p in F.honest
    ensures p in Run(c, F, es).value.nodes && Marked(Run(c, F, es).value.sent, p, Run(c, F, es).value.nodes[p])
  {
    if es != [] {
      var init, e := es[..|es| - 1], es[|es| - 1];
      var s := Run(c, F, init).value;
      RunMarked(c, F, init, p);
      RunInv(c, F, init);
      NodeRegular(c, F, s, e.p);
      if e.p == p {
        MarkedLocal(c, s.sent, s.nodes[p], e);
        assert s.sent + Sending(p, Local(c, s.nodes[p], e).1) == Apply(c, s, e).sent;
      }
    }
  }

  /** No repeats: in every run a step sends at most one message, and none that its node has sent before. */
  lemma NoRepeats(c: Config, F: Faults, es: seq<Event>, s: System, e: Event, m: Message)
    requires Valid(c, F) && Run(c, F, es) == Some(s) && Enabled(c, F, s, e)
    ensures |Local(c, s.nodes[e.p], e).1| <= 1
    ensures m in Local(c, s.nodes[e.p], e).1 ==> (e.p, m) !in s.sent
  {
    RunMarked(c, F, es, e.p);
    RunInv(c, F, es);
    NodeRegular(c, F, s, e.p);
    MarkedLocal(c, s.sent, s.nodes[e.p], e);
  }

  // ---------- the input ----------

  /** What input() of node p returns: the value of its first Input. */
  function FirstInput(es: seq<Event>, p: nat): Option<int> {
    if es == [] then None
    else
      match FirstInput(es[..|es| - 1], p)
      case Some(v) => Some(v)
      case None =>
        var e := es[|es| - 1];
        if e.Input? && e.p == p then Some(e.v) else None
  }

  ghost predicate InputOk(n: Node, input: Option<int>) {
    match input
    case None => n.loop.phase == NoInput && n.log.ests == []
    case Some(v) => if Bit(v) then n.loop.phase !in {NoInput, Failed} && n.log.ests != [] && n.log.ests[0] == v
                    else n.loop.phase == Failed && n.log.ests == []
  }

  lemma InputStep(c: Config, n: Node, e: Event, input: Option<int>)
    requires InputOk(n, input)
    ensures InputOk(Local(c, n, e).0, if input.None? && e.Input? then Some(e.v) else input)
  {
  }

  /**
   A node starts with its first input, which is its estimate of round 0, if that is
   a bit; otherwise its assertion fails and it does nothing.
   */
  lemma {:induction false} InputExactly(c: Config, F: Faults, es: seq<Event>, p: nat)
    requires Run(c, F, es).Some? && p in F.honest
    ensures p in Run(c, F, es).value.nodes && InputOk(Run(c, F, es).value.nodes[p], FirstInput(es, p))
  {
    if es != [] {
      var init, e := es[..|es| - 1], es[|es| - 1];
      InputExactly(c, F, init, p);
      if e.p == p {
        InputStep(c, Run(c, F, init).value.nodes[p], e, FirstInput(init, p));
      }
    }
  }
}
