/**
 What a node of two-value agreement records, repeats and survives: its vote sets
 are what it has handled, it sends no message twice, and only a long tuple or two
 different FINISHes end its receive loop before it stops.
 */
module TwoValueRecords {
  import opened Options
  import opened Quorums
  import opened Tables
  import opened TwoValueAgreement
  import opened TwoValueSafety
  import opened TwoValueProgress

  /** A message that the handlers record: tuples have one or two entries. */
  predicate Fine(m: Message) {
    !m.Finish? && (m.Conf? ==> |m.vals| == 1 || |m.vals| == 2)
  }

  // ---------- the vote sets ----------

  /** Node p has handled message m of q while its receive loop ran. */
  ghost predicate Handled(c: Config, F: Faults, k: nat, es: seq<Event>, p: nat, q: nat, m: Message) {
    exists t: nat :: HandledAt(c, F, k, es, t, p, q, m)
  }

  ghost predicate HandledAt(c: Config, F: Faults, k: nat, es: seq<Event>, t: nat, p: nat, q: nat, m: Message) {
    && t < |es| && es[t] == Deliver(p, q, m)
    && var s := Run(c, F, k, es[..t]); s.Some? && p in s.value.nodes && s.value.nodes[p].receiving
  }

  lemma RecordStep(c: Config, n: Node, e: Event, q: nat, m: Message)
    requires q != e.p && Fine(m)
    ensures Recorded(Local(c, n, e).0, q, m) <==>
      Recorded(n, q, m) || (e.Deliver? && e.from == q && e.m == m && n.receiving && q < c.N)
  {
    match e
    case Deliver(_, from, m') => RecordReceive(c, n, from, m', q, m);
    case Wake(p, w) => RecordWake(c, p, n, w, q, m);
    case Input(_, _) =>
    case Stop(_) =>
  }

  lemma RecordReceive(c: Config, n: Node, from: nat, m': Message, q: nat, m: Message)
    requires Fine(m)
    ensures Recorded(Receive(c, n, from, m').0, q, m) <==>
      Recorded(n, q, m) || (from == q && m' == m && n.receiving && q < c.N)
  {
  }

  // Waking up a node counts its own votes only.
  lemma RecordWake(c: Config, p: nat, n: Node, w: int, q: nat, m: Message)
    requires q != p && Fine(m)
    ensures Recorded(Resume(c, p, n, w).0, q, m) <==> Recorded(n, q, m)
  {
    if n.loop.phase == WaitCoin {
      RecordCoin(c, p, n, q, m);
    } else if n.loop.phase == WaitAux {
      RecordConf(p, n, q, m);
    }
  }

  lemma RecordConf(p: nat, n: Node, q: nat, m: Message)
    requires q != p && Fine(m)
    ensures Recorded(ToConf(p, n).0, q, m) <==> Recorded(n, q, m)
  {
  }

  lemma RecordCoin(c: Config, p: nat, n: Node, q: nat, m: Message)
    requires q != p && Fine(m)
    ensures Recorded(AfterCoin(c, p, n).0, q, m) <==> Recorded(n, q, m)
  {
    if |n.loop.values| == 1 || Consecutive(n.loop.values) {
      var d, est, out0 := CoinParts(c, p, n);
      RecordEnter(c, p, d, n.loop.r + 1, est, q, m);
    }
  }

  lemma RecordEnter(c: Config, p: nat, n: Node, r: nat, est: int, q: nat, m: Message)
    requires q != p && Fine(m)
    ensures Recorded(EnterRound(c, p, n, r, est).0, q, m) <==> Recorded(n, q, m)
  {
  }

  lemma HandledMore(c: Config, F: Faults, k: nat, es: seq<Event>, s: System, e: Event, p: nat, q: nat, m: Message)
    requires Run(c, F, k, es) == Some(s)
    ensures Handled(c, F, k, es + [e], p, q, m) <==>
      Handled(c, F, k, es, p, q, m) || (e == Deliver(p, q, m) && p in s.nodes && s.nodes[p].receiving)
  {
    var es' := es + [e];
    assert es'[..|es|] == es;
    if t: nat :| HandledAt(c, F, k, es, t, p, q, m) {
      assert es'[..t] == es[..t];
      assert HandledAt(c, F, k, es', t, p, q, m);
    }
    if e == Deliver(p, q, m) && p in s.nodes && s.nodes[p].receiving {
      assert HandledAt(c, F, k, es', |es|, p, q, m);
    }
    if t: nat :| HandledAt(c, F, k, es', t, p, q, m) {
      if t < |es| {
        assert es'[..t] == es[..t];
        assert HandledAt(c, F, k, es, t, p, q, m);
      }
    }
  }

  /** In every run the votes of other nodes are exactly those that a running receive loop has handled. */
  lemma {:induction false} RecordedExactly(c: Config, F: Faults, k: nat, es: seq<Event>, p: nat, q: nat, m: Message)
    requires F.N == c.N && Run(c, F, k, es).Some? && p in Run(c, F, k, es).value.nodes && q != p && Fine(m)
    ensures Recorded(Run(c, F, k, es).value.nodes[p], q, m) <==> Handled(c, F, k, es, p, q, m)
  {
    if es == [] {
      if t: nat :| HandledAt(c, F, k, es, t, p, q, m) {
        assert false;
      }
    } else {
      var init, e := es[..|es| - 1], es[|es| - 1];
      assert es == init + [e];
      var s := Run(c, F, k, init).value;
      RecordedExactly(c, F, k, init, p, q, m);
      HandledMore(c, F, k, init, s, e, p, q, m);
      if e.p == p {
        RecordStep(c, s.nodes[p], e, q, m);
      }
    }
  }

  // ---------- the end of a receive loop ----------

  /** What ends a receive loop: a bad sender, a tuple that is too long or empty, FINISHes of two values, and stopping. */
  lemma LoopEndsExactly(c: Config, n: Node, e: Event)
    requires n.receiving
    ensures !Local(c, n, e).0.receiving <==>
      || (e.Deliver? && e.from >= c.N)
      || (e.Deliver? && e.m.Conf? && |e.m.vals| != 1 && |e.m.vals| != 2)
      || (e.Deliver? && e.m.Finish? && !(n.fin.value <= {e.m.v}))
      || (e.Stop? && n.fin.cnt >= 2 * c.f + 1)
  {
    match e
    case Deliver(_, from, m) => ReceiveEnds(c, n, from, m);
    case Wake(p, w) => WakeGoesOn(c, p, n, w);
    case Input(_, _) =>
    case Stop(_) =>
  }

  lemma ReceiveEnds(c: Config, n: Node, from: nat, m: Message)
    requires n.receiving
    ensures !Receive(c, n, from, m).0.receiving <==>
      from >= c.N || (m.Conf? && |m.vals| != 1 && |m.vals| != 2) || (m.Finish? && !(n.fin.value <= {m.v}))
  {
    if m.Finish? {
      assert n.fin.value + {m.v} == {m.v} <==> n.fin.value <= {m.v};
    }
  }

  lemma WakeGoesOn(c: Config, p: nat, n: Node, w: int)
    ensures Resume(c, p, n, w).0.receiving == n.receiving
  {
    if n.loop.phase == WaitCoin {
      CoinGoesOn(c, p, n);
    }
  }

  lemma CoinGoesOn(c: Config, p: nat, n: Node)
    ensures AfterCoin(c, p, n).0.receiving == n.receiving
  {
  }

  // ---------- the assertions of main_loop ----------

  /**
   What fails an assertion: int_values that are neither one nor two at the AUX wait,
   and two values that are not consecutive at the end of a round.
   */
  lemma FailsExactly(c: Config, n: Node, e: Event)
    requires n.loop.phase != Failed
    ensures Local(c, n, e).0.loop.phase == Failed <==>
      || (e.Wake? && n.loop.phase == WaitAux && |At(n.inbox.ints, n.loop.r)| != 1 && |At(n.inbox.ints, n.loop.r)| != 2)
      || (e.Wake? && n.loop.phase == WaitCoin && |n.loop.values| != 1 && !exists x :: x in n.loop.values && n.loop.values == {x, x + 1})
  {
    match e
    case Wake(p, w) => WakeFails(c, p, n, w);
    case Deliver(_, from, m) =>
    case Input(_, _) =>
    case Stop(_) =>
  }

  lemma WakeFails(c: Config, p: nat, n: Node, w: int)
    requires n.loop.phase != Failed
    ensures Resume(c, p, n, w).0.loop.phase == Failed <==>
      || (n.loop.phase == WaitAux && |At(n.inbox.ints, n.loop.r)| != 1 && |At(n.inbox.ints, n.loop.r)| != 2)
      || (n.loop.phase == WaitCoin && |n.loop.values| != 1 && !Consecutive(n.loop.values))
  {
    if n.loop.phase == WaitCoin {
      CoinFails(c, p, n);
    }
  }

  lemma CoinFails(c: Config, p: nat, n: Node)
    ensures AfterCoin(c, p, n).0.loop.phase == Failed <==> |n.loop.values| != 1 && !Consecutive(n.loop.values)
  {
  }

  // ---------- no message twice ----------

  // The AUX of round r has been sent.
  predicate AuxMade(n: Node, r: nat) {
    r < |n.log.confs| || n.loop.phase in {Failed, Done} || (r == n.loop.r && n.loop.phase == WaitAux)
  }

  // The messages of node p are marked in its state.
  ghost predicate Marked(sent: set<(nat, Message)>, p: nat, n: Node) {
    && (forall r: nat, v :: (p, Est(r, v)) in sent ==> (r, v) in n.estSent)
    && (forall r: nat, w :: (p, Aux(r, w)) in sent ==> AuxMade(n, r))
    && (forall r: nat, b :: (p, Conf(r, b)) in sent ==> r < |n.log.confs|)
    && (forall v :: (p, Finish(v)) in sent ==> n.fin.sent)
  }

  ghost predicate Regular(n: Node) {
    Shape(n.inbox, n.loop, n.log) && forall x :: x in n.loop.confSent ==> x.0 < |n.log.confs|
  }

  ghost predicate Fresh(sent: set<(nat, Message)>, p: nat, n': Node, out: seq<Message>) {
    (forall m :: m in out ==> (p, m) !in sent) && Marked(sent + Sending(p, out), p, n')
  }

  lemma MarkedLocal(c: Config, sent: set<(nat, Message)>, n: Node, e: Event)
    requires Regular(n) && Marked(sent, e.p, n)
    ensures var (n', out) := Local(c, n, e); Fresh(sent, e.p, n', out)
  {
    match e
    case Input(p, v) => MarkedStart(c, sent, p, n, v);
    case Deliver(p, from, m) => MarkedReceive(c, sent, p, n, from, m);
    case Wake(p, w) =>
      if n.loop.phase == WaitCoin {
        MarkedCoin(c, sent, p, n);
      } else if n.loop.phase == WaitAux {
        MarkedAux(c, sent, p, n, w);
      } else {
        MarkedWait(c, sent, p, n, w);
      }
    case Stop(_) =>
  }

  lemma MarkedStart(c: Config, sent: set<(nat, Message)>, p: nat, n: Node, v: int)
    requires Marked(sent, p, n) && Regular(n)
    ensures var (n', out) := Start(c, p, n, v); Fresh(sent, p, n', out)
  {
  }

  lemma MarkedReceive(c: Config, sent: set<(nat, Message)>, p: nat, n: Node, from: nat, m: Message)
    requires Marked(sent, p, n)
    ensures var (n', out) := Receive(c, n, from, m); Fresh(sent, p, n', out)
  {
    if n.receiving && from < c.N {
      match m
      case Est(r, v) => MarkedEst(c, sent, p, n, from, r, v);
      case Finish(v) => MarkedFinish(c, sent, p, n, from, v);
      case _ => MarkedQuiet(sent, p, n, Receive(c, n, from, m).0);
    } else {
      MarkedQuiet(sent, p, n, Receive(c, n, from, m).0);
    }
  }

  lemma MarkedEst(c: Config, sent: set<(nat, Message)>, p: nat, n: Node, from: nat, r: nat, v: int)
    requires Marked(sent, p, n)
    ensures var (n', out) := OnEst(c, n, from, r, v); Fresh(sent, p, n', out)
  {
    var (n', out) := OnEst(c, n, from, r, v);
    EstOut(c, n, from, r, v);
    if out == [] {
      MarkedQuiet(sent, p, n, n');
    } else {
      MarkedRelay(sent, p, n, n', r, v);
    }
  }

  lemma EstOut(c: Config, n: Node, from: nat, r: nat, v: int)
    ensures var (n', out) := OnEst(c, n, from, r, v);
      && n'.log == n.log && n'.loop == n.loop && n'.fin == n.fin
      && if out == [] then n'.estSent == n.estSent
         else out == [Est(r, v)] && (r, v) !in n.estSent && n'.estSent == n.estSent + {(r, v)}
  {
  }

  lemma MarkedRelay(sent: set<(nat, Message)>, p: nat, n: Node, n': Node, r: nat, v: int)
    requires Marked(sent, p, n) && n'.log == n.log && n'.loop == n.loop && n'.fin == n.fin
    requires (r, v) !in n.estSent && n'.estSent == n.estSent + {(r, v)}
    ensures Fresh(sent, p, n', [Est(r, v)])
  {
    assert Sending(p, [Est(r, v)]) == {(p, Est(r, v))};
  }

  lemma MarkedFinish(c: Config, sent: set<(nat, Message)>, p: nat, n: Node, from: nat, v: int)
    requires Marked(sent, p, n)
    ensures var (n', out) := OnFinish(c, n, from, v); Fresh(sent, p, n', out)
  {
  }

  // A step that sends nothing.
  lemma MarkedQuiet(sent: set<(nat, Message)>, p: nat, n: Node, n': Node)
    requires Marked(sent, p, n) && n'.estSent == n.estSent && n'.log == n.log && n'.loop == n.loop && n'.fin.sent == n.fin.sent
    ensures Fresh(sent, p, n', [])
  {
    assert sent + Sending(p, []) == sent;
  }

  lemma MarkedAux(c: Config, sent: set<(nat, Message)>, p: nat, n: Node, w: int)
    requires Regular(n) && Marked(sent, p, n) && n.loop.phase == WaitAux
    ensures var (n', out) := Resume(c, p, n, w); Fresh(sent, p, n', out)
  {
  }

  lemma MarkedWait(c: Config, sent: set<(nat, Message)>, p: nat, n: Node, w: int)
    requires Regular(n) && Marked(sent, p, n) && n.loop.phase != WaitCoin && n.loop.phase != WaitAux
    ensures var (n', out) := Resume(c, p, n, w); Fresh(sent, p, n', out)
  {
  }

  lemma MarkedCoin(c: Config, sent: set<(nat, Message)>, p: nat, n: Node)
    requires Regular(n) && Marked(sent, p, n) && n.loop.phase == WaitCoin
    ensures var (n', out) := AfterCoin(c, p, n); Fresh(sent, p, n', out)
  {
    if |n.loop.values| == 1 || Consecutive(n.loop.values) {
      var d, est, out0 := CoinParts(c, p, n);
      MarkedEnter(c, sent, p, n, d, est, out0);
    }
  }

  lemma MarkedEnter(c: Config, sent: set<(nat, Message)>, p: nat, n: Node, d: Node, est: int, out0: seq<Message>)
    requires Regular(n) && Marked(sent, p, n) && n.loop.phase == WaitCoin
    requires (d, out0) == (n, []) || (!n.fin.sent && (d, out0) == Decide(n, est))
    ensures var (n', out) := EnterRound(c, p, d, n.loop.r + 1, est); Fresh(sent, p, n', out0 + out)
  {
  }

  lemma NodeRegular(c: Config, F: Faults, s: System, p: nat)
    requires Inv(c, F, s) && p in F.honest
    ensures Regular(s.nodes[p])
  {
    assert NodeInv(c, F, s.sent, s.nodes[p]);
  }

  lemma {:induction false} RunMarked(c: Config, F: Faults, k: nat, es: seq<Event>, p: nat)
    requires Valid(c, F) && Run(c, F, k, es).Some? && p in F.honest
    ensures p in Run(c, F, k, es).value.nodes && Marked(Run(c, F, k, es).value.sent, p, Run(c, F, k, es).value.nodes[p])
  {
    if es != [] {
      var init, e := es[..|es| - 1], es[|es| - 1];
      var s := Run(c, F, k, init).value;
      RunMarked(c, F, k, init, p);
      RunInv(c, F, k, init);
      NodeRegular(c, F, s, e.p);
      MarkedStep(c, F, k, s, e, p);
    }
  }

  lemma MarkedStep(c: Config, F: Faults, k: nat, s: System, e: Event, p: nat)
    requires Enabled(c, F, k, s, e) && p in s.nodes && Regular(s.nodes[e.p]) && Marked(s.sent, p, s.nodes[p])
    ensures Marked(Apply(c, s, e).sent, p, Apply(c, s, e).nodes[p])
  {
    if e.p == p {
      MarkedLocal(c, s.sent, s.nodes[p], e);
      assert s.sent + Sending(p, Local(c, s.nodes[p], e).1) == Apply(c, s, e).sent;
    }
  }

  /** No repeats: in every run no step sends a message that its node has sent before. */
  lemma NoRepeats(c: Config, F: Faults, k: nat, es: seq<Event>, s: System, e: Event, m: Message)
    requires Valid(c, F) && Run(c, F, k, es) == Some(s) && Enabled(c, F, k, s, e)
    ensures m in Local(c, s.nodes[e.p], e).1 ==> (e.p, m) !in s.sent
  {
    RunMarked(c, F, k, es, e.p);
    RunInv(c, F, k, es);
    NodeRegular(c, F, s, e.p);
    MarkedLocal(c, s.sent, s.nodes[e.p], e);
  }
}
