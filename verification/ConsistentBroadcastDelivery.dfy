/**
 Consistent broadcast under an honest leader: when every message between honest
 nodes has been handled, every honest node has returned the leader's input with
 a certificate, if and only if there is more than one node.
 */
module ConsistentBroadcastDelivery {
  import opened FiniteSets
  import opened Quorums
  import opened Options
  import opened ByteStrings
  import opened Signatures
  import opened ConsistentBroadcast
  import opened ConsistentBroadcastSafety

  // ---------- the leader's shares ----------

  // The shares that a leader with input m has collected: different signers, one digest.
  ghost predicate SharesOk(c: Config, shares: Certificate, m: Bytes) {
    && |SignersOf(shares)| == |shares| && SignersOf(shares) <= Below(c.N)
    && forall i :: 0 <= i < |shares| ==> shares[i].0 < c.N && shares[i].1 == Signature(shares[i].0, c.digest(m))
  }

  lemma ShareAdded(c: Config, shares: Certificate, m: Bytes, j: nat)
    requires SharesOk(c, shares, m) && j < c.N
    ensures var shares' := AddShare(shares, j, Signature(j, c.digest(m)));
      SharesOk(c, shares', m) && SignersOf(shares') == SignersOf(shares) + {j}
  {
    SignersMore(shares, j, Signature(j, c.digest(m)));
  }

  // The first N - f shares are an accepted certificate.
  lemma FirstShares(c: Config, shares: Certificate, m: Bytes)
    requires SharesOk(c, shares, m) && |shares| >= c.N - c.f >= 0
    ensures CbcValidate(c, m, shares[..c.N - c.f])
  {
    Distinct(shares);
    PrefixSize(shares, c.N - c.f);
  }

  // A prefix of a list without repetitions has none.
  lemma {:induction false} PrefixSize(s: Certificate, k: nat)
    requires |SetOf(s)| == |s| && k <= |s|
    ensures |SetOf(s[..k])| == k
  {
    assert s == s[..k] + s[k..];
    assert SetOf(s) == SetOf(s[..k]) + SetOf(s[k..]);
    ItemsFewer(s[..k]);
    ItemsFewer(s[k..]);
  }

  // ---------- the invariant, for an honest leader with input m ----------

  ghost predicate LeaderOk(c: Config, n: Node, m: Bytes) {
    && n.m == Some(m) && n.digestFromLeader == Some(c.digest(m))
    && SharesOk(c, n.shares, m) && c.leader in SignersOf(n.shares)
    && (c.N - c.f >= 2 ==> (n.finalSent <==> |n.shares| >= c.N - c.f))
  }

  // The leader sends its input, one certificate for it, and no CBC_ECHO.
  ghost predicate LeaderSent(c: Config, sent: set<(nat, Message)>, finalSent: bool, m: Bytes) {
    && (forall sig :: (c.leader, Echo(sig)) !in sent)
    && (forall v, cert :: (c.leader, Final(v, cert)) in sent ==> finalSent && v == m && CbcValidate(c, v, cert))
    && (finalSent ==> exists cert :: (c.leader, Final(m, cert)) in sent)
  }

  // An honest node has echoed what it has signed, and returns the input only.
  ghost predicate FollowerOk(c: Config, s: System, p: nat, m: Bytes)
    requires p in s.nodes && c.leader in s.nodes
  {
    var n := s.nodes[p];
    && (p != c.leader && n.digestFromLeader.Some? ==> (p, Echo(Signature(p, n.digestFromLeader.value))) in s.sent)
    && (n.output.Some? ==> n.output.value.0 == m && CbcValidate(c, m, n.output.value.1) && s.nodes[c.leader].finalSent)
  }

  // What handling message msg of the honest node q has done at p.
  ghost predicate TookIt(c: Config, n: Node, p: nat, q: nat, msg: Message) {
    n.output.None? ==>
      match msg
      case Send(_) => q == c.leader ==> n.digestFromLeader.Some?
      case Echo(_) => p == c.leader ==> q in SignersOf(n.shares)
      case Final(_, _) => q != c.leader
  }

  ghost predicate Progress(c: Config, F: Faults, es: seq<Event>, s: System, m: Bytes)
    requires s.nodes.Keys == F.honest && c.leader in F.honest
  {
    && LeaderOk(c, s.nodes[c.leader], m)
    && LeaderSent(c, s.sent, s.nodes[c.leader].finalSent, m)
    && (forall p :: p in F.honest ==> FollowerOk(c, s, p, m))
    && (forall p, q, msg :: p in F.honest && q in F.honest && Deliver(p, q, msg) in es ==> TookIt(c, s.nodes[p], p, q, msg))
  }

  // Before the input nothing has been sent.
  ghost predicate Idle(c: Config, F: Faults, s: System)
    requires s.nodes.Keys == F.honest && c.leader in F.honest
  {
    && s.nodes[c.leader] == ConsistentBroadcast.Init()
    && (forall q, msg :: (q, msg) !in s.sent)
    && (forall p :: p in F.honest ==> s.nodes[p].digestFromLeader.None? && s.nodes[p].output.None?)
  }

  // ---------- one step ----------

  lemma LeaderEcho(c: Config, n: Node, m: Bytes, j: nat, sig: Signature)
    requires LeaderOk(c, n, m) && j < c.N
    ensures var (n', out) := OnEcho(c, c.leader, n, j, sig);
      && LeaderOk(c, n', m) && SignersOf(n.shares) <= SignersOf(n'.shares)
      && (sig == Signature(j, c.digest(m)) ==> j in SignersOf(n'.shares))
      && if n'.finalSent == n.finalSent then out == [] else !n.finalSent && exists cert :: out == [Final(m, cert)] && CbcValidate(c, m, cert)
  {
    if sig == Signature(j, c.digest(m)) {
      ShareAdded(c, n.shares, m, j);
      var shares := AddShare(n.shares, j, sig);
      if |shares| >= c.N - c.f >= 0 && !n.finalSent {
        FirstShares(c, shares, m);
        assert OnEcho(c, c.leader, n, j, sig).1 == [Final(m, shares[..c.N - c.f])];
      }
    }
  }

  // What an event does not undo at node p.
  ghost predicate Keeps(c: Config, p: nat, n: Node, n': Node) {
    && (n.digestFromLeader.Some? ==> n'.digestFromLeader == n.digestFromLeader)
    && (n.output.Some? ==> n' == n)
    && (p == c.leader ==> SignersOf(n.shares) <= SignersOf(n'.shares) && (n.finalSent ==> n'.finalSent))
  }

  // What the step of one node must establish.
  ghost predicate StepOk(c: Config, finalSent: bool, e: Event, n: Node, n': Node, out: seq<Message>, m: Bytes) {
    && Keeps(c, e.p, n, n')
    && (e.p == c.leader ==> LeaderOk(c, n', m) && LeaderOut(c, n, n', out, m))
    && (n'.digestFromLeader.Some? && e.p != c.leader ==>
          n.digestFromLeader.Some? || Echo(Signature(e.p, n'.digestFromLeader.value)) in out)
    && (n'.output.Some? ==> n'.output == n.output || (finalSent && n'.output.value.0 == m && CbcValidate(c, m, n'.output.value.1)))
  }

  ghost predicate LeaderOut(c: Config, n: Node, n': Node, out: seq<Message>, m: Bytes) {
    && (forall sig :: Echo(sig) !in out)
    && (forall v, cert :: Final(v, cert) in out ==> n'.finalSent && v == m && CbcValidate(c, v, cert))
    && (n'.finalSent ==> n.finalSent || exists cert :: Final(m, cert) in out)
  }

  // The state of the system, as far as one step needs it.
  ghost predicate Ready(c: Config, F: Faults, s: System, e: Event, m: Bytes) {
    && Enabled(c, F, s, e) && F.N == c.N && s.nodes.Keys == F.honest && c.leader in F.honest
    && LeaderOk(c, s.nodes[c.leader], m) && LeaderSent(c, s.sent, s.nodes[c.leader].finalSent, m)
  }

  lemma LeaderLocal(c: Config, F: Faults, s: System, e: Event, m: Bytes)
    requires Ready(c, F, s, e, m) && e.p == c.leader
    ensures var (n', out) := Local(c, s.nodes[e.p], e);
      StepOk(c, s.nodes[c.leader].finalSent, e, s.nodes[e.p], n', out, m)
  {
    var n := s.nodes[c.leader];
    if e.Deliver? && n.output.None? {
      match e.msg
      case Send(_) =>
      case Echo(sig) => LeaderEcho(c, n, m, e.from, sig);
      case Final(v, cert) => LeaderFinal(c, n, m, e.from, v, cert, s.sent);
    }
  }

  // The leader returns on its own CBC_FINAL.
  lemma LeaderFinal(c: Config, n: Node, m: Bytes, from: nat, v: Bytes, cert: Certificate, sent: set<(nat, Message)>)
    requires LeaderOk(c, n, m) && LeaderSent(c, sent, n.finalSent, m) && (from == c.leader ==> (from, Final(v, cert)) in sent)
    ensures var n' := OnFinal(c, n, from, v, cert);
      && LeaderOk(c, n', m) && n'.shares == n.shares && n'.finalSent == n.finalSent
      && (n'.output != n.output ==> n.finalSent && n'.output == Some((m, cert)) && CbcValidate(c, m, cert))
  {
  }

  lemma FollowerLocal(c: Config, F: Faults, s: System, e: Event, m: Bytes)
    requires Ready(c, F, s, e, m) && e.p != c.leader
    ensures var (n', out) := Local(c, s.nodes[e.p], e);
      StepOk(c, s.nodes[c.leader].finalSent, e, s.nodes[e.p], n', out, m)
  {
  }

  // A message of an honest node takes effect when it is handled.
  lemma JustTaken(c: Config, F: Faults, s: System, e: Event, m: Bytes)
    requires Ready(c, F, s, e, m) && ConsistentBroadcastSafety.Inv(c, F, s) && e.Deliver? && e.from in F.honest
    ensures TookIt(c, Local(c, s.nodes[e.p], e).0, e.p, e.from, e.msg)
  {
    var n := s.nodes[e.p];
    if e.msg.Echo? && e.p == c.leader && n.output.None? {
      assert EchoOk(s.nodes[e.from], e.from, e.msg);
      LeaderEcho(c, n, m, e.from, e.msg.sig);
    }
  }

  lemma TakenKept(c: Config, n: Node, n': Node, p: nat, q: nat, msg: Message)
    requires TookIt(c, n, p, q, msg) && Keeps(c, p, n, n')
    ensures TookIt(c, n', p, q, msg)
  {
  }

  // ---------- the whole system ----------

  lemma SentStep(c: Config, s: System, p: nat, n': Node, out: seq<Message>, s': System, m: Bytes)
    requires c.leader in s.nodes && p in s.nodes && LeaderSent(c, s.sent, s.nodes[c.leader].finalSent, m)
    requires s' == System(s.nodes[p := n'], s.sent + set x | x in out :: (p, x))
    requires p == c.leader ==> LeaderOut(c, s.nodes[p], n', out, m) && (s.nodes[p].finalSent ==> n'.finalSent)
    ensures LeaderSent(c, s'.sent, s'.nodes[c.leader].finalSent, m)
  {
    if s.nodes[c.leader].finalSent {
      var cert :| (c.leader, Final(m, cert)) in s.sent;
      assert (c.leader, Final(m, cert)) in s'.sent;
    } else if s'.nodes[c.leader].finalSent {
      var cert :| Final(m, cert) in out;
      assert (c.leader, Final(m, cert)) in s'.sent;
    }
  }

  lemma FollowersStep(c: Config, s: System, e: Event, n': Node, out: seq<Message>, s': System, m: Bytes, p: nat)
    requires c.leader in s.nodes && e.p in s.nodes && p in s.nodes && FollowerOk(c, s, p, m)
    requires s' == System(s.nodes[e.p := n'], s.sent + set x | x in out :: (e.p, x))
    requires StepOk(c, s.nodes[c.leader].finalSent, e, s.nodes[e.p], n', out, m)
    ensures FollowerOk(c, s', p, m)
  {
  }

  lemma ProgressStep(c: Config, F: Faults, es: seq<Event>, s: System, e: Event, m: Bytes)
    requires Valid(c, F) && ConsistentBroadcastSafety.Inv(c, F, s) && Enabled(c, F, s, e)
    requires c.leader in F.honest && Progress(c, F, es, s, m)
    ensures Progress(c, F, es + [e], Apply(c, s, e), m)
  {
    var s' := Apply(c, s, e);
    var (n', out) := Local(c, s.nodes[e.p], e);
    if e.p == c.leader {
      LeaderLocal(c, F, s, e, m);
    } else {
      FollowerLocal(c, F, s, e, m);
    }
    SentStep(c, s, e.p, n', out, s', m);
    forall p | p in F.honest ensures FollowerOk(c, s', p, m) {
      FollowersStep(c, s, e, n', out, s', m, p);
    }
    forall p, q, msg | p in F.honest && q in F.honest && Deliver(p, q, msg) in es + [e]
      ensures TookIt(c, s'.nodes[p], p, q, msg)
    {
      if Deliver(p, q, msg) in es {
        if p == e.p {
          TakenKept(c, s.nodes[p], n', p, q, msg);
        }
      } else {
        JustTaken(c, F, s, e, m);
      }
    }
  }

  // The leader's input, out of an idle system.
  lemma BeginStep(c: Config, F: Faults, es: seq<Event>, s: System, m: Bytes)
    requires Valid(c, F) && s.nodes.Keys == F.honest && c.leader in F.honest && Idle(c, F, s)
    requires forall p, q, msg :: q in F.honest ==> Deliver(p, q, msg) !in es
    ensures Progress(c, F, es + [Begin(c.leader, m)], Apply(c, s, Begin(c.leader, m)), m)
  {
    var shares := [(c.leader, Signature(c.leader, c.digest(m)))];
    assert SetOf(shares) == {shares[0]};
    assert Signers({shares[0]}) == {c.leader};
    assert c.leader in Below(F.N);
  }

  // Without the input honest nodes have nothing to deliver, and Byzantine ones change nothing that matters.
  lemma IdleStep(c: Config, F: Faults, s: System, e: Event)
    requires s.nodes.Keys == F.honest && c.leader in F.honest && Idle(c, F, s) && Enabled(c, F, s, e)
    requires !(e.Begin? && e.p == c.leader)
    ensures Idle(c, F, Apply(c, s, e)) && (e.Deliver? ==> e.from !in F.honest)
  {
    assert Local(c, s.nodes[e.p], e).1 == [];
  }

  lemma {:induction false} RunProgress(c: Config, F: Faults, es: seq<Event>)
    requires Valid(c, F) && Run(c, F, es).Some? && c.leader in F.honest
    ensures Run(c, F, es).value.nodes.Keys == F.honest
    ensures var s := Run(c, F, es).value;
      match FirstBegin(es, c.leader)
      case None => Idle(c, F, s) && forall p, q, msg :: q in F.honest ==> Deliver(p, q, msg) !in es
      case Some(m) => Progress(c, F, es, s, m)
  {
    if es != [] {
      var init, e := es[..|es| - 1], es[|es| - 1];
      assert es == init + [e];
      RunProgress(c, F, init);
      RunInv(c, F, init);
      var s := Run(c, F, init).value;
      match FirstBegin(init, c.leader)
      case Some(m) => ProgressStep(c, F, init, s, e, m);
      case None => IdleOrBegin(c, F, init, s, e);
    }
  }

  lemma IdleOrBegin(c: Config, F: Faults, es: seq<Event>, s: System, e: Event)
    requires Valid(c, F) && s.nodes.Keys == F.honest && c.leader in F.honest && Idle(c, F, s) && Enabled(c, F, s, e)
    requires forall p, q, msg :: q in F.honest ==> Deliver(p, q, msg) !in es
    ensures if e.Begin? && e.p == c.leader then Progress(c, F, es + [e], Apply(c, s, e), e.m)
            else Idle(c, F, Apply(c, s, e)) && forall p, q, msg :: q in F.honest ==> Deliver(p, q, msg) !in es + [e]
  {
    if e.Begin? && e.p == c.leader {
      BeginStep(c, F, es, s, e.m);
    } else {
      IdleStep(c, F, s, e);
    }
  }

  // ---------- a quiescent state ----------

  /** Every message between honest nodes has been handled, or its receiver has returned. */
  ghost predicate Quiescent(F: Faults, es: seq<Event>, s: System)
    requires s.nodes.Keys == F.honest
  {
    forall p, q, msg :: p in F.honest && q in F.honest && (q, msg) in s.sent ==>
      s.nodes[p].output.Some? || Deliver(p, q, msg) in es
  }

  // Where nobody has returned, the leader has a share of every honest node.
  lemma AllShares(c: Config, F: Faults, es: seq<Event>, s: System, m: Bytes, h: nat)
    requires Valid(c, F) && ConsistentBroadcastSafety.Inv(c, F, s) && c.leader in F.honest
    requires Progress(c, F, es, s, m) && Quiescent(F, es, s) && (c.leader, Send(m)) in s.sent
    requires (forall p :: p in F.honest ==> s.nodes[p].output.None?) && h in F.honest
    ensures h in SignersOf(s.nodes[c.leader].shares)
  {
    if h != c.leader {
      assert Deliver(h, c.leader, Send(m)) in es;
      assert TookIt(c, s.nodes[h], h, c.leader, Send(m));
      assert FollowerOk(c, s, h, m);
      var echo := Echo(Signature(h, s.nodes[h].digestFromLeader.value));
      assert Deliver(c.leader, h, echo) in es;
      assert TookIt(c, s.nodes[c.leader], c.leader, h, echo);
    }
  }

  lemma FinalIsSent(c: Config, F: Faults, es: seq<Event>, s: System, m: Bytes)
    requires Valid(c, F) && ConsistentBroadcastSafety.Inv(c, F, s) && c.leader in F.honest && c.N != 1
    requires Progress(c, F, es, s, m) && Quiescent(F, es, s) && (c.leader, Send(m)) in s.sent
    ensures s.nodes[c.leader].finalSent
  {
    if p :| p in F.honest && s.nodes[p].output.Some? {
      assert FollowerOk(c, s, p, m);
    } else {
      var shares := s.nodes[c.leader].shares;
      forall h | h in F.honest ensures h in SignersOf(shares) {
        AllShares(c, F, es, s, m, h);
      }
      SubsetSize(F.honest, SignersOf(shares));
    }
  }

  /**
   Delivery: with an honest leader whose first input is m, and more than one
   node, in a quiescent state every honest node has returned m and a certificate
   that cbc_validate accepts.
   */
  lemma Delivery(c: Config, F: Faults, es: seq<Event>, s: System, m: Bytes, p: nat)
    requires Valid(c, F) && Run(c, F, es) == Some(s) && s.nodes.Keys == F.honest && Quiescent(F, es, s)
    requires c.leader in F.honest && FirstBegin(es, c.leader) == Some(m) && c.N != 1 && p in F.honest
    ensures s.nodes[p].output.Some? && s.nodes[p].output.value.0 == m && CbcValidate(c, m, s.nodes[p].output.value.1)
  {
    RunInv(c, F, es);
    RunProgress(c, F, es);
    SendsItsInput(c, F, es, s, m);
    FinalIsSent(c, F, es, s, m);
    var cert :| (c.leader, Final(m, cert)) in s.sent;
    assert Deliver(p, c.leader, Final(m, cert)) in es ==> TookIt(c, s.nodes[p], p, c.leader, Final(m, cert));
    assert FollowerOk(c, s, p, m);
  }

  /**
   In any run, whatever has been handled, what an honest node returns under an
   honest leader is its first input; and CBC_FINAL has been sent exactly when
   N - f shares have been collected, the leader's own among them.
   */
  lemma FinalExactly(c: Config, F: Faults, es: seq<Event>, s: System, m: Bytes)
    requires Valid(c, F) && Run(c, F, es) == Some(s) && c.leader in F.honest && FirstBegin(es, c.leader) == Some(m) && c.N != 1
    ensures s.nodes.Keys == F.honest
    ensures (exists cert :: (c.leader, Final(m, cert)) in s.sent) <==> |SignersOf(s.nodes[c.leader].shares)| >= c.N - c.f
    ensures forall x :: x in s.nodes[c.leader].shares ==> x.1 == Signature(x.0, c.digest(m))
    ensures forall p :: p in F.honest && s.nodes[p].output.Some? ==> s.nodes[p].output.value.0 == m
  {
    RunProgress(c, F, es);
    forall p | p in F.honest && s.nodes[p].output.Some? ensures s.nodes[p].output.value.0 == m {
      assert FollowerOk(c, s, p, m);
    }
  }

  // ---------- one node alone ----------

  // With N = 1 the leader never gets a CBC_ECHO, so it never looks at its own share.
  ghost predicate Alone(c: Config, F: Faults, s: System) {
    && s.nodes.Keys == F.honest && c.leader in s.nodes && s.nodes[c.leader].output.None?
    && forall q, msg :: (q, msg) in s.sent ==> msg.Send?
  }

  lemma {:induction false} RunAlone(c: Config, F: Faults, es: seq<Event>)
    requires Valid(c, F) && Run(c, F, es).Some? && c.leader in F.honest && c.N == 1
    ensures Alone(c, F, Run(c, F, es).value)
  {
    assert F.honest <= Below(1);
    SameSize(F.honest, Below(1));
    if es != [] {
      var init, e := es[..|es| - 1], es[|es| - 1];
      RunAlone(c, F, init);
      assert e.p == c.leader == 0;
    }
  }

  /** So delivery holds exactly when there is more than one node: a node that is alone never returns, whatever it handles. */
  lemma DeliveryExactly(c: Config, F: Faults, es: seq<Event>, s: System, m: Bytes)
    requires Valid(c, F) && Run(c, F, es) == Some(s) && s.nodes.Keys == F.honest && Quiescent(F, es, s)
    requires c.leader in F.honest && FirstBegin(es, c.leader) == Some(m)
    ensures (forall p :: p in F.honest ==> s.nodes[p].output.Some? && s.nodes[p].output.value.0 == m) <==> c.N != 1
  {
    if c.N == 1 {
      RunAlone(c, F, es);
    } else {
      forall p | p in F.honest ensures s.nodes[p].output.Some? && s.nodes[p].output.value.0 == m {
        Delivery(c, F, es, s, m, p);
      }
    }
  }
}
