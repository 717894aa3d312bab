/**
 Reliable broadcast under an honest leader: when every message between honest
 nodes has been handled, every honest node has sent READY for the root of the
 leader's input, and in the plain variant has finished.
 */
module ReliableBroadcastDelivery {
  import opened FiniteSets
  import opened Quorums
  import opened Options
  import opened ByteStrings
  import opened MerkleTree
  import opened Erasure
  import opened Signatures
  import opened ReliableBroadcast
  import opened ReliableBroadcastSafety

  // ---------- what follows the input, the VALs and the READYs ----------

  // The leader has sent a VAL to every node.
  ghost predicate ValsSent(c: Config, s: System)
    requires c.leader in s.nodes
  {
    s.nodes[c.leader].input.Some? && c.K() >= 1 ==>
      var E := Encode(c.z, c.K(), c.N, s.nodes[c.leader].input.value);
      E.Some? ==> forall i: nat :: i < |E.value| ==> (c.leader, ValFor(c, E.value, i)) in s.sent
  }

  // A node that has accepted its VAL has sent its ECHO.
  ghost predicate Echoed(s: System, p: nat)
    requires p in s.nodes
  {
    s.nodes[p].fromLeader.Some? ==> HasEchoed(s.sent, p, s.nodes[p].fromLeader.value)
  }

  // A VAL of the leader that has been handled has been accepted.
  ghost predicate ValTaken(c: Config, s: System, p: nat, q: nat, m: Message)
    requires p in s.nodes
  {
    m.Val? && q == c.leader && s.nodes[p].outcome == Running ==> s.nodes[p].fromLeader.Some?
  }

  ghost predicate Served(c: Config, F: Faults, s: System)
    requires s.nodes.Keys == F.honest
  {
    && (c.leader in F.honest ==> ValsSent(c, s))
    && (forall p :: p in F.honest ==> Echoed(s, p))
    && (c.leader in F.honest ==> forall x :: x in s.handled && x.0 in F.honest ==> ValTaken(c, s, x.0, x.1, x.2))
  }

  lemma InputSends(c: Config, n: Node, m: Bytes, E: seq<Bytes>, i: nat)
    requires n.input.None? && c.K() >= 1 && Encode(c.z, c.K(), c.N, m) == Some(E) && i < |E|
    ensures ValFor(c, E, i) in Input(c, n, m).1
  {
    assert Input(c, n, m).1[i] == ValFor(c, E, i);
  }

  lemma ValsStep(c: Config, F: Faults, s: System, e: Event)
    requires s.nodes.Keys == F.honest && c.leader in F.honest && Enabled(c, F, s, e) && ValsSent(c, s)
    ensures ValsSent(c, Apply(c, s, e))
  {
    var s' := Apply(c, s, e);
    var n := s.nodes[c.leader];
    if e.Send? && n.input.None? && c.K() >= 1 && Encode(c.z, c.K(), c.N, e.input).Some? {
      var E := Encode(c.z, c.K(), c.N, e.input).value;
      forall i: nat | i < |E| ensures (c.leader, ValFor(c, E, i)) in s'.sent {
        InputSends(c, n, e.input, E, i);
      }
    } else if e.Deliver? {
      InputKept(c, s.nodes[e.p], e);
    }
  }

  lemma EchoedStep(c: Config, F: Faults, s: System, e: Event, p: nat)
    requires s.nodes.Keys == F.honest && Enabled(c, F, s, e) && p in F.honest && Echoed(s, p)
    ensures Echoed(Apply(c, s, e), p)
  {
    var s', n := Apply(c, s, e), s.nodes[p];
    FromLeaderChange(c, s.nodes[e.p], e);
    if s'.nodes[p].fromLeader == n.fromLeader {
      if n.fromLeader.Some? {
        EchoedGrows(s.sent, s'.sent, p, n.fromLeader.value);
      }
    } else {
      assert Echo(e.m.root, e.m.branch, e.m.stripe) in Local(c, n, e).1;
      assert (p, Echo(e.m.root, e.m.branch, e.m.stripe)) in s'.sent;
    }
  }

  // The VAL that an honest leader has sent to a node passes its check there.
  lemma ValAccepted(c: Config, F: Faults, s: System, p: nat, m: Message)
    requires Valid(c, F) && Inv(c, F, s) && c.leader in F.honest
    requires m.Val? && m.to == p && (c.leader, m) in s.sent
    ensures Accepts(c.H, c.N, m.stripe, m.root, m.branch, p)
  {
    assert SentOk(c, c.leader, s.nodes[c.leader], m);
    var input := s.nodes[c.leader].input.value;
    var E := Encode(c.z, c.K(), c.N, input).value;
    EncodedSize(c, input);
    Completeness(c.H, E, p);
  }

  // fromLeader is set once.
  lemma LeaderKeeps(c: Config, n: Node, e: Event)
    requires n.fromLeader.Some?
    ensures Local(c, n, e).0.fromLeader == n.fromLeader
  {
    if e.Deliver? && e.m.Echo? {
      EchoKeeps(c, e.p, n, e.from, e.m);
    } else if e.Deliver? && e.m.Ready? {
      ReadyKeeps(c, e.p, n, e.from, e.m);
    }
  }

  // An accepted VAL stays accepted.
  lemma TakenKept(c: Config, s: System, e: Event, p: nat, q: nat, m: Message)
    requires e.p in s.nodes && p in s.nodes && ValTaken(c, s, p, q, m)
    ensures ValTaken(c, Apply(c, s, e), p, q, m)
  {
    LocalGrows(c, s.nodes[e.p], e);
    if s.nodes[e.p].fromLeader.Some? {
      LeaderKeeps(c, s.nodes[e.p], e);
    }
  }

  // The VAL just handled is accepted, now or before.
  lemma TakenNow(c: Config, F: Faults, s: System, e: Event)
    requires Valid(c, F) && Inv(c, F, s) && Enabled(c, F, s, e) && c.leader in F.honest && e.Deliver?
    ensures ValTaken(c, Apply(c, s, e), e.p, e.from, e.m)
  {
    if e.m.Val? && e.from == c.leader {
      ValAccepted(c, F, s, e.p, e.m);
      AcceptedTaken(c, e.p, s.nodes[e.p], e.from, e.m);
    }
  }

  lemma AcceptedTaken(c: Config, p: nat, n: Node, from: nat, m: Message)
    requires m.Val? && from == c.leader && Accepts(c.H, c.N, m.stripe, m.root, m.branch, p)
    ensures var n' := Receive(c, p, n, from, m).0; n'.outcome == Running ==> n'.fromLeader.Some?
  {
  }

  lemma ServedStep(c: Config, F: Faults, s: System, e: Event)
    requires Valid(c, F) && Inv(c, F, s) && Served(c, F, s) && Enabled(c, F, s, e)
    ensures Served(c, F, Apply(c, s, e))
  {
    var s' := Apply(c, s, e);
    if c.leader in F.honest {
      ValsStep(c, F, s, e);
      forall x | x in s'.handled && x.0 in F.honest ensures ValTaken(c, s', x.0, x.1, x.2) {
        if x in s.handled {
          TakenKept(c, s, e, x.0, x.1, x.2);
        } else {
          TakenNow(c, F, s, e);
        }
      }
    }
    forall p | p in F.honest ensures Echoed(s', p) {
      EchoedStep(c, F, s, e, p);
    }
  }

  lemma {:induction false} RunServed(c: Config, F: Faults, es: seq<Event>)
    requires Valid(c, F) && Run(c, F, es).Some?
    ensures Inv(c, F, Run(c, F, es).value) && Served(c, F, Run(c, F, es).value)
  {
    RunInv(c, F, es);
    if es != [] {
      var init := es[..|es| - 1];
      RunServed(c, F, init);
      ServedStep(c, F, Run(c, F, init).value, es[|es| - 1]);
    }
  }

  // ---------- a quiescent state ----------

  /** The root of the leader's input. */
  function InputRoot(c: Config, m: Bytes): Option<Bytes>
    requires c.K() >= 1
  {
    match Encode(c.z, c.K(), c.N, m)
    case None => None
    case Some(E) => if |E| >= 1 then Some(Root(c.H, E)) else None
  }

  lemma Encodes(c: Config, m: Bytes)
    requires AnyKRecover(c.z) && c.K() >= 1 && ZfecSizes(c.K(), c.N)
    ensures Encode(c.z, c.K(), c.N, m).Some? && InputRoot(c, m).Some?
  {
    EncodedSize(c, m);
  }

  // Where all honest nodes still run, each has echoed the leader's root.
  lemma AllEchoed(c: Config, F: Faults, s: System, m: Bytes, h: nat)
    requires Valid(c, F) && Inv(c, F, s) && Served(c, F, s) && Quiescent(F, s)
    requires c.leader in F.honest && s.nodes[c.leader].input == Some(m) && c.K() >= 1 && ZfecSizes(c.K(), c.N)
    requires h in F.honest && s.nodes[h].outcome == Running
    ensures InputRoot(c, m).Some? && HasEchoed(s.sent, h, InputRoot(c, m).value)
  {
    Encodes(c, m);
    EncodedSize(c, m);
    var E := Encode(c.z, c.K(), c.N, m).value;
    assert h in Below(F.N);
    var v := ValFor(c, E, h);
    assert (c.leader, v) in s.sent;
    assert (h, c.leader, v) in s.handled;
    assert ValTaken(c, s, h, c.leader, v);
    assert LeaderRoot(c, F, s, s.nodes[h]);
    assert Echoed(s, h);
  }

  // Then each has N - f ECHOs.
  lemma AllReady(c: Config, F: Faults, s: System, m: Bytes, q: nat)
    requires Valid(c, F) && Inv(c, F, s) && Served(c, F, s) && Quiescent(F, s)
    requires c.leader in F.honest && s.nodes[c.leader].input == Some(m) && c.K() >= 1 && ZfecSizes(c.K(), c.N)
    requires q in F.honest && forall h :: h in F.honest ==> s.nodes[h].outcome == Running
    ensures s.nodes[q].readied.Some?
  {
    Encodes(c, m);
    var R, n := InputRoot(c, m).value, s.nodes[q];
    forall h | h in F.honest ensures h in Present(Row(c, n, R)) {
      AllEchoed(c, F, s, m, h);
      EchoArrived(c, F, s, q, h, R);
    }
    SubsetSize(F.honest, Present(Row(c, n, R)));
    assert RowOk(c, F, s.sent, n, R) && Amplified(c, n, R);
  }

  // A READY of an honest node is for the leader's root.
  lemma ReadiedRoot(c: Config, F: Faults, s: System, m: Bytes, q: nat)
    requires Valid(c, F) && Inv(c, F, s) && c.leader in F.honest && s.nodes[c.leader].input == Some(m)
    requires q in F.honest && s.nodes[q].readied.Some?
    ensures c.K() >= 1 && s.nodes[q].readied == InputRoot(c, m)
  {
    assert ReadiedOk(c, F, s.sent, s.nodes[q]);
    LeaderRootOf(c, F, s, m, s.nodes[q].readied.value);
  }

  lemma ReadyOfAll(c: Config, F: Faults, s: System, m: Bytes, q: nat)
    requires Valid(c, F) && Inv(c, F, s) && Served(c, F, s) && Quiescent(F, s)
    requires c.leader in F.honest && s.nodes[c.leader].input == Some(m) && c.K() >= 1 && ZfecSizes(c.K(), c.N)
    requires q in F.honest
    ensures s.nodes[q].readied == InputRoot(c, m) && InputRoot(c, m).Some?
  {
    Encodes(c, m);
    if p :| p in F.honest && s.nodes[p].outcome != Running {
      var R := FinishedRow(c, F, s, p);
      EveryoneReady(c, F, s, p, R, q);
    } else {
      AllReady(c, F, s, m, q);
    }
    ReadiedRoot(c, F, s, m, q);
  }

  /**
   Both variants: with an honest leader whose first input is m, in a quiescent
   state every honest node has sent READY for the root of m, and each one that
   still runs has N - f READYs and K stripes for it.
   */
  lemma EveryoneReadies(c: Config, F: Faults, es: seq<Event>, s: System, m: Bytes, q: nat)
    requires Valid(c, F) && Run(c, F, es) == Some(s) && s.nodes.Keys == F.honest && Quiescent(F, s)
    requires c.leader in F.honest && FirstInput(es) == Some(m) && c.K() >= 1 && ZfecSizes(c.K(), c.N) && q in F.honest
    ensures InputRoot(c, m).Some? && (q, MakeReady(c, q, InputRoot(c, m).value)) in s.sent
    ensures var n, R := s.nodes[q], InputRoot(c, m).value;
      n.outcome == Running ==> F.honest <= Readies(n, R) && Echoes(n, R) >= c.N - 2 * c.f
  {
    RunServed(c, F, es);
    InputGiven(c, F, es);
    forall h | h in F.honest ensures s.nodes[h].readied == InputRoot(c, m) {
      ReadyOfAll(c, F, s, m, h);
    }
    ReadyOfAll(c, F, s, m, q);
    var R := InputRoot(c, m).value;
    assert ReadiedOk(c, F, s.sent, s.nodes[q]);
    if s.nodes[q].outcome == Running {
      RunningComplete(c, F, s, R, q);
      forall h | h in F.honest ensures h in Readies(s.nodes[q], R) {
        ReadyArrived(c, F, s, q, h, R);
      }
    }
  }

  lemma OutcomeFacts(c: Config, F: Faults, es: seq<Event>, s: System, q: nat)
    requires Valid(c, F) && Run(c, F, es) == Some(s) && q in F.honest && q in s.nodes
    ensures OutcomeOk(c, s.nodes[q]) && forall R :: Amplified(c, s.nodes[q], R)
  {
    RunInv(c, F, es);
    assert NodeInv(c, F, s.sent, s.nodes[q]);
  }

  // In the plain variant a node with a complete root has finished.
  lemma CompleteEnds(c: Config, n: Node, R: Bytes)
    requires OutcomeOk(c, n) && !c.provable
    requires |Readies(n, R)| >= 2 * c.f + 1 && Echoes(n, R) >= c.N - 2 * c.f
    ensures n.outcome != Running
  {
    assert Complete(c, n, R);
  }

  /**
   Delivery (plain variant): with an honest leader whose first input is m, in a
   quiescent state every honest node has finished. For K <= 128 it has returned
   m, or there is an explicit hash collision.
   */
  lemma Delivery(c: Config, F: Faults, es: seq<Event>, s: System, m: Bytes, q: nat) returns (a: Bytes, b: Bytes)
    requires Valid(c, F) && Run(c, F, es) == Some(s) && !c.provable && s.nodes.Keys == F.honest && Quiescent(F, s)
    requires c.leader in F.honest && FirstInput(es) == Some(m) && ZfecSizes(c.K(), c.N) && q in F.honest
    ensures s.nodes[q].outcome != Running
    ensures c.K() <= 128 ==> s.nodes[q].outcome == Returned(m) || Collision(c.H, a, b)
  {
    OutcomeFacts(c, F, es, s, q);
    if s.nodes[q].outcome == Running {
      EveryoneReadies(c, F, es, s, m, q);
      SubsetSize(F.honest, Readies(s.nodes[q], InputRoot(c, m).value));
      CompleteEnds(c, s.nodes[q], InputRoot(c, m).value);
    }
    a, b := LeaderValidity(c, F, es, s, m, q);
  }

  /** An honest READY is signed by its sender in the provable variant, and unsigned in the plain one. */
  lemma ReadyForm(c: Config, F: Faults, es: seq<Event>, s: System, q: nat, R: Bytes, sig: Option<Signature>)
    requires Valid(c, F) && Run(c, F, es) == Some(s) && (q, Ready(R, sig)) in s.sent
    ensures sig == if c.provable then Some(Signature(q, c.hashPair(c.sid, R))) else None
  {
    RunInv(c, F, es);
    assert SentOk(c, q, s.nodes[q], Ready(R, sig));
  }

  // ---------- the thresholds ----------

  /** N - f ECHOs or f + 1 READYs for root R. */
  predicate MayReady(c: Config, n: Node, R: Bytes) {
    Echoes(n, R) >= c.N - c.f || |Readies(n, R)| >= c.f + 1
  }

  ghost predicate ReadiedBy(c: Config, n: Node) {
    n.readied.Some? ==> MayReady(c, n, n.readied.value)
  }

  lemma MoreMayReady(c: Config, n: Node, n': Node, R: Bytes)
    requires MayReady(c, n, R) && Echoes(n', R) >= Echoes(n, R) && Readies(n, R) <= Readies(n', R)
    ensures MayReady(c, n', R)
  {
    SubsetSize(Readies(n, R), Readies(n', R));
  }

  // What a new ECHO or READY for root adds.
  lemma FinishReadied(c: Config, p: nat, n: Node, n1: Node, root: Bytes, enough: bool, check: bool)
    requires ReadiedBy(c, n) && n1.readied == n.readied && (enough ==> MayReady(c, n1, root))
    requires forall x :: Echoes(n1, x) >= Echoes(n, x) && Readies(n, x) <= Readies(n1, x)
    ensures ReadiedBy(c, Finish(c, p, n1, root, enough, check).0)
  {
    FinishLocal(c, p, n1, root, enough, check);
    if n.readied.Some? {
      MoreMayReady(c, n, n1, n.readied.value);
    }
  }

  lemma EchoReadied(c: Config, p: nat, n: Node, from: nat, m: Message)
    requires m.Echo? && ReadiedBy(c, n)
    ensures ReadiedBy(c, OnEcho(c, p, n, from, m).0)
  {
    OnEchoFinish(c, p, n, from, m);
    if FreshEcho(c, n, from, m) {
      AddEchoOthers(c, n, from, m.root, m.stripe);
      var n1 := AddEcho(c, n, from, m.root, m.stripe);
      FinishReadied(c, p, n, n1, m.root, Echoes(n1, m.root) >= c.EchoThreshold(), !c.provable);
    }
  }

  lemma ReadyReadied(c: Config, p: nat, n: Node, from: nat, m: Message)
    requires m.Ready? && ReadiedBy(c, n)
    ensures ReadiedBy(c, OnReady(c, p, n, from, m).0)
  {
    OnReadyFinish(c, p, n, from, m);
    if FreshReady(c, n, from, m) {
      AddReadyOthers(c, n, from, m.root, m.sig);
      var n1 := AddReady(n, from, m.root, m.sig);
      FinishReadied(c, p, n, n1, m.root, |Readies(n1, m.root)| >= c.ReadyThreshold(), true);
    }
  }

  lemma {:induction false} RunReadied(c: Config, F: Faults, es: seq<Event>)
    requires Run(c, F, es).Some?
    ensures forall p :: p in Run(c, F, es).value.nodes ==> ReadiedBy(c, Run(c, F, es).value.nodes[p])
  {
    if es != [] {
      var init, e := es[..|es| - 1], es[|es| - 1];
      RunReadied(c, F, init);
      var n := Run(c, F, init).value.nodes[e.p];
      if e.Deliver? && e.m.Echo? {
        EchoReadied(c, e.p, n, e.from, e.m);
      } else if e.Deliver? && e.m.Ready? {
        ReadyReadied(c, e.p, n, e.from, e.m);
      }
    }
  }

  /**
   In every run a node has sent READY exactly when some root has N - f ECHOs or
   f + 1 READYs; in the plain variant it has finished exactly when some root has
   2f + 1 READYs and N - 2f stripes, in the provable variant only when some root
   has N - f READYs and N - 2f stripes.
   */
  lemma Thresholds(c: Config, F: Faults, es: seq<Event>, s: System, p: nat)
    requires Valid(c, F) && Run(c, F, es) == Some(s) && p in F.honest && p in s.nodes
    ensures s.nodes[p].readied.Some? <==> exists R :: Echoes(s.nodes[p], R) >= c.N - c.f || |Readies(s.nodes[p], R)| >= c.f + 1
    ensures !c.provable && ZfecSizes(c.K(), c.N) ==>
      (s.nodes[p].outcome != Running <==>
       exists R :: |Readies(s.nodes[p], R)| >= 2 * c.f + 1 && Echoes(s.nodes[p], R) >= c.N - 2 * c.f)
    ensures c.provable && ZfecSizes(c.K(), c.N) && s.nodes[p].outcome != Running ==>
      exists R :: |Readies(s.nodes[p], R)| >= c.N - c.f && Echoes(s.nodes[p], R) >= c.N - 2 * c.f
  {
    OutcomeFacts(c, F, es, s, p);
    RunReadied(c, F, es);
    ReadyExact(c, s.nodes[p]);
    if ZfecSizes(c.K(), c.N) {
      FinishExact(c, s.nodes[p]);
    }
  }

  lemma ReadyExact(c: Config, n: Node)
    requires ReadiedBy(c, n) && forall R :: Amplified(c, n, R)
    ensures n.readied.Some? <==> exists R :: Echoes(n, R) >= c.N - c.f || |Readies(n, R)| >= c.f + 1
  {
    forall R | Echoes(n, R) >= c.N - c.f || |Readies(n, R)| >= c.f + 1 ensures n.readied.Some? {
      assert Amplified(c, n, R);
    }
    if n.readied.Some? {
      var R := n.readied.value;
      assert Echoes(n, R) >= c.N - c.f || |Readies(n, R)| >= c.f + 1;
    }
  }

  lemma FinishExact(c: Config, n: Node)
    requires OutcomeOk(c, n) && c.K() >= 1 && ZfecSizes(c.K(), c.N)
    ensures !c.provable ==>
      (n.outcome != Running <==> exists R :: |Readies(n, R)| >= 2 * c.f + 1 && Echoes(n, R) >= c.N - 2 * c.f)
    ensures c.provable && n.outcome != Running ==> exists R :: |Readies(n, R)| >= c.N - c.f && Echoes(n, R) >= c.N - 2 * c.f
  {
    if n.outcome != Running {
      var R :| Decoded(c, n, R);
    } else if R :| |Readies(n, R)| >= 2 * c.f + 1 && Echoes(n, R) >= c.N - 2 * c.f {
      assert Complete(c, n, R) || c.provable;
    }
  }

  /**
   In the provable variant the only message that ends the protocol is a counted
   READY that completes its root.
   */
  lemma ProvableEnd(c: Config, p: nat, n: Node, from: nat, m: Message)
    requires c.provable && n.outcome == Running && c.K() >= 1
    ensures Receive(c, p, n, from, m).0.outcome != Running <==>
      && m.Ready? && from !in Readies(n, m.root) && from !in n.readySenders && m.sig == Some(Signature(from, c.Digest(m.root)))
      && |Readies(n, m.root) + {from}| >= c.N - c.f && Echoes(n, m.root) >= c.N - 2 * c.f
  {
    match m
    case Val(_, _, _, _) =>
    case Echo(_, _, _) => EchoKeepsOutcome(c, p, n, from, m);
    case Ready(_, _) => ReadyOutcome(c, p, n, from, m);
  }

  lemma EchoKeepsOutcome(c: Config, p: nat, n: Node, from: nat, m: Message)
    requires c.provable && m.Echo?
    ensures OnEcho(c, p, n, from, m).0.outcome == n.outcome
  {
  }

  lemma ReadyOutcome(c: Config, p: nat, n: Node, from: nat, m: Message)
    requires c.provable && m.Ready? && n.outcome == Running
    ensures OnReady(c, p, n, from, m).0.outcome != Running <==>
      FreshReady(c, n, from, m) && |Readies(n, m.root) + {from}| >= c.N - c.f && Echoes(n, m.root) >= c.N - 2 * c.f
  {
    OnReadyFinish(c, p, n, from, m);
    if FreshReady(c, n, from, m) {
      AddReadyOthers(c, n, from, m.root, m.sig);
      FinishLocal(c, p, AddReady(n, from, m.root, m.sig), m.root, |Readies(AddReady(n, from, m.root, m.sig), m.root)| >= c.ReadyThreshold(), true);
    }
  }
}
