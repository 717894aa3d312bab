/**
 Reliable broadcast among N nodes, at most f of them Byzantine, with messages in
 any order, repeated or lost: one root, one outcome, validity and totality, for
 the plain and the provable variant.
 */
module ReliableBroadcastSafety {
  import opened FiniteSets
  import opened Quorums
  import opened Options
  import opened ByteStrings
  import opened MerkleTree
  import opened Erasure
  import opened Signatures
  import opened ReliableBroadcast

  /** The honest nodes, what they have sent, and which messages they have handled. */
  datatype System = System(nodes: map<nat, Node>, sent: set<(nat, Message)>, handled: set<(nat, nat, Message)>)

  datatype Event = Send(p: nat, input: Bytes) | Deliver(p: nat, from: nat, m: Message)

  ghost predicate Valid(c: Config, F: Faults) {
    Resilient(F) && F.N == c.N && F.f == c.f && FixedLength(c.H) && AnyKRecover(c.z)
  }

  function InitSystem(F: Faults): System {
    System(map p | p in F.honest :: ReliableBroadcast.Init(), {}, {})
  }

  /**
   Only the leader has an input, and it handles no message before it. A Byzantine
   sender may send anything; an honest one only what it has sent.
   */
  predicate Enabled(c: Config, F: Faults, s: System, e: Event) {
    && e.p in F.honest && e.p in s.nodes
    && (e.Send? ==> e.p == c.leader)
    && (e.Deliver? ==>
         && e.from < c.N && (e.from in F.honest ==> (e.from, e.m) in s.sent)
         && (e.m.Val? ==> e.m.to == e.p)
         && (e.p == c.leader ==> s.nodes[e.p].input.Some?))
  }

  function Local(c: Config, n: Node, e: Event): (Node, seq<Message>) {
    match e
    case Send(_, m) => Input(c, n, m)
    case Deliver(p, from, m) => Receive(c, p, n, from, m)
  }

  function Apply(c: Config, s: System, e: Event): System
    requires e.p in s.nodes
  {
    var (n', out) := Local(c, s.nodes[e.p], e);
    System(s.nodes[e.p := n'], s.sent + (set m | m in out :: (e.p, m)),
           s.handled + if e.Deliver? then {(e.p, e.from, e.m)} else {})
  }

  /** The state after the events es, if they are a run from the initial state. */
  ghost function Run(c: Config, F: Faults, es: seq<Event>): Option<System> {
    if es == [] then Some(InitSystem(F))
    else
      match Run(c, F, es[..|es| - 1])
      case None => None
      case Some(s) => if Enabled(c, F, s, es[|es| - 1]) then Some(Apply(c, s, es[|es| - 1])) else None
  }

  // ---------- the invariant of one node ----------

  ghost predicate Verified(c: Config, root: Bytes, i: nat, stripe: Bytes) {
    exists branch :: Accepts(c.H, c.N, stripe, root, branch, i)
  }

  /** Node q has sent an ECHO for this root. */
  ghost predicate HasEchoed(sent: set<(nat, Message)>, q: nat, root: Bytes) {
    exists branch, stripe :: (q, Echo(root, branch, stripe)) in sent
  }

  function Present(row: seq<Option<Bytes>>): set<nat> {
    set i: nat | i < |row| && row[i].Some?
  }

  ghost predicate RowOk(c: Config, F: Faults, sent: set<(nat, Message)>, n: Node, root: Bytes) {
    var row := Row(c, n, root);
    && |row| == c.N
    && Echoes(n, root) == |Present(row)|
    && forall i: nat :: i < c.N && row[i].Some? ==>
         && i in n.echoSenders
         && Verified(c, root, i, row[i].value)
         && (i in F.honest ==> HasEchoed(sent, i, root))
  }

  ghost predicate ReadyOk(c: Config, F: Faults, sent: set<(nat, Message)>, n: Node, root: Bytes) {
    && Readies(n, root) <= Below(c.N)
    && forall q :: q in Readies(n, root) ==>
         && q in n.readySenders
         && (q in F.honest ==> (q, MakeReady(c, q, root)) in sent)
  }

  ghost predicate SendersOk(c: Config, n: Node) {
    && (forall q :: q in n.echoSenders ==> exists root :: EchoFrom(c, n, root, q))
    && (forall q :: q in n.readySenders ==> exists root :: q in Readies(n, root))
    && (c.provable ==> |n.readySigs| == |n.readySenders|)
  }

  ghost predicate EchoFrom(c: Config, n: Node, root: Bytes, q: nat) {
    q < |Row(c, n, root)| && Row(c, n, root)[q].Some?
  }

  // The READY is sent as soon as a threshold is met.
  ghost predicate Amplified(c: Config, n: Node, root: Bytes) {
    |Readies(n, root)| >= c.ReadyThreshold() || Echoes(n, root) >= c.EchoThreshold() ==> n.readied.Some?
  }

  ghost predicate Complete(c: Config, n: Node, root: Bytes) {
    |Readies(n, root)| >= c.OutputThreshold() && Echoes(n, root) >= c.K()
  }

  // A node that is done has decoded a complete root; one that runs has none (in the plain variant).
  ghost predicate OutcomeOk(c: Config, n: Node) {
    if n.outcome == Running then c.provable || forall root :: !Complete(c, n, root)
    else (n.outcome == Raised && (c.K() < 1 || !ZfecSizes(c.K(), c.N))) || exists root :: Decoded(c, n, root)
  }

  ghost predicate Decoded(c: Config, n: Node, root: Bytes) {
    Complete(c, n, root) && n.outcome == DecodeOutput(c, Row(c, n, root), root)
  }

  // In the provable variant exactly the nodes that have returned a value hold a proof, for the root they decoded.
  ghost predicate ProofOk(c: Config, n: Node) {
    && (n.proof.Some? ==> n.outcome.Returned? && ProofFor(c, n, n.proof.value.0, n.proof.value.1))
    && (c.provable && n.outcome.Returned? ==> n.proof.Some?)
  }

  ghost predicate ProofFor(c: Config, n: Node, root: Bytes, sigmas: Certificate) {
    Decoded(c, n, root) && (c.N >= c.f ==> |sigmas| == c.N - c.f)
  }

  /** Some N - f nodes, of which all honest ones have echoed root. */
  ghost predicate EchoQuorum(c: Config, F: Faults, sent: set<(nat, Message)>, root: Bytes) {
    exists Q: set<nat> :: QuorumFor(c, F, sent, root, Q)
  }

  ghost predicate QuorumFor(c: Config, F: Faults, sent: set<(nat, Message)>, root: Bytes, Q: set<nat>) {
    Q <= Below(c.N) && |Q| >= c.N - c.f && forall h :: h in Q && h in F.honest ==> HasEchoed(sent, h, root)
  }

  ghost predicate ReadiedOk(c: Config, F: Faults, sent: set<(nat, Message)>, n: Node) {
    n.readied.Some? ==> EchoQuorum(c, F, sent, n.readied.value)
  }

  // What was received.
  ghost predicate BoxInv(c: Config, F: Faults, sent: set<(nat, Message)>, n: Node) {
    && (forall root :: RowOk(c, F, sent, n, root))
    && (forall root :: ReadyOk(c, F, sent, n, root))
    && SendersOk(c, n)
  }

  ghost predicate NodeInv(c: Config, F: Faults, sent: set<(nat, Message)>, n: Node) {
    && BoxInv(c, F, sent, n)
    && (forall root :: Amplified(c, n, root))
    && OutcomeOk(c, n)
    && ProofOk(c, n)
    && ReadiedOk(c, F, sent, n)
  }

  // What node p has sent follows from its state.
  ghost predicate SentOk(c: Config, p: nat, n: Node, m: Message) {
    match m
    case Val(to, _, _, _) => p == c.leader && n.input.Some? && IsVal(c, n.input.value, m)
    case Echo(root, branch, stripe) => n.fromLeader == Some(root) && Accepts(c.H, c.N, stripe, root, branch, p)
    case Ready(root, _) => n.readied == Some(root) && m == MakeReady(c, p, root)
  }

  /** m is one of the VAL messages that the code makes for the given input. */
  ghost predicate IsVal(c: Config, input: Bytes, m: Message)
    requires m.Val?
  {
    && c.K() >= 1
    && var E := Encode(c.z, c.K(), c.N, input);
       E.Some? && m.to < |E.value| && m == ValFor(c, E.value, m.to)
  }

  // Nodes only gain history.
  ghost predicate Extends(n: Node, n': Node) {
    && (n.input.Some? ==> n'.input == n.input)
    && (n.fromLeader.Some? ==> n'.fromLeader == n.fromLeader)
    && (n.readied.Some? ==> n'.readied == n.readied)
  }

  // ---------- preservation, one handler at a time ----------

  lemma SentGrows(c: Config, F: Faults, sent: set<(nat, Message)>, sent': set<(nat, Message)>, n: Node)
    requires sent <= sent' && NodeInv(c, F, sent, n)
    ensures NodeInv(c, F, sent', n)
  {
    forall root ensures RowOk(c, F, sent', n, root) {
      assert RowOk(c, F, sent, n, root);
      RowGrows(c, F, sent, sent', n, root);
    }
    forall root ensures ReadyOk(c, F, sent', n, root) {
      assert ReadyOk(c, F, sent, n, root);
    }
    if n.readied.Some? {
      QuorumGrows(c, F, sent, sent', n.readied.value);
    }
  }

  lemma EchoedGrows(sent: set<(nat, Message)>, sent': set<(nat, Message)>, q: nat, root: Bytes)
    requires sent <= sent' && HasEchoed(sent, q, root)
    ensures HasEchoed(sent', q, root)
  {
    var branch, stripe :| (q, Echo(root, branch, stripe)) in sent;
    assert (q, Echo(root, branch, stripe)) in sent';
  }

  lemma RowGrows(c: Config, F: Faults, sent: set<(nat, Message)>, sent': set<(nat, Message)>, n: Node, root: Bytes)
    requires sent <= sent' && RowOk(c, F, sent, n, root)
    ensures RowOk(c, F, sent', n, root)
  {
    var row := Row(c, n, root);
    forall i: nat | i < c.N && row[i].Some? && i in F.honest ensures HasEchoed(sent', i, root) {
      EchoedGrows(sent, sent', i, root);
    }
  }

  lemma QuorumGrows(c: Config, F: Faults, sent: set<(nat, Message)>, sent': set<(nat, Message)>, root: Bytes)
    requires sent <= sent' && EchoQuorum(c, F, sent, root)
    ensures EchoQuorum(c, F, sent', root)
  {
    var Q :| QuorumFor(c, F, sent, root, Q);
    forall h | h in Q && h in F.honest ensures HasEchoed(sent', h, root) {
      EchoedGrows(sent, sent', h, root);
    }
    assert QuorumFor(c, F, sent', root, Q);
  }

  ghost predicate SameBox(n: Node, n': Node) {
    && n'.stripes == n.stripes && n'.echoCounter == n.echoCounter && n'.echoSenders == n.echoSenders
    && n'.ready == n.ready && n'.readySenders == n.readySenders && n'.readySigs == n.readySigs
  }

  lemma BoxKept(c: Config, F: Faults, sent: set<(nat, Message)>, n: Node, n': Node)
    requires BoxInv(c, F, sent, n) && SameBox(n, n')
    ensures BoxInv(c, F, sent, n')
  {
    forall root ensures RowOk(c, F, sent, n', root) && ReadyOk(c, F, sent, n', root) {
      assert RowOk(c, F, sent, n, root) && ReadyOk(c, F, sent, n, root);
    }
    forall q | q in n'.echoSenders ensures exists root :: EchoFrom(c, n', root, q) {
      var root :| EchoFrom(c, n, root, q);
      assert EchoFrom(c, n', root, q);
    }
    forall q | q in n'.readySenders ensures exists root :: q in Readies(n', root) {
      var root :| q in Readies(n, root);
      assert q in Readies(n', root);
    }
  }

  // What n1 holds for every root but one is what n holds.
  ghost predicate OtherRoots(c: Config, n: Node, n1: Node, root: Bytes) {
    forall x :: x != root ==> Row(c, n1, x) == Row(c, n, x) && Echoes(n1, x) == Echoes(n, x) && Readies(n1, x) == Readies(n, x)
  }

  // Each row after a new ECHO.
  lemma AddEchoRow(c: Config, F: Faults, sent: set<(nat, Message)>, n: Node, from: nat, m: Message)
    requires m.Echo? && RowOk(c, F, sent, n, m.root) && from < c.N && Row(c, n, m.root)[from].None?
    requires from in F.honest ==> (from, m) in sent
    requires Accepts(c.H, c.N, m.stripe, m.root, m.branch, from)
    ensures RowOk(c, F, sent, AddEcho(c, n, from, m.root, m.stripe), m.root)
  {
    var n1 := AddEcho(c, n, from, m.root, m.stripe);
    assert Present(Row(c, n1, m.root)) == Present(Row(c, n, m.root)) + {from};
    if from in F.honest {
      assert m == Echo(m.root, m.branch, m.stripe);
      assert HasEchoed(sent, from, m.root);
    }
  }

  lemma AddEchoSenders(c: Config, n: Node, from: nat, root: Bytes, stripe: Bytes)
    requires SendersOk(c, n) && from < |Row(c, n, root)|
    ensures SendersOk(c, AddEcho(c, n, from, root, stripe))
  {
    var n1 := AddEcho(c, n, from, root, stripe);
    forall q | q in n1.echoSenders ensures exists x :: EchoFrom(c, n1, x, q) {
      if q == from {
        assert EchoFrom(c, n1, root, q);
      } else {
        var x :| EchoFrom(c, n, x, q);
        assert EchoFrom(c, n1, x, q);
      }
    }
    forall q | q in n1.readySenders ensures exists x :: q in Readies(n1, x) {
      var x :| q in Readies(n, x);
      assert q in Readies(n1, x);
    }
  }

  lemma RowOkSame(c: Config, F: Faults, sent: set<(nat, Message)>, n: Node, n1: Node, root: Bytes)
    requires RowOk(c, F, sent, n, root) && n.echoSenders <= n1.echoSenders
    requires Row(c, n1, root) == Row(c, n, root) && Echoes(n1, root) == Echoes(n, root)
    ensures RowOk(c, F, sent, n1, root)
  {
  }

  lemma ReadyOkSame(c: Config, F: Faults, sent: set<(nat, Message)>, n: Node, n1: Node, root: Bytes)
    requires ReadyOk(c, F, sent, n, root) && n.readySenders <= n1.readySenders && Readies(n1, root) == Readies(n, root)
    ensures ReadyOk(c, F, sent, n1, root)
  {
  }

  lemma AddEchoOthers(c: Config, n: Node, from: nat, root: Bytes, stripe: Bytes)
    requires from < |Row(c, n, root)|
    ensures var n1 := AddEcho(c, n, from, root, stripe);
      OtherRoots(c, n, n1, root) && Readies(n1, root) == Readies(n, root) && n1.readySenders == n.readySenders
      && n1.echoSenders == n.echoSenders + {from}
  {
  }

  lemma AddEchoBox(c: Config, F: Faults, sent: set<(nat, Message)>, n: Node, from: nat, m: Message)
    requires m.Echo? && BoxInv(c, F, sent, n) && from < c.N && RowOk(c, F, sent, n, m.root) && Row(c, n, m.root)[from].None?
    requires from in F.honest ==> (from, m) in sent
    requires Accepts(c.H, c.N, m.stripe, m.root, m.branch, from)
    ensures var n1 := AddEcho(c, n, from, m.root, m.stripe);
      BoxInv(c, F, sent, n1) && OtherRoots(c, n, n1, m.root) && Readies(n1, m.root) == Readies(n, m.root)
  {
    var n1 := AddEcho(c, n, from, m.root, m.stripe);
    AddEchoRow(c, F, sent, n, from, m);
    AddEchoSenders(c, n, from, m.root, m.stripe);
    AddEchoOthers(c, n, from, m.root, m.stripe);
    OtherRows(c, F, sent, n, n1, m.root);
    forall x ensures ReadyOk(c, F, sent, n1, x) {
      assert ReadyOk(c, F, sent, n, x);
      ReadyOkSame(c, F, sent, n, n1, x);
    }
  }

  // The rows of all roots, from that of one.
  lemma OtherRows(c: Config, F: Faults, sent: set<(nat, Message)>, n: Node, n1: Node, root: Bytes)
    requires forall x :: RowOk(c, F, sent, n, x)
    requires RowOk(c, F, sent, n1, root) && OtherRoots(c, n, n1, root) && n.echoSenders <= n1.echoSenders
    ensures forall x :: RowOk(c, F, sent, n1, x)
  {
    forall x ensures RowOk(c, F, sent, n1, x) {
      if x != root {
        assert RowOk(c, F, sent, n, x);
        RowOkSame(c, F, sent, n, n1, x);
      }
    }
  }

  lemma AddReadyOthers(c: Config, n: Node, from: nat, root: Bytes, sig: Option<Signature>)
    ensures var n1 := AddReady(n, from, root, sig);
      OtherRoots(c, n, n1, root) && Echoes(n1, root) == Echoes(n, root) && Row(c, n1, root) == Row(c, n, root)
      && Readies(n1, root) == Readies(n, root) + {from} && n1.echoSenders == n.echoSenders
      && n1.readySenders == n.readySenders + {from}
  {
  }

  lemma AddReadyRoot(c: Config, F: Faults, sent: set<(nat, Message)>, n: Node, n1: Node, from: nat, root: Bytes)
    requires ReadyOk(c, F, sent, n, root) && from < c.N && (from in F.honest ==> (from, MakeReady(c, from, root)) in sent)
    requires Readies(n1, root) == Readies(n, root) + {from} && n1.readySenders == n.readySenders + {from}
    ensures ReadyOk(c, F, sent, n1, root)
  {
  }

  lemma AddReadyBox(c: Config, F: Faults, sent: set<(nat, Message)>, n: Node, from: nat, root: Bytes, sig: Option<Signature>)
    requires BoxInv(c, F, sent, n) && from < c.N && from !in n.readySenders && (c.provable ==> sig.Some?)
    requires from in F.honest ==> (from, MakeReady(c, from, root)) in sent
    ensures var n1 := AddReady(n, from, root, sig);
      BoxInv(c, F, sent, n1) && OtherRoots(c, n, n1, root) && Echoes(n1, root) == Echoes(n, root)
      && Row(c, n1, root) == Row(c, n, root) && Readies(n1, root) == Readies(n, root) + {from}
  {
    var n1 := AddReady(n, from, root, sig);
    AddReadyOthers(c, n, from, root, sig);
    AddReadySenders(c, n, from, root, sig);
    assert RowOk(c, F, sent, n, root) && ReadyOk(c, F, sent, n, root);
    RowOkSame(c, F, sent, n, n1, root);
    OtherRows(c, F, sent, n, n1, root);
    AddReadyRoot(c, F, sent, n, n1, from, root);
    forall x ensures ReadyOk(c, F, sent, n1, x) {
      if x != root {
        assert ReadyOk(c, F, sent, n, x);
        ReadyOkSame(c, F, sent, n, n1, x);
      }
    }
  }

  lemma AddReadySenders(c: Config, n: Node, from: nat, root: Bytes, sig: Option<Signature>)
    requires SendersOk(c, n) && from !in n.readySenders && (c.provable ==> sig.Some?)
    ensures SendersOk(c, AddReady(n, from, root, sig))
  {
    var n1 := AddReady(n, from, root, sig);
    forall q | q in n1.echoSenders ensures exists x :: EchoFrom(c, n1, x, q) {
      var x :| EchoFrom(c, n, x, q);
      assert EchoFrom(c, n1, x, q);
    }
    forall q | q in n1.readySenders ensures exists x :: q in Readies(n1, x) {
      if q == from {
        assert q in Readies(n1, root);
      } else {
        var x :| q in Readies(n, x);
        assert q in Readies(n1, x);
      }
    }
  }

  // What one step of node p must establish.
  ghost predicate StepOk(c: Config, F: Faults, sent: set<(nat, Message)>, p: nat, n: Node, n': Node, out: seq<Message>) {
    && NodeInv(c, F, sent, n')
    && Extends(n, n')
    && (forall m :: m in out ==> SentOk(c, p, n', m))
    && (n'.readied != n.readied ==> n'.readied.Some? && MakeReady(c, p, n'.readied.value) in out)
  }

  // SendReady and the output check after a new ECHO or READY for root.
  function Finish(c: Config, pid: nat, n1: Node, root: Bytes, enough: bool, check: bool): (Node, seq<Message>) {
    var (n2, out) := SendReady(c, pid, n1, root, enough);
    (if check then TryOutput(c, n2, root) else n2, out)
  }

  lemma FinishLocal(c: Config, pid: nat, n1: Node, root: Bytes, enough: bool, check: bool)
    ensures var (n3, out) := Finish(c, pid, n1, root, enough, check);
      && SameBox(n1, n3) && n3.input == n1.input && n3.fromLeader == n1.fromLeader
      && if enough && n1.readied.None? then n3.readied == Some(root) && out == [MakeReady(c, pid, root)]
         else n3.readied == n1.readied && out == []
  {
  }

  lemma FinishInv(c: Config, F: Faults, sent: set<(nat, Message)>, pid: nat, n: Node, n1: Node, root: Bytes, enough: bool, check: bool)
    requires NodeInv(c, F, sent, n) && n.outcome == Running && BoxInv(c, F, sent, n1) && OtherRoots(c, n, n1, root)
    requires n1.readied == n.readied && n1.proof == n.proof && n1.outcome == Running && (check || c.provable)
    requires |Readies(n1, root)| >= c.ReadyThreshold() || Echoes(n1, root) >= c.EchoThreshold() ==> enough || n1.readied.Some?
    requires enough ==> EchoQuorum(c, F, sent, root)
    requires Extends(n, n1)
    ensures var (n', out) := Finish(c, pid, n1, root, enough, check); StepOk(c, F, sent, pid, n, n', out)
  {
    var n3 := Finish(c, pid, n1, root, enough, check).0;
    FinishLocal(c, pid, n1, root, enough, check);
    BoxKept(c, F, sent, n1, n3);
    FinishAmplified(c, pid, n, n1, root, enough, check);
    assert ReadyOk(c, F, sent, n1, root);
    FinishOutcome(c, pid, n, n1, root, enough, check);
  }

  lemma FinishAmplified(c: Config, pid: nat, n: Node, n1: Node, root: Bytes, enough: bool, check: bool)
    requires (forall x :: Amplified(c, n, x)) && OtherRoots(c, n, n1, root) && n1.readied == n.readied
    requires |Readies(n1, root)| >= c.ReadyThreshold() || Echoes(n1, root) >= c.EchoThreshold() ==> enough || n1.readied.Some?
    ensures forall x :: Amplified(c, Finish(c, pid, n1, root, enough, check).0, x)
  {
    var n3 := Finish(c, pid, n1, root, enough, check).0;
    forall x ensures Amplified(c, n3, x) {
      assert Amplified(c, n, x);
    }
  }

  lemma FinishOutcome(c: Config, pid: nat, n: Node, n1: Node, root: Bytes, enough: bool, check: bool)
    requires OutcomeOk(c, n) && ProofOk(c, n) && n.outcome == Running && OtherRoots(c, n, n1, root)
    requires Readies(n1, root) <= n1.readySenders && SendersOk(c, n1)
    requires n1.proof == n.proof && n1.outcome == Running && (check || c.provable)
    ensures OutcomeOk(c, Finish(c, pid, n1, root, enough, check).0) && ProofOk(c, Finish(c, pid, n1, root, enough, check).0)
  {
    var n3 := Finish(c, pid, n1, root, enough, check).0;
    assert Complete(c, n3, root) == Complete(c, n1, root);
    if n3.outcome == Running {
      forall x | !c.provable ensures !Complete(c, n3, x) {
        assert !Complete(c, n, x);
      }
    } else {
      assert Decoded(c, n3, root);
      SubsetSize(Readies(n1, root), n1.readySenders);
    }
  }

  // Enough ECHOs at one node make a quorum.
  lemma EnoughEchoes(c: Config, F: Faults, sent: set<(nat, Message)>, n: Node, root: Bytes)
    requires RowOk(c, F, sent, n, root) && Echoes(n, root) >= c.N - c.f
    ensures EchoQuorum(c, F, sent, root)
  {
    assert QuorumFor(c, F, sent, root, Present(Row(c, n, root)));
  }

  /** An honest READY for root stands on a quorum of ECHOs. */
  ghost predicate ReadySentQuorum(c: Config, F: Faults, sent: set<(nat, Message)>, root: Bytes) {
    (exists q :: q in F.honest && (q, MakeReady(c, q, root)) in sent) ==> EchoQuorum(c, F, sent, root)
  }

  lemma EnoughReadies(c: Config, F: Faults, sent: set<(nat, Message)>, n: Node, root: Bytes)
    requires Resilient(F) && F.N == c.N && F.f == c.f
    requires ReadyOk(c, F, sent, n, root) && ReadySentQuorum(c, F, sent, root) && |Readies(n, root)| >= c.f + 1
    ensures EchoQuorum(c, F, sent, root)
  {
    var q := HonestMember(F, Readies(n, root));
    assert (q, MakeReady(c, q, root)) in sent;
  }

  /** The ECHO is neither redundant nor wrong. */
  predicate FreshEcho(c: Config, n: Node, from: nat, m: Message)
    requires m.Echo?
  {
    var row := Row(c, n, m.root);
    from < |row| && row[from].None? && from !in n.echoSenders && Accepts(c.H, c.N, m.stripe, m.root, m.branch, from)
  }

  lemma OnEchoFinish(c: Config, p: nat, n: Node, from: nat, m: Message)
    requires m.Echo?
    ensures OnEcho(c, p, n, from, m) ==
      if FreshEcho(c, n, from, m)
      then var n1 := AddEcho(c, n, from, m.root, m.stripe);
           Finish(c, p, n1, m.root, Echoes(n1, m.root) >= c.EchoThreshold(), !c.provable)
      else (n, [])
  {
  }

  /** The READY is neither redundant nor badly signed. */
  predicate FreshReady(c: Config, n: Node, from: nat, m: Message)
    requires m.Ready?
  {
    && from !in Readies(n, m.root) && from !in n.readySenders
    && (c.provable ==> m.sig == Some(Signature(from, c.Digest(m.root))))
  }

  lemma OnReadyFinish(c: Config, p: nat, n: Node, from: nat, m: Message)
    requires m.Ready?
    ensures OnReady(c, p, n, from, m) ==
      if FreshReady(c, n, from, m)
      then var n1 := AddReady(n, from, m.root, m.sig);
           Finish(c, p, n1, m.root, |Readies(n1, m.root)| >= c.ReadyThreshold(), true)
      else (n, [])
  {
  }

  lemma FreshEchoStep(c: Config, F: Faults, sent: set<(nat, Message)>, p: nat, n: Node, from: nat, m: Message)
    requires NodeInv(c, F, sent, n) && n.outcome == Running && m.Echo?
    requires from < c.N && (from in F.honest ==> (from, m) in sent) && FreshEcho(c, n, from, m)
    ensures var n1 := AddEcho(c, n, from, m.root, m.stripe);
      var (n', out) := Finish(c, p, n1, m.root, Echoes(n1, m.root) >= c.EchoThreshold(), !c.provable);
      StepOk(c, F, sent, p, n, n', out)
  {
    assert RowOk(c, F, sent, n, m.root);
    AddEchoBox(c, F, sent, n, from, m);
    var n1 := AddEcho(c, n, from, m.root, m.stripe);
    var enough := Echoes(n1, m.root) >= c.EchoThreshold();
    if enough {
      assert RowOk(c, F, sent, n1, m.root);
      EnoughEchoes(c, F, sent, n1, m.root);
    }
    assert Amplified(c, n, m.root);
    FinishInv(c, F, sent, p, n, n1, m.root, enough, !c.provable);
  }

  lemma FreshReadyStep(c: Config, F: Faults, sent: set<(nat, Message)>, p: nat, n: Node, from: nat, m: Message)
    requires Resilient(F) && F.N == c.N && F.f == c.f
    requires NodeInv(c, F, sent, n) && n.outcome == Running && m.Ready?
    requires from < c.N && (from in F.honest ==> (from, m) in sent && m == MakeReady(c, from, m.root))
    requires ReadySentQuorum(c, F, sent, m.root) && FreshReady(c, n, from, m)
    ensures var n1 := AddReady(n, from, m.root, m.sig);
      var (n', out) := Finish(c, p, n1, m.root, |Readies(n1, m.root)| >= c.ReadyThreshold(), true);
      StepOk(c, F, sent, p, n, n', out)
  {
    AddReadyBox(c, F, sent, n, from, m.root, m.sig);
    var n1 := AddReady(n, from, m.root, m.sig);
    var enough := |Readies(n1, m.root)| >= c.ReadyThreshold();
    if enough {
      assert ReadyOk(c, F, sent, n1, m.root);
      EnoughReadies(c, F, sent, n1, m.root);
    }
    assert Amplified(c, n, m.root);
    FinishInv(c, F, sent, p, n, n1, m.root, enough, true);
  }

  // A message that is ignored.
  lemma IgnoredStep(c: Config, F: Faults, sent: set<(nat, Message)>, p: nat, n: Node)
    requires NodeInv(c, F, sent, n)
    ensures StepOk(c, F, sent, p, n, n, [])
  {
  }

  lemma EchoStep(c: Config, F: Faults, sent: set<(nat, Message)>, p: nat, n: Node, from: nat, m: Message)
    requires NodeInv(c, F, sent, n) && n.outcome == Running && m.Echo?
    requires from < c.N && (from in F.honest ==> (from, m) in sent)
    ensures var (n', out) := OnEcho(c, p, n, from, m); StepOk(c, F, sent, p, n, n', out)
  {
    OnEchoFinish(c, p, n, from, m);
    if FreshEcho(c, n, from, m) {
      FreshEchoStep(c, F, sent, p, n, from, m);
    } else {
      IgnoredStep(c, F, sent, p, n);
    }
  }

  lemma ReadyStep(c: Config, F: Faults, sent: set<(nat, Message)>, p: nat, n: Node, from: nat, m: Message)
    requires Resilient(F) && F.N == c.N && F.f == c.f
    requires NodeInv(c, F, sent, n) && n.outcome == Running && m.Ready?
    requires from < c.N && (from in F.honest ==> (from, m) in sent && m == MakeReady(c, from, m.root))
    requires ReadySentQuorum(c, F, sent, m.root)
    ensures var (n', out) := OnReady(c, p, n, from, m); StepOk(c, F, sent, p, n, n', out)
  {
    OnReadyFinish(c, p, n, from, m);
    if FreshReady(c, n, from, m) {
      FreshReadyStep(c, F, sent, p, n, from, m);
    } else {
      IgnoredStep(c, F, sent, p, n);
    }
  }

  // Steps that receive nothing.
  lemma QuietStep(c: Config, F: Faults, sent: set<(nat, Message)>, n: Node, n': Node)
    requires NodeInv(c, F, sent, n) && SameBox(n, n') && n'.readied == n.readied && n'.proof == n.proof
    requires n'.outcome == n.outcome || (n'.outcome == Raised && (c.K() < 1 || !ZfecSizes(c.K(), c.N)))
    ensures NodeInv(c, F, sent, n')
  {
    BoxKept(c, F, sent, n, n');
    forall root ensures Amplified(c, n', root) {
      assert Amplified(c, n, root);
    }
    if n'.outcome == Running {
      forall root | !c.provable ensures !Complete(c, n', root) {
        assert !Complete(c, n, root);
      }
    } else if n'.outcome == n.outcome && !(n.outcome == Raised && (c.K() < 1 || !ZfecSizes(c.K(), c.N))) {
      var root :| Decoded(c, n, root);
      assert Decoded(c, n', root);
    }
  }

  lemma InputStep(c: Config, F: Faults, sent: set<(nat, Message)>, p: nat, n: Node, m: Bytes)
    requires Valid(c, F) && NodeInv(c, F, sent, n) && p == c.leader
    ensures var (n', out) := Input(c, n, m); StepOk(c, F, sent, p, n, n', out)
  {
    var (n', out) := Input(c, n, m);
    QuietStep(c, F, sent, n, n');
  }

  lemma ValStep(c: Config, F: Faults, sent: set<(nat, Message)>, p: nat, n: Node, from: nat, m: Message)
    requires Valid(c, F) && NodeInv(c, F, sent, n) && m.Val?
    ensures var (n', out) := OnVal(c, p, n, from, m); StepOk(c, F, sent, p, n, n', out)
  {
    var (n', out) := OnVal(c, p, n, from, m);
    QuietStep(c, F, sent, n, n');
  }

  // ---------- the whole system ----------

  ghost predicate HandledOk(c: Config, F: Faults, s: System, p: nat, q: nat, m: Message)
    requires p in s.nodes
  {
    s.nodes[p].outcome == Running && q in F.honest ==>
      match m
      case Val(_, _, _, _) => true
      case Echo(root, _, _) => EchoFrom(c, s.nodes[p], root, q)
      case Ready(root, _) => q in Readies(s.nodes[p], root)
  }

  ghost predicate SentInv(c: Config, F: Faults, s: System)
    requires s.nodes.Keys == F.honest
  {
    && (forall x :: x in s.sent ==> x.0 in F.honest && SentOk(c, x.0, s.nodes[x.0], x.1))
    && (forall p :: p in F.honest && s.nodes[p].readied.Some? ==> (p, MakeReady(c, p, s.nodes[p].readied.value)) in s.sent)
  }

  ghost predicate LeaderInv(c: Config, F: Faults, s: System)
    requires s.nodes.Keys == F.honest
  {
    forall p :: p in F.honest ==> LeaderRoot(c, F, s, s.nodes[p])
  }

  // With an honest leader, roots come from its input.
  ghost predicate LeaderRoot(c: Config, F: Faults, s: System, n: Node)
    requires s.nodes.Keys == F.honest
  {
    c.leader in F.honest && n.fromLeader.Some? ==>
      && s.nodes[c.leader].input.Some? && c.K() >= 1
      && var E := Encode(c.z, c.K(), c.N, s.nodes[c.leader].input.value);
         E.Some? && |E.value| >= 1 && n.fromLeader == Some(Root(c.H, E.value))
  }

  ghost predicate Inv(c: Config, F: Faults, s: System) {
    && s.nodes.Keys == F.honest
    && (forall p :: p in F.honest ==> NodeInv(c, F, s.sent, s.nodes[p]))
    && SentInv(c, F, s)
    && LeaderInv(c, F, s)
    && (forall x :: x in s.handled && x.0 in F.honest ==> HandledOk(c, F, s, x.0, x.1, x.2))
  }

  lemma InitInv(c: Config, F: Faults)
    requires Valid(c, F)
    ensures Inv(c, F, InitSystem(F))
  {
    var n := ReliableBroadcast.Init();
    forall root ensures RowOk(c, F, {}, n, root) {
      assert Present(Row(c, n, root)) == {};
    }
    assert NodeInv(c, F, {}, n);
  }

  lemma SentReadyQuorum(c: Config, F: Faults, s: System, root: Bytes)
    requires s.nodes.Keys == F.honest && SentInv(c, F, s)
    requires forall p :: p in F.honest ==> NodeInv(c, F, s.sent, s.nodes[p])
    ensures ReadySentQuorum(c, F, s.sent, root)
  {
    if q :| q in F.honest && (q, MakeReady(c, q, root)) in s.sent {
      assert SentOk(c, q, s.nodes[q], MakeReady(c, q, root));
      assert ReadiedOk(c, F, s.sent, s.nodes[q]);
    }
  }

  lemma LocalStep(c: Config, F: Faults, s: System, e: Event)
    requires Valid(c, F) && Inv(c, F, s) && Enabled(c, F, s, e)
    ensures var (n', out) := Local(c, s.nodes[e.p], e); StepOk(c, F, s.sent, e.p, s.nodes[e.p], n', out)
  {
    var n := s.nodes[e.p];
    match e
    case Send(p, m) => InputStep(c, F, s.sent, p, n, m);
    case Deliver(p, from, m) =>
      if n.outcome == Running {
        if from in F.honest {
          assert SentOk(c, from, s.nodes[from], m);
        }
        match m
        case Val(_, _, _, _) => ValStep(c, F, s.sent, p, n, from, m);
        case Echo(_, _, _) => EchoStep(c, F, s.sent, p, n, from, m);
        case Ready(root, _) =>
          SentReadyQuorum(c, F, s, root);
          ReadyStep(c, F, s.sent, p, n, from, m);
      }
  }

  lemma SentKept(c: Config, p: nat, n: Node, n': Node, m: Message)
    requires Extends(n, n') && SentOk(c, p, n, m)
    ensures SentOk(c, p, n', m)
  {
  }

  // Nodes and messages after one step.
  lemma UpdateInv(c: Config, F: Faults, s: System, p: nat, n': Node, out: seq<Message>, s': System)
    requires s.nodes.Keys == F.honest && p in F.honest && SentInv(c, F, s)
    requires forall q :: q in F.honest ==> NodeInv(c, F, s.sent, s.nodes[q])
    requires StepOk(c, F, s.sent, p, s.nodes[p], n', out)
    requires s'.nodes == s.nodes[p := n'] && s'.sent == s.sent + set m | m in out :: (p, m)
    ensures s'.nodes.Keys == F.honest && SentInv(c, F, s')
    ensures forall q :: q in F.honest ==> NodeInv(c, F, s'.sent, s'.nodes[q])
  {
    forall q | q in F.honest ensures NodeInv(c, F, s'.sent, s'.nodes[q]) {
      SentGrows(c, F, s.sent, s'.sent, s'.nodes[q]);
    }
    forall x | x in s'.sent ensures x.0 in F.honest && SentOk(c, x.0, s'.nodes[x.0], x.1) {
      if x in s.sent && x.0 == p {
        SentKept(c, p, s.nodes[p], n', x.1);
      }
    }
  }

  lemma FromLeaderChange(c: Config, n: Node, e: Event)
    ensures var n' := Local(c, n, e).0;
      && (n'.fromLeader != n.fromLeader ==> e.Deliver? && e.m.Val? && e.from == c.leader && n'.fromLeader == Some(e.m.root))
      && (n.input.Some? ==> n'.input == n.input)
  {
    if e.Deliver? && e.m.Echo? {
      EchoKeeps(c, e.p, n, e.from, e.m);
    } else if e.Deliver? && e.m.Ready? {
      ReadyKeeps(c, e.p, n, e.from, e.m);
    }
  }

  lemma EchoKeeps(c: Config, pid: nat, n: Node, from: nat, m: Message)
    requires m.Echo?
    ensures OnEcho(c, pid, n, from, m).0.fromLeader == n.fromLeader && OnEcho(c, pid, n, from, m).0.input == n.input
  {
  }

  lemma ReadyKeeps(c: Config, pid: nat, n: Node, from: nat, m: Message)
    requires m.Ready?
    ensures OnReady(c, pid, n, from, m).0.fromLeader == n.fromLeader && OnReady(c, pid, n, from, m).0.input == n.input
  {
  }

  lemma LeaderStep(c: Config, F: Faults, s: System, e: Event)
    requires s.nodes.Keys == F.honest && SentInv(c, F, s) && LeaderInv(c, F, s) && Enabled(c, F, s, e)
    ensures LeaderInv(c, F, Apply(c, s, e))
  {
    FromLeaderChange(c, s.nodes[e.p], e);
    var n' := Local(c, s.nodes[e.p], e).0;
    if n'.fromLeader != s.nodes[e.p].fromLeader && c.leader in F.honest {
      assert SentOk(c, c.leader, s.nodes[c.leader], e.m);
    }
    LeaderKept(c, F, s, e.p, n', Apply(c, s, e));
  }

  lemma LeaderKept(c: Config, F: Faults, s: System, p: nat, n': Node, s': System)
    requires s.nodes.Keys == F.honest && LeaderInv(c, F, s) && p in F.honest
    requires s'.nodes == s.nodes[p := n'] && (s.nodes[p].input.Some? ==> n'.input == s.nodes[p].input)
    requires n'.fromLeader == s.nodes[p].fromLeader || LeaderRoot(c, F, s, n')
    ensures LeaderInv(c, F, s')
  {
    forall q | q in F.honest ensures LeaderRoot(c, F, s', s'.nodes[q]) {
      assert LeaderRoot(c, F, s, s.nodes[q]);
    }
  }

  // A handled message stays in the box of its receiver.
  ghost predicate BoxGrows(c: Config, n: Node, n': Node) {
    && (n'.outcome == Running ==> n.outcome == Running)
    && (forall root, q :: EchoFrom(c, n, root, q) ==> EchoFrom(c, n', root, q))
    && (forall root, q :: q in Readies(n, root) ==> q in Readies(n', root))
  }

  lemma SameBoxGrows(c: Config, n: Node, n': Node)
    requires SameBox(n, n') && (n'.outcome == Running ==> n.outcome == Running)
    ensures BoxGrows(c, n, n')
  {
  }

  lemma FinishGrows(c: Config, p: nat, n: Node, n1: Node, root: Bytes, enough: bool, check: bool)
    requires BoxGrows(c, n, n1) && n.outcome == Running
    ensures BoxGrows(c, n, Finish(c, p, n1, root, enough, check).0)
  {
    SameBoxGrows(c, n1, Finish(c, p, n1, root, enough, check).0.(outcome := n1.outcome));
    var n' := Finish(c, p, n1, root, enough, check).0;
    forall x, q | EchoFrom(c, n, x, q) ensures EchoFrom(c, n', x, q) {
      assert EchoFrom(c, n1, x, q);
    }
  }

  lemma AddEchoGrows(c: Config, n: Node, from: nat, root: Bytes, stripe: Bytes)
    requires from < |Row(c, n, root)|
    ensures BoxGrows(c, n, AddEcho(c, n, from, root, stripe))
    ensures EchoFrom(c, AddEcho(c, n, from, root, stripe), root, from)
  {
  }

  lemma EchoGrows(c: Config, p: nat, n: Node, from: nat, m: Message)
    requires n.outcome == Running && m.Echo?
    ensures BoxGrows(c, n, OnEcho(c, p, n, from, m).0)
  {
    OnEchoFinish(c, p, n, from, m);
    if FreshEcho(c, n, from, m) {
      AddEchoGrows(c, n, from, m.root, m.stripe);
      var n1 := AddEcho(c, n, from, m.root, m.stripe);
      FinishGrows(c, p, n, n1, m.root, Echoes(n1, m.root) >= c.EchoThreshold(), !c.provable);
    }
  }

  lemma ReadyGrows(c: Config, p: nat, n: Node, from: nat, m: Message)
    requires n.outcome == Running && m.Ready?
    ensures BoxGrows(c, n, OnReady(c, p, n, from, m).0)
  {
    OnReadyFinish(c, p, n, from, m);
    if FreshReady(c, n, from, m) {
      var n1 := AddReady(n, from, m.root, m.sig);
      assert BoxGrows(c, n, n1);
      FinishGrows(c, p, n, n1, m.root, |Readies(n1, m.root)| >= c.ReadyThreshold(), true);
    }
  }

  lemma LocalGrows(c: Config, n: Node, e: Event)
    ensures BoxGrows(c, n, Local(c, n, e).0)
  {
    match e
    case Send(_, m) => SameBoxGrows(c, n, Input(c, n, m).0);
    case Deliver(p, from, m) =>
      if n.outcome == Running {
        match m
        case Val(_, _, _, _) => SameBoxGrows(c, n, OnVal(c, p, n, from, m).0);
        case Echo(_, _, _) => EchoGrows(c, p, n, from, m);
        case Ready(_, _) => ReadyGrows(c, p, n, from, m);
      }
  }

  // An honest ECHO is recorded, now or before.
  lemma EchoHandled(c: Config, F: Faults, s: System, p: nat, n: Node, q: nat, m: Message)
    requires s.nodes.Keys == F.honest && SentInv(c, F, s) && NodeInv(c, F, s.sent, n)
    requires q in F.honest && q < c.N && m.Echo? && (q, m) in s.sent
    ensures EchoFrom(c, OnEcho(c, p, n, q, m).0, m.root, q)
  {
    assert SentOk(c, q, s.nodes[q], m);
    assert RowOk(c, F, s.sent, n, m.root);
    OnEchoFinish(c, p, n, q, m);
    if FreshEcho(c, n, q, m) {
      AddEchoGrows(c, n, q, m.root, m.stripe);
      var n1 := AddEcho(c, n, q, m.root, m.stripe);
      FinishGrows(c, p, n1.(outcome := Running), n1, m.root, Echoes(n1, m.root) >= c.EchoThreshold(), !c.provable);
    } else if q in n.echoSenders {
      var x :| EchoFrom(c, n, x, q);
      assert RowOk(c, F, s.sent, n, x);
      OneEchoRoot(c, F, s, n, q, x, m.root);
    }
  }

  lemma ReadyHandled(c: Config, F: Faults, s: System, p: nat, n: Node, q: nat, m: Message)
    requires s.nodes.Keys == F.honest && SentInv(c, F, s) && NodeInv(c, F, s.sent, n)
    requires q in F.honest && m.Ready? && (q, m) in s.sent
    ensures q in Readies(OnReady(c, p, n, q, m).0, m.root)
  {
    assert SentOk(c, q, s.nodes[q], m);
    OnReadyFinish(c, p, n, q, m);
    if FreshReady(c, n, q, m) {
      assert q in Readies(AddReady(n, q, m.root, m.sig), m.root);
    } else if q in n.readySenders {
      var x :| q in Readies(n, x);
      assert ReadyOk(c, F, s.sent, n, x);
      assert SentOk(c, q, s.nodes[q], MakeReady(c, q, x));
    }
  }

  // The message just handled is recorded.
  lemma JustHandled(c: Config, F: Faults, s: System, e: Event)
    requires Inv(c, F, s) && Enabled(c, F, s, e) && e.Deliver?
    ensures HandledOk(c, F, Apply(c, s, e), e.p, e.from, e.m)
  {
    var n := s.nodes[e.p];
    if n.outcome == Running && e.from in F.honest {
      match e.m
      case Val(_, _, _, _) =>
      case Echo(_, _, _) => EchoHandled(c, F, s, e.p, n, e.from, e.m);
      case Ready(_, _) => ReadyHandled(c, F, s, e.p, n, e.from, e.m);
    }
  }

  lemma OneEchoRoot(c: Config, F: Faults, s: System, n: Node, q: nat, x: Bytes, root: Bytes)
    requires s.nodes.Keys == F.honest && SentInv(c, F, s) && q in F.honest
    requires RowOk(c, F, s.sent, n, x) && EchoFrom(c, n, x, q) && s.nodes[q].fromLeader == Some(root)
    ensures x == root
  {
    var branch, stripe :| (q, Echo(x, branch, stripe)) in s.sent;
    assert SentOk(c, q, s.nodes[q], Echo(x, branch, stripe));
  }

  lemma HandledKept(c: Config, F: Faults, s: System, s': System, p: nat, q: nat, from: nat, m: Message)
    requires p in s.nodes && q in s.nodes && s'.nodes.Keys == s.nodes.Keys
    requires s'.nodes == s.nodes[p := s'.nodes[p]] && BoxGrows(c, s.nodes[p], s'.nodes[p]) && HandledOk(c, F, s, q, from, m)
    ensures HandledOk(c, F, s', q, from, m)
  {
  }

  lemma HandledStep(c: Config, F: Faults, s: System, e: Event)
    requires Valid(c, F) && Inv(c, F, s) && Enabled(c, F, s, e)
    ensures var s' := Apply(c, s, e);
      forall x :: x in s'.handled && x.0 in F.honest ==> HandledOk(c, F, s', x.0, x.1, x.2)
  {
    var s' := Apply(c, s, e);
    LocalGrows(c, s.nodes[e.p], e);
    forall x | x in s'.handled && x.0 in F.honest ensures HandledOk(c, F, s', x.0, x.1, x.2) {
      if x in s.handled {
        HandledKept(c, F, s, s', e.p, x.0, x.1, x.2);
      } else {
        JustHandled(c, F, s, e);
      }
    }
  }

  lemma StepInv(c: Config, F: Faults, s: System, e: Event)
    requires Valid(c, F) && Inv(c, F, s) && Enabled(c, F, s, e)
    ensures Inv(c, F, Apply(c, s, e))
  {
    LocalStep(c, F, s, e);
    var (n', out) := Local(c, s.nodes[e.p], e);
    UpdateInv(c, F, s, e.p, n', out, Apply(c, s, e));
    LeaderStep(c, F, s, e);
    HandledStep(c, F, s, e);
  }

  lemma {:induction false} RunInv(c: Config, F: Faults, es: seq<Event>)
    requires Valid(c, F) && Run(c, F, es).Some?
    ensures Inv(c, F, Run(c, F, es).value)
  {
    if es == [] {
      InitInv(c, F);
    } else {
      var init := es[..|es| - 1];
      RunInv(c, F, init);
      StepInv(c, F, Run(c, F, init).value, es[|es| - 1]);
    }
  }

  // ---------- one root ----------

  lemma EchoRoot(c: Config, F: Faults, s: System, h: nat, root: Bytes)
    requires s.nodes.Keys == F.honest && SentInv(c, F, s) && h in F.honest && HasEchoed(s.sent, h, root)
    ensures s.nodes[h].fromLeader == Some(root)
  {
    var branch, stripe :| (h, Echo(root, branch, stripe)) in s.sent;
    assert SentOk(c, h, s.nodes[h], Echo(root, branch, stripe));
  }

  lemma QuorumsMeet(c: Config, F: Faults, s: System, R: Bytes, R': Bytes)
    requires Resilient(F) && F.N == c.N && F.f == c.f && s.nodes.Keys == F.honest && SentInv(c, F, s)
    requires EchoQuorum(c, F, s.sent, R) && EchoQuorum(c, F, s.sent, R')
    ensures R == R'
  {
    var Q :| QuorumFor(c, F, s.sent, R, Q);
    var Q' :| QuorumFor(c, F, s.sent, R', Q');
    var h := HonestInBoth(F, Q, Q');
    EchoRoot(c, F, s, h, R);
    EchoRoot(c, F, s, h, R');
  }

  // A complete root has an honest READY, hence a quorum of ECHOs.
  lemma CompleteRoot(c: Config, F: Faults, s: System, p: nat, R: Bytes)
    requires Valid(c, F) && Inv(c, F, s) && p in F.honest && |Readies(s.nodes[p], R)| >= c.f + 1
    ensures EchoQuorum(c, F, s.sent, R)
  {
    assert ReadyOk(c, F, s.sent, s.nodes[p], R);
    SentReadyQuorum(c, F, s, R);
    EnoughReadies(c, F, s.sent, s.nodes[p], R);
  }

  /** Node n has sent READY for R, or has f + 1 READYs for it, as one that decodes R has. */
  predicate Takes(c: Config, n: Node, R: Bytes) {
    n.readied == Some(R) || |Readies(n, R)| >= c.f + 1
  }

  /** In every run, all honest nodes ever send READY for, amplify or decode one root only. */
  lemma OneRoot(c: Config, F: Faults, es: seq<Event>, s: System, p: nat, q: nat, R: Bytes, R': Bytes)
    requires Valid(c, F) && Run(c, F, es) == Some(s) && p in F.honest && q in F.honest && p in s.nodes && q in s.nodes
    requires Takes(c, s.nodes[p], R) && Takes(c, s.nodes[q], R')
    ensures R == R'
  {
    RunInv(c, F, es);
    TakenQuorum(c, F, s, p, R);
    TakenQuorum(c, F, s, q, R');
    QuorumsMeet(c, F, s, R, R');
  }

  lemma TakenQuorum(c: Config, F: Faults, s: System, p: nat, R: Bytes)
    requires Valid(c, F) && Inv(c, F, s) && p in F.honest && Takes(c, s.nodes[p], R)
    ensures EchoQuorum(c, F, s.sent, R)
  {
    if s.nodes[p].readied == Some(R) {
      assert ReadiedOk(c, F, s.sent, s.nodes[p]);
    } else {
      CompleteRoot(c, F, s, p, R);
    }
  }

  // ---------- one verdict ----------

  // The stripes of a row that are there pass the Merkle check for root.
  ghost predicate RowVerified(c: Config, row: seq<Option<Bytes>>, root: Bytes) {
    |row| == c.N && forall i: nat :: i < c.N && row[i].Some? ==> Verified(c, root, i, row[i].value)
  }

  // A verified row under the root of E holds stripes of E, or yields a collision.
  lemma RowBinds(c: Config, row: seq<Option<Bytes>>, E: seq<Bytes>) returns (a: Bytes, b: Bytes)
    requires FixedLength(c.H) && |E| == c.N >= 1 && RowVerified(c, row, Root(c.H, E))
    ensures StripesOf(E, row) || Collision(c.H, a, b)
  {
    a, b := [], [];
    if i: nat :| i < c.N && row[i].Some? && row[i].value != E[i] {
      var branch :| Accepts(c.H, c.N, row[i].value, Root(c.H, E), branch, i);
      a, b := Binding(c.H, E, row[i].value, branch, i);
    }
  }

  // What decode_output gives for stripes of encode(x).
  lemma CodewordOutput(c: Config, row: seq<Option<Bytes>>, x: Bytes)
    requires AnyKRecover(c.z) && c.K() >= 1 && Encode(c.z, c.K(), c.N, x).Some?
    requires StripesOf(Encode(c.z, c.K(), c.N, x).value, row) && |FirstPresent(row, c.K(), 0)| == c.K()
    ensures Decode(c.z, c.K(), c.N, row) == Unpad(c.K(), Concat(Blocks(c.K(), Padded(c.K(), x))))
    ensures |Encode(c.z, c.K(), c.N, x).value| == c.N
  {
    var K: nat := c.K();
    var blocks := Blocks(K, Padded(K, x));
    assert Recovers(c.z, K, c.N, blocks, []);
    DecodeCodeword(c.z, K, c.N, blocks, row);
  }

  lemma EncodedSize(c: Config, x: Bytes)
    requires AnyKRecover(c.z) && c.K() >= 1 && Encode(c.z, c.K(), c.N, x).Some?
    ensures |Encode(c.z, c.K(), c.N, x).value| == c.N >= 1
  {
    var K: nat := c.K();
    assert Recovers(c.z, K, c.N, Blocks(K, Padded(K, x)), []);
  }

  // If one row decodes successfully then so does the other, with the same result.
  lemma VerdictFollows(c: Config, A: seq<Option<Bytes>>, B: seq<Option<Bytes>>, root: Bytes) returns (a: Bytes, b: Bytes)
    requires FixedLength(c.H) && AnyKRecover(c.z) && c.K() >= 1
    requires RowVerified(c, A, root) && RowVerified(c, B, root)
    requires |FirstPresent(A, c.K(), 0)| == c.K() && |FirstPresent(B, c.K(), 0)| == c.K()
    requires DecodeOutput(c, A, root).Returned?
    ensures DecodeOutput(c, B, root) == DecodeOutput(c, A, root) || Collision(c.H, a, b)
  {
    var m := DecodeOutput(c, A, root).m;
    var E := Encode(c.z, c.K(), c.N, m).value;
    EncodedSize(c, m);
    a, b := RowBinds(c, A, E);
    if !Collision(c.H, a, b) {
      a, b := RowBinds(c, B, E);
      if !Collision(c.H, a, b) {
        CodewordOutput(c, A, m);
        CodewordOutput(c, B, m);
      }
    }
  }

  /**
   The re-encode check gives one verdict: for rows of stripes verified against one
   root, whoever chose the stripes and whichever K of them are used, decode_output
   returns the same value at both or fails at both, or there is a collision.
   */
  lemma SameVerdict(c: Config, A: seq<Option<Bytes>>, B: seq<Option<Bytes>>, root: Bytes) returns (a: Bytes, b: Bytes)
    requires FixedLength(c.H) && AnyKRecover(c.z) && c.K() >= 1
    requires RowVerified(c, A, root) && RowVerified(c, B, root)
    requires |Present(A)| >= c.K() && |Present(B)| >= c.K()
    ensures DecodeOutput(c, A, root) == DecodeOutput(c, B, root) || Collision(c.H, a, b)
  {
    a, b := [], [];
    assert PresentFrom(A, 0) == Present(A) && PresentFrom(B, 0) == Present(B);
    PresentSize(A, c.K(), 0);
    PresentSize(B, c.K(), 0);
    if DecodeOutput(c, A, root).Returned? {
      a, b := VerdictFollows(c, A, B, root);
    } else if DecodeOutput(c, B, root).Returned? {
      a, b := VerdictFollows(c, B, A, root);
    }
  }

  // A finished node has decoded a verified row of a root with a quorum.
  lemma FinishedRow(c: Config, F: Faults, s: System, p: nat) returns (root: Bytes)
    requires Valid(c, F) && Inv(c, F, s) && p in F.honest
    requires s.nodes[p].outcome != Running && ZfecSizes(c.K(), c.N)
    ensures Decoded(c, s.nodes[p], root) && EchoQuorum(c, F, s.sent, root)
    ensures RowVerified(c, Row(c, s.nodes[p], root), root) && |Present(Row(c, s.nodes[p], root))| >= c.K()
  {
    var n := s.nodes[p];
    assert OutcomeOk(c, n);
    root :| Decoded(c, n, root);
    assert RowOk(c, F, s.sent, n, root);
    CompleteRoot(c, F, s, p, root);
  }

  /**
   Outcome agreement: in every run, under any leader, any two honest nodes that
   have left the protocol returned the same value or both raised, or there is an
   explicit hash collision.
   */
  lemma OutcomeAgreement(c: Config, F: Faults, es: seq<Event>, s: System, p: nat, q: nat) returns (a: Bytes, b: Bytes)
    requires Valid(c, F) && Run(c, F, es) == Some(s) && p in F.honest && q in F.honest
    ensures p in s.nodes && q in s.nodes
    ensures s.nodes[p].outcome == Running || s.nodes[q].outcome == Running
         || s.nodes[p].outcome == s.nodes[q].outcome || Collision(c.H, a, b)
  {
    RunInv(c, F, es);
    a, b := [], [];
    if s.nodes[p].outcome != Running && s.nodes[q].outcome != Running {
      if ZfecSizes(c.K(), c.N) {
        var R := FinishedRow(c, F, s, p);
        var R' := FinishedRow(c, F, s, q);
        QuorumsMeet(c, F, s, R, R');
        a, b := SameVerdict(c, Row(c, s.nodes[p], R), Row(c, s.nodes[q], R), R);
      } else {
        NoCode(c, F, s, p);
        NoCode(c, F, s, q);
      }
    }
  }

  lemma NoCode(c: Config, F: Faults, s: System, p: nat)
    requires Valid(c, F) && Inv(c, F, s) && p in F.honest && !ZfecSizes(c.K(), c.N) && s.nodes[p].outcome != Running
    ensures s.nodes[p].outcome == Raised
  {
    assert OutcomeOk(c, s.nodes[p]);
  }

  // ---------- an honest leader ----------

  /** What the leader's input() gives it: the value of the first Send. */
  function FirstInput(es: seq<Event>): Option<Bytes> {
    if es == [] then None
    else
      match FirstInput(es[..|es| - 1])
      case Some(m) => Some(m)
      case None => if es[|es| - 1].Send? then Some(es[|es| - 1].input) else None
  }

  lemma {:induction false} InputGiven(c: Config, F: Faults, es: seq<Event>)
    requires Valid(c, F) && Run(c, F, es).Some? && c.leader in F.honest
    ensures Run(c, F, es).value.nodes.Keys == F.honest
    ensures Run(c, F, es).value.nodes[c.leader].input == FirstInput(es)
  {
    if es != [] {
      var init, e := es[..|es| - 1], es[|es| - 1];
      InputGiven(c, F, init);
      var n := Run(c, F, init).value.nodes[e.p];
      FromLeaderChange(c, n, e);
      if e.Deliver? {
        InputKept(c, n, e);
      }
    }
  }

  // Messages do not touch the input.
  lemma InputKept(c: Config, n: Node, e: Event)
    requires e.Deliver?
    ensures Local(c, n, e).0.input == n.input
  {
    match e.m
    case Val(_, _, _, _) =>
    case Echo(_, _, _) => EchoKeeps(c, e.p, n, e.from, e.m);
    case Ready(_, _) => ReadyKeeps(c, e.p, n, e.from, e.m);
  }

  lemma LeaderRootOf(c: Config, F: Faults, s: System, m: Bytes, root: Bytes)
    requires Valid(c, F) && Inv(c, F, s) && c.leader in F.honest && s.nodes[c.leader].input == Some(m)
    requires EchoQuorum(c, F, s.sent, root)
    ensures c.K() >= 1 && Encode(c.z, c.K(), c.N, m).Some?
    ensures |Encode(c.z, c.K(), c.N, m).value| == c.N >= 1 && root == Root(c.H, Encode(c.z, c.K(), c.N, m).value)
  {
    var Q :| QuorumFor(c, F, s.sent, root, Q);
    var h := HonestInBoth(F, Q, Q);
    EchoRoot(c, F, s, h, root);
    assert LeaderRoot(c, F, s, s.nodes[h]);
    EncodedSize(c, m);
  }

  /**
   Validity: with an honest leader whose first input is m, every honest node that leaves
   the protocol returns m if and only if the padding of m can be undone (always when
   K <= 128), or there is an explicit hash collision.
   */
  lemma LeaderValidity(c: Config, F: Faults, es: seq<Event>, s: System, m: Bytes, p: nat) returns (a: Bytes, b: Bytes)
    requires Valid(c, F) && Run(c, F, es) == Some(s) && p in F.honest && c.leader in F.honest
    requires ZfecSizes(c.K(), c.N) && FirstInput(es) == Some(m) && p in s.nodes && s.nodes[p].outcome != Running
    ensures (s.nodes[p].outcome == Returned(m) <==> PaddingUndone(c.K(), |m|)) || Collision(c.H, a, b)
    ensures c.K() <= 128 ==> s.nodes[p].outcome == Returned(m) || Collision(c.H, a, b)
  {
    RunInv(c, F, es);
    InputGiven(c, F, es);
    var root := FinishedRow(c, F, s, p);
    LeaderRootOf(c, F, s, m, root);
    var row := Row(c, s.nodes[p], root);
    a, b := RowBinds(c, row, Encode(c.z, c.K(), c.N, m).value);
    if !Collision(c.H, a, b) {
      assert PresentFrom(row, 0) == Present(row);
      PresentSize(row, c.K(), 0);
      RoundTrip(c.z, c.K(), c.N, m, row);
    }
  }

  // ---------- totality ----------

  /** Every message between honest nodes has been handled, or its receiver has left the protocol. */
  ghost predicate Quiescent(F: Faults, s: System)
    requires s.nodes.Keys == F.honest
  {
    forall p, q, m :: p in F.honest && q in F.honest && (q, m) in s.sent && (m.Val? ==> m.to == p) ==>
      s.nodes[p].outcome != Running || (p, q, m) in s.handled
  }

  // In a quiescent state a READY of an honest node has arrived wherever the protocol still runs.
  lemma ReadyArrived(c: Config, F: Faults, s: System, p: nat, h: nat, R: Bytes)
    requires Inv(c, F, s) && Quiescent(F, s) && p in F.honest && h in F.honest
    requires s.nodes[p].outcome == Running && (h, MakeReady(c, h, R)) in s.sent
    ensures h in Readies(s.nodes[p], R)
  {
    assert (p, h, MakeReady(c, h, R)) in s.handled;
    assert HandledOk(c, F, s, p, h, MakeReady(c, h, R));
  }

  lemma EchoArrived(c: Config, F: Faults, s: System, p: nat, h: nat, R: Bytes)
    requires Inv(c, F, s) && Quiescent(F, s) && p in F.honest && h in F.honest
    requires s.nodes[p].outcome == Running && HasEchoed(s.sent, h, R)
    ensures EchoFrom(c, s.nodes[p], R, h)
  {
    var branch, stripe :| (h, Echo(R, branch, stripe)) in s.sent;
    assert (p, h, Echo(R, branch, stripe)) in s.handled;
    assert HandledOk(c, F, s, p, h, Echo(R, branch, stripe));
  }

  // f + 1 READYs of honest nodes make every honest node send its READY.
  lemma EveryoneReady(c: Config, F: Faults, s: System, p: nat, R: Bytes, q: nat)
    requires Valid(c, F) && Inv(c, F, s) && Quiescent(F, s) && ZfecSizes(c.K(), c.N)
    requires p in F.honest && q in F.honest && |Readies(s.nodes[p], R)| >= 2 * c.f + 1
    ensures s.nodes[q].readied == Some(R)
  {
    CompleteRoot(c, F, s, p, R);
    assert ReadyOk(c, F, s.sent, s.nodes[p], R);
    var A := Readies(s.nodes[p], R) * F.honest;
    HonestPart(F, Readies(s.nodes[p], R));
    var n := s.nodes[q];
    if n.outcome == Running {
      forall h | h in A ensures h in Readies(n, R) {
        ReadyArrived(c, F, s, q, h, R);
      }
      SubsetSize(A, Readies(n, R));
      assert Amplified(c, n, R);
    } else {
      var root := FinishedRow(c, F, s, q);
      assert Amplified(c, n, root);
    }
    assert ReadiedOk(c, F, s.sent, n);
    QuorumsMeet(c, F, s, n.readied.value, R);
  }

  // A running node would by now be complete.
  lemma RunningComplete(c: Config, F: Faults, s: System, R: Bytes, q: nat)
    requires Valid(c, F) && Inv(c, F, s) && Quiescent(F, s) && q in F.honest
    requires forall h :: h in F.honest ==> s.nodes[h].readied == Some(R)
    requires EchoQuorum(c, F, s.sent, R) && s.nodes[q].outcome == Running
    ensures Complete(c, s.nodes[q], R)
  {
    var n := s.nodes[q];
    forall h | h in F.honest ensures h in Readies(n, R) {
      ReadyArrived(c, F, s, q, h, R);
    }
    SubsetSize(F.honest, Readies(n, R));
    var Q :| QuorumFor(c, F, s.sent, R, Q);
    HonestPart(F, Q);
    assert RowOk(c, F, s.sent, n, R);
    forall h | h in Q * F.honest ensures h in Present(Row(c, n, R)) {
      EchoArrived(c, F, s, q, h, R);
    }
    SubsetSize(Q * F.honest, Present(Row(c, n, R)));
  }

  /**
   Totality (plain variant): in a quiescent state, if one honest node has left
   the protocol then all have.
   */
  lemma Totality(c: Config, F: Faults, es: seq<Event>, s: System, p: nat, q: nat)
    requires Valid(c, F) && Run(c, F, es) == Some(s) && !c.provable && ZfecSizes(c.K(), c.N)
    requires s.nodes.Keys == F.honest && Quiescent(F, s)
    requires p in F.honest && q in F.honest && s.nodes[p].outcome != Running
    ensures s.nodes[q].outcome != Running
  {
    RunInv(c, F, es);
    var R := FinishedRow(c, F, s, p);
    forall h | h in F.honest ensures s.nodes[h].readied == Some(R) {
      EveryoneReady(c, F, s, p, R, h);
    }
    if s.nodes[q].outcome == Running {
      RunningComplete(c, F, s, R, q);
    }
  }
}
