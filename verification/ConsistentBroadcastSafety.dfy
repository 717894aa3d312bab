/**
 Consistent broadcast among N nodes, at most f of them Byzantine: accepted
 certificates of one instance are for one value, that of an honest leader.
 Signatures are ideal: a token of an honest signer is one that it has made.
 */
module ConsistentBroadcastSafety {
  import opened FiniteSets
  import opened Quorums
  import opened Options
  import opened ByteStrings
  import opened Signatures
  import opened ConsistentBroadcast

  datatype System = System(nodes: map<nat, Node>, sent: set<(nat, Message)>)

  datatype Event = Begin(p: nat, m: Bytes) | Deliver(p: nat, from: nat, msg: Message)

  ghost predicate Valid(c: Config, F: Faults) {
    Resilient(F) && F.N == c.N && F.f == c.f
  }

  function InitSystem(F: Faults): System {
    System(map p | p in F.honest :: ConsistentBroadcast.Init(), {})
  }

  /** The tokens of honest signers in a certificate were made by them. */
  predicate Unforged(F: Faults, s: System, sigmas: Certificate) {
    forall x :: x in sigmas && x.1.signer in F.honest ==>
      x.1.signer in s.nodes && s.nodes[x.1.signer].digestFromLeader == Some(x.1.digest)
  }

  /** A Byzantine sender may send any message made of existing tokens; an honest one only what it has sent. */
  predicate Enabled(c: Config, F: Faults, s: System, e: Event) {
    && e.p in F.honest && e.p in s.nodes
    && (e.Deliver? ==>
         && e.from < c.N && (e.from in F.honest ==> (e.from, e.msg) in s.sent)
         && (e.msg.Final? ==> Unforged(F, s, e.msg.sigmas)))
  }

  function Local(c: Config, n: Node, e: Event): (Node, seq<Message>) {
    match e
    case Begin(p, m) => Input(c, p, n, m)
    case Deliver(p, from, msg) => Receive(c, p, n, from, msg)
  }

  function Apply(c: Config, s: System, e: Event): System
    requires e.p in s.nodes
  {
    var (n', out) := Local(c, s.nodes[e.p], e);
    System(s.nodes[e.p := n'], s.sent + set m | m in out :: (e.p, m))
  }

  /** The state after the events es, if they are a run from the initial state. */
  ghost function Run(c: Config, F: Faults, es: seq<Event>): Option<System> {
    if es == [] then Some(InitSystem(F))
    else
      match Run(c, F, es[..|es| - 1])
      case None => None
      case Some(s) => if Enabled(c, F, s, es[|es| - 1]) then Some(Apply(c, s, es[|es| - 1])) else None
  }

  // ---------- the invariant ----------

  // What a node has output is a certified value; its certificate holds tokens that were made.
  ghost predicate OutputOk(c: Config, F: Faults, s: System, n: Node) {
    n.output.Some? ==> CbcValidate(c, n.output.value.0, n.output.value.1) && Unforged(F, s, n.output.value.1)
  }

  // Under an honest leader every signed digest is that of its input.
  ghost predicate LeaderOk(c: Config, F: Faults, s: System)
    requires s.nodes.Keys == F.honest
  {
    c.leader in F.honest ==>
      && (forall m :: (c.leader, Send(m)) in s.sent ==> s.nodes[c.leader].digestFromLeader == Some(c.digest(m)))
      && (forall p :: p in F.honest && s.nodes[p].digestFromLeader.Some? ==> s.nodes[p].digestFromLeader == s.nodes[c.leader].digestFromLeader)
  }

  // An ECHO carries the signature of its sender on the one digest it has signed.
  ghost predicate EchoOk(n: Node, p: nat, m: Message) {
    m.Echo? ==> n.digestFromLeader.Some? && m.sig == Signature(p, n.digestFromLeader.value)
  }

  ghost predicate EchoesOk(F: Faults, s: System)
    requires s.nodes.Keys == F.honest
  {
    forall x :: x in s.sent ==> x.0 in F.honest && EchoOk(s.nodes[x.0], x.0, x.1)
  }

  ghost predicate Inv(c: Config, F: Faults, s: System) {
    && s.nodes.Keys == F.honest
    && (forall p :: p in F.honest ==> OutputOk(c, F, s, s.nodes[p]))
    && EchoesOk(F, s)
    && LeaderOk(c, F, s)
  }

  // A node signs one digest for good.
  lemma DigestKept(c: Config, n: Node, e: Event)
    requires n.digestFromLeader.Some?
    ensures Local(c, n, e).0.digestFromLeader == n.digestFromLeader
  {
  }

  lemma UnforgedKept(c: Config, F: Faults, s: System, e: Event, sigmas: Certificate)
    requires s.nodes.Keys == F.honest && Enabled(c, F, s, e) && Unforged(F, s, sigmas)
    ensures Unforged(F, Apply(c, s, e), sigmas)
  {
    var s' := Apply(c, s, e);
    forall x | x in sigmas && x.1.signer in F.honest
      ensures x.1.signer in s'.nodes && s'.nodes[x.1.signer].digestFromLeader == Some(x.1.digest)
    {
      assert s.nodes[x.1.signer].digestFromLeader == Some(x.1.digest);
      if x.1.signer == e.p {
        DigestKept(c, s.nodes[e.p], e);
      }
    }
  }

  // A step changes the output only by a FINAL that passes.
  lemma OutputStep(c: Config, F: Faults, s: System, e: Event)
    requires Inv(c, F, s) && Enabled(c, F, s, e)
    ensures OutputOk(c, F, s, Local(c, s.nodes[e.p], e).0)
  {
    assert OutputOk(c, F, s, s.nodes[e.p]);
  }

  lemma LeaderStep(c: Config, F: Faults, s: System, e: Event)
    requires Inv(c, F, s) && Enabled(c, F, s, e)
    ensures LeaderOk(c, F, Apply(c, s, e))
  {
    var s', n, n' := Apply(c, s, e), s.nodes[e.p], Local(c, s.nodes[e.p], e).0;
    if c.leader in F.honest {
      if n.digestFromLeader.Some? {
        DigestKept(c, n, e);
      }
      forall m | (c.leader, Send(m)) in s'.sent ensures s'.nodes[c.leader].digestFromLeader == Some(c.digest(m)) {
        if (c.leader, Send(m)) !in s.sent {
          assert Send(m) in Local(c, n, e).1;
        }
      }
    }
  }

  lemma EchoStep(c: Config, F: Faults, s: System, e: Event)
    requires s.nodes.Keys == F.honest && EchoesOk(F, s) && Enabled(c, F, s, e)
    ensures EchoesOk(F, Apply(c, s, e))
  {
    var s', n := Apply(c, s, e), s.nodes[e.p];
    forall x | x in s'.sent ensures x.0 in F.honest && EchoOk(s'.nodes[x.0], x.0, x.1) {
      if x in s.sent {
        assert EchoOk(s.nodes[x.0], x.0, x.1);
        if x.0 == e.p && x.1.Echo? {
          DigestKept(c, n, e);
        }
      }
    }
  }

  lemma StepInv(c: Config, F: Faults, s: System, e: Event)
    requires Inv(c, F, s) && Enabled(c, F, s, e)
    ensures Inv(c, F, Apply(c, s, e))
  {
    var s' := Apply(c, s, e);
    OutputStep(c, F, s, e);
    forall p | p in F.honest ensures OutputOk(c, F, s', s'.nodes[p]) {
      var n := s'.nodes[p];
      assert OutputOk(c, F, s, n);
      if n.output.Some? {
        UnforgedKept(c, F, s, e, n.output.value.1);
      }
    }
    LeaderStep(c, F, s, e);
    EchoStep(c, F, s, e);
  }

  lemma {:induction false} RunInv(c: Config, F: Faults, es: seq<Event>)
    requires Valid(c, F) && Run(c, F, es).Some?
    ensures Inv(c, F, Run(c, F, es).value)
  {
    if es != [] {
      var init := es[..|es| - 1];
      RunInv(c, F, init);
      StepInv(c, F, Run(c, F, init).value, es[|es| - 1]);
    }
  }

  /** In every run an honest node signs one digest: any two of its CBC_ECHOs carry the same signature. */
  lemma SignsOnce(c: Config, F: Faults, es: seq<Event>, s: System, p: nat, sig: Signature, sig': Signature)
    requires Valid(c, F) && Run(c, F, es) == Some(s)
    requires (p, Echo(sig)) in s.sent && (p, Echo(sig')) in s.sent
    ensures sig == sig' && sig.signer == p && p in s.nodes && s.nodes[p].digestFromLeader == Some(sig.digest)
  {
    RunInv(c, F, es);
    assert EchoOk(s.nodes[p], p, Echo(sig)) && EchoOk(s.nodes[p], p, Echo(sig'));
  }

  // ---------- certificates ----------

  ghost predicate HasSigned(c: Config, s: System, q: nat, m: Bytes) {
    q in s.nodes && s.nodes[q].digestFromLeader == Some(c.digest(m))
  }

  // The signers of an accepted certificate: N - f nodes, whose honest ones have signed m.
  lemma CertificateSigners(c: Config, F: Faults, s: System, m: Bytes, sigmas: Certificate) returns (S: set<nat>)
    requires Valid(c, F) && CbcValidate(c, m, sigmas) && Unforged(F, s, sigmas)
    ensures S <= Below(F.N) && |S| >= F.N - F.f
    ensures forall q :: q in S && q in F.honest ==> HasSigned(c, s, q, m)
  {
    S := SignersOf(sigmas);
    forall x | x in SetOf(sigmas) ensures x.1 == Signature(x.0, c.digest(m)) && x.0 in Below(F.N) {
      var i :| 0 <= i < |sigmas| && sigmas[i] == x;
    }
    SignersSize(SetOf(sigmas), c.digest(m));
    forall q | q in S && q in F.honest ensures HasSigned(c, s, q, m) {
      var x :| x in SetOf(sigmas) && x.0 == q;
      assert x in sigmas;
    }
  }

  /** cbc_validate accepts exactly N - f tokens of different nodes for the value. */
  lemma ValidatesExactly(c: Config, m: Bytes, sigmas: Certificate)
    ensures CbcValidate(c, m, sigmas) <==> TokensOf(sigmas, c.N - c.f, c.N, c.digest(m))
  {
    if (forall i :: 0 <= i < |sigmas| ==> sigmas[i].1 == Signature(sigmas[i].0, c.digest(m))) {
      PairsOrSigners(sigmas, c.digest(m));
    }
  }

  /** Uniqueness: any two accepted certificates of one instance are for the same value, or its digests collide. */
  lemma CertificatesAgree(c: Config, F: Faults, s: System, m: Bytes, sigmas: Certificate, m': Bytes, sigmas': Certificate)
    requires Valid(c, F)
    requires CbcValidate(c, m, sigmas) && Unforged(F, s, sigmas)
    requires CbcValidate(c, m', sigmas') && Unforged(F, s, sigmas')
    ensures m == m' || Collision(c.digest, m, m')
  {
    var A := CertificateSigners(c, F, s, m, sigmas);
    var B := CertificateSigners(c, F, s, m', sigmas');
    var h := HonestInBoth(F, A, B);
    assert HasSigned(c, s, h, m) && HasSigned(c, s, h, m');
  }

  /** Consistency: an honest node's output is certified, and equals every value with an accepted certificate. */
  lemma OutputUnique(c: Config, F: Faults, es: seq<Event>, s: System, p: nat, m: Bytes, sigmas: Certificate)
    requires Valid(c, F) && Run(c, F, es) == Some(s) && p in F.honest && p in s.nodes && s.nodes[p].output.Some?
    requires CbcValidate(c, m, sigmas) && Unforged(F, s, sigmas)
    ensures var (v, cert) := s.nodes[p].output.value;
      CbcValidate(c, v, cert) && Unforged(F, s, cert) && (v == m || Collision(c.digest, v, m))
  {
    RunInv(c, F, es);
    assert OutputOk(c, F, s, s.nodes[p]);
    var (v, cert) := s.nodes[p].output.value;
    CertificatesAgree(c, F, s, v, cert, m, sigmas);
  }

  // ---------- an honest leader ----------

  /** What the leader's input() gives it: the value of its first Begin. */
  function FirstBegin(es: seq<Event>, leader: nat): Option<Bytes> {
    if es == [] then None
    else
      match FirstBegin(es[..|es| - 1], leader)
      case Some(m) => Some(m)
      case None =>
        var e := es[|es| - 1];
        if e.Begin? && e.p == leader then Some(e.m) else None
  }

  // What the leader has signed and sent, given its input.
  ghost predicate Leads(c: Config, s: System, input: Option<Bytes>)
    requires c.leader in s.nodes
  {
    match input
    case None => s.nodes[c.leader] == ConsistentBroadcast.Init() && forall m :: (c.leader, Send(m)) !in s.sent
    case Some(v) => s.nodes[c.leader].digestFromLeader == Some(c.digest(v)) && forall m :: (c.leader, Send(m)) in s.sent <==> m == v
  }

  // CBC_SEND is sent with the input only.
  lemma OnlyInputSends(c: Config, n: Node, e: Event, m: Bytes)
    requires Send(m) in Local(c, n, e).1
    ensures e == Begin(c.leader, m) && n.digestFromLeader.None?
  {
  }

  lemma {:induction false} RunLeads(c: Config, F: Faults, es: seq<Event>)
    requires Run(c, F, es).Some? && c.leader in F.honest
    ensures c.leader in Run(c, F, es).value.nodes && Leads(c, Run(c, F, es).value, FirstBegin(es, c.leader))
  {
    if es != [] {
      var init, e := es[..|es| - 1], es[|es| - 1];
      RunLeads(c, F, init);
      var s := Run(c, F, init).value;
      LeadsStep(c, F, s, e, FirstBegin(init, c.leader), FirstBegin(es, c.leader));
    }
  }

  lemma LeadsStep(c: Config, F: Faults, s: System, e: Event, input: Option<Bytes>, input': Option<Bytes>)
    requires Enabled(c, F, s, e) && c.leader in s.nodes && Leads(c, s, input)
    requires input' == if input.Some? then input else if e.Begin? && e.p == c.leader then Some(e.m) else None
    ensures Leads(c, Apply(c, s, e), input')
  {
    var s' := Apply(c, s, e);
    if input.Some? && e.p == c.leader {
      DigestKept(c, s.nodes[c.leader], e);
    }
    forall m | (c.leader, Send(m)) in s'.sent && (c.leader, Send(m)) !in s.sent
      ensures e == Begin(c.leader, m) && s.nodes[c.leader].digestFromLeader.None?
    {
      OnlyInputSends(c, s.nodes[e.p], e, m);
    }
    if input.None? && e.Begin? && e.p == c.leader {
      assert Send(e.m) in Local(c, s.nodes[e.p], e).1;
    }
  }

  /** An honest leader sends its first input in CBC_SEND and nothing else. */
  lemma SendsItsInput(c: Config, F: Faults, es: seq<Event>, s: System, m: Bytes)
    requires Run(c, F, es) == Some(s) && c.leader in F.honest
    ensures (c.leader, Send(m)) in s.sent <==> FirstBegin(es, c.leader) == Some(m)
  {
    RunLeads(c, F, es);
  }

  /** Validity: under an honest leader with first input m every accepted certificate is for m, or its digests collide. */
  lemma LeaderValue(c: Config, F: Faults, es: seq<Event>, s: System, m: Bytes, v: Bytes, sigmas: Certificate)
    requires Valid(c, F) && Run(c, F, es) == Some(s) && c.leader in F.honest && FirstBegin(es, c.leader) == Some(m)
    requires CbcValidate(c, v, sigmas) && Unforged(F, s, sigmas)
    ensures v == m || Collision(c.digest, v, m)
  {
    RunInv(c, F, es);
    RunLeads(c, F, es);
    var A := CertificateSigners(c, F, s, v, sigmas);
    var h := HonestInBoth(F, A, A);
    assert HasSigned(c, s, h, v);
  }
}
