/**
 An epoch of Mule among N nodes that may stop at any time but do not lie, with
 messages in any order or lost: every node's blocks are those of the leader, the
 certificates in VIEW_CHANGE messages always verify, and all inputs of the
 two-value agreement are two consecutive slots.
 */
module FastPathSafety {
  import opened FiniteSets
  import opened Quorums
  import opened Options
  import opened ByteStrings
  import opened Signatures
  import opened FastPath
  import TwoValueAgreement
  import TwoValueSafety

  datatype System = System(nodes: map<nat, Node>, sent: set<(nat, Message)>)

  /** A node that crashes takes no more steps. */
  datatype Event =
    | Deliver(p: nat, from: nat, m: Message, batch: Bytes)
    | Enter(p: nat)
    | Proceed(p: nat)
    | Timeout(p: nat, outer: bool, lost: bool)
    | Leave(p: nat)

  predicate Valid(c: Config) {
    c.N >= 3 * c.f + 1 && c.leader < c.N
  }

  function InitSystem(c: Config): System {
    System(map p | p in Below(c.N) :: FastPath.Init(c), {})
  }

  /** Only what was sent arrives, and a VIEW_CHANGE arrives at most once. */
  predicate Enabled(c: Config, s: System, e: Event) {
    && e.p < c.N && e.p in s.nodes
    && (e.Deliver? ==> (e.from, e.m) in s.sent && (e.m.ViewChange? ==> e.from !in s.nodes[e.p].vc.from))
  }

  function Local(c: Config, n: Node, e: Event): (Node, seq<Message>) {
    match e
    case Deliver(p, from, m, batch) => Receive(c, p, n, from, m, batch)
    case Enter(p) => EnterSlot(c, p, n)
    case Proceed(_) => (FinishSlot(c, n), [])
    case Timeout(_, outer, lost) => (OnTimeout(n, outer, lost), [])
    case Leave(_) => SendViewChange(c, n)
  }

  function Sending(p: nat, out: seq<Message>): set<(nat, Message)> {
    set m | m in out :: (p, m)
  }

  function Apply(c: Config, s: System, e: Event): System
    requires e.p in s.nodes
  {
    var (n', out) := Local(c, s.nodes[e.p], e);
    System(s.nodes[e.p := n'], s.sent + Sending(e.p, out))
  }

  /** The state after the events es, if they are a run from the initial state. */
  ghost function Run(c: Config, es: seq<Event>): Option<System> {
    if es == [] then Some(InitSystem(c))
    else
      match Run(c, es[..|es| - 1])
      case None => None
      case Some(s) => if Enabled(c, s, es[|es| - 1]) then Some(Apply(c, s, es[|es| - 1])) else None
  }

  // ---------- the chain that a leader's blocks make ----------

  /** hash_prev in slot k: the hash of the header of block k - 1. */
  function HashAt(c: Config, L: seq<Block>, k: nat): Bytes
    requires 1 <= k <= |L| + 1
  {
    if k == 1 then c.genesis else c.hashHeader(HeaderOf(c, k - 1, L[k - 2]))
  }

  function HeaderOf(c: Config, k: nat, b: Block): Header {
    Header(k, b.prev, c.hashBatch(b.batch))
  }

  function TipOf(b: Block): Tip {
    Tip(b.slot, b.prev, b.batch)
  }

  function DecisionOf(b: Block): Decision {
    Decision(b.prev, b.cert, b.batch)
  }

  /** What a node holds in slot k, if the leader's blocks are L. */
  function ChainAt(c: Config, L: seq<Block>, k: nat): Chain
    requires 1 <= k <= |L| + 1
  {
    Chain(
      k,
      HashAt(c, L, k),
      if k >= 2 then Some(L[k - 2]) else None,
      if k >= 3 then Some(TipOf(L[k - 3])) else None,
      if k >= 4 then Some(TipOf(L[k - 4])) else None,
      if k >= 3 then Some((TipOf(L[k - 3]), L[k - 2].cert)) else None)
  }

  /** The slot that a VIEW_CHANGE sent in slot k carries. */
  function TipSlot(k: nat): nat {
    if k >= 3 then k - 2 else 0
  }

  // Block i + 1 of the leader links to the one before and is certified by N - f signers.
  ghost predicate BlockOk(c: Config, L: seq<Block>, i: nat)
    requires i < |L|
  {
    && L[i].slot == i + 1 && L[i].prev == HashAt(c, L, i + 1) && Certified(c, L[i].prev, L[i].cert)
    && |SignersOf(L[i].cert)| >= c.N - c.f
  }

  ghost predicate LogOk(c: Config, L: seq<Block>) {
    forall i: nat :: i < |L| ==> BlockOk(c, L, i)
  }

  // ---------- the invariant ----------

  ghost predicate OnChain(c: Config, L: seq<Block>, n: Node) {
    && 1 <= n.chain.slot <= |L| + 1 && n.chain == ChainAt(c, L, n.chain.slot) && n.phase != Broken
    && forall k :: k in n.decides ==> 1 <= k <= |L| && n.decides[k] == DecisionOf(L[k - 1])
  }

  // The votes that the leader has counted in its slot.
  ghost predicate TallyOk(digest: Bytes, voters: set<nat>, votes: Certificate) {
    && SignersOf(votes) == voters && |votes| == |voters|
    && forall i :: 0 <= i < |votes| ==> votes[i].1 == Signature(votes[i].0, digest)
  }

  ghost predicate LeadOk(c: Config, n: Node) {
    var l := n.lead;
    && (forall k: nat :: k in l.sent <==> 1 <= k <= |l.log|)
    && TallyOk(n.chain.hashPrev, VotersAt(l, n.chain.slot), VotesAt(l, n.chain.slot))
    && (forall k: nat :: k > n.chain.slot ==> VotersAt(l, k) == {} && VotesAt(l, k) == [])
  }

  // q has been in slot k.
  predicate Reached(s: System, q: nat, k: nat) {
    q in s.nodes && s.nodes[q].chain.slot >= k
  }

  ghost predicate VotersReached(s: System, l: Leading) {
    forall k: nat, q :: q in VotersAt(l, k) ==> Reached(s, q, k)
  }

  ghost predicate SignersReached(s: System, L: seq<Block>) {
    forall i: nat, q :: i < |L| && q in SignersOf(L[i].cert) ==> Reached(s, q, i + 1)
  }

  // A VIEW_CHANGE was sent after the fast path had ended, or after the node's own collection was complete.
  ghost predicate LeftOk(n: Node) {
    n.sentAt.Some? ==> n.sentAt.value <= n.chain.slot && (HasEnded(n) || n.vc.input.Some?)
  }

  ghost predicate HasEnded(n: Node) {
    n.phase == Ended && n.sentAt == Some(n.chain.slot)
  }

  // The VIEW_CHANGE messages that a node has counted.
  ghost predicate CountOk(c: Config, s: System, vc: ViewChanges) {
    && vc.counter == |vc.from| && vc.from <= Below(c.N)
    && (forall q :: q in vc.from ==> LeftWithin(s, q, vc.maxSlot))
    && (vc.maxSlot == 0 || exists q :: q in vc.from && LeftAt(s, q, vc.maxSlot))
    && (if vc.input.Some? then vc.input.value == vc.maxSlot && vc.counter >= c.N - c.f else vc.counter < c.N - c.f)
  }

  ghost predicate LeftWithin(s: System, q: nat, m: nat) {
    q in s.nodes && s.nodes[q].sentAt.Some? && TipSlot(s.nodes[q].sentAt.value) <= m
  }

  ghost predicate LeftAt(s: System, q: nat, m: nat) {
    q in s.nodes && s.nodes[q].sentAt.Some? && TipSlot(s.nodes[q].sentAt.value) == m
  }

  // Once some collection is complete, N - f nodes have left the fast path for good.
  ghost predicate Parted(c: Config, s: System) {
    (exists p :: p in s.nodes && s.nodes[p].vc.input.Some?) ==> exists Q :: EndedQuorum(c, s, Q)
  }

  ghost predicate EndedQuorum(c: Config, s: System, Q: set<nat>) {
    Q <= Below(c.N) && |Q| >= c.N - c.f && forall q :: q in Q ==> q in s.nodes && HasEnded(s.nodes[q])
  }

  ghost predicate SentOk(c: Config, L: seq<Block>, n: Node, q: nat, m: Message) {
    match m
    case Vote(k, h, sig) => 1 <= k <= n.chain.slot <= |L| + 1 && h == HashAt(c, L, k) && sig == Signature(q, h)
    case Decide(k, d) => 1 <= k <= |L| && d == DecisionOf(L[k - 1])
    case ViewChange(_) => n.sentAt.Some? && 1 <= n.sentAt.value <= |L| + 1 && m == TipMessage(c, ChainAt(c, L, n.sentAt.value))
  }

  function LogOf(c: Config, s: System): seq<Block>
    requires c.leader in s.nodes
  {
    s.nodes[c.leader].lead.log
  }

  ghost predicate NodeInv(c: Config, s: System, L: seq<Block>, n: Node) {
    OnChain(c, L, n) && LeftOk(n) && CountOk(c, s, n.vc)
  }

  ghost predicate Inv(c: Config, s: System) {
    && s.nodes.Keys == Below(c.N) && c.leader in s.nodes
    && var L := LogOf(c, s);
       && LogOk(c, L) && SignersReached(s, L)
       && LeadOk(c, s.nodes[c.leader]) && VotersReached(s, s.nodes[c.leader].lead)
       && (forall p :: p in s.nodes ==> NodeInv(c, s, L, s.nodes[p]))
       && (forall x :: x in s.sent ==> x.0 in s.nodes && SentOk(c, L, s.nodes[x.0], x.0, x.1))
       && Parted(c, s)
  }

  // ---------- chains only grow ----------

  lemma ChainKept(c: Config, L: seq<Block>, L': seq<Block>, k: nat)
    requires L <= L' && 1 <= k <= |L| + 1
    ensures HashAt(c, L', k) == HashAt(c, L, k) && ChainAt(c, L', k) == ChainAt(c, L, k)
  {
  }

  lemma LogKept(c: Config, L: seq<Block>, L': seq<Block>, n: Node, q: nat, m: Message)
    requires L <= L' && OnChain(c, L, n)
    ensures OnChain(c, L', n)
    ensures SentOk(c, L, n, q, m) ==> SentOk(c, L', n, q, m)
  {
    ChainKept(c, L, L', n.chain.slot);
    if m.Vote? && 1 <= m.slot <= |L| + 1 {
      ChainKept(c, L, L', m.slot);
    }
    if m.ViewChange? && n.sentAt.Some? && 1 <= n.sentAt.value <= |L| + 1 {
      ChainKept(c, L, L', n.sentAt.value);
    }
  }

  /** One slot: the chain of slot k + 1 comes from that of slot k and the leader's block k. */
  lemma AdvanceChain(c: Config, L: seq<Block>, k: nat)
    requires 1 <= k <= |L| && LogOk(c, L)
    ensures SlotsOk(ChainAt(c, L, k)) && Advance(c, ChainAt(c, L, k), DecisionOf(L[k - 1])) == ChainAt(c, L, k + 1)
  {
    assert BlockOk(c, L, k - 1);
    if k >= 2 {
      assert BlockOk(c, L, k - 2);
    }
    if k >= 3 {
      assert BlockOk(c, L, k - 3);
    }
  }

  /** The certificate in a VIEW_CHANGE is one for the hash of the header beside it. */
  lemma TipCertified(c: Config, L: seq<Block>, k: nat)
    requires 1 <= k <= |L| + 1 && LogOk(c, L)
    ensures TipAccepted(c, TipMessage(c, ChainAt(c, L, k)).tip)
    ensures var tip := TipMessage(c, ChainAt(c, L, k)).tip; (if tip.Some? then tip.value.0.slot else 0) == TipSlot(k)
    ensures k >= 3 ==> TipMessage(c, ChainAt(c, L, k)) == ViewChange(Some((HeaderOf(c, k - 2, L[k - 3]), L[k - 2].cert)))
  {
    if k >= 3 {
      assert BlockOk(c, L, k - 2) && BlockOk(c, L, k - 3);
    }
  }

  // ---------- one step ----------

  // What never goes back at a node.
  ghost predicate Later(n: Node, n': Node) {
    && n.chain.slot <= n'.chain.slot && (n.sentAt.Some? ==> n'.sentAt == n.sentAt) && (HasEnded(n) ==> HasEnded(n'))
    && (n.vc.input.Some? ==> n'.vc.input == n.vc.input) && n.lead.log <= n'.lead.log
  }

  function NewLog(c: Config, s: System, p: nat, n': Node): seq<Block>
    requires c.leader in s.nodes
  {
    if p == c.leader then n'.lead.log else LogOf(c, s)
  }

  // What one step of node p must establish.
  ghost predicate StepOk(c: Config, s: System, p: nat, n': Node, out: seq<Message>)
    requires c.leader in s.nodes && p in s.nodes
  {
    var L := NewLog(c, s, p, n');
    && Later(s.nodes[p], n') && LogOk(c, L) && SignersReached(s, L)
    && (p == c.leader ==> LeadOk(c, n') && VotersReached(s, n'.lead))
    && NodeInv(c, s, L, n')
    && forall m :: m in out ==> SentOk(c, L, n', p, m)
  }

  // What a step that decides and counts nothing must establish, given the leader's blocks L.
  ghost predicate QuietOk(c: Config, L: seq<Block>, p: nat, n: Node, n': Node, out: seq<Message>) {
    && n'.lead == n.lead && n'.vc == n.vc && Later(n, n') && OnChain(c, L, n') && LeftOk(n')
    && (p == c.leader ==> LeadOk(c, n'))
    && forall m :: m in out ==> SentOk(c, L, n', p, m)
  }

  ghost predicate QuietFrom(c: Config, L: seq<Block>, p: nat, n: Node) {
    OnChain(c, L, n) && LeftOk(n) && (p == c.leader ==> LeadOk(c, n))
  }

  lemma QuietStep(c: Config, s: System, p: nat, n': Node, out: seq<Message>)
    requires Inv(c, s) && p in s.nodes && QuietOk(c, LogOf(c, s), p, s.nodes[p], n', out)
    ensures StepOk(c, s, p, n', out)
  {
    assert NodeInv(c, s, LogOf(c, s), s.nodes[p]);
  }

  lemma QuietStart(c: Config, s: System, p: nat)
    requires Inv(c, s) && p in s.nodes
    ensures QuietFrom(c, LogOf(c, s), p, s.nodes[p])
  {
    assert NodeInv(c, s, LogOf(c, s), s.nodes[p]);
  }

  lemma EnterStep(c: Config, L: seq<Block>, p: nat, n: Node)
    requires QuietFrom(c, L, p, n)
    ensures var (n', out) := EnterSlot(c, p, n); QuietOk(c, L, p, n, n', out)
  {
  }

  lemma TimeoutStep(c: Config, L: seq<Block>, p: nat, n: Node, outer: bool, lost: bool)
    requires QuietFrom(c, L, p, n)
    ensures QuietOk(c, L, p, n, OnTimeout(n, outer, lost), [])
  {
  }

  lemma LeaveStep(c: Config, L: seq<Block>, p: nat, n: Node)
    requires QuietFrom(c, L, p, n)
    ensures var (n', out) := SendViewChange(c, n); QuietOk(c, L, p, n, n', out)
  {
  }

  lemma ProceedStep(c: Config, L: seq<Block>, p: nat, n: Node)
    requires QuietFrom(c, L, p, n) && LogOk(c, L)
    ensures QuietOk(c, L, p, n, FinishSlot(c, n), [])
  {
    if n.phase == Waiting && n.chain.slot in n.decides {
      AdvanceChain(c, L, n.chain.slot);
    }
  }

  lemma DecideStep(c: Config, L: seq<Block>, p: nat, n: Node, k: nat, d: Decision)
    requires QuietFrom(c, L, p, n) && 1 <= k <= |L| && d == DecisionOf(L[k - 1])
    ensures QuietOk(c, L, p, n, OnDecide(c, p, n, k, d), [])
  {
  }

  // A counted VIEW_CHANGE.
  lemma CountStep(c: Config, s: System, L: seq<Block>, vc: ViewChanges, from: nat, tip: Option<(Header, Certificate)>)
    requires c.N > c.f && s.nodes.Keys == Below(c.N) && LogOk(c, L) && CountOk(c, s, vc)
    requires from in s.nodes && SentOk(c, L, s.nodes[from], from, ViewChange(tip)) && from !in vc.from
    ensures CountOk(c, s, OnViewChange(c, vc, from, tip))
    ensures OnViewChange(c, vc, from, tip).input.Some? && vc.input.None? ==> |OnViewChange(c, vc, from, tip).from| >= c.N - c.f
  {
    var k := s.nodes[from].sentAt.value;
    TipCertified(c, L, k);
    if vc.input.None? {
      var vc' := OnViewChange(c, vc, from, tip);
      assert LeftAt(s, from, TipSlot(k)) && vc'.maxSlot == Max(vc.maxSlot, TipSlot(k));
      forall q | q in vc'.from ensures LeftWithin(s, q, vc'.maxSlot) {
        if q != from {
          assert LeftWithin(s, q, vc.maxSlot);
        }
      }
      if vc'.maxSlot == vc.maxSlot != 0 {
        var q :| q in vc.from && LeftAt(s, q, vc.maxSlot);
        assert q in vc'.from;
      }
    }
  }

  lemma ViewChangeStep(c: Config, s: System, p: nat, from: nat, tip: Option<(Header, Certificate)>)
    requires c.N > c.f && Inv(c, s) && p in s.nodes && (from, ViewChange(tip)) in s.sent && from !in s.nodes[p].vc.from
    ensures StepOk(c, s, p, s.nodes[p].(vc := OnViewChange(c, s.nodes[p].vc, from, tip)), [])
  {
    var L := LogOf(c, s);
    assert NodeInv(c, s, L, s.nodes[p]);
    assert SentOk(c, L, s.nodes[from], from, ViewChange(tip));
    CountStep(c, s, L, s.nodes[p].vc, from, tip);
  }

  lemma AddVoteOk(digest: Bytes, l: Leading, k: nat, from: nat)
    requires TallyOk(digest, VotersAt(l, k), VotesAt(l, k)) && from !in VotersAt(l, k)
    ensures var l' := AddVote(l, k, from, Signature(from, digest)); TallyOk(digest, VotersAt(l', k), VotesAt(l', k))
  {
    SignersMore(VotesAt(l, k), from, Signature(from, digest));
  }

  // The leader's votes reach N - f: one more block.
  lemma BlockAdded(c: Config, L: seq<Block>, b: Block)
    requires LogOk(c, L) && b.slot == |L| + 1 && b.prev == HashAt(c, L, |L| + 1)
    requires Certified(c, b.prev, b.cert) && |SignersOf(b.cert)| >= c.N - c.f
    ensures LogOk(c, L + [b])
  {
    var L' := L + [b];
    forall i: nat | i < |L'| ensures BlockOk(c, L', i) {
      ChainKept(c, L, L', i + 1);
      if i < |L| {
        assert BlockOk(c, L, i);
      }
    }
  }

  // A vote that does not lead to a decision.
  lemma VoteCounted(c: Config, s: System, p: nat, n: Node, l: Leading)
    requires Inv(c, s) && p == c.leader && n == s.nodes[p] && l.log == n.lead.log
    requires LeadOk(c, n.(lead := l)) && VotersReached(s, l)
    ensures StepOk(c, s, p, n.(lead := l), [])
  {
    assert NodeInv(c, s, LogOf(c, s), n);
  }

  lemma CountedLead(c: Config, n: Node, from: nat)
    requires LeadOk(c, n) && from !in VotersAt(n.lead, n.chain.slot)
    ensures LeadOk(c, n.(lead := AddVote(n.lead, n.chain.slot, from, Signature(from, n.chain.hashPrev))))
  {
    AddVoteOk(n.chain.hashPrev, n.lead, n.chain.slot, from);
    var l := AddVote(n.lead, n.chain.slot, from, Signature(from, n.chain.hashPrev));
    forall k: nat | k > n.chain.slot ensures VotersAt(l, k) == {} && VotesAt(l, k) == [] {
      assert VotersAt(l, k) == VotersAt(n.lead, k) && VotesAt(l, k) == VotesAt(n.lead, k);
    }
  }

  lemma VoteStep(c: Config, s: System, p: nat, from: nat, k: nat, h: Bytes, sig: Signature, batch: Bytes)
    requires Inv(c, s) && p in s.nodes && Reached(s, from, k)
    ensures var (n', out) := OnVote(c, p, s.nodes[p], from, k, h, sig, batch); StepOk(c, s, p, n', out)
  {
    var n, L := s.nodes[p], LogOf(c, s);
    if GoodVote(c, p, n, from, k, h, sig) {
      var l := AddVote(n.lead, k, from, sig);
      CountedLead(c, n, from);
      VoteReached(s, n.lead, l, from, k, sig);
      if |VotersAt(l, k)| == c.N - c.f && k !in n.lead.sent {
        NewBlock(c, s, n, l, OnVote(c, p, n, from, k, h, sig, batch).0.lead.log[|L|]);
      } else {
        VoteCounted(c, s, p, n, l);
      }
    } else {
      QuietStart(c, s, p);
      QuietStep(c, s, p, n, []);
    }
  }

  // The leader's votes l reach N - f: it decides b.
  lemma NewBlock(c: Config, s: System, n: Node, l: Leading, b: Block)
    requires Inv(c, s) && n == s.nodes[c.leader] && l == n.lead.(voters := l.voters, votes := l.votes)
    requires LeadOk(c, n.(lead := l)) && VotersReached(s, l) && n.chain.slot !in n.lead.sent
    requires |VotersAt(l, n.chain.slot)| == c.N - c.f
    requires b == Block(n.chain.slot, n.chain.hashPrev, VotesAt(l, n.chain.slot), b.batch)
    ensures StepOk(c, s, c.leader, Deciding(n, l, b), [Decide(b.slot, DecisionOf(b))])
  {
    var L := LogOf(c, s);
    assert NodeInv(c, s, L, n);
    BlockAdded(c, L, b);
    BlockReached(s, L, b, l, n.chain.slot);
    DecidedStep(c, s, n, l, b);
  }

  function Deciding(n: Node, l: Leading, b: Block): Node {
    n.(lead := l.(sent := l.sent + {b.slot}, log := l.log + [b]), decides := n.decides[b.slot := DecisionOf(b)])
  }

  lemma VoteReached(s: System, l: Leading, l': Leading, from: nat, k: nat, sig: Signature)
    requires VotersReached(s, l) && Reached(s, from, k) && l' == AddVote(l, k, from, sig)
    ensures VotersReached(s, l')
  {
    forall j: nat, q | q in VotersAt(l', j) ensures Reached(s, q, j) {
      assert q in VotersAt(l, j) || (j == k && q == from);
    }
  }

  lemma BlockReached(s: System, L: seq<Block>, b: Block, l: Leading, k: nat)
    requires SignersReached(s, L) && VotersReached(s, l) && SignersOf(b.cert) == VotersAt(l, k) && k == |L| + 1
    ensures SignersReached(s, L + [b])
  {
    forall i: nat, q | i < |L + [b]| && q in SignersOf((L + [b])[i].cert) ensures Reached(s, q, i + 1) {
      if i < |L| {
        assert q in SignersOf(L[i].cert);
      } else {
        assert q in VotersAt(l, k);
      }
    }
  }

  // The DECIDE that goes with the new block b of the leader.
  lemma DecidedStep(c: Config, s: System, n: Node, l: Leading, b: Block)
    requires c.leader in s.nodes && n == s.nodes[c.leader] && OnChain(c, n.lead.log, n) && LeftOk(n) && CountOk(c, s, n.vc)
    requires LogOk(c, n.lead.log + [b]) && SignersReached(s, n.lead.log + [b]) && LeadOk(c, n.(lead := l)) && VotersReached(s, l)
    requires b.slot == n.chain.slot == |l.log| + 1 && l.log == n.lead.log
    ensures StepOk(c, s, c.leader, Deciding(n, l, b), [Decide(b.slot, DecisionOf(b))])
  {
    DecidedChain(c, n.lead.log, n, l, b);
    DecidedLead(c, n, l, b);
    LeaderStep(c, s, n, Deciding(n, l, b), [Decide(b.slot, DecisionOf(b))]);
  }

  // A step of the leader, from its parts.
  lemma LeaderStep(c: Config, s: System, n: Node, n': Node, out: seq<Message>)
    requires c.leader in s.nodes && n == s.nodes[c.leader] && n'.vc == n.vc && CountOk(c, s, n.vc)
    requires Later(n, n') && LogOk(c, n'.lead.log) && SignersReached(s, n'.lead.log)
    requires LeadOk(c, n') && VotersReached(s, n'.lead) && OnChain(c, n'.lead.log, n') && LeftOk(n')
    requires forall m :: m in out ==> SentOk(c, n'.lead.log, n', c.leader, m)
    ensures StepOk(c, s, c.leader, n', out)
  {
  }

  lemma DecidedChain(c: Config, L: seq<Block>, n: Node, l: Leading, b: Block)
    requires OnChain(c, L, n) && LeftOk(n) && b.slot == |L| + 1
    ensures OnChain(c, L + [b], Deciding(n, l, b)) && LeftOk(Deciding(n, l, b))
  {
    LogKept(c, L, L + [b], n, 0, Decide(0, DecisionOf(b)));
  }

  lemma DecidedLead(c: Config, n: Node, l: Leading, b: Block)
    requires LeadOk(c, n.(lead := l)) && b.slot == n.chain.slot == |l.log| + 1
    ensures LeadOk(c, Deciding(n, l, b))
  {
    var l' := Deciding(n, l, b).lead;
    forall k: nat | k > n.chain.slot ensures VotersAt(l', k) == {} && VotesAt(l', k) == [] {
      assert VotersAt(l', k) == VotersAt(l, k) && VotesAt(l', k) == VotesAt(l, k);
    }
  }

  lemma SentFact(c: Config, s: System, q: nat, m: Message)
    requires Inv(c, s) && (q, m) in s.sent
    ensures q in s.nodes && q < c.N && SentOk(c, LogOf(c, s), s.nodes[q], q, m)
  {
    assert SentOk(c, LogOf(c, s), s.nodes[q], q, m);
  }

  lemma DecideReceived(c: Config, s: System, p: nat, k: nat, d: Decision)
    requires Inv(c, s) && p in s.nodes && IsDecision(c, s, k, d)
    ensures StepOk(c, s, p, OnDecide(c, p, s.nodes[p], k, d), [])
  {
    QuietStart(c, s, p);
    DecideStep(c, LogOf(c, s), p, s.nodes[p], k, d);
    QuietStep(c, s, p, OnDecide(c, p, s.nodes[p], k, d), []);
  }

  ghost predicate IsDecision(c: Config, s: System, k: nat, d: Decision) {
    c.leader in s.nodes && 1 <= k <= |LogOf(c, s)| && d == DecisionOf(LogOf(c, s)[k - 1])
  }

  lemma DecideFact(c: Config, s: System, q: nat, m: Message)
    requires Inv(c, s) && (q, m) in s.sent && m.Decide?
    ensures IsDecision(c, s, m.slot, m.decision)
  {
    SentFact(c, s, q, m);
  }

  lemma Ignored(c: Config, s: System, p: nat)
    requires Inv(c, s) && p in s.nodes
    ensures StepOk(c, s, p, s.nodes[p], [])
  {
    QuietStart(c, s, p);
    QuietStep(c, s, p, s.nodes[p], []);
  }

  lemma ReceiveStep(c: Config, s: System, p: nat, from: nat, m: Message, batch: Bytes)
    requires c.N > c.f && Inv(c, s) && p in s.nodes && (from, m) in s.sent && (m.ViewChange? ==> from !in s.nodes[p].vc.from)
    ensures var (n', out) := Receive(c, p, s.nodes[p], from, m, batch); StepOk(c, s, p, n', out)
  {
    if m.ViewChange? {
      ViewChangeStep(c, s, p, from, m.tip);
    } else if !s.nodes[p].receiving {
      Ignored(c, s, p);
    } else if m.Vote? {
      ReceiveVote(c, s, p, from, m, batch);
    } else {
      ReceiveDecide(c, s, p, from, m, batch);
    }
  }

  lemma ReceiveVote(c: Config, s: System, p: nat, from: nat, m: Message, batch: Bytes)
    requires Inv(c, s) && p in s.nodes && (from, m) in s.sent && m.Vote? && s.nodes[p].receiving
    ensures var (n', out) := Receive(c, p, s.nodes[p], from, m, batch); StepOk(c, s, p, n', out)
  {
    SentFact(c, s, from, m);
    VoteStep(c, s, p, from, m.slot, m.prev, m.sig, batch);
  }

  lemma ReceiveDecide(c: Config, s: System, p: nat, from: nat, m: Message, batch: Bytes)
    requires Inv(c, s) && p in s.nodes && (from, m) in s.sent && m.Decide? && s.nodes[p].receiving
    ensures var (n', out) := Receive(c, p, s.nodes[p], from, m, batch); StepOk(c, s, p, n', out)
  {
    DecideFact(c, s, from, m);
    DecideReceived(c, s, p, m.slot, m.decision);
  }

  lemma LocalStep(c: Config, s: System, e: Event)
    requires Valid(c) && Inv(c, s) && Enabled(c, s, e)
    ensures var (n', out) := Local(c, s.nodes[e.p], e); StepOk(c, s, e.p, n', out)
  {
    var n, L := s.nodes[e.p], LogOf(c, s);
    QuietStart(c, s, e.p);
    match e
    case Deliver(p, from, m, batch) => ReceiveStep(c, s, p, from, m, batch);
    case Enter(p) =>
      EnterStep(c, L, p, n);
      QuietStep(c, s, p, EnterSlot(c, p, n).0, EnterSlot(c, p, n).1);
    case Proceed(p) =>
      ProceedStep(c, L, p, n);
      QuietStep(c, s, p, FinishSlot(c, n), []);
    case Timeout(p, outer, lost) =>
      TimeoutStep(c, L, p, n, outer, lost);
      QuietStep(c, s, p, OnTimeout(n, outer, lost), []);
    case Leave(p) =>
      LeaveStep(c, L, p, n);
      QuietStep(c, s, p, SendViewChange(c, n).0, SendViewChange(c, n).1);
  }

  // ---------- the whole system ----------

  lemma CountKept(c: Config, s: System, s': System, vc: ViewChanges)
    requires CountOk(c, s, vc)
    requires forall q :: q in s.nodes ==> q in s'.nodes && (s.nodes[q].sentAt.Some? ==> s'.nodes[q].sentAt == s.nodes[q].sentAt)
    ensures CountOk(c, s', vc)
  {
    forall q | q in vc.from ensures LeftWithin(s', q, vc.maxSlot) {
      assert LeftWithin(s, q, vc.maxSlot);
    }
    if vc.maxSlot != 0 {
      var q :| q in vc.from && LeftAt(s, q, vc.maxSlot);
      assert LeftAt(s', q, vc.maxSlot);
    }
  }

  // The first complete collection: everyone counted has left the fast path.
  lemma FirstParted(c: Config, s: System, s': System, p: nat, n': Node)
    requires s.nodes.Keys == Below(c.N) && p in s.nodes && s'.nodes == s.nodes[p := n'] && Later(s.nodes[p], n')
    requires forall q :: q in s.nodes ==> LeftOk(s.nodes[q])
    requires CountOk(c, s, n'.vc) && n'.vc.input.Some? && forall q :: q in s.nodes ==> s.nodes[q].vc.input.None?
    ensures EndedQuorum(c, s', n'.vc.from)
  {
    forall q | q in n'.vc.from ensures q in s'.nodes && HasEnded(s'.nodes[q]) {
      assert LeftWithin(s, q, n'.vc.maxSlot);
      assert LeftOk(s.nodes[q]);
    }
  }

  lemma PartedKept(c: Config, s: System, s': System, p: nat, n': Node)
    requires s.nodes.Keys == Below(c.N) && p in s.nodes && s'.nodes == s.nodes[p := n'] && Later(s.nodes[p], n')
    requires Parted(c, s) && CountOk(c, s, n'.vc) && forall q :: q in s.nodes ==> LeftOk(s.nodes[q])
    ensures Parted(c, s')
  {
    if exists q :: q in s.nodes && s.nodes[q].vc.input.Some? {
      var Q :| EndedQuorum(c, s, Q);
      assert EndedQuorum(c, s', Q);
    } else if n'.vc.input.Some? {
      FirstParted(c, s, s', p, n');
    }
  }

  lemma NodeKept(c: Config, s: System, s': System, L: seq<Block>, L': seq<Block>, p: nat, n': Node, q: nat)
    requires p in s.nodes && s'.nodes == s.nodes[p := n'] && Later(s.nodes[p], n') && L <= L' && q in s.nodes
    requires if q == p then NodeInv(c, s, L', n') else NodeInv(c, s, L, s.nodes[q])
    ensures NodeInv(c, s', L', s'.nodes[q])
  {
    if q != p {
      LogKept(c, L, L', s.nodes[q], q, ViewChange(None));
    }
    CountKept(c, s, s', s'.nodes[q].vc);
  }

  lemma ReachedKept(s: System, s': System, p: nat, n': Node, L: seq<Block>, l: Leading)
    requires p in s.nodes && s'.nodes == s.nodes[p := n'] && Later(s.nodes[p], n')
    ensures SignersReached(s, L) ==> SignersReached(s', L)
    ensures VotersReached(s, l) ==> VotersReached(s', l)
  {
    forall q, k: nat | Reached(s, q, k) ensures Reached(s', q, k) {}
  }

  lemma Update(c: Config, s: System, p: nat, n': Node, out: seq<Message>, s': System)
    requires Inv(c, s) && p in s.nodes && StepOk(c, s, p, n', out)
    requires s' == System(s.nodes[p := n'], s.sent + Sending(p, out))
    ensures Inv(c, s')
  {
    UpdateLog(c, s, p, n', out, s');
    NodesKept(c, s, p, n', out, s');
    UpdateSent(c, s, p, n', out, s');
    UpdateParted(c, s, p, n', out, s');
  }

  lemma UpdateLog(c: Config, s: System, p: nat, n': Node, out: seq<Message>, s': System)
    requires Inv(c, s) && p in s.nodes && StepOk(c, s, p, n', out) && s'.nodes == s.nodes[p := n']
    ensures LogOf(c, s') == NewLog(c, s, p, n') && LogOk(c, LogOf(c, s')) && SignersReached(s', LogOf(c, s'))
    ensures LeadOk(c, s'.nodes[c.leader]) && VotersReached(s', s'.nodes[c.leader].lead)
  {
    ReachedKept(s, s', p, n', NewLog(c, s, p, n'), s'.nodes[c.leader].lead);
  }

  lemma UpdateSent(c: Config, s: System, p: nat, n': Node, out: seq<Message>, s': System)
    requires Inv(c, s) && p in s.nodes && StepOk(c, s, p, n', out)
    requires s' == System(s.nodes[p := n'], s.sent + Sending(p, out))
    ensures forall x :: x in s'.sent ==> x.0 in s'.nodes && SentOk(c, NewLog(c, s, p, n'), s'.nodes[x.0], x.0, x.1)
  {
    var L, L' := LogOf(c, s), NewLog(c, s, p, n');
    assert L <= L';
    forall x | x in s'.sent ensures x.0 in s'.nodes && SentOk(c, L', s'.nodes[x.0], x.0, x.1) {
      SentLater(c, s, L, L', p, n', out, x);
    }
  }

  lemma UpdateParted(c: Config, s: System, p: nat, n': Node, out: seq<Message>, s': System)
    requires Inv(c, s) && p in s.nodes && StepOk(c, s, p, n', out) && s'.nodes == s.nodes[p := n']
    ensures Parted(c, s')
  {
    AllLeft(c, s);
    PartedKept(c, s, s', p, n');
  }

  lemma NodesKept(c: Config, s: System, p: nat, n': Node, out: seq<Message>, s': System)
    requires Inv(c, s) && p in s.nodes && StepOk(c, s, p, n', out) && s'.nodes == s.nodes[p := n']
    ensures forall q :: q in s'.nodes ==> NodeInv(c, s', NewLog(c, s, p, n'), s'.nodes[q])
  {
    var L, L' := LogOf(c, s), NewLog(c, s, p, n');
    assert L <= L';
    forall q | q in s'.nodes ensures NodeInv(c, s', L', s'.nodes[q]) {
      assert q != p ==> NodeInv(c, s, L, s.nodes[q]);
      NodeKept(c, s, s', L, L', p, n', q);
    }
  }

  lemma AllLeft(c: Config, s: System)
    requires Inv(c, s)
    ensures forall q :: q in s.nodes ==> LeftOk(s.nodes[q])
  {
    forall q | q in s.nodes ensures LeftOk(s.nodes[q]) {
      assert NodeInv(c, s, LogOf(c, s), s.nodes[q]);
    }
  }

  lemma SentLater(c: Config, s: System, L: seq<Block>, L': seq<Block>, p: nat, n': Node, out: seq<Message>, x: (nat, Message))
    requires Inv(c, s) && p in s.nodes && StepOk(c, s, p, n', out) && L == LogOf(c, s) && L' == NewLog(c, s, p, n') && L <= L'
    requires x in s.sent + Sending(p, out)
    ensures x.0 in s.nodes && SentOk(c, L', s.nodes[p := n'][x.0], x.0, x.1)
  {
    if x in s.sent {
      assert SentOk(c, L, s.nodes[x.0], x.0, x.1) && NodeInv(c, s, L, s.nodes[x.0]);
      LogKept(c, L, L', s.nodes[x.0], x.0, x.1);
      if x.0 == p {
        LaterSent(c, L', s.nodes[p], n', p, x.1);
      }
    }
  }

  lemma LaterSent(c: Config, L: seq<Block>, n: Node, n': Node, p: nat, m: Message)
    requires SentOk(c, L, n, p, m) && Later(n, n') && n'.chain.slot <= |L| + 1
    ensures SentOk(c, L, n', p, m)
  {
  }

  lemma {:induction false} RunInv(c: Config, es: seq<Event>)
    requires Valid(c) && Run(c, es).Some?
    ensures Inv(c, Run(c, es).value)
  {
    if es == [] {
      InitInv(c);
    } else {
      var init, e := es[..|es| - 1], es[|es| - 1];
      RunInv(c, init);
      var s := Run(c, init).value;
      LocalStep(c, s, e);
      Update(c, s, e.p, Local(c, s.nodes[e.p], e).0, Local(c, s.nodes[e.p], e).1, Apply(c, s, e));
    }
  }

  lemma InitInv(c: Config)
    requires Valid(c)
    ensures Inv(c, InitSystem(c))
  {
    assert SignersOf([]) == {};
    assert c.leader in Below(c.N);
  }

  // ---------- the theorems ----------

  /**
   Every node's slot loop refines the leader's: what a node holds in slot k is
   determined by the first k - 1 blocks of the leader, which are linked by header
   hashes and certified by N - f nodes that had reached their slots. In
   particular no assertion of one_slot fails.
   */
  lemma ChainAgreement(c: Config, es: seq<Event>, s: System, p: nat)
    requires Valid(c) && Run(c, es) == Some(s) && p < c.N
    ensures p in s.nodes && c.leader in s.nodes && s.nodes[p].phase != Broken
    ensures LogOk(c, LogOf(c, s)) && SignersReached(s, LogOf(c, s))
    ensures var k := s.nodes[p].chain.slot; 1 <= k <= |LogOf(c, s)| + 1 && s.nodes[p].chain == ChainAt(c, LogOf(c, s), k)
  {
    RunInv(c, es);
    assert NodeInv(c, s, LogOf(c, s), s.nodes[p]);
  }

  /**
   The assertion commented out in _run_epoch holds: the header that goes into a
   VIEW_CHANGE hashes to the digest that its certificate signs. So no
   VIEW_CHANGE is rejected.
   */
  lemma NotarizedHeaderHashes(c: Config, es: seq<Event>, s: System, p: nat)
    requires Valid(c) && Run(c, es) == Some(s) && p < c.N && p in s.nodes && s.nodes[p].chain.latest.Some?
    ensures
      var (tip, cert) := s.nodes[p].chain.latest.value;
      && s.nodes[p].chain.notarized == Some(tip) && s.nodes[p].chain.pending.Some?
      && c.hashHeader(Header(tip.slot, tip.prev, c.hashBatch(tip.batch))) == s.nodes[p].chain.pending.value.prev
      && Certified(c, s.nodes[p].chain.pending.value.prev, cert)
  {
    ChainAgreement(c, es, s, p);
    var L, k := LogOf(c, s), s.nodes[p].chain.slot;
    assert BlockOk(c, L, k - 2) && BlockOk(c, L, k - 3);
  }

  lemma ViewChangesCount(c: Config, es: seq<Event>, s: System, q: nat, m: Message)
    requires Valid(c) && Run(c, es) == Some(s) && (q, m) in s.sent && m.ViewChange?
    ensures TipAccepted(c, m.tip)
  {
    RunInv(c, es);
    SentFact(c, s, q, m);
    TipCertified(c, LogOf(c, s), s.nodes[q].sentAt.value);
  }

  predicate Gap(x: nat, v: nat) {
    v == x || v == x + 1
  }

  /** The smaller of the two slots: two below the number of blocks the leader has decided. */
  function LowSlot(c: Config, s: System): nat
    requires c.leader in s.nodes
  {
    if |LogOf(c, s)| >= 2 then |LogOf(c, s)| - 2 else 0
  }

  /**
   The view-change gap: all values put into tcvba_input in an epoch are one of
   two consecutive slots, although some VIEW_CHANGEs are sent while fast paths
   still run.
   */
  lemma ViewChangeGap(c: Config, es: seq<Event>, s: System)
    requires Valid(c) && Run(c, es) == Some(s)
    ensures c.leader in s.nodes
    ensures forall p :: p in s.nodes && s.nodes[p].vc.input.Some? ==> Gap(LowSlot(c, s), s.nodes[p].vc.input.value)
  {
    RunInv(c, es);
    forall p | p in s.nodes && s.nodes[p].vc.input.Some? ensures Gap(LowSlot(c, s), s.nodes[p].vc.input.value) {
      assert NodeInv(c, s, LogOf(c, s), s.nodes[p]);
      InputAbove(c, s, p);
      InputBelow(c, s, p);
    }
  }

  // No VIEW_CHANGE carries more than |L| - 1.
  lemma InputBelow(c: Config, s: System, p: nat)
    requires Inv(c, s) && p in s.nodes && s.nodes[p].vc.input.Some?
    ensures s.nodes[p].vc.input.value <= TipSlot(|LogOf(c, s)| + 1)
  {
    var L, vc := LogOf(c, s), s.nodes[p].vc;
    assert NodeInv(c, s, L, s.nodes[p]);
    if vc.maxSlot != 0 {
      var q :| q in vc.from && LeftAt(s, q, vc.maxSlot);
      assert NodeInv(c, s, L, s.nodes[q]);
    }
  }

  /**
   Of the N - f nodes that certified the last block, one both left the fast path
   for good before the first collection was complete and is counted here.
   */
  lemma InputAbove(c: Config, s: System, p: nat)
    requires Valid(c) && Inv(c, s) && p in s.nodes && s.nodes[p].vc.input.Some?
    ensures s.nodes[p].vc.input.value >= TipSlot(|LogOf(c, s)|)
  {
    var L, vc := LogOf(c, s), s.nodes[p].vc;
    assert NodeInv(c, s, L, s.nodes[p]);
    if L != [] {
      var Q :| EndedQuorum(c, s, Q);
      var S := SignersOf(L[|L| - 1].cert);
      assert BlockOk(c, L, |L| - 1);
      LastSigners(c, s, L);
      var q := InAllThree(c, Q, S, vc.from);
      assert Reached(s, q, |L|) && HasEnded(s.nodes[q]) && LeftWithin(s, q, vc.maxSlot);
    }
  }

  lemma LastSigners(c: Config, s: System, L: seq<Block>)
    requires s.nodes.Keys == Below(c.N) && L != [] && SignersReached(s, L)
    ensures forall q :: q in SignersOf(L[|L| - 1].cert) ==> Reached(s, q, |L|)
    ensures SignersOf(L[|L| - 1].cert) <= Below(c.N)
  {
    forall q | q in SignersOf(L[|L| - 1].cert) ensures Reached(s, q, |L|) && q in Below(c.N) {
      assert Reached(s, q, |L| - 1 + 1);
    }
  }

  lemma InAllThree(c: Config, A: set<nat>, B: set<nat>, C: set<nat>) returns (q: nat)
    requires Valid(c) && A <= Below(c.N) && B <= Below(c.N) && C <= Below(c.N)
    requires |A| >= c.N - c.f && |B| >= c.N - c.f && |C| >= c.N - c.f
    ensures q in A && q in B && q in C
  {
    Overlap(A, B, Below(c.N));
    Overlap(A * B, C, Below(c.N));
    assert A * B * C != {};
    q :| q in A * B * C;
  }

  /** No node has fixed a block above any value put into tcvba_input. */
  lemma FixedBelowInputs(c: Config, es: seq<Event>, s: System, p: nat, q: nat)
    requires Valid(c) && Run(c, es) == Some(s) && p < c.N && q < c.N
    ensures p in s.nodes && q in s.nodes
    ensures s.nodes[p].chain.fixed.Some? && s.nodes[q].vc.input.Some? ==> s.nodes[p].chain.fixed.value.slot <= s.nodes[q].vc.input.value
  {
    ChainAgreement(c, es, s, p);
    ChainAgreement(c, es, s, q);
    ViewChangeGap(c, es, s);
    var k := s.nodes[p].chain.slot;
    if k >= 4 {
      assert BlockOk(c, LogOf(c, s), k - 4);
    }
  }

  // The inputs of a two-value agreement are what handle_viewchange_msg put into tcvba_input.
  ghost predicate Fed(s: System, es: seq<TwoValueSafety.Event>) {
    forall e :: e in es && e.Input? ==> e.p in s.nodes && s.nodes[e.p].vc.input == Some(e.v)
  }

  lemma FedWithin(c: Config, s: System, es: seq<TwoValueSafety.Event>)
    requires c.leader in s.nodes && Fed(s, es)
    requires forall p :: p in s.nodes && s.nodes[p].vc.input.Some? ==> Gap(LowSlot(c, s), s.nodes[p].vc.input.value)
    ensures forall e :: e in es && e.Input? ==> TwoValueSafety.Within(LowSlot(c, s), e.v)
  {
    forall e | e in es && e.Input? ensures TwoValueSafety.Within(LowSlot(c, s), e.v) {
      assert Gap(LowSlot(c, s), s.nodes[e.p].vc.input.value);
    }
  }

  /**
   The epoch's view change: two-value agreement on what was put into tcvba_input
   never fails an assertion, and what it decides is common and one of the two slots.
   */
  lemma EpochSlot(c: Config, es: seq<Event>, s: System,
                  c2: TwoValueAgreement.Config, F: Faults, k: nat, es2: seq<TwoValueSafety.Event>, s2: TwoValueSafety.System)
    requires Valid(c) && Run(c, es) == Some(s)
    requires TwoValueSafety.Valid(c2, F) && TwoValueSafety.Bounded(c2, k) && TwoValueSafety.Run(c2, F, k, es2) == Some(s2)
    requires Fed(s, es2)
    ensures c.leader in s.nodes && s2.nodes.Keys == F.honest
    ensures TwoValueSafety.Ranged(F, s2, LowSlot(c, s)) && TwoValueSafety.DecisionsAgree(F, s2)
    ensures forall p, v :: p in F.honest && TwoValueSafety.Decides(s2, p, v) ==> TwoValueSafety.Within(LowSlot(c, s), v)
  {
    ViewChangeGap(c, es, s);
    FedWithin(c, s, es2);
    TwoValueOutcome(c2, F, k, es2, s2, LowSlot(c, s));
  }

  lemma TwoValueOutcome(c: TwoValueAgreement.Config, F: Faults, k: nat, es: seq<TwoValueSafety.Event>, s: TwoValueSafety.System, x: int)
    requires TwoValueSafety.Valid(c, F) && TwoValueSafety.Bounded(c, k) && TwoValueSafety.Run(c, F, k, es) == Some(s)
    requires forall e :: e in es && e.Input? ==> TwoValueSafety.Within(x, e.v)
    ensures s.nodes.Keys == F.honest && TwoValueSafety.Ranged(F, s, x) && TwoValueSafety.DecisionsAgree(F, s)
    ensures forall p, v :: p in F.honest && TwoValueSafety.Decides(s, p, v) ==> TwoValueSafety.Within(x, v)
  {
    TwoValueSafety.NoFailedAssertion(c, F, k, es, x);
    TwoValueSafety.Agreement(c, F, k, es, s);
    forall p, v | p in F.honest && TwoValueSafety.Decides(s, p, v) ensures TwoValueSafety.Within(x, v) {
      TwoValueSafety.DecisionInRange(c, F, k, es, s, x, p, v);
    }
  }
}
