/**
 One node of an epoch of Mule: the fast path of mulebft/core/hsfastpath.py and
 the view change of mulebft/core/mule.py. A step handles one message, or runs
 the slot loop up to its next wait. The epoch's sid is left out of blocks.
 */
module FastPath {
  import opened Options
  import opened ByteStrings
  import opened Signatures

  datatype Header = Header(slot: nat, prev: Bytes, payload: Bytes)

  datatype Block = Block(slot: nat, prev: Bytes, cert: Certificate, batch: Bytes)

  /** A notarized block: its certificate is in the next block. */
  datatype Tip = Tip(slot: nat, prev: Bytes, batch: Bytes)

  datatype Decision = Decision(prev: Bytes, cert: Certificate, batch: Bytes)

  datatype Message =
    | Vote(slot: nat, prev: Bytes, sig: Signature)
    | Decide(slot: nat, decision: Decision)
    | ViewChange(tip: Option<(Header, Certificate)>)

  /** hashHeader and hashBatch are the hash on pickled headers and batches. */
  datatype Config = Config(
    N: nat, f: nat, leader: nat, slots: nat, genesis: Bytes, dummy: Bytes,
    hashHeader: Header -> Bytes, hashBatch: Bytes -> Bytes)

  /** slot_cur, hash_prev, the blocks, and the latest output_notraized_block. */
  datatype Chain = Chain(
    slot: nat, hashPrev: Bytes, pending: Option<Block>, notarized: Option<Tip>, fixed: Option<Tip>,
    latest: Option<(Tip, Certificate)>)

  /** voters, votes and decide_sent of the leader; log is every block it has decided. */
  datatype Leading = Leading(voters: map<nat, set<nat>>, votes: map<nat, Certificate>, sent: set<nat>, log: seq<Block>)

  /** handle_viewchange_msg; from holds the senders handled, input what went into tcvba_input. */
  datatype ViewChanges = ViewChanges(counter: nat, maxSlot: nat, input: Option<nat>, from: set<nat>)

  /** Waiting: inside one_slot; Ended: the fast path has returned; Broken: an assertion of one_slot failed. */
  datatype Phase = Ready | Waiting | Ended | Broken

  /** sentAt is slot_cur when the node sent its VIEW_CHANGE. */
  datatype Node = Node(
    phase: Phase, receiving: bool, decides: map<nat, Decision>, chain: Chain, lead: Leading,
    vc: ViewChanges, sentAt: Option<nat>)

  function Init(c: Config): Node {
    Node(Ready, true, map[], Chain(1, c.genesis, None, None, None, None), Leading(map[], map[], {}, []),
         ViewChanges(0, 0, None, {}), None)
  }

  function VotersAt(l: Leading, k: nat): set<nat> {
    if k in l.voters then l.voters[k] else {}
  }

  function VotesAt(l: Leading, k: nat): Certificate {
    if k in l.votes then l.votes[k] else []
  }

  /** Both places where a certificate is checked: its length, and every signature on digest. */
  predicate Certified(c: Config, digest: Bytes, cert: Certificate) {
    |cert| >= c.N - c.f && forall i :: 0 <= i < |cert| ==> cert[i].1 == Signature(cert[i].0, digest)
  }

  // ---------- handle_messages ----------

  predicate GoodVote(c: Config, pid: nat, n: Node, from: nat, slot: nat, prev: Bytes, sig: Signature) {
    && pid == c.leader && |VotersAt(n.lead, n.chain.slot)| < c.N - c.f && from !in VotersAt(n.lead, slot)
    && slot == n.chain.slot && prev == n.chain.hashPrev && sig == Signature(from, prev)
  }

  function AddVote(l: Leading, slot: nat, from: nat, sig: Signature): Leading {
    l.(voters := l.voters[slot := VotersAt(l, slot) + {from}], votes := l.votes[slot := VotesAt(l, slot) + [(from, sig)]])
  }

  // batch is what get_input yields; the last two slots carry dummies.
  function OnVote(c: Config, pid: nat, n: Node, from: nat, slot: nat, prev: Bytes, sig: Signature, batch: Bytes): (Node, seq<Message>) {
    if !GoodVote(c, pid, n, from, slot, prev, sig) then (n, [])
    else AfterVote(c, n.(lead := AddVote(n.lead, slot, from, sig)), slot, prev, batch)
  }

  // The one DECIDE of the slot, when its votes reach N - f.
  function AfterVote(c: Config, n: Node, slot: nat, prev: Bytes, batch: Bytes): (Node, seq<Message>) {
    var l := n.lead;
    if |VotersAt(l, slot)| == c.N - c.f && slot !in l.sent then
      var d := Decision(prev, VotesAt(l, slot), if slot == c.slots + 1 || slot == c.slots + 2 then c.dummy else batch);
      (n.(lead := l.(sent := l.sent + {slot}, log := l.log + [Block(slot, d.prev, d.cert, d.batch)]),
          decides := n.decides[slot := d]),
       [Decide(slot, d)])
    else (n, [])
  }

  function OnDecide(c: Config, pid: nat, n: Node, slot: nat, d: Decision): Node {
    if pid == c.leader || slot != n.chain.slot || !Certified(c, d.prev, d.cert) then n
    else if slot in n.decides then n.(receiving := false)
    else n.(decides := n.decides[slot := d])
  }

  // ---------- the slot loop ----------

  // The top of the loop and the VOTE of one_slot.
  function EnterSlot(c: Config, pid: nat, n: Node): (Node, seq<Message>) {
    if n.phase != Ready then (n, [])
    else if n.chain.slot > c.slots + 2 then (n.(phase := Ended), [])
    else (n.(phase := Waiting), [Vote(n.chain.slot, n.chain.hashPrev, Signature(pid, n.chain.hashPrev))])
  }

  /** The two assertions of one_slot on the slots of its blocks. */
  predicate SlotsOk(ch: Chain) {
    ch.pending.Some? ==>
      && ch.pending.value.slot + 1 == ch.slot
      && (ch.notarized.Some? ==> ch.notarized.value.slot + 2 == ch.slot)
  }

  function Advance(c: Config, ch: Chain, d: Decision): Chain {
    var tip := if ch.pending.Some? then Some(Tip(ch.pending.value.slot, ch.pending.value.prev, ch.pending.value.batch)) else ch.notarized;
    Chain(
      ch.slot + 1,
      c.hashHeader(Header(ch.slot, d.prev, c.hashBatch(d.batch))),
      Some(Block(ch.slot, d.prev, d.cert, d.batch)),
      tip,
      if ch.pending.Some? && ch.notarized.Some? then ch.notarized else ch.fixed,
      if ch.pending.Some? then Some((tip.value, d.cert)) else ch.latest)
  }

  // The rest of one_slot, once decides[slot_cur] has an item.
  function FinishSlot(c: Config, n: Node): Node {
    if n.phase != Waiting || n.chain.slot !in n.decides then n
    else if !SlotsOk(n.chain) then n.(phase := Broken)
    else n.(phase := Ready, decides := n.decides - {n.chain.slot}, chain := Advance(c, n.chain, n.decides[n.chain.slot]))
  }

  /**
   A timer fires inside one_slot. The outer one ends the fast path, the inner one
   only aborts one_slot; lost if it had already taken its item.
   */
  function OnTimeout(n: Node, outer: bool, lost: bool): Node {
    if n.phase != Waiting then n
    else
      var n1 := if lost then n.(decides := n.decides - {n.chain.slot}) else n;
      if outer then n1.(phase := Ended, receiving := false) else n1.(phase := Ready)
  }

  // ---------- the view change ----------

  /** The VIEW_CHANGE a node sends when it holds these blocks (mule.py:405-432). */
  function TipMessage(c: Config, ch: Chain): Message {
    match ch.latest
    case None => ViewChange(None)
    case Some((tip, cert)) => ViewChange(Some((Header(tip.slot, tip.prev, c.hashBatch(tip.batch)), cert)))
  }

  // vc_ready is set by the end of the fast path or of handle_viewchange_msg.
  function SendViewChange(c: Config, n: Node): (Node, seq<Message>) {
    if n.sentAt.None? && (n.phase == Ended || n.vc.input.Some?) then
      (n.(sentAt := Some(n.chain.slot)), [TipMessage(c, n.chain)])
    else (n, [])
  }

  predicate TipAccepted(c: Config, tip: Option<(Header, Certificate)>) {
    tip.Some? ==> Certified(c, c.hashHeader(tip.value.0), tip.value.1)
  }

  function Max(a: nat, b: nat): nat {
    if a > b then a else b
  }

  function OnViewChange(c: Config, vc: ViewChanges, from: nat, tip: Option<(Header, Certificate)>): ViewChanges {
    if vc.input.Some? then vc
    else if !TipAccepted(c, tip) then vc.(from := vc.from + {from})
    else
      var m := Max(vc.maxSlot, if tip.Some? then tip.value.0.slot else 0);
      ViewChanges(vc.counter + 1, m, if vc.counter + 1 >= c.N - c.f then Some(m) else None, vc.from + {from})
  }

  function Receive(c: Config, pid: nat, n: Node, from: nat, m: Message, batch: Bytes): (Node, seq<Message>) {
    match m
    case ViewChange(tip) => (n.(vc := OnViewChange(c, n.vc, from, tip)), [])
    case Vote(slot, prev, sig) =>
      if !n.receiving then (n, []) else if from >= c.N then (n.(receiving := false), [])
      else OnVote(c, pid, n, from, slot, prev, sig, batch)
    case Decide(slot, d) =>
      if !n.receiving then (n, []) else if from >= c.N then (n.(receiving := false), [])
      else (OnDecide(c, pid, n, slot, d), [])
  }
}
