/**
 The code of one fast-path node, statement by statement, proved against the step
 functions of FastPath: handle_messages, one_slot, handle_viewchange_msg, and
 the VIEW_CHANGE send.
 */
module FastPathNode {
  import opened Options
  import opened ByteStrings
  import opened Signatures
  import opened FastPath

  class FastPathProcess {
    const c: Config
    const pid: nat
    var phase: Phase
    var receiving: bool
    var decides: map<nat, Decision>
    var slotCur: nat
    var hashPrev: Bytes
    var pendingBlock: Option<Block>
    var notarizedBlock: Option<Tip>
    var fixedBlock: Option<Tip>
    var latest: Option<(Tip, Certificate)>
    var voters: map<nat, set<nat>>
    var votes: map<nat, Certificate>
    var decideSent: set<nat>
    var viewchangeCounter: nat
    var viewchangeMaxSlot: nat
    var tcvbaInput: Option<nat>
    ghost var handled: set<nat>
    ghost var sentAt: Option<nat>
    ghost var log: seq<Block>

    ghost function View(): Node
      reads this
    {
      Node(phase, receiving, decides, Blocks(), Lead(),
           ViewChanges(viewchangeCounter, viewchangeMaxSlot, tcvbaInput, handled), sentAt)
    }

    ghost function Blocks(): Chain
      reads this
    {
      Chain(slotCur, hashPrev, pendingBlock, notarizedBlock, fixedBlock, latest)
    }

    ghost function Lead(): Leading
      reads this
    {
      Leading(voters, votes, decideSent, log)
    }

    constructor (c: Config, pid: nat)
      ensures View() == FastPath.Init(c) && this.c == c && this.pid == pid
    {
      this.c, this.pid := c, pid;
      phase, receiving, decides := Ready, true, map[];
      slotCur, hashPrev := 1, c.genesis;
      pendingBlock, notarizedBlock, fixedBlock, latest := None, None, None, None;
      voters, votes, decideSent, log := map[], map[], {}, [];
      viewchangeCounter, viewchangeMaxSlot, tcvbaInput, handled := 0, 0, None, {};
      sentAt := None;
    }

    // The loop over the items of a certificate.
    method CheckCertificate(digest: Bytes, cert: Certificate) returns (ok: bool)
      ensures ok <==> Certified(c, digest, cert)
    {
      if |cert| < c.N - c.f {
        return false;
      }
      for i := 0 to |cert|
        invariant forall j :: 0 <= j < i ==> cert[j].1 == Signature(cert[j].0, digest)
      {
        var (sender, sig) := cert[i];
        if sig != Signature(sender, digest) {
          return false;
        }
      }
      return true;
    }

    /** handle_messages on a VOTE; txs is what get_input yields. */
    method RecvVote(sender: nat, slot: nat, hashP: Bytes, sig: Signature, txs: Bytes) returns (out: seq<Message>)
      modifies this
      ensures (View(), out) == OnVote(c, pid, old(View()), sender, slot, hashP, sig, txs)
    {
      out := [];
      var ok := CheckVote(sender, slot, hashP, sig);
      if !ok {
        return;
      }
      CountVote(sender, sig);
      out := TryDecide(hashP, txs);
    }

    method TryDecide(hashP: Bytes, txs: Bytes) returns (out: seq<Message>)
      requires slotCur in voters && slotCur in votes
      modifies `decideSent, `decides, `log
      ensures (View(), out) == AfterVote(c, old(View()), slotCur, hashP, txs)
    {
      out := [];
      if |voters[slotCur]| == c.N - c.f && slotCur !in decideSent {
        out := DecideSlot(hashP, votes[slotCur], txs);
      }
    }

    method CheckVote(sender: nat, slot: nat, hashP: Bytes, sig: Signature) returns (ok: bool)
      ensures ok <==> GoodVote(c, pid, View(), sender, slot, hashP, sig)
    {
      var here := if slotCur in voters then voters[slotCur] else {};
      var known := if slot in voters then voters[slot] else {};
      if pid != c.leader || |here| >= c.N - c.f || sender in known {
        return false;
      }
      return slot == slotCur && hashP == hashPrev && sig == Signature(sender, hashP);
    }

    method CountVote(sender: nat, sig: Signature)
      modifies `voters, `votes
      ensures Lead() == AddVote(old(Lead()), slotCur, sender, sig)
      ensures slotCur in voters && slotCur in votes
    {
      voters := voters[slotCur := (if slotCur in voters then voters[slotCur] else {}) + {sender}];
      votes := votes[slotCur := (if slotCur in votes then votes[slotCur] else []) + [(sender, sig)]];
    }

    // The DECIDE of slot_cur, sent and put into the leader's own queue.
    method DecideSlot(hashP: Bytes, sigma: Certificate, txs: Bytes) returns (out: seq<Message>)
      modifies `decideSent, `decides, `log
      ensures
        var b := Block(slotCur, hashP, sigma, if slotCur == c.slots + 1 || slotCur == c.slots + 2 then c.dummy else txs);
        && out == [Decide(slotCur, Decision(b.prev, b.cert, b.batch))]
        && decides == old(decides)[slotCur := Decision(b.prev, b.cert, b.batch)]
        && decideSent == old(decideSent) + {slotCur} && log == old(log) + [b]
    {
      var batch := txs;
      if slotCur == c.slots + 1 || slotCur == c.slots + 2 {
        batch := c.dummy;
      }
      out := [Decide(slotCur, Decision(hashP, sigma, batch))];
      decideSent := decideSent + {slotCur};
      decides := decides[slotCur := Decision(hashP, sigma, batch)];
      log := log + [Block(slotCur, hashP, sigma, batch)];
    }

    /** handle_messages on a DECIDE. */
    method RecvDecide(slot: nat, d: Decision)
      modifies `decides, `receiving
      ensures View() == OnDecide(c, pid, old(View()), slot, d)
    {
      if pid == c.leader || slot != slotCur {
        return;
      }
      var ok := CheckCertificate(d.prev, d.cert);
      if ok {
        if slotCur in decides {
          receiving := false;
        } else {
          decides := decides[slotCur := d];
        }
      }
    }

    /** The head of the slot loop, and the VOTE of one_slot. */
    method BeginSlot() returns (out: seq<Message>)
      modifies `phase
      ensures (View(), out) == EnterSlot(c, pid, old(View()))
    {
      out := [];
      if phase == Ready {
        if slotCur <= c.slots + 2 {
          out := [Vote(slotCur, hashPrev, Signature(pid, hashPrev))];
          phase := Waiting;
        } else {
          phase := Ended;
        }
      }
    }

    // The two assertions of one_slot.
    method CheckSlots() returns (ok: bool)
      ensures ok <==> SlotsOk(Blocks())
    {
      if pendingBlock.Some? {
        if notarizedBlock.Some? && notarizedBlock.value.slot + 2 != slotCur {
          return false;
        }
        return pendingBlock.value.slot + 1 == slotCur;
      }
      return true;
    }

    /** The critical block of one_slot; the notarized block it outputs is latest. */
    method OneSlot()
      requires phase == Waiting && slotCur in decides
      modifies `phase, `decides, `fixedBlock, `notarizedBlock, `latest, `pendingBlock, `hashPrev, `slotCur
      ensures View() == FinishSlot(c, old(View()))
    {
      var d := decides[slotCur];
      var ok := CheckSlots();
      if !ok {
        phase := Broken;
        return;
      }
      decides := decides - {slotCur};
      ShiftBlocks(d);
      phase := Ready;
    }

    method ShiftBlocks(d: Decision)
      modifies `fixedBlock, `notarizedBlock, `latest, `pendingBlock, `hashPrev, `slotCur
      ensures Blocks() == Advance(c, old(Blocks()), d)
    {
      if pendingBlock.Some? {
        if notarizedBlock.Some? {
          fixedBlock := notarizedBlock;
        }
        notarizedBlock := Some(Tip(pendingBlock.value.slot, pendingBlock.value.prev, pendingBlock.value.batch));
        latest := Some((notarizedBlock.value, d.cert));
      }
      pendingBlock := Some(Block(slotCur, d.prev, d.cert, d.batch));
      hashPrev := c.hashHeader(Header(slotCur, d.prev, c.hashBatch(d.batch)));
      slotCur := slotCur + 1;
    }

    /** handle_viewchange_msg on one message. */
    method RecvViewChange(sender: nat, tip: Option<(Header, Certificate)>)
      modifies this
      ensures View() == old(View()).(vc := OnViewChange(c, old(View()).vc, sender, tip))
    {
      if tcvbaInput.Some? {
        return;
      }
      handled := handled + {sender};
      var slotNum := 0;
      if tip.Some? {
        var (header, cert) := tip.value;
        slotNum := header.slot;
        var ok := CheckCertificate(c.hashHeader(header), cert);
        if !ok {
          return;
        }
      }
      viewchangeCounter := viewchangeCounter + 1;
      if slotNum > viewchangeMaxSlot {
        viewchangeMaxSlot := slotNum;
      }
      if viewchangeCounter >= c.N - c.f {
        tcvbaInput := Some(viewchangeMaxSlot);
      }
    }

    /** The VIEW_CHANGE of _run_epoch, once vc_ready is set. */
    method SendTip() returns (out: seq<Message>)
      requires sentAt.None? && (phase == Ended || tcvbaInput.Some?)
      modifies `sentAt
      ensures (View(), out) == SendViewChange(c, old(View()))
    {
      if latest.Some? {
        var (block, sigma) := latest.value;
        var payloadDigest := c.hashBatch(block.batch);
        out := [ViewChange(Some((Header(block.slot, block.prev, payloadDigest), sigma)))];
      } else {
        out := [ViewChange(None)];
      }
      sentAt := Some(slotCur);
    }
  }
}
