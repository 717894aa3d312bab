/**
 The code of one reliable broadcast node, statement by statement, with its Merkle
 trees in arrays, proved against the step functions of ReliableBroadcast.
 */
module ReliableBroadcastNode {
  import opened ByteStrings
  import opened Options
  import opened MerkleTree
  import opened Erasure
  import opened Signatures
  import opened ReliableBroadcast

  class BroadcastNode {
    const c: Config
    const pid: nat
    var input: Option<Bytes>
    var fromLeader: Option<Bytes>
    var stripes: map<Bytes, seq<Option<Bytes>>>
    var echoCounter: map<Bytes, nat>
    var echoSenders: set<nat>
    var ready: map<Bytes, set<nat>>
    var readySenders: set<nat>
    var readySigShares: Certificate
    var readySent: Option<Bytes>
    var outcome: Outcome
    var proof: Option<(Bytes, Certificate)>

    ghost function View(): Node
      reads this
    {
      Node(input, fromLeader, stripes, echoCounter, echoSenders, ready, readySenders, readySigShares, readySent, outcome, proof)
    }

    constructor (c: Config, pid: nat)
      ensures View() == ReliableBroadcast.Init() && this.c == c && this.pid == pid
    {
      this.c, this.pid := c, pid;
      input, fromLeader, readySent, proof := None, None, None, None;
      stripes, echoCounter, ready := map[], map[], map[];
      echoSenders, readySenders, readySigShares, outcome := {}, {}, [], Running;
    }

    /** The leader's part: encode, build the tree, send each node its stripe and branch. */
    method SendInput(m: Bytes) returns (out: seq<Message>)
      modifies this
      ensures (View(), out) == Input(c, old(View()), m)
    {
      out := [];
      if input.Some? || c.K() < 1 {
        return;
      }
      input := Some(m);
      var encoded := Encode(c.z, c.K(), c.N, m);
      if encoded.None? {
        outcome := Raised;
        return;
      }
      out := MakeVals(encoded.value);
    }

    method MakeVals(blocks: seq<Bytes>) returns (out: seq<Message>)
      ensures out == seq(|blocks|, i requires 0 <= i < |blocks| => ValFor(c, blocks, i))
    {
      out := [];
      if |blocks| == 0 {
        return;
      }
      var mt := MakeTree(c.H, blocks);
      assert mt[..] == Tree(c.H, blocks);
      for i := 0 to |blocks|
        invariant mt[..] == Tree(c.H, blocks) && |out| == i
        invariant forall k :: 0 <= k < i ==> out[k] == ValFor(c, blocks, k)
      {
        var v := MakeVal(mt, blocks, i);
        out := out + [v];
      }
    }

    // The VAL of node i: its branch is read off the tree.
    method MakeVal(mt: array<Bytes>, blocks: seq<Bytes>, i: nat) returns (v: Message)
      requires i < |blocks| && mt[..] == Tree(c.H, blocks)
      ensures v == ValFor(c, blocks, i)
    {
      ReadOff(c.H, blocks, i);
      assert mt[1] == mt[..][1];
      var branch := GetBranch(i, mt);
      v := Val(i, mt[1], branch, blocks[i]);
    }

    method Recv(sender: nat, m: Message) returns (out: seq<Message>)
      modifies this
      ensures (View(), out) == Receive(c, pid, old(View()), sender, m)
    {
      out := [];
      if outcome != Running {
        return;
      }
      match m
      case Val(_, _, _, _) => out := RecvVal(sender, m);
      case Echo(_, _, _) => out := RecvEcho(sender, m);
      case Ready(_, _) => out := RecvReady(sender, m);
    }

    method RecvVal(sender: nat, m: Message) returns (out: seq<Message>)
      requires m.Val?
      modifies this
      ensures (View(), out) == OnVal(c, pid, old(View()), sender, m)
    {
      out := [];
      if fromLeader.Some? || sender != c.leader {
        return;
      }
      var ok := VerifyBranch(c.H, c.N, m.stripe, m.root, m.branch, pid);
      if ok != Some(true) {
        return;
      }
      fromLeader := Some(m.root);
      out := [Echo(m.root, m.branch, m.stripe)];
    }

    method RecvEcho(sender: nat, m: Message) returns (out: seq<Message>)
      requires m.Echo?
      modifies this
      ensures (View(), out) == OnEcho(c, pid, old(View()), sender, m)
    {
      out := [];
      var roothash := m.root;
      var row := if roothash in stripes then stripes[roothash] else seq(c.N, i => None);
      if sender >= |row| || row[sender].Some? || sender in echoSenders {
        return;
      }
      var ok := VerifyBranch(c.H, c.N, m.stripe, roothash, m.branch, sender);
      if ok != Some(true) {
        return;
      }
      StoreEcho(sender, roothash, m.stripe);
      if echoCounter[roothash] >= c.EchoThreshold() {
        out := BroadcastReady(roothash);
      }
      if !c.provable {
        CheckOutput(roothash);
      }
    }

    method StoreEcho(sender: nat, roothash: Bytes, stripe: Bytes)
      requires sender < |Row(c, View(), roothash)|
      modifies this
      ensures View() == AddEcho(c, old(View()), sender, roothash, stripe)
      ensures roothash in echoCounter
    {
      var row := if roothash in stripes then stripes[roothash] else seq(c.N, i => None);
      assert row == Row(c, View(), roothash);
      stripes := stripes[roothash := row[sender := Some(stripe)]];
      echoSenders := echoSenders + {sender};
      echoCounter := echoCounter[roothash := (if roothash in echoCounter then echoCounter[roothash] else 0) + 1];
    }

    method BroadcastReady(roothash: Bytes) returns (out: seq<Message>)
      modifies this
      ensures (View(), out) == SendReady(c, pid, old(View()), roothash, true)
    {
      out := [];
      if readySent.None? {
        readySent := Some(roothash);
        out := [MakeReady(c, pid, roothash)];
      }
    }

    method RecvReady(sender: nat, m: Message) returns (out: seq<Message>)
      requires m.Ready?
      modifies this
      ensures (View(), out) == OnReady(c, pid, old(View()), sender, m)
    {
      out := [];
      var roothash := m.root;
      var counted := CountReady(sender, roothash, m.sig);
      if !counted {
        return;
      }
      if |ready[roothash]| >= c.ReadyThreshold() {
        out := BroadcastReady(roothash);
      }
      CheckOutput(roothash);
    }

    // A READY is counted unless it is redundant or its signature is wrong.
    method CountReady(sender: nat, roothash: Bytes, sig: Option<Signature>) returns (counted: bool)
      modifies this
      ensures counted <==>
        && sender !in Readies(old(View()), roothash) && sender !in old(readySenders)
        && (c.provable ==> sig == Some(Signature(sender, c.Digest(roothash))))
      ensures counted ==> View() == AddReady(old(View()), sender, roothash, sig) && roothash in ready
      ensures !counted ==> View() == old(View())
    {
      counted := false;
      var senders := if roothash in ready then ready[roothash] else {};
      if sender in senders || sender in readySenders {
        return;
      }
      if c.provable && sig != Some(Signature(sender, c.Digest(roothash))) {
        return;
      }
      counted := true;
      ready := ready[roothash := senders + {sender}];
      readySenders := readySenders + {sender};
      if sig.Some? {
        readySigShares := readySigShares + [(sender, sig.value)];
      }
    }

    method CheckOutput(roothash: Bytes)
      modifies this
      ensures View() == TryOutput(c, old(View()), roothash)
    {
      var senders := if roothash in ready then ready[roothash] else {};
      var count := if roothash in echoCounter then echoCounter[roothash] else 0;
      if |senders| >= c.OutputThreshold() && count >= c.K() {
        var row := if roothash in stripes then stripes[roothash] else seq(c.N, i => None);
        outcome := RebuildOutput(row, roothash);
        if c.provable && outcome.Returned? {
          proof := Some((roothash, FirstItems(readySigShares, c.OutputThreshold())));
        }
      }
    }

    /** decode_output: decode, encode again, and compare the root of the rebuilt tree. */
    method RebuildOutput(row: seq<Option<Bytes>>, roothash: Bytes) returns (r: Outcome)
      ensures r == DecodeOutput(c, row, roothash)
    {
      if c.K() < 1 {
        return Raised;
      }
      var m := DecodeStripes(c.z, c.K(), c.N, row);
      if m.None? {
        return Raised;
      }
      var encoded := Encode(c.z, c.K(), c.N, m.value);
      if encoded.None? || |encoded.value| == 0 {
        return Raised;
      }
      var mt := MakeTree(c.H, encoded.value);
      return if mt[1] == roothash then Returned(m.value) else Raised;
    }
  }
}
