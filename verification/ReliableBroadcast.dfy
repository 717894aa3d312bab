/**
 One node of the reliable broadcast of honeybadgerbft/core/reliablebroadcast.py
 and of its provable variant dumbobft/core/provablereliablebroadcast.py, whose
 READY messages are signed and whose output needs N - f of them.
 */
module ReliableBroadcast {
  import opened ByteStrings
  import opened Options
  import opened MerkleTree
  import opened Erasure
  import opened Signatures

  /** Val is addressed to one node, the others go to everyone; sig is there in the provable variant. */
  datatype Message =
    | Val(to: nat, root: Bytes, branch: seq<Bytes>, stripe: Bytes)
    | Echo(root: Bytes, branch: seq<Bytes>, stripe: Bytes)
    | Ready(root: Bytes, sig: Option<Signature>)

  /** hashPair(sid, root) is hash((sid, root)), what the provable variant signs. */
  datatype Config = Config(
    N: nat, f: nat, leader: nat, provable: bool, H: Hash, z: Zfec, sid: string, hashPair: (string, Bytes) -> Bytes)
  {
    function Digest(root: Bytes): Bytes { hashPair(sid, root) }
    function K(): int { N - 2 * f }
    function EchoThreshold(): int { N - f }
    function ReadyThreshold(): int { f + 1 }
    function OutputThreshold(): int { if provable then N - f else 2 * f + 1 }
  }

  /** Raised: decode_output failed its assertion, or decoding raised. */
  datatype Outcome = Running | Returned(m: Bytes) | Raised

  /**
   The local variables of one node; readied is the root of the READY it has sent
   (readySent of the source), proof the signatures it has returned.
   */
  datatype Node = Node(
    input: Option<Bytes>,
    fromLeader: Option<Bytes>,
    stripes: map<Bytes, seq<Option<Bytes>>>,
    echoCounter: map<Bytes, nat>,
    echoSenders: set<nat>,
    ready: map<Bytes, set<nat>>,
    readySenders: set<nat>,
    readySigs: Certificate,
    readied: Option<Bytes>,
    outcome: Outcome,
    proof: Option<(Bytes, Certificate)>)

  function Init(): Node {
    Node(None, None, map[], map[], {}, map[], {}, [], None, Running, None)
  }

  // ---------- lookups in defaultdicts ----------

  function Row(c: Config, n: Node, root: Bytes): (row: seq<Option<Bytes>>) {
    if root in n.stripes then n.stripes[root] else seq(c.N, i => None)
  }

  function Echoes(n: Node, root: Bytes): nat {
    if root in n.echoCounter then n.echoCounter[root] else 0
  }

  function Readies(n: Node, root: Bytes): set<nat> {
    if root in n.ready then n.ready[root] else {}
  }

  // ---------- the leader ----------

  /** What the leader sends for its input: one stripe and branch to each node. */
  function ValFor(c: Config, stripes: seq<Bytes>, i: nat): Message
    requires i < |stripes|
  {
    Val(i, Root(c.H, stripes), BranchOf(c.H, stripes, i), stripes[i])
  }

  function Input(c: Config, n: Node, m: Bytes): (Node, seq<Message>) {
    if n.input.Some? || c.K() < 1 then (n, [])
    else
      match Encode(c.z, c.K(), c.N, m)
      case None => (n.(input := Some(m), outcome := Raised), [])
      case Some(stripes) => (n.(input := Some(m)), seq(|stripes|, i requires 0 <= i < |stripes| => ValFor(c, stripes, i)))
  }

  // ---------- the receive loop ----------

  /** decode_output(roothash). */
  function DecodeOutput(c: Config, row: seq<Option<Bytes>>, root: Bytes): Outcome {
    if c.K() < 1 then Raised
    else
      match Decode(c.z, c.K(), c.N, row)
      case None => Raised
      case Some(m) =>
        match Encode(c.z, c.K(), c.N, m)
        case None => Raised
        case Some(stripes) => if |stripes| >= 1 && Root(c.H, stripes) == root then Returned(m) else Raised
  }

  function MakeReady(c: Config, pid: nat, root: Bytes): Message {
    Ready(root, if c.provable then Some(Signature(pid, c.Digest(root))) else None)
  }

  function SendReady(c: Config, pid: nat, n: Node, root: Bytes, enough: bool): (Node, seq<Message>) {
    if enough && n.readied.None? then (n.(readied := Some(root)), [MakeReady(c, pid, root)]) else (n, [])
  }

  /** s[:k] of a Python list. */
  function FirstItems<T>(s: seq<T>, k: int): seq<T> {
    if k > |s| then s else if k >= 0 then s[..k] else if k >= -|s| then s[..|s| + k] else []
  }

  // The output check, and the proof made from the first N - f signatures.
  function TryOutput(c: Config, n: Node, root: Bytes): Node {
    if |Readies(n, root)| >= c.OutputThreshold() && Echoes(n, root) >= c.K() then
      var outcome := DecodeOutput(c, Row(c, n, root), root);
      n.(outcome := outcome,
         proof := if c.provable && outcome.Returned? then Some((root, FirstItems(n.readySigs, c.OutputThreshold()))) else n.proof)
    else n
  }

  function OnVal(c: Config, pid: nat, n: Node, sender: nat, m: Message): (Node, seq<Message>)
    requires m.Val?
  {
    if n.fromLeader.Some? || sender != c.leader || !Accepts(c.H, c.N, m.stripe, m.root, m.branch, pid) then (n, [])
    else (n.(fromLeader := Some(m.root)), [Echo(m.root, m.branch, m.stripe)])
  }

  function AddEcho(c: Config, n: Node, sender: nat, root: Bytes, stripe: Bytes): Node
    requires sender < |Row(c, n, root)|
  {
    n.(stripes := n.stripes[root := Row(c, n, root)[sender := Some(stripe)]],
       echoSenders := n.echoSenders + {sender},
       echoCounter := n.echoCounter[root := Echoes(n, root) + 1])
  }

  function OnEcho(c: Config, pid: nat, n: Node, sender: nat, m: Message): (Node, seq<Message>)
    requires m.Echo?
  {
    var row := Row(c, n, m.root);
    if sender >= |row| || row[sender].Some? || sender in n.echoSenders then (n, [])
    else if !Accepts(c.H, c.N, m.stripe, m.root, m.branch, sender) then (n, [])
    else
      var n1 := AddEcho(c, n, sender, m.root, m.stripe);
      var (n2, out) := SendReady(c, pid, n1, m.root, Echoes(n1, m.root) >= c.EchoThreshold());
      (if c.provable then n2 else TryOutput(c, n2, m.root), out)
  }

  function AddReady(n: Node, sender: nat, root: Bytes, sig: Option<Signature>): Node {
    n.(ready := n.ready[root := Readies(n, root) + {sender}],
       readySenders := n.readySenders + {sender},
       readySigs := if sig.Some? then n.readySigs + [(sender, sig.value)] else n.readySigs)
  }

  function OnReady(c: Config, pid: nat, n: Node, sender: nat, m: Message): (Node, seq<Message>)
    requires m.Ready?
  {
    if sender in Readies(n, m.root) || sender in n.readySenders then (n, [])
    else if c.provable && m.sig != Some(Signature(sender, c.Digest(m.root))) then (n, [])
    else
      var n1 := AddReady(n, sender, m.root, m.sig);
      var (n2, out) := SendReady(c, pid, n1, m.root, |Readies(n1, m.root)| >= c.ReadyThreshold());
      (TryOutput(c, n2, m.root), out)
  }

  /** One message at node pid. */
  function Receive(c: Config, pid: nat, n: Node, sender: nat, m: Message): (Node, seq<Message>) {
    if n.outcome != Running then (n, [])
    else
      match m
      case Val(_, _, _, _) => OnVal(c, pid, n, sender, m)
      case Echo(_, _, _) => OnEcho(c, pid, n, sender, m)
      case Ready(_, _) => OnReady(c, pid, n, sender, m)
  }
}
