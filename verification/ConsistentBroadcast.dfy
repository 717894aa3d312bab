/**
 One node of the consistent broadcast of dumbobft/core/consistentbroadcast.py,
 and cbc_validate of dumbobft/core/validators.py. digest(m) is hash((sid, m)).
 */
module ConsistentBroadcast {
  import opened Options
  import opened ByteStrings
  import opened Signatures

  datatype Message = Send(m: Bytes) | Echo(sig: Signature) | Final(m: Bytes, sigmas: Certificate)

  datatype Config = Config(N: nat, f: nat, leader: nat, digest: Bytes -> Bytes)

  /** shares are the items of cbc_echo_sshares, in the order of their insertion. */
  datatype Node = Node(
    m: Option<Bytes>, digestFromLeader: Option<Bytes>, shares: Certificate, finalSent: bool,
    output: Option<(Bytes, Certificate)>)

  function Init(): Node {
    Node(None, None, [], false, None)
  }

  /** cbc_validate, and the check of a CBC_FINAL. */
  predicate CbcValidate(c: Config, m: Bytes, sigmas: Certificate) {
    && |sigmas| == c.N - c.f && |SetOf(sigmas)| == c.N - c.f
    && forall i :: 0 <= i < |sigmas| ==> sigmas[i].0 < c.N && sigmas[i].1 == Signature(sigmas[i].0, c.digest(m))
  }

  // cbc_echo_sshares[j] = sig; sig is the only token that passes.
  function AddShare(shares: Certificate, j: nat, sig: Signature): Certificate {
    if j in SignersOf(shares) then shares else shares + [(j, sig)]
  }

  // The leader's input.
  function Input(c: Config, pid: nat, n: Node, m: Bytes): (Node, seq<Message>) {
    if pid != c.leader || n.digestFromLeader.Some? then (n, [])
    else
      var d := c.digest(m);
      (n.(m := Some(m), digestFromLeader := Some(d), shares := [(pid, Signature(pid, d))]), [Send(m)])
  }

  function OnSend(c: Config, pid: nat, n: Node, j: nat, m: Bytes): (Node, seq<Message>) {
    if n.digestFromLeader.Some? then (n, [])
    else if j != c.leader then (n.(m := Some(m)), [])
    else
      var d := c.digest(m);
      (n.(m := Some(m), digestFromLeader := Some(d)), [Echo(Signature(pid, d))])
  }

  function OnEcho(c: Config, pid: nat, n: Node, j: nat, sig: Signature): (Node, seq<Message>) {
    if pid != c.leader || n.digestFromLeader.None? || n.m.None? || sig != Signature(j, n.digestFromLeader.value) then (n, [])
    else
      var shares := AddShare(n.shares, j, sig);
      if |shares| >= c.N - c.f >= 0 && !n.finalSent then
        (n.(shares := shares, finalSent := true), [Final(n.m.value, shares[..c.N - c.f])])
      else
        (n.(shares := shares), [])
  }

  function OnFinal(c: Config, n: Node, j: nat, m: Bytes, sigmas: Certificate): Node {
    if j != c.leader then n
    else if CbcValidate(c, m, sigmas) then n.(m := Some(m), output := Some((m, sigmas)))
    else n.(m := Some(m))
  }

  /** One message at node pid; the leader handles none before its input. */
  function Receive(c: Config, pid: nat, n: Node, j: nat, msg: Message): (Node, seq<Message>) {
    if n.output.Some? || (pid == c.leader && n.digestFromLeader.None?) then (n, [])
    else
      match msg
      case Send(m) => OnSend(c, pid, n, j, m)
      case Echo(sig) => OnEcho(c, pid, n, j, sig)
      case Final(m, sigmas) => (OnFinal(c, n, j, m, sigmas), [])
  }

  /** The code of the node. */
  class BroadcastProcess {
    const c: Config
    const pid: nat
    var m: Option<Bytes>
    var digestFromLeader: Option<Bytes>
    var echoShares: Certificate
    var finalSent: bool
    var output: Option<(Bytes, Certificate)>

    ghost function View(): Node
      reads this
    {
      Node(m, digestFromLeader, echoShares, finalSent, output)
    }

    constructor (c: Config, pid: nat)
      ensures View() == Init() && this.c == c && this.pid == pid
    {
      this.c, this.pid, m, digestFromLeader, echoShares, finalSent, output := c, pid, None, None, [], false, None;
    }

    method RecvInput(v: Bytes) returns (out: seq<Message>)
      requires pid == c.leader && digestFromLeader.None?
      modifies this
      ensures (View(), out) == Input(c, pid, old(View()), v)
    {
      m := Some(v);
      digestFromLeader := Some(c.digest(v));
      echoShares := [(pid, Signature(pid, c.digest(v)))];
      out := [Send(v)];
    }

    // The checks of a certificate: its length, that its pairs differ, and every signature.
    method CheckCertificate(v: Bytes, sigmas: Certificate) returns (ok: bool)
      ensures ok <==> CbcValidate(c, v, sigmas)
    {
      if |sigmas| != c.N - c.f || |SetOf(sigmas)| != c.N - c.f {
        return false;
      }
      var digest := c.digest(v);
      for i := 0 to |sigmas|
        invariant forall k :: 0 <= k < i ==> sigmas[k].0 < c.N && sigmas[k].1 == Signature(sigmas[k].0, digest)
      {
        var (j, sig) := sigmas[i];
        if j >= c.N || sig != Signature(j, digest) {
          return false;
        }
      }
      return true;
    }

    method Recv(j: nat, msg: Message) returns (out: seq<Message>)
      requires pid == c.leader ==> digestFromLeader.Some?
      modifies this
      ensures (View(), out) == Receive(c, pid, old(View()), j, msg)
    {
      out := [];
      if output.Some? {
        return;
      }
      match msg
      case Send(v) =>
        if digestFromLeader.None? {
          m := Some(v);
          if j == c.leader {
            digestFromLeader := Some(c.digest(v));
            out := [Echo(Signature(pid, c.digest(v)))];
          }
        }
      case Echo(sig) => out := RecvEcho(j, sig);
      case Final(v, sigmas) =>
        if j == c.leader {
          m := Some(v);
          var ok := CheckCertificate(v, sigmas);
          if ok {
            output := Some((v, sigmas));
          }
        }
    }

    method RecvEcho(j: nat, sig: Signature) returns (out: seq<Message>)
      modifies `echoShares, `finalSent
      ensures (View(), out) == OnEcho(c, pid, old(View()), j, sig)
    {
      out := [];
      if pid != c.leader || digestFromLeader.None? || m.None? || sig != Signature(j, digestFromLeader.value) {
        return;
      }
      echoShares := AddShare(echoShares, j, sig);
      if |echoShares| >= c.N - c.f >= 0 && !finalSent {
        finalSent := true;
        out := [Final(m.value, echoShares[..c.N - c.f])];
      }
    }
  }
}
