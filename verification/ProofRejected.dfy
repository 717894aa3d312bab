/**
 A run of the provable broadcast in which a correct node returns the input of a
 correct leader with a proof that prbc_validate rejects: four nodes, of which
 node 3 is Byzantine and signs a READY for another root before the others do.
 */
module ProofRejected {
  import opened Quorums
  import opened Options
  import opened ByteStrings
  import opened Signatures
  import opened MerkleTree
  import opened Erasure
  import opened ReliableBroadcast
  import opened ReliableBroadcastSafety
  import opened ProvableBroadcast

  /** The stripes of the input m, their root R, and another root with another digest. */
  datatype Setting = Setting(m: Bytes, E: seq<Bytes>, R: Bytes, other: Bytes)

  ghost predicate Fits(c: Config, t: Setting) {
    && c.N == 4 && c.f == 1 && c.leader == 0 && c.provable && FixedLength(c.H) && AnyKRecover(c.z)
    && Encode(c.z, 2, 4, t.m) == Some(t.E) && |t.E| == 4 && t.R == Root(c.H, t.E)
    && c.Digest(t.other) != c.Digest(t.R)
  }

  function Honest(): Faults {
    Faults(4, 1, {0, 1, 2})
  }

  // ---------- pictures of nodes ----------

  /** Senders of the ECHOs and READYs for R, whether the other READY is counted, signers in order, READY sent. */
  datatype Picture = Picture(
    hasInput: bool, gotVal: bool, echoes: set<nat>, readies: set<nat>, bad: bool, signers: seq<nat>, readied: bool)

  function SigFor(c: Config, t: Setting, q: nat): (nat, Signature) {
    (q, Signature(q, c.Digest(if q == 3 then t.other else t.R)))
  }

  function SigsFor(c: Config, t: Setting, signers: seq<nat>): Certificate {
    seq(|signers|, i requires 0 <= i < |signers| => SigFor(c, t, signers[i]))
  }

  function RowFor(t: Setting, echoes: set<nat>): seq<Option<Bytes>>
    requires |t.E| == 4
  {
    seq(4, i requires 0 <= i < 4 => if i in echoes then Some(t.E[i]) else None)
  }

  ghost predicate Looks(c: Config, t: Setting, n: Node, P: Picture)
    requires |t.E| == 4
  {
    && n.outcome == Running && n.proof.None?
    && n.input == (if P.hasInput then Some(t.m) else None) && n.fromLeader == (if P.gotVal then Some(t.R) else None)
    && Row(c, n, t.R) == RowFor(t, P.echoes) && Echoes(n, t.R) == |P.echoes| && n.echoSenders == P.echoes
    && Readies(n, t.R) == P.readies && Readies(n, t.other) == (if P.bad then {3} else {})
    && n.readySenders == P.readies + (if P.bad then {3} else {})
    && n.readySigs == SigsFor(c, t, P.signers) && n.readied == (if P.readied then Some(t.R) else None)
  }

  // ---------- the steps of the run ----------

  datatype Action = Lead | GetVal | GetEcho(q: nat) | GetReady(q: nat) | GetBad

  function EchoOf(c: Config, t: Setting, q: nat): Message
    requires q < |t.E|
  {
    Echo(t.R, BranchOf(c.H, t.E, q), t.E[q])
  }

  function BadReady(c: Config, t: Setting): Message {
    Ready(t.other, Some(Signature(3, c.Digest(t.other))))
  }

  function EventOf(c: Config, t: Setting, p: nat, a: Action): Event
    requires |t.E| == 4 && p < 4 && (a.GetEcho? ==> a.q < 4)
  {
    match a
    case Lead => Send(p, t.m)
    case GetVal => Deliver(p, 0, ValFor(c, t.E, p))
    case GetEcho(q) => Deliver(p, q, EchoOf(c, t, q))
    case GetReady(q) => Deliver(p, q, MakeReady(c, q, t.R))
    case GetBad => Deliver(p, 3, BadReady(c, t))
  }

  predicate Possible(P: Picture, a: Action) {
    match a
    case Lead => !P.hasInput
    case GetVal => !P.gotVal
    case GetEcho(q) => q < 3 && q !in P.echoes
    case GetReady(q) => q < 3 && q !in P.readies && |P.readies| < 2
    case GetBad => !P.bad
  }

  function After(P: Picture, a: Action): Picture {
    match a
    case Lead => P.(hasInput := true)
    case GetVal => P.(gotVal := true)
    case GetEcho(q) =>
      var Q := P.(echoes := P.echoes + {q});
      Q.(readied := P.readied || |Q.echoes| >= 3)
    case GetReady(q) =>
      var Q := P.(readies := P.readies + {q}, signers := P.signers + [q]);
      Q.(readied := P.readied || |Q.readies| >= 2)
    case GetBad => P.(bad := true, signers := P.signers + [3])
  }

  function OutOf(c: Config, t: Setting, p: nat, P: Picture, a: Action): seq<Message>
    requires |t.E| == 4 && p < 4
  {
    match a
    case Lead => [ValFor(c, t.E, 0), ValFor(c, t.E, 1), ValFor(c, t.E, 2), ValFor(c, t.E, 3)]
    case GetVal => [EchoOf(c, t, p)]
    case _ => if After(P, a).readied && !P.readied then [MakeReady(c, p, t.R)] else []
  }

  /** Action a, taken by node p in state n, brings it to n', which has picture Q, and sends out. */
  ghost predicate Moves(c: Config, t: Setting, p: nat, n: Node, a: Action, n': Node, Q: Picture, out: seq<Message>)
    requires |t.E| == 4 && p < 4 && (a.GetEcho? ==> a.q < 4)
  {
    Local(c, n, EventOf(c, t, p, a)) == (n', out) && Looks(c, t, n', Q)
  }

  lemma Leads(c: Config, t: Setting, p: nat, n: Node, P: Picture, a: Action) returns (n': Node)
    requires Fits(c, t) && Looks(c, t, n, P) && Possible(P, a) && p < 4 && a.Lead?
    ensures Moves(c, t, p, n, a, n', After(P, a), OutOf(c, t, p, P, a))
  {
    n' := Local(c, n, EventOf(c, t, p, a)).0;
    assert Input(c, n, t.m).1 == OutOf(c, t, p, P, a);
  }

  lemma GetsVal(c: Config, t: Setting, p: nat, n: Node, P: Picture, a: Action) returns (n': Node)
    requires Fits(c, t) && Looks(c, t, n, P) && Possible(P, a) && p < 4 && a.GetVal?
    ensures Moves(c, t, p, n, a, n', After(P, a), OutOf(c, t, p, P, a))
  {
    n' := Local(c, n, EventOf(c, t, p, a)).0;
    Completeness(c.H, t.E, p);
  }

  // A READY is sent once.
  lemma Sends(c: Config, t: Setting, p: nat, n: Node, P: Picture, enough: bool)
    requires Fits(c, t) && Looks(c, t, n, P)
    ensures var (n', out) := SendReady(c, p, n, t.R, enough);
      && Looks(c, t, n', P.(readied := P.readied || enough))
      && out == if enough && !P.readied then [MakeReady(c, p, t.R)] else []
  {
  }

  lemma RowMore(t: Setting, echoes: set<nat>, q: nat)
    requires |t.E| == 4 && q < 4
    ensures RowFor(t, echoes)[q := Some(t.E[q])] == RowFor(t, echoes + {q})
  {
  }

  lemma SigsMore(c: Config, t: Setting, signers: seq<nat>, q: nat)
    ensures SigsFor(c, t, signers) + [SigFor(c, t, q)] == SigsFor(c, t, signers + [q])
  {
  }

  // Only the READYs for this root change.
  lemma AddedReady(n: Node, q: nat, root: Bytes, different: Bytes, sig: Signature)
    requires root != different
    ensures var n' := AddReady(n, q, root, Some(sig));
      && Readies(n', root) == Readies(n, root) + {q} && Readies(n', different) == Readies(n, different)
      && n' == n.(ready := n'.ready, readySenders := n.readySenders + {q}, readySigs := n.readySigs + [(q, sig)])
  {
  }

  lemma EchoAdded(c: Config, t: Setting, n: Node, P: Picture, q: nat)
    requires Fits(c, t) && Looks(c, t, n, P) && q < 4 && q !in P.echoes
    ensures Looks(c, t, AddEcho(c, n, q, t.R, t.E[q]), P.(echoes := P.echoes + {q}))
  {
    RowMore(t, P.echoes, q);
  }

  lemma GetsEcho(c: Config, t: Setting, p: nat, n: Node, P: Picture, a: Action) returns (n': Node)
    requires Fits(c, t) && Looks(c, t, n, P) && Possible(P, a) && p < 4 && a.GetEcho?
    ensures Moves(c, t, p, n, a, n', After(P, a), OutOf(c, t, p, P, a))
  {
    n' := OnEcho(c, p, n, a.q, EchoOf(c, t, a.q)).0;
    Completeness(c.H, t.E, a.q);
    EchoAdded(c, t, n, P, a.q);
    Sends(c, t, p, AddEcho(c, n, a.q, t.R, t.E[a.q]), P.(echoes := P.echoes + {a.q}), |P.echoes + {a.q}| >= 3);
    EchoIs(c, p, n, a.q, EchoOf(c, t, a.q), t.E[a.q]);
  }

  // An ECHO that passes all checks, in the provable variant.
  lemma EchoIs(c: Config, p: nat, n: Node, q: nat, m: Message, stripe: Bytes)
    requires c.provable && m.Echo? && n.outcome == Running && m.stripe == stripe
    requires q < |Row(c, n, m.root)| && Row(c, n, m.root)[q].None? && q !in n.echoSenders
    requires Accepts(c.H, c.N, stripe, m.root, m.branch, q)
    ensures
      var n1 := AddEcho(c, n, q, m.root, stripe);
      Receive(c, p, n, q, m) == SendReady(c, p, n1, m.root, Echoes(n1, m.root) >= c.EchoThreshold())
  {
  }

  // What READYs leave alone.
  ghost predicate SameEchoes(c: Config, t: Setting, n: Node, n': Node) {
    && n'.outcome == n.outcome && n'.proof == n.proof && n'.input == n.input && n'.fromLeader == n.fromLeader
    && n'.readied == n.readied && n'.echoSenders == n.echoSenders
    && Row(c, n', t.R) == Row(c, n, t.R) && Echoes(n', t.R) == Echoes(n, t.R)
  }

  lemma EchoesKept(c: Config, t: Setting, n: Node, q: nat, root: Bytes, sig: Signature)
    ensures SameEchoes(c, t, n, AddReady(n, q, root, Some(sig)))
  {
  }

  lemma OneMore(a: set<nat>, b: set<nat>, q: nat)
    ensures (a + b) + {q} == (a + {q}) + b
  {
  }

  lemma ReadyLooks(c: Config, t: Setting, n: Node, n': Node, P: Picture, q: nat)
    requires |t.E| == 4 && Looks(c, t, n, P) && SameEchoes(c, t, n, n')
    requires Readies(n', t.R) == Readies(n, t.R) + {q} && Readies(n', t.other) == Readies(n, t.other)
    requires n'.readySenders == n.readySenders + {q} && n'.readySigs == SigsFor(c, t, P.signers + [q])
    ensures Looks(c, t, n', P.(readies := P.readies + {q}, signers := P.signers + [q]))
  {
    OneMore(P.readies, if P.bad then {3} else {}, q);
  }

  lemma ReadyAdded(c: Config, t: Setting, n: Node, P: Picture, q: nat)
    requires Fits(c, t) && Looks(c, t, n, P) && q < 3 && q !in P.readies
    ensures Looks(c, t, AddReady(n, q, t.R, Some(SigFor(c, t, q).1)), P.(readies := P.readies + {q}, signers := P.signers + [q]))
  {
    var sig := SigFor(c, t, q).1;
    SigsMore(c, t, P.signers, q);
    AddedReady(n, q, t.R, t.other, sig);
    EchoesKept(c, t, n, q, t.R, sig);
    ReadyLooks(c, t, n, AddReady(n, q, t.R, Some(sig)), P, q);
  }

  lemma BadAdded(c: Config, t: Setting, n: Node, P: Picture)
    requires Fits(c, t) && Looks(c, t, n, P) && !P.bad
    ensures Looks(c, t, AddReady(n, 3, t.other, Some(SigFor(c, t, 3).1)), P.(bad := true, signers := P.signers + [3]))
  {
    SigsMore(c, t, P.signers, 3);
    AddedReady(n, 3, t.other, t.R, SigFor(c, t, 3).1);
  }

  // A READY that passes all checks and does not complete its root.
  lemma ReadyIs(c: Config, p: nat, n: Node, q: nat, root: Bytes)
    requires c.provable && c.N == 4 && c.f == 1 && n.outcome == Running
    requires q !in Readies(n, root) && q !in n.readySenders
    requires
      var n1 := AddReady(n, q, root, Some(Signature(q, c.Digest(root))));
      |Readies(n1, root)| < 3
    ensures
      var n1 := AddReady(n, q, root, Some(Signature(q, c.Digest(root))));
      Receive(c, p, n, q, MakeReady(c, q, root)) == SendReady(c, p, n1, root, |Readies(n1, root)| >= 2)
  {
  }

  lemma GetsReady(c: Config, t: Setting, p: nat, n: Node, P: Picture, a: Action) returns (n': Node)
    requires Fits(c, t) && Looks(c, t, n, P) && Possible(P, a) && p < 4 && a.GetReady?
    ensures Moves(c, t, p, n, a, n', After(P, a), OutOf(c, t, p, P, a))
  {
    n' := OnReady(c, p, n, a.q, MakeReady(c, a.q, t.R)).0;
    var n1 := AddReady(n, a.q, t.R, Some(SigFor(c, t, a.q).1));
    var Q := P.(readies := P.readies + {a.q}, signers := P.signers + [a.q]);
    ReadyAdded(c, t, n, P, a.q);
    ReadyIs(c, p, n, a.q, t.R);
    Sends(c, t, p, n1, Q, |Q.readies| >= 2);
  }

  lemma GetsBad(c: Config, t: Setting, p: nat, n: Node, P: Picture, a: Action) returns (n': Node)
    requires Fits(c, t) && Looks(c, t, n, P) && Possible(P, a) && p < 4 && a.GetBad? && 3 !in P.readies
    ensures Moves(c, t, p, n, a, n', After(P, a), OutOf(c, t, p, P, a))
  {
    n' := AddReady(n, 3, t.other, Some(SigFor(c, t, 3).1));
    BadAdded(c, t, n, P);
    ReadyIs(c, p, n, 3, t.other);
  }

  lemma Acts(c: Config, t: Setting, p: nat, n: Node, P: Picture, a: Action) returns (n': Node)
    requires Fits(c, t) && Looks(c, t, n, P) && Possible(P, a) && p < 4 && 3 !in P.readies
    ensures Moves(c, t, p, n, a, n', After(P, a), OutOf(c, t, p, P, a))
  {
    match a
    case Lead => n' := Leads(c, t, p, n, P, a);
    case GetVal => n' := GetsVal(c, t, p, n, P, a);
    case GetEcho(_) => n' := GetsEcho(c, t, p, n, P, a);
    case GetReady(_) => n' := GetsReady(c, t, p, n, P, a);
    case GetBad => n' := GetsBad(c, t, p, n, P, a);
  }

  // ---------- scenes of the run ----------

  /** The pictures of nodes 0, 1 and 2, and what they have sent. */
  datatype Scene = Scene(zero: Picture, one: Picture, two: Picture, sent: set<(nat, Message)>)

  function PictureOf(x: Scene, p: nat): Picture {
    if p == 0 then x.zero else if p == 1 then x.one else x.two
  }

  // Only messages that were sent are delivered; the leader has its input first.
  predicate Playable(c: Config, t: Setting, x: Scene, p: nat, a: Action)
    requires |t.E| == 4
  {
    && p < 3 && Possible(PictureOf(x, p), a) && 3 !in PictureOf(x, p).readies
    && (a.Lead? ==> p == 0) && (p == 0 && !a.Lead? ==> x.zero.hasInput)
    && var e := EventOf(c, t, p, a);
      e.Deliver? ==> e.from == 3 || (e.from < 3 && (e.from, e.m) in x.sent)
  }

  function Redraw(x: Scene, p: nat, Q: Picture, sent: set<(nat, Message)>): Scene {
    if p == 0 then Scene(Q, x.one, x.two, sent)
    else if p == 1 then Scene(x.zero, Q, x.two, sent)
    else Scene(x.zero, x.one, Q, sent)
  }

  function Sending(p: nat, out: seq<Message>): set<(nat, Message)> {
    set m | m in out :: (p, m)
  }

  function Next(c: Config, t: Setting, x: Scene, p: nat, a: Action): Scene
    requires |t.E| == 4 && p < 3
  {
    var P := PictureOf(x, p);
    Redraw(x, p, After(P, a), x.sent + Sending(p, OutOf(c, t, p, P, a)))
  }

  ghost predicate Shows(c: Config, t: Setting, s: System, x: Scene)
    requires |t.E| == 4
  {
    && s.nodes.Keys == {0, 1, 2} && s.sent == x.sent
    && Looks(c, t, s.nodes[0], x.zero) && Looks(c, t, s.nodes[1], x.one) && Looks(c, t, s.nodes[2], x.two)
  }

  lemma Redrawn(c: Config, t: Setting, s: System, x: Scene, p: nat, n': Node, Q: Picture, s': System)
    requires |t.E| == 4 && Shows(c, t, s, x) && p < 3 && Looks(c, t, n', Q) && s'.nodes == s.nodes[p := n']
    ensures Shows(c, t, s', Redraw(x, p, Q, s'.sent))
  {
  }

  lemma Enables(c: Config, t: Setting, s: System, x: Scene, p: nat, a: Action)
    requires Fits(c, t) && Shows(c, t, s, x) && Playable(c, t, x, p, a)
    ensures Enabled(c, Honest(), s, EventOf(c, t, p, a))
  {
  }

  lemma RunMore(c: Config, F: Faults, es: seq<Event>, s: System, e: Event)
    requires Run(c, F, es) == Some(s) && Enabled(c, F, s, e)
    ensures Run(c, F, es + [e]) == Some(Apply(c, s, e))
  {
    assert (es + [e])[..|es + [e]| - 1] == es;
  }

  // What a step leads to.
  lemma StepTo(c: Config, s: System, e: Event, n': Node, out: seq<Message>) returns (s': System)
    requires e.p in s.nodes && Local(c, s.nodes[e.p], e) == (n', out)
    ensures s' == Apply(c, s, e) && s'.nodes == s.nodes[e.p := n'] && s'.sent == s.sent + Sending(e.p, out)
  {
    s' := Apply(c, s, e);
  }

  lemma PlayStep(c: Config, t: Setting, s: System, x: Scene, p: nat, a: Action) returns (s': System)
    requires Fits(c, t) && Shows(c, t, s, x) && Playable(c, t, x, p, a)
    ensures Enabled(c, Honest(), s, EventOf(c, t, p, a)) && s' == Apply(c, s, EventOf(c, t, p, a))
    ensures Shows(c, t, s', Next(c, t, x, p, a))
  {
    var P := PictureOf(x, p);
    var n' := Acts(c, t, p, s.nodes[p], P, a);
    Enables(c, t, s, x, p, a);
    s' := StepTo(c, s, EventOf(c, t, p, a), n', OutOf(c, t, p, P, a));
    Redrawn(c, t, s, x, p, n', After(P, a), s');
  }

  // ---------- the script ----------

  /** Who acts next, and how. */
  function Script(): seq<(nat, Action)> {
    [(0, Lead), (0, GetVal), (1, GetVal), (2, GetVal),
     (0, GetEcho(0)), (0, GetEcho(1)), (0, GetEcho(2)), (1, GetEcho(0)), (1, GetEcho(1)), (1, GetEcho(2)),
     (2, GetReady(0)), (2, GetReady(1)), (0, GetBad), (0, GetReady(0)), (0, GetReady(1))]
  }

  // The senders counted after i events when the first of them is counted in the j-th.
  function Counted(i: nat, j: nat): set<nat> {
    if i < j then {} else if i == j then {0} else if i == j + 1 then {0, 1} else {0, 1, 2}
  }

  function Zero(i: nat): Picture {
    Picture(i > 0, i > 1, Counted(i, 5), if i < 14 then {} else if i == 14 then {0} else {0, 1}, i > 12,
            if i < 13 then [] else if i == 13 then [3] else if i == 14 then [3, 0] else [3, 0, 1], i > 6)
  }

  function One(i: nat): Picture {
    Picture(false, i > 2, Counted(i, 8), {}, false, [], i > 9)
  }

  function Two(i: nat): Picture {
    Picture(false, i > 3, {}, if i < 11 then {} else if i == 11 then {0} else {0, 1}, false,
            if i < 11 then [] else if i == 11 then [0] else [0, 1], i > 11)
  }

  // Everything sent in the first i events.
  function SentAt(c: Config, t: Setting, i: nat): set<(nat, Message)>
    requires |t.E| == 4
  {
    (if i > 0 then {(0, ValFor(c, t.E, 0)), (0, ValFor(c, t.E, 1)), (0, ValFor(c, t.E, 2)), (0, ValFor(c, t.E, 3))} else {})
    + (if i > 1 then {(0, EchoOf(c, t, 0))} else {}) + (if i > 2 then {(1, EchoOf(c, t, 1))} else {})
    + (if i > 3 then {(2, EchoOf(c, t, 2))} else {}) + (if i > 6 then {(0, MakeReady(c, 0, t.R))} else {})
    + (if i > 9 then {(1, MakeReady(c, 1, t.R))} else {}) + (if i > 11 then {(2, MakeReady(c, 2, t.R))} else {})
  }

  function SceneAt(c: Config, t: Setting, i: nat): Scene
    requires |t.E| == 4
  {
    Scene(Zero(i), One(i), Two(i), SentAt(c, t, i))
  }

  function PictureAt(p: nat, i: nat): Picture {
    if p == 0 then Zero(i) else if p == 1 then One(i) else Two(i)
  }

  // The i-th turn on pictures; a READY is sent in the turns 6, 9 and 11.
  ghost predicate Drawn(i: nat)
    requires i < 15
  {
    var (p, a) := Script()[i];
    var P, Q := PictureAt(p, i), PictureAt(p, i + 1);
    && p < 3 && Possible(P, a) && 3 !in P.readies && After(P, a) == Q
    && (!a.Lead? && !a.GetVal? ==> (Q.readied && !P.readied <==> i in {6, 9, 11}))
    && forall q :: q < 3 && q != p ==> PictureAt(q, i) == PictureAt(q, i + 1)
  }

  lemma SamePicture(P: Picture, Q: Picture)
    requires P.hasInput == Q.hasInput && P.gotVal == Q.gotVal && P.echoes == Q.echoes && P.readies == Q.readies
    requires P.bad == Q.bad && P.signers == Q.signers && P.readied == Q.readied
    ensures P == Q
  {
  }

  lemma EarlyDrawn(i: nat)
    requires i < 7
    ensures Drawn(i)
  {
    var (p, a) := Script()[i];
    SamePicture(After(PictureAt(p, i), a), PictureAt(p, i + 1));
  }

  lemma MiddleDrawn(i: nat)
    requires 7 <= i < 10
    ensures Drawn(i)
  {
    var (p, a) := Script()[i];
    SamePicture(After(PictureAt(p, i), a), PictureAt(p, i + 1));
  }

  lemma AmplifiedDrawn(i: nat)
    requires 10 <= i < 12
    ensures Drawn(i)
  {
    var (p, a) := Script()[i];
    SamePicture(After(PictureAt(p, i), a), PictureAt(p, i + 1));
  }

  lemma BadDrawn(i: nat)
    requires 12 <= i < 14
    ensures Drawn(i)
  {
    var (p, a) := Script()[i];
    SamePicture(After(PictureAt(p, i), a), PictureAt(p, i + 1));
  }

  lemma LateDrawn(i: nat)
    requires i == 14
    ensures Drawn(i)
  {
    var (p, a) := Script()[i];
    SamePicture(After(PictureAt(p, i), a), PictureAt(p, i + 1));
  }

  lemma OneSent(p: nat, m: Message)
    ensures Sending(p, [m]) == {(p, m)} && Sending(p, []) == {}
  {
  }

  lemma FourSent(p: nat, a: Message, b: Message, c: Message, d: Message)
    ensures Sending(p, [a, b, c, d]) == {(p, a), (p, b), (p, c), (p, d)}
  {
    var out := [a, b, c, d];
    assert out[0] == a && out[1] == b && out[2] == c && out[3] == d;
    forall x | x in {(p, a), (p, b), (p, c), (p, d)} ensures x in Sending(p, out) {
      assert x.1 in out;
    }
  }

  // What the i-th turn sends.
  function OutAt(c: Config, t: Setting, i: nat): seq<Message>
    requires |t.E| == 4 && i < 15
  {
    var p := Script()[i].0;
    if i == 0 then [ValFor(c, t.E, 0), ValFor(c, t.E, 1), ValFor(c, t.E, 2), ValFor(c, t.E, 3)]
    else if i < 4 then [EchoOf(c, t, p)]
    else if i in {6, 9, 11} then [MakeReady(c, p, t.R)]
    else []
  }

  lemma SentMore(c: Config, t: Setting, i: nat)
    requires |t.E| == 4 && i < 15
    ensures SentAt(c, t, i + 1) == SentAt(c, t, i) + Sending(Script()[i].0, OutAt(c, t, i))
  {
    var p := Script()[i].0;
    if i == 0 {
      FourSent(0, ValFor(c, t.E, 0), ValFor(c, t.E, 1), ValFor(c, t.E, 2), ValFor(c, t.E, 3));
    } else {
      OneSent(p, if i < 4 then EchoOf(c, t, p) else MakeReady(c, p, t.R));
    }
  }

  // What is delivered in the i-th turn has been sent.
  lemma SentBefore(c: Config, t: Setting, i: nat)
    requires |t.E| == 4 && i < 15
    ensures var (p, a) := Script()[i];
      var e := EventOf(c, t, p, a);
      e.Deliver? ==> e.from == 3 || (e.from < 3 && (e.from, e.m) in SentAt(c, t, i))
  {
  }

  // The i-th turn of the script leads from scene i to scene i + 1.
  lemma Turned(c: Config, t: Setting, i: nat)
    requires Fits(c, t) && i < 15
    ensures var (p, a) := Script()[i];
      Playable(c, t, SceneAt(c, t, i), p, a) && Next(c, t, SceneAt(c, t, i), p, a) == SceneAt(c, t, i + 1)
  {
    var (p, a) := Script()[i];
    var x := SceneAt(c, t, i);
    AllDrawn(i);
    SentBefore(c, t, i);
    SentMore(c, t, i);
    assert PictureOf(x, p) == PictureAt(p, i);
    assert OutOf(c, t, p, PictureAt(p, i), a) == OutAt(c, t, i);
  }

  lemma AllDrawn(i: nat)
    requires i < 15
    ensures Drawn(i)
  {
    if i < 7 {
      EarlyDrawn(i);
    } else if i < 10 {
      MiddleDrawn(i);
    } else if i < 12 {
      AmplifiedDrawn(i);
    } else if i < 14 {
      BadDrawn(i);
    } else {
      LateDrawn(i);
    }
  }

  lemma Opening(c: Config, t: Setting)
    requires |t.E| == 4
    ensures c.N == 4 ==> Shows(c, t, InitSystem(Honest()), SceneAt(c, t, 0))
  {
  }

  /** The events es lead to scene i. */
  ghost predicate Reached(c: Config, t: Setting, es: seq<Event>, s: System, i: nat)
    requires |t.E| == 4
  {
    Run(c, Honest(), es) == Some(s) && Shows(c, t, s, SceneAt(c, t, i))
  }

  lemma Played(c: Config, t: Setting, es: seq<Event>, s: System, i: nat) returns (es': seq<Event>, s': System)
    requires Fits(c, t) && i < 15 && Reached(c, t, es, s, i)
    ensures Reached(c, t, es', s', i + 1)
  {
    var (p, a) := Script()[i];
    Turned(c, t, i);
    s' := PlayStep(c, t, s, SceneAt(c, t, i), p, a);
    RunMore(c, Honest(), es, s, EventOf(c, t, p, a));
    es' := es + [EventOf(c, t, p, a)];
  }

  // The first i turns.
  lemma {:induction false} Performed(c: Config, t: Setting, i: nat) returns (es: seq<Event>, s: System)
    requires Fits(c, t) && i <= 15
    ensures Reached(c, t, es, s, i)
  {
    if i == 0 {
      Opening(c, t);
      es, s := [], InitSystem(Honest());
    } else {
      es, s := Performed(c, t, i - 1);
      es, s := Played(c, t, es, s, i - 1);
    }
  }

  // ---------- the last READY ----------

  lemma Decodes(c: Config, t: Setting)
    requires Fits(c, t)
    ensures DecodeOutput(c, RowFor(t, {0, 1, 2}), t.R) == Returned(t.m)
  {
    var row := RowFor(t, {0, 1, 2});
    assert FirstPresent(row, 2, 0) == [0, 1] by {
      assert row[0].Some? && row[1].Some?;
      assert FirstPresent(row, 1, 1) == [1] + FirstPresent(row, 0, 2);
    }
    assert StripesOf(t.E, row);
    RoundTrip(c.z, 2, 4, t.m, row);
  }

  // With the READY of node 2 the root is complete.
  lemma Completes(c: Config, t: Setting, n: Node) returns (n': Node)
    requires Fits(c, t) && Looks(c, t, n, Zero(15))
    ensures n' == Receive(c, 0, n, 2, MakeReady(c, 2, t.R)).0
    ensures n'.outcome == Returned(t.m) && n'.proof == Some((t.R, SigsFor(c, t, [3, 0, 1])))
  {
    var n1 := AddReady(n, 2, t.R, Some(SigFor(c, t, 2).1));
    ReadyAdded(c, t, n, Zero(15), 2);
    Decodes(c, t);
    n' := TryOutput(c, n1, t.R);
    FirstThree(c, t);
    ReadyEnds(c, n, n1, t.R);
  }

  lemma FirstThree(c: Config, t: Setting)
    ensures FirstItems(SigsFor(c, t, [3, 0, 1] + [2]), 3) == SigsFor(c, t, [3, 0, 1])
    ensures |{0, 1} + {2}| == 3
  {
  }

  lemma ReadyEnds(c: Config, n: Node, n1: Node, root: Bytes)
    requires c.provable && n.outcome == Running && n.readied.Some?
    requires 2 !in Readies(n, root) && 2 !in n.readySenders
    requires n1 == AddReady(n, 2, root, Some(Signature(2, c.Digest(root))))
    ensures Receive(c, 0, n, 2, MakeReady(c, 2, root)).0 == TryOutput(c, n1, root)
  {
  }

  lemma Refused(c: Config, t: Setting)
    requires Fits(c, t)
    ensures !PrbcValidate(c, c.sid, Proof(c.sid, t.R, SigsFor(c, t, [3, 0, 1])))
  {
    var sigmas := SigsFor(c, t, [3, 0, 1]);
    assert sigmas[0] == SigFor(c, t, 3) && sigmas[0] in sigmas;
  }

  lemma LastStep(c: Config, t: Setting, s: System) returns (s': System)
    requires Fits(c, t) && Shows(c, t, s, SceneAt(c, t, 15))
    ensures s' == Apply(c, s, Deliver(0, 2, MakeReady(c, 2, t.R))) && 0 in s'.nodes
    ensures s'.nodes[0].outcome == Returned(t.m) && s'.nodes[0].proof == Some((t.R, SigsFor(c, t, [3, 0, 1])))
  {
    var n' := Completes(c, t, s.nodes[0]);
    s' := Apply(c, s, Deliver(0, 2, MakeReady(c, 2, t.R)));
  }

  lemma LastEnabled(c: Config, t: Setting, s: System)
    requires Fits(c, t) && Shows(c, t, s, SceneAt(c, t, 15))
    ensures Enabled(c, Honest(), s, Deliver(0, 2, MakeReady(c, 2, t.R)))
  {
  }

  // The whole run.
  lemma Ended(c: Config, t: Setting) returns (es: seq<Event>, s: System)
    requires Fits(c, t)
    ensures Run(c, Honest(), es) == Some(s) && 0 in s.nodes
    ensures s.nodes[0].outcome == Returned(t.m) && s.nodes[0].proof == Some((t.R, SigsFor(c, t, [3, 0, 1])))
  {
    var es0, s0 := Performed(c, t, 15);
    var e := Deliver(0, 2, MakeReady(c, 2, t.R));
    LastEnabled(c, t, s0);
    RunMore(c, Honest(), es0, s0, e);
    es := es0 + [e];
    s := LastStep(c, t, s0);
  }

  /** The root of the stripes that the leader makes of m. */
  function LeaderRoot(c: Config, m: Bytes): Bytes {
    match Encode(c.z, 2, 4, m)
    case Some(E) => if |E| >= 1 then Root(c.H, E) else []
    case None => []
  }

  lemma Fitting(c: Config, m: Bytes, other: Bytes) returns (t: Setting)
    requires c.N == 4 && c.f == 1 && c.leader == 0 && c.provable && FixedLength(c.H) && AnyKRecover(c.z)
    requires c.Digest(other) != c.Digest(LeaderRoot(c, m))
    ensures Fits(c, t) && t.m == m && t.R == LeaderRoot(c, m)
  {
    EncodedSize(c, m);
    var E := Encode(c.z, 2, 4, m).value;
    t := Setting(m, E, Root(c.H, E), other);
  }

  /**
   A proof that is rejected: for every configuration of four nodes, every input m
   of the leader and every other root with another digest there is a run in which
   node 0, the leader, returns m with a proof that prbc_validate does not accept.
   Nodes 0, 1 and 2 are correct, and all Byzantine node 3 does is one READY.
   */
  lemma Rejected(c: Config, m: Bytes, other: Bytes) returns (es: seq<Event>, s: System)
    requires c.N == 4 && c.f == 1 && c.leader == 0 && c.provable && FixedLength(c.H) && AnyKRecover(c.z)
    requires c.Digest(other) != c.Digest(LeaderRoot(c, m))
    ensures Valid(c, Honest()) && Run(c, Honest(), es) == Some(s) && 0 in s.nodes && s.nodes[0].outcome == Returned(m)
    ensures s.nodes[0].proof.Some?
    ensures var (root, sigmas) := s.nodes[0].proof.value;
      root == LeaderRoot(c, m) && !PrbcValidate(c, c.sid, Proof(c.sid, root, sigmas))
  {
    var t := Fitting(c, m, other);
    es, s := Ended(c, t);
    Refused(c, t);
  }
}
