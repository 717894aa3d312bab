/**
 A run of the binary agreement in which two correct nodes decide and quit, and the
 third, which has not decided, can never leave round 0 unless Byzantine node 3
 helps it: the EST 1 that node 1 would have relayed reaches it after its quit.
 */
module BinaryAgreementQuit {
  import opened Quorums
  import opened Options
  import opened Tables
  import opened BinaryAgreement
  import opened BinaryAgreementSafety
  import opened BinaryAgreementProgress
  import opened BinaryAgreementWaits

  ghost predicate Fits(c: Config) {
    c.N == 4 && c.f == 1 && !c.biased && c.coin(0) == 0 && c.coin(1) == 0 && forall r: nat :: Bit(c.coin(r))
  }

  function Honest(): Faults {
    Faults(4, 1, {0, 1, 2})
  }

  // ---------- pictures of nodes ----------

  /**
   Senders by key: EST and AUX of (round, value), CONF of (round, tuple); bin_values
   by round, ESTs sent, and the number of CONFs sent.
   */
  datatype Picture = Picture(
    phase: Phase, r: nat, decided: Option<int>, est: seq<set<nat>>, aux: seq<set<nat>>, conf: seq<set<nat>>,
    bin: seq<set<int>>, sent: seq<bool>, confs: nat)

  function EstKey(k: nat): (nat, int) {
    if k == 0 then (0, 0) else if k == 1 then (0, 1) else if k == 2 then (1, 0) else (1, 1)
  }

  function ConfKey(k: nat): (nat, seq<int>) {
    if k == 0 then (0, [0]) else if k == 1 then (0, [1]) else if k == 2 then (0, [0, 1])
    else if k == 3 then (1, [0]) else if k == 4 then (1, [1]) else (1, [0, 1])
  }

  ghost predicate Sized(P: Picture) {
    |P.est| == 4 && |P.aux| == 4 && |P.conf| == 6 && |P.bin| == 2 && |P.sent| == 4
  }

  ghost predicate EstLooks(n: Node, est: seq<set<nat>>, sent: seq<bool>)
    requires |est| == 4 && |sent| == 4
  {
    forall k: nat :: k < 4 ==> At(n.inbox.est, EstKey(k)) == est[k] && (EstKey(k) in n.estSent <==> sent[k])
  }

  ghost predicate AuxLooks(n: Node, aux: seq<set<nat>>)
    requires |aux| == 4
  {
    forall k: nat :: k < 4 ==> At(n.inbox.aux, EstKey(k)) == aux[k]
  }

  ghost predicate ConfLooks(n: Node, conf: seq<set<nat>>)
    requires |conf| == 6
  {
    forall k: nat :: k < 6 ==> At(n.inbox.conf, ConfKey(k)) == conf[k]
  }

  ghost predicate BinLooks(n: Node, bin: seq<set<int>>)
    requires |bin| == 2
  {
    forall r: nat :: r < 2 ==> At(n.inbox.bin, r) == bin[r]
  }

  ghost predicate LoopLooks(n: Node, P: Picture) {
    && n.loop.phase == P.phase && n.loop.r == P.r && n.loop.alreadyDecided == P.decided
    && n.receiving == (P.phase != Quit) && (P.phase == WaitCoin ==> n.loop.values == {0})
    && forall x :: x in n.loop.confSent ==> x.0 < P.confs
  }

  ghost predicate Looks(n: Node, P: Picture) {
    && Sized(P) && LoopLooks(n, P)
    && EstLooks(n, P.est, P.sent) && AuxLooks(n, P.aux) && ConfLooks(n, P.conf) && BinLooks(n, P.bin)
  }

  // ---------- actions ----------

  datatype Action =
    | Take(v: int) | GetEst(k: nat, q: nat) | GetAux(k: nat, q: nat) | GetConf(k: nat, q: nat)
    | SendAux | SendConf | LeaveConf | Decide | Leave

  function EventOf(p: nat, a: Action): Event {
    match a
    case Take(v) => Input(p, v)
    case GetEst(k, q) => Deliver(p, q, Est(EstKey(k).0, EstKey(k).1))
    case GetAux(k, q) => Deliver(p, q, Aux(EstKey(k).0, EstKey(k).1))
    case GetConf(k, q) => Deliver(p, q, Conf(ConfKey(k).0, ConfKey(k).1))
    case _ => Wake(p, 0)
  }

  ghost predicate Possible(P: Picture, a: Action) {
    && Sized(P) && P.phase != Quit
    && match a
       case Take(v) => P.phase == NoInput && Bit(v) && !P.sent[v]
       case GetEst(k, q) => k < 4 && q < 4 && q !in P.est[k]
       case GetAux(k, q) => k < 4 && q < 4 && q !in P.aux[k]
       case GetConf(k, q) => k < 6 && q < 4 && q !in P.conf[k]
       case SendAux => P.phase == WaitBin && P.r < 2 && 0 in P.bin[P.r]
       case SendConf =>
         && P.phase == WaitAux && P.r < 2 && 0 in P.bin[P.r] && P.confs <= P.r
         && |P.aux[2 * P.r]| >= 3 && |P.aux[2 * P.r + 1]| == 0
       case LeaveConf =>
         && P.phase == WaitConf && P.r < 2 && 0 in P.bin[P.r]
         && |P.conf[3 * P.r]| >= 3 && |P.conf[3 * P.r + 1]| == 0
       case Decide => P.phase == WaitCoin && P.r == 0 && P.decided == None && !P.sent[2]
       case Leave => P.phase == WaitCoin && P.r < 2 && P.decided == Some(0)
  }

  function BinAfter(P: Picture, k: nat, S: set<nat>): seq<set<int>>
    requires k < 4 && |P.bin| == 2
  {
    var (r, v) := EstKey(k);
    if |S| >= 3 then P.bin[r := P.bin[r] + {v}] else P.bin
  }

  ghost function After(P: Picture, a: Action): Picture {
    if !Possible(P, a) then P
    else
    match a
    case Take(v) => P.(phase := WaitBin, r := 0, sent := P.sent[v := true])
    case GetEst(k, q) =>
      var S := P.est[k] + {q};
      P.(est := P.est[k := S], bin := BinAfter(P, k, S), sent := P.sent[k := P.sent[k] || |S| >= 2])
    case GetAux(k, q) => P.(aux := P.aux[k := P.aux[k] + {q}])
    case GetConf(k, q) => P.(conf := P.conf[k := P.conf[k] + {q}])
    case SendAux => P.(phase := WaitAux)
    case SendConf => P.(phase := WaitConf, confs := P.r + 1)
    case LeaveConf => P.(phase := WaitCoin)
    case Decide => P.(phase := WaitBin, r := 1, decided := Some(0), sent := P.sent[2 := true])
    case Leave => P.(phase := Quit)
  }

  ghost function OutOf(P: Picture, a: Action): seq<Message> {
    if !Possible(P, a) then []
    else
    match a
    case Take(v) => [Est(0, v)]
    case GetEst(k, q) => if |P.est[k] + {q}| >= 2 && !P.sent[k] then [Est(EstKey(k).0, EstKey(k).1)] else []
    case SendAux => [Aux(P.r, 0)]
    case SendConf => [Conf(P.r, Tuple(P.bin[P.r]))]
    case Decide => [Est(1, 0)]
    case _ => []
  }

  // ---------- actions are steps of a node ----------

  /** Action a, taken by node p in state n, brings it to n', which has picture Q, and sends out. */
  ghost predicate Moves(c: Config, p: nat, n: Node, a: Action, n': Node, Q: Picture, out: seq<Message>) {
    Local(c, n, EventOf(p, a)) == (n', out) && Looks(n', Q)
  }

  lemma Takes(c: Config, p: nat, n: Node, P: Picture, a: Action) returns (n': Node)
    requires Fits(c) && Looks(n, P) && Possible(P, a) && a.Take?
    ensures Moves(c, p, n, a, n', After(P, a), OutOf(P, a))
  {
    n' := Start(n, a.v).0;
    assert EstKey(a.v) == (0, a.v);
  }

  lemma EstDrawn(n: Node, n': Node, est: seq<set<nat>>, sent: seq<bool>, k: nat, S: set<nat>, now: bool)
    requires |est| == 4 && |sent| == 4 && EstLooks(n, est, sent) && k < 4
    requires n'.inbox.est == n.inbox.est[EstKey(k) := S]
    requires n'.estSent == (if now then n.estSent + {EstKey(k)} else n.estSent)
    ensures EstLooks(n', est[k := S], sent[k := sent[k] || now])
  {
  }

  lemma BinDrawn(n: Node, n': Node, bin: seq<set<int>>, k: nat, enough: bool)
    requires |bin| == 2 && BinLooks(n, bin) && k < 4
    requires var (r, v) := EstKey(k); n'.inbox.bin == if enough then n.inbox.bin[r := At(n.inbox.bin, r) + {v}] else n.inbox.bin
    ensures var (r, v) := EstKey(k); BinLooks(n', if enough then bin[r := bin[r] + {v}] else bin)
  {
  }

  // An EST that is not redundant, with its two thresholds.
  lemma EstIs(c: Config, n: Node, q: nat, r: nat, v: int)
    requires Fits(c) && Bit(v) && q !in At(n.inbox.est, (r, v))
    ensures
      var S := At(n.inbox.est, (r, v)) + {q};
      var now := |S| >= 2 && (r, v) !in n.estSent;
      OnEst(c, n, q, r, v)
      == (n.(estSent := if now then n.estSent + {(r, v)} else n.estSent,
             inbox := n.inbox.(est := n.inbox.est[(r, v) := S],
                               bin := if |S| >= 3 then n.inbox.bin[r := At(n.inbox.bin, r) + {v}] else n.inbox.bin)),
          if now then [Est(r, v)] else [])
  {
  }

  lemma GetsEst(c: Config, p: nat, n: Node, P: Picture, a: Action) returns (n': Node)
    requires Fits(c) && Looks(n, P) && Possible(P, a) && a.GetEst?
    ensures Moves(c, p, n, a, n', After(P, a), OutOf(P, a))
  {
    var (r, v) := EstKey(a.k);
    assert At(n.inbox.est, EstKey(a.k)) == P.est[a.k] && (EstKey(a.k) in n.estSent <==> P.sent[a.k]);
    var S := P.est[a.k] + {a.q};
    n' := OnEst(c, n, a.q, r, v).0;
    EstIs(c, n, a.q, r, v);
    EstDrawn(n, n', P.est, P.sent, a.k, S, |S| >= 2 && !P.sent[a.k]);
    BinDrawn(n, n', P.bin, a.k, |S| >= 3);
    EstGot(n, n', P, a);
  }

  // Nothing else changes.
  lemma EstGot(n: Node, n': Node, P: Picture, a: Action)
    requires Looks(n, P) && Possible(P, a) && a.GetEst?
    requires n'.loop == n.loop && n'.receiving == n.receiving && n'.inbox.aux == n.inbox.aux && n'.inbox.conf == n.inbox.conf
    requires EstLooks(n', After(P, a).est, After(P, a).sent) && BinLooks(n', After(P, a).bin)
    ensures Looks(n', After(P, a))
  {
  }

  lemma GetsAux(c: Config, p: nat, n: Node, P: Picture, a: Action) returns (n': Node)
    requires Fits(c) && Looks(n, P) && Possible(P, a) && a.GetAux?
    ensures Moves(c, p, n, a, n', After(P, a), OutOf(P, a))
  {
    n' := OnAux(c, n, a.q, EstKey(a.k).0, EstKey(a.k).1);
  }

  lemma GetsConf(c: Config, p: nat, n: Node, P: Picture, a: Action) returns (n': Node)
    requires Fits(c) && Looks(n, P) && Possible(P, a) && a.GetConf?
    ensures Moves(c, p, n, a, n', After(P, a), OutOf(P, a))
  {
    n' := OnConf(n, a.q, ConfKey(a.k).0, ConfKey(a.k).1);
  }

  lemma SendsAux(c: Config, p: nat, n: Node, P: Picture, a: Action) returns (n': Node)
    requires Fits(c) && Looks(n, P) && Possible(P, a) && a.SendAux?
    ensures Moves(c, p, n, a, n', After(P, a), OutOf(P, a))
  {
    n' := Resume(c, n, 0).0;
  }

  lemma SendsConf(c: Config, p: nat, n: Node, P: Picture, a: Action) returns (n': Node)
    requires Fits(c) && Looks(n, P) && Possible(P, a) && a.SendConf?
    ensures Moves(c, p, n, a, n', After(P, a), OutOf(P, a))
  {
    assert EstKey(2 * P.r) == (P.r, 0) && EstKey(2 * P.r + 1) == (P.r, 1);
    n' := Resume(c, n, 0).0;
  }

  lemma LeavesConf(c: Config, p: nat, n: Node, P: Picture, a: Action) returns (n': Node)
    requires Fits(c) && Looks(n, P) && Possible(P, a) && a.LeaveConf?
    ensures Moves(c, p, n, a, n', After(P, a), OutOf(P, a))
  {
    assert ConfKey(3 * P.r) == (P.r, [0]) && ConfKey(3 * P.r + 1) == (P.r, [1]);
    n' := Resume(c, n, 0).0;
  }

  lemma Decides(c: Config, p: nat, n: Node, P: Picture, a: Action) returns (n': Node)
    requires Fits(c) && Looks(n, P) && Possible(P, a) && a.Decide?
    ensures Moves(c, p, n, a, n', After(P, a), OutOf(P, a))
  {
    assert EstKey(2) == (1, 0);
    n' := Resume(c, n, 0).0;
  }

  lemma Quits(c: Config, p: nat, n: Node, P: Picture, a: Action) returns (n': Node)
    requires Fits(c) && Looks(n, P) && Possible(P, a) && a.Leave?
    ensures Moves(c, p, n, a, n', After(P, a), OutOf(P, a))
  {
    n' := Resume(c, n, 0).0;
  }

  lemma Acts(c: Config, p: nat, n: Node, P: Picture, a: Action) returns (n': Node)
    requires Fits(c) && Looks(n, P) && Possible(P, a)
    ensures Moves(c, p, n, a, n', After(P, a), OutOf(P, a))
  {
    match a
    case Take(_) => n' := Takes(c, p, n, P, a);
    case GetEst(_, _) => n' := GetsEst(c, p, n, P, a);
    case GetAux(_, _) => n' := GetsAux(c, p, n, P, a);
    case GetConf(_, _) => n' := GetsConf(c, p, n, P, a);
    case SendAux => n' := SendsAux(c, p, n, P, a);
    case SendConf => n' := SendsConf(c, p, n, P, a);
    case LeaveConf => n' := LeavesConf(c, p, n, P, a);
    case Decide => n' := Decides(c, p, n, P, a);
    case Leave => n' := Quits(c, p, n, P, a);
  }

  // ---------- scenes of the run ----------

  /** The pictures of nodes 0, 1 and 2, and what they have sent. */
  datatype Scene = Scene(zero: Picture, one: Picture, two: Picture, sent: set<(nat, Message)>)

  function PictureOf(x: Scene, p: nat): Picture {
    if p == 0 then x.zero else if p == 1 then x.one else x.two
  }

  function Redraw(x: Scene, p: nat, Q: Picture, sent: set<(nat, Message)>): Scene {
    if p == 0 then Scene(Q, x.one, x.two, sent)
    else if p == 1 then Scene(x.zero, Q, x.two, sent)
    else Scene(x.zero, x.one, Q, sent)
  }

  // What is delivered comes from node 3 or has been sent.
  predicate Arrives(sent: set<(nat, Message)>, p: nat, a: Action) {
    var e := EventOf(p, a);
    e.Deliver? ==> e.from == 3 || (e.from < 3 && (e.from, e.m) in sent)
  }

  ghost predicate Shows(s: System, x: Scene) {
    s.nodes.Keys == {0, 1, 2} && s.sent == x.sent && Looks(s.nodes[0], x.zero) && Looks(s.nodes[1], x.one) && Looks(s.nodes[2], x.two)
  }

  lemma Redrawn(s: System, x: Scene, p: nat, n': Node, Q: Picture, sent: set<(nat, Message)>)
    requires Shows(s, x) && p < 3 && Looks(n', Q)
    ensures Shows(System(s.nodes[p := n'], sent), Redraw(x, p, Q, sent))
  {
  }

  lemma Enables(c: Config, s: System, x: Scene, p: nat, a: Action)
    requires Fits(c) && Shows(s, x) && p < 3 && Arrives(x.sent, p, a)
    ensures Enabled(c, Honest(), s, EventOf(p, a))
  {
  }

  lemma RunMore(c: Config, F: Faults, es: seq<Event>, s: System, e: Event, s': System)
    requires Run(c, F, es) == Some(s) && Enabled(c, F, s, e) && s' == Apply(c, s, e)
    ensures Run(c, F, es + [e]) == Some(s')
  {
    assert (es + [e])[..|es + [e]| - 1] == es;
  }

  // What a step leads to.
  lemma StepTo(c: Config, s: System, e: Event, n': Node, out: seq<Message>) returns (s': System)
    requires e.p in s.nodes && Local(c, s.nodes[e.p], e) == (n', out)
    ensures s' == Apply(c, s, e) && s' == System(s.nodes[e.p := n'], s.sent + Sending(e.p, out))
  {
    s' := Apply(c, s, e);
  }

  lemma PlayStep(c: Config, s: System, x: Scene, p: nat, a: Action) returns (s': System)
    requires Fits(c) && Shows(s, x) && p < 3 && Possible(PictureOf(x, p), a) && Arrives(x.sent, p, a)
    ensures Enabled(c, Honest(), s, EventOf(p, a)) && s' == Apply(c, s, EventOf(p, a))
    ensures var P := PictureOf(x, p); Shows(s', Redraw(x, p, After(P, a), x.sent + Sending(p, OutOf(P, a))))
  {
    var P := PictureOf(x, p);
    var n' := Acts(c, p, s.nodes[p], P, a);
    Enables(c, s, x, p, a);
    s' := StepTo(c, s, EventOf(p, a), n', OutOf(P, a));
    Redrawn(s, x, p, n', After(P, a), s'.sent);
  }

  /** The events es lead to this scene. */
  ghost predicate Reached(c: Config, es: seq<Event>, s: System, x: Scene) {
    Run(c, Honest(), es) == Some(s) && Shows(s, x)
  }

  lemma Play(c: Config, es: seq<Event>, s: System, x: Scene, p: nat, a: Action) returns (es': seq<Event>, s': System)
    requires Fits(c) && Reached(c, es, s, x)
    requires p < 3 && Possible(PictureOf(x, p), a) && Arrives(x.sent, p, a)
    ensures Run(c, Honest(), es') == Some(s')
    ensures var P := PictureOf(x, p); Shows(s', Redraw(x, p, After(P, a), x.sent + Sending(p, OutOf(P, a))))
  {
    s' := PlayStep(c, s, x, p, a);
    RunMore(c, Honest(), es, s, EventOf(p, a), s');
    es' := es + [EventOf(p, a)];
  }

  ghost function Next(x: Scene, p: nat, a: Action): Scene {
    var P := PictureOf(x, p);
    Redraw(x, p, After(P, a), x.sent + Sending(p, OutOf(P, a)))
  }

  // Action a of node p leads from scene y to scene z.
  ghost predicate Turn(y: Scene, p: nat, a: Action, z: Scene) {
    p < 3 && Possible(PictureOf(y, p), a) && Arrives(y.sent, p, a) && z == Next(y, p, a)
  }

  lemma PlayTurn(c: Config, es: seq<Event>, s: System, y: Scene, p: nat, a: Action, z: Scene)
    returns (es': seq<Event>, s': System)
    requires Fits(c) && Reached(c, es, s, y) && Turn(y, p, a, z)
    ensures Reached(c, es', s', z)
  {
    es', s' := Play(c, es, s, y, p, a);
  }

  // ---------- up to three actions of one node ----------

  ghost function AfterAll(P: Picture, acts: seq<Action>): Picture {
    if |acts| == 0 then P
    else if |acts| == 1 then After(P, acts[0])
    else if |acts| == 2 then After(After(P, acts[0]), acts[1])
    else After(After(After(P, acts[0]), acts[1]), acts[2])
  }

  ghost function OutOfAll(P: Picture, acts: seq<Action>): seq<Message> {
    if |acts| == 0 then []
    else if |acts| == 1 then OutOf(P, acts[0])
    else if |acts| == 2 then OutOf(P, acts[0]) + OutOf(After(P, acts[0]), acts[1])
    else OutOf(P, acts[0]) + OutOf(After(P, acts[0]), acts[1]) + OutOf(After(After(P, acts[0]), acts[1]), acts[2])
  }

  ghost predicate PossibleAll(P: Picture, acts: seq<Action>) {
    && 1 <= |acts| <= 3
    && Possible(P, acts[0])
    && (|acts| >= 2 ==> Possible(After(P, acts[0]), acts[1]))
    && (|acts| == 3 ==> Possible(After(After(P, acts[0]), acts[1]), acts[2]))
  }

  ghost predicate ArriveAll(sent: set<(nat, Message)>, p: nat, acts: seq<Action>) {
    forall a :: a in acts ==> Arrives(sent, p, a)
  }

  lemma SendingMore(p: nat, a: seq<Message>, b: seq<Message>, sent: set<(nat, Message)>)
    ensures sent + Sending(p, a) + Sending(p, b) == sent + Sending(p, a + b)
  {
  }

  lemma ArrivesMore(sent: set<(nat, Message)>, more: set<(nat, Message)>, p: nat, a: Action)
    requires Arrives(sent, p, a)
    ensures Arrives(sent + more, p, a)
  {
  }

  // Scenes that differ in node p and in what is sent.
  lemma RedrawTwice(x: Scene, p: nat, P: Picture, Q: Picture, sent: set<(nat, Message)>, sent': set<(nat, Message)>)
    requires p < 3
    ensures PictureOf(Redraw(x, p, P, sent), p) == P && Redraw(x, p, P, sent).sent == sent
    ensures Redraw(Redraw(x, p, P, sent), p, Q, sent') == Redraw(x, p, Q, sent')
  {
  }

  // One more action after some that led from x to P and out.
  lemma PlayMore(c: Config, es: seq<Event>, s: System, x: Scene, p: nat, P: Picture, out: seq<Message>, a: Action)
    returns (es': seq<Event>, s': System)
    requires Fits(c) && p < 3 && Reached(c, es, s, Redraw(x, p, P, x.sent + Sending(p, out)))
    requires Possible(P, a) && Arrives(x.sent, p, a)
    ensures Reached(c, es', s', Redraw(x, p, After(P, a), x.sent + Sending(p, out + OutOf(P, a))))
  {
    var sent := x.sent + Sending(p, out);
    var y := Redraw(x, p, P, sent);
    RedrawTwice(x, p, P, After(P, a), sent, sent + Sending(p, OutOf(P, a)));
    SendingMore(p, out, OutOf(P, a), x.sent);
    ArrivesMore(x.sent, Sending(p, out), p, a);
    es', s' := PlayTurn(c, es, s, y, p, a, Next(y, p, a));
  }

  lemma PlayAll(c: Config, es: seq<Event>, s: System, x: Scene, p: nat, acts: seq<Action>)
    returns (es': seq<Event>, s': System)
    requires Fits(c) && p < 3 && Reached(c, es, s, x)
    requires PossibleAll(PictureOf(x, p), acts) && ArriveAll(x.sent, p, acts)
    ensures Reached(c, es', s', Redraw(x, p, AfterAll(PictureOf(x, p), acts), x.sent + Sending(p, OutOfAll(PictureOf(x, p), acts))))
  {
    var P := PictureOf(x, p);
    var P1, out1 := After(P, acts[0]), OutOf(P, acts[0]);
    es', s' := PlayTurn(c, es, s, x, p, acts[0], Next(x, p, acts[0]));
    if |acts| >= 2 {
      var P2, out2 := After(P1, acts[1]), OutOf(P1, acts[1]);
      es', s' := PlayMore(c, es', s', x, p, P1, out1, acts[1]);
      if |acts| == 3 {
        es', s' := PlayMore(c, es', s', x, p, P2, out1 + out2, acts[2]);
      }
    }
  }

  // ---------- several messages of one kind ----------

  // Messages from node a and then b, when none of the kind was there.
  lemma EstPair(P: Picture, k: nat, a: nat, b: nat)
    requires Sized(P) && P.phase != Quit && k < 4 && a < 4 && b < 4 && a != b && P.est[k] == {}
    ensures var acts := [GetEst(k, a), GetEst(k, b)];
      && PossibleAll(P, acts) && AfterAll(P, acts) == P.(est := P.est[k := {a, b}], sent := P.sent[k := true])
      && OutOfAll(P, acts) == if P.sent[k] then [] else [Est(EstKey(k).0, EstKey(k).1)]
  {
    var P1 := After(P, GetEst(k, a));
    assert P1 == P.(est := P.est[k := {a}]);
    assert P.est[k := {a}][k := {a, b}] == P.est[k := {a, b}];
    assert |{a} + {b}| == 2 && {a} + {b} == {a, b};
    assert OutOf(P, GetEst(k, a)) == [];
  }

  // And then from d.
  lemma EstThird(P: Picture, k: nat, a: nat, b: nat, d: nat)
    requires Sized(P) && P.phase != Quit && k < 4 && a < 4 && b < 4 && d < 4 && a != b && a != d && b != d
    requires P.est[k] == {a, b} && P.sent[k]
    ensures var (r, v) := EstKey(k);
      && Possible(P, GetEst(k, d)) && OutOf(P, GetEst(k, d)) == []
      && After(P, GetEst(k, d)) == P.(est := P.est[k := {a, b, d}], bin := P.bin[r := P.bin[r] + {v}])
  {
    assert {a, b} + {d} == {a, b, d} && |{a, b} + {d}| == 3;
    assert P.sent[k := true] == P.sent;
  }

  lemma EstTriple(P: Picture, k: nat, a: nat, b: nat, d: nat)
    requires Sized(P) && P.phase != Quit && k < 4 && a < 4 && b < 4 && d < 4 && a != b && a != d && b != d && P.est[k] == {}
    ensures var acts := [GetEst(k, a), GetEst(k, b), GetEst(k, d)];
      var (r, v) := EstKey(k);
      && PossibleAll(P, acts) && OutOfAll(P, acts) == (if P.sent[k] then [] else [Est(r, v)])
      && AfterAll(P, acts)
         == P.(est := P.est[k := {a, b, d}], bin := P.bin[r := P.bin[r] + {v}], sent := P.sent[k := true])
  {
    EstPair(P, k, a, b);
    var P2 := AfterAll(P, [GetEst(k, a), GetEst(k, b)]);
    EstThird(P2, k, a, b, d);
    assert P.est[k := {a, b}][k := {a, b, d}] == P.est[k := {a, b, d}];
  }

  lemma AuxPair(P: Picture, k: nat, a: nat, b: nat)
    requires Sized(P) && P.phase != Quit && k < 4 && a < 4 && b < 4 && a != b && P.aux[k] == {}
    ensures var acts := [GetAux(k, a), GetAux(k, b)];
      PossibleAll(P, acts) && AfterAll(P, acts) == P.(aux := P.aux[k := {a, b}]) && OutOfAll(P, acts) == []
  {
    assert P.aux[k := {a}][k := {a, b}] == P.aux[k := {a, b}] && {} + {a} == {a} && {a} + {b} == {a, b};
  }

  lemma AuxTriple(P: Picture, k: nat, a: nat, b: nat, d: nat)
    requires Sized(P) && P.phase != Quit && k < 4 && a < 4 && b < 4 && d < 4 && a != b && a != d && b != d && P.aux[k] == {}
    ensures var acts := [GetAux(k, a), GetAux(k, b), GetAux(k, d)];
      PossibleAll(P, acts) && AfterAll(P, acts) == P.(aux := P.aux[k := {a, b, d}]) && OutOfAll(P, acts) == []
  {
    AuxPair(P, k, a, b);
    assert P.aux[k := {a, b}][k := {a, b, d}] == P.aux[k := {a, b, d}] && {a, b} + {d} == {a, b, d};
  }

  lemma ConfPair(P: Picture, k: nat, a: nat, b: nat)
    requires Sized(P) && P.phase != Quit && k < 6 && a < 4 && b < 4 && a != b && P.conf[k] == {}
    ensures var acts := [GetConf(k, a), GetConf(k, b)];
      PossibleAll(P, acts) && AfterAll(P, acts) == P.(conf := P.conf[k := {a, b}]) && OutOfAll(P, acts) == []
  {
    assert P.conf[k := {a}][k := {a, b}] == P.conf[k := {a, b}] && {} + {a} == {a} && {a} + {b} == {a, b};
  }

  lemma ConfTriple(P: Picture, k: nat, a: nat, b: nat, d: nat)
    requires Sized(P) && P.phase != Quit && k < 6 && a < 4 && b < 4 && d < 4 && a != b && a != d && b != d && P.conf[k] == {}
    ensures var acts := [GetConf(k, a), GetConf(k, b), GetConf(k, d)];
      PossibleAll(P, acts) && AfterAll(P, acts) == P.(conf := P.conf[k := {a, b, d}]) && OutOfAll(P, acts) == []
  {
    ConfPair(P, k, a, b);
    assert P.conf[k := {a, b}][k := {a, b, d}] == P.conf[k := {a, b, d}] && {a, b} + {d} == {a, b, d};
  }

  // ---------- the moves of the script ----------

  datatype Move =
    | Begin(v: int) | TwoEsts(k: nat, a: nat, b: nat) | ThirdEst(k: nat, a: nat, b: nat, d: nat)
    | ThreeEsts(k: nat, a: nat, b: nat, d: nat) | TwoAuxs(k: nat, a: nat, b: nat) | ThreeAuxs(k: nat, a: nat, b: nat, d: nat)
    | OneConf(k: nat, a: nat) | TwoConfs(k: nat, a: nat, b: nat) | ThreeConfs(k: nat, a: nat, b: nat, d: nat)
    | ToAux | ToConf | ToDecision | ToQuit

  function ActsOf(M: Move): seq<Action> {
    match M
    case Begin(v) => [Take(v)]
    case TwoEsts(k, a, b) => [GetEst(k, a), GetEst(k, b)]
    case ThirdEst(k, _, _, d) => [GetEst(k, d)]
    case ThreeEsts(k, a, b, d) => [GetEst(k, a), GetEst(k, b), GetEst(k, d)]
    case TwoAuxs(k, a, b) => [GetAux(k, a), GetAux(k, b)]
    case ThreeAuxs(k, a, b, d) => [GetAux(k, a), GetAux(k, b), GetAux(k, d)]
    case OneConf(k, a) => [GetConf(k, a)]
    case TwoConfs(k, a, b) => [GetConf(k, a), GetConf(k, b)]
    case ThreeConfs(k, a, b, d) => [GetConf(k, a), GetConf(k, b), GetConf(k, d)]
    case ToAux => [SendAux]
    case ToConf => [SendConf]
    case ToDecision => [LeaveConf, Decide]
    case ToQuit => [LeaveConf, Leave]
  }

  predicate Differ(a: nat, b: nat, d: nat) {
    a < 4 && b < 4 && d < 4 && a != b && a != d && b != d
  }

  ghost predicate MoveOk(P: Picture, M: Move) {
    && Sized(P) && P.phase != Quit && P.r < 2
    && match M
       case Begin(v) => P.phase == NoInput && Bit(v) && !P.sent[v]
       case TwoEsts(k, a, b) => k < 4 && a < 4 && b < 4 && a != b && P.est[k] == {}
       case ThirdEst(k, a, b, d) => k < 4 && Differ(a, b, d) && P.est[k] == {a, b} && P.sent[k]
       case ThreeEsts(k, a, b, d) => k < 4 && Differ(a, b, d) && P.est[k] == {} && P.sent[k]
       case TwoAuxs(k, a, b) => k < 4 && a < 4 && b < 4 && a != b && P.aux[k] == {}
       case ThreeAuxs(k, a, b, d) => k < 4 && Differ(a, b, d) && P.aux[k] == {}
       case OneConf(k, a) => k < 6 && a < 4 && P.conf[k] == {}
       case TwoConfs(k, a, b) => k < 6 && a < 4 && b < 4 && a != b && P.conf[k] == {}
       case ThreeConfs(k, a, b, d) => k < 6 && Differ(a, b, d) && P.conf[k] == {}
       case ToAux => Possible(P, SendAux)
       case ToConf => Possible(P, SendConf)
       case ToDecision => Possible(P, LeaveConf) && P.r == 0 && P.decided == None && !P.sent[2]
       case ToQuit => Possible(P, LeaveConf) && P.decided == Some(0)
  }

  // What the move makes of the picture.
  ghost function Effect(P: Picture, M: Move): Picture
    requires MoveOk(P, M)
  {
    match M
    case Begin(v) => P.(phase := WaitBin, r := 0, sent := P.sent[v := true])
    case TwoEsts(k, a, b) => P.(est := P.est[k := {a, b}], sent := P.sent[k := true])
    case ThirdEst(k, a, b, d) =>
      var (r, v) := EstKey(k);
      P.(est := P.est[k := {a, b, d}], bin := P.bin[r := P.bin[r] + {v}])
    case ThreeEsts(k, a, b, d) =>
      var (r, v) := EstKey(k);
      P.(est := P.est[k := {a, b, d}], bin := P.bin[r := P.bin[r] + {v}])
    case TwoAuxs(k, a, b) => P.(aux := P.aux[k := {a, b}])
    case ThreeAuxs(k, a, b, d) => P.(aux := P.aux[k := {a, b, d}])
    case OneConf(k, a) => P.(conf := P.conf[k := {a}])
    case TwoConfs(k, a, b) => P.(conf := P.conf[k := {a, b}])
    case ThreeConfs(k, a, b, d) => P.(conf := P.conf[k := {a, b, d}])
    case ToAux => P.(phase := WaitAux)
    case ToConf => P.(phase := WaitConf, confs := P.r + 1)
    case ToDecision => P.(phase := WaitBin, r := 1, decided := Some(0), sent := P.sent[2 := true])
    case ToQuit => P.(phase := Quit)
  }

  ghost function Says(P: Picture, M: Move): seq<Message>
    requires MoveOk(P, M)
  {
    match M
    case Begin(v) => [Est(0, v)]
    case TwoEsts(k, _, _) => if P.sent[k] then [] else [Est(EstKey(k).0, EstKey(k).1)]
    case ToAux => [Aux(P.r, 0)]
    case ToConf => [Conf(P.r, Tuple(P.bin[P.r]))]
    case ToDecision => [Est(1, 0)]
    case _ => []
  }

  // The move is what its actions come to.
  ghost predicate Amounts(P: Picture, M: Move)
    requires MoveOk(P, M)
  {
    PossibleAll(P, ActsOf(M)) && AfterAll(P, ActsOf(M)) == Effect(P, M) && OutOfAll(P, ActsOf(M)) == Says(P, M)
  }

  lemma EstMove(P: Picture, M: Move)
    requires MoveOk(P, M) && (M.TwoEsts? || M.ThirdEst? || M.ThreeEsts?)
    ensures Amounts(P, M)
  {
    match M
    case TwoEsts(k, a, b) => EstPair(P, k, a, b);
    case ThirdEst(k, a, b, d) => EstThird(P, k, a, b, d);
    case ThreeEsts(k, a, b, d) =>
      EstTriple(P, k, a, b, d);
      assert P.sent[k := true] == P.sent;
  }

  lemma AuxMove(P: Picture, M: Move)
    requires MoveOk(P, M) && (M.TwoAuxs? || M.ThreeAuxs?)
    ensures Amounts(P, M)
  {
    match M
    case TwoAuxs(k, a, b) => AuxPair(P, k, a, b);
    case ThreeAuxs(k, a, b, d) => AuxTriple(P, k, a, b, d);
  }

  lemma ConfMove(P: Picture, M: Move)
    requires MoveOk(P, M) && (M.OneConf? || M.TwoConfs? || M.ThreeConfs?)
    ensures Amounts(P, M)
  {
    match M
    case OneConf(_, a) => assert {} + {a} == {a};
    case TwoConfs(k, a, b) => ConfPair(P, k, a, b);
    case ThreeConfs(k, a, b, d) => ConfTriple(P, k, a, b, d);
  }

  lemma LoopMove(P: Picture, M: Move)
    requires MoveOk(P, M) && (M.Begin? || M.ToAux? || M.ToConf? || M.ToDecision? || M.ToQuit?)
    ensures Amounts(P, M)
  {
  }

  lemma MoveIs(P: Picture, M: Move)
    requires MoveOk(P, M)
    ensures Amounts(P, M)
  {
    if M.TwoEsts? || M.ThirdEst? || M.ThreeEsts? {
      EstMove(P, M);
    } else if M.TwoAuxs? || M.ThreeAuxs? {
      AuxMove(P, M);
    } else if M.OneConf? || M.TwoConfs? || M.ThreeConfs? {
      ConfMove(P, M);
    } else {
      LoopMove(P, M);
    }
  }

  // One move of node p in the run.
  lemma PlayMove(c: Config, es: seq<Event>, s: System, x: Scene, p: nat, M: Move) returns (es': seq<Event>, s': System)
    requires Fits(c) && p < 3 && Reached(c, es, s, x) && MoveOk(PictureOf(x, p), M) && ArriveAll(x.sent, p, ActsOf(M))
    ensures Reached(c, es', s', Redraw(x, p, Effect(PictureOf(x, p), M), x.sent + Sending(p, Says(PictureOf(x, p), M))))
  {
    MoveIs(PictureOf(x, p), M);
    es', s' := PlayAll(c, es, s, x, p, ActsOf(M));
  }

  // ---------- the script ----------

  /** Who moves in turn i, and how. */
  function Turns(i: nat): (nat, Move) {
    match i
    case 0 => (0, Begin(1))
    case 1 => (1, Begin(0))
    case 2 => (2, Begin(1))
    case 3 => (0, ThreeEsts(1, 0, 2, 3))
    case 4 => (0, TwoEsts(0, 1, 3))
    case 5 => (0, ThirdEst(0, 1, 3, 0))
    case 6 => (1, ThreeEsts(0, 0, 1, 3))
    case 7 => (2, TwoEsts(1, 0, 2))
    case 8 => (2, TwoEsts(0, 0, 1))
    case 9 => (2, ThirdEst(0, 0, 1, 2))
    case 10 => (0, ToAux)
    case 11 => (1, ToAux)
    case 12 => (2, ToAux)
    case 13 => (0, ThreeAuxs(0, 0, 1, 2))
    case 14 => (1, ThreeAuxs(0, 0, 1, 2))
    case 15 => (2, ThreeAuxs(0, 0, 1, 2))
    case 16 => (0, ToConf)
    case 17 => (1, ToConf)
    case 18 => (2, ToConf)
    case 19 => (0, ThreeConfs(0, 1, 2, 3))
    case 20 => (0, ToDecision)
    case 21 => (1, ThreeConfs(0, 1, 2, 3))
    case 22 => (1, ToDecision)
    case 23 => (2, OneConf(2, 0))
    case 24 => (2, TwoConfs(0, 1, 2))
    case 25 => (0, ThreeEsts(2, 0, 1, 3))
    case 26 => (1, ThreeEsts(2, 0, 1, 3))
    case 27 => (0, ToAux)
    case 28 => (1, ToAux)
    case 29 => (0, ThreeAuxs(2, 0, 1, 3))
    case 30 => (1, ThreeAuxs(2, 0, 1, 3))
    case 31 => (0, ToConf)
    case 32 => (1, ToConf)
    case 33 => (0, ThreeConfs(3, 0, 1, 3))
    case 34 => (1, ThreeConfs(3, 0, 1, 3))
    case 35 => (0, ToQuit)
    case 36 => (1, ToQuit)
    case 37 => (2, TwoEsts(2, 0, 1))
    case 38 => (2, ThirdEst(2, 0, 1, 2))
    case 39 => (2, TwoAuxs(2, 0, 1))
    case _ => (2, TwoConfs(3, 0, 1))
  }

  // The set S once turn j - 1 is over.
  function From<T>(j: nat, i: nat, S: set<T>): set<T> {
    if i < j then {} else S
  }

  // The phases of rounds 0 and 1, which begin when these turns are over.
  function PhaseAt(i: nat, take: nat, aux: nat, conf: nat, decide: nat, aux1: nat, conf1: nat, quit: nat): Phase {
    if i < take then NoInput else if i < aux then WaitBin else if i < conf then WaitAux else if i < decide then WaitConf
    else if i < aux1 then WaitBin else if i < conf1 then WaitAux else if i < quit then WaitConf else Quit
  }

  function Zero(i: nat): Picture {
    Picture(PhaseAt(i, 1, 11, 17, 21, 28, 32, 36), if i < 21 then 0 else 1, if i < 21 then None else Some(0),
            [if i == 5 then {1, 3} else From(6, i, {0, 1, 3}), From(4, i, {0, 2, 3}), From(26, i, {0, 1, 3}), {}],
            [From(14, i, {0, 1, 2}), {}, From(30, i, {0, 1, 3}), {}],
            [From(20, i, {1, 2, 3}), {}, {}, From(34, i, {0, 1, 3}), {}, {}],
            [if i < 6 then From(4, i, {1}) else {0, 1}, From(26, i, {0})],
            [i >= 5, i >= 1, i >= 21, false], if i < 17 then 0 else if i < 32 then 1 else 2)
  }

  function One(i: nat): Picture {
    Picture(PhaseAt(i, 2, 12, 18, 23, 29, 33, 37), if i < 23 then 0 else 1, if i < 23 then None else Some(0),
            [From(7, i, {0, 1, 3}), {}, From(27, i, {0, 1, 3}), {}],
            [From(15, i, {0, 1, 2}), {}, From(31, i, {0, 1, 3}), {}],
            [From(22, i, {1, 2, 3}), {}, {}, From(35, i, {0, 1, 3}), {}, {}],
            [From(7, i, {0}), From(27, i, {0})],
            [i >= 2, false, i >= 23, false], if i < 18 then 0 else if i < 33 then 1 else 2)
  }

  function Two(i: nat): Picture {
    Picture(PhaseAt(i, 3, 13, 19, 42, 42, 42, 42), 0, None,
            [if i == 9 then {0, 1} else From(10, i, {0, 1, 2}), From(8, i, {0, 2}),
             if i == 38 then {0, 1} else From(39, i, {0, 1, 2}), {}],
            [From(16, i, {0, 1, 2}), {}, From(40, i, {0, 1}), {}],
            [From(25, i, {1, 2}), {}, From(24, i, {0}), From(41, i, {0, 1}), {}, {}],
            [From(10, i, {0}), From(39, i, {0})],
            [i >= 9, i >= 3, i >= 38, false], if i < 19 then 0 else 1)
  }

  function PictureAt(p: nat, i: nat): Picture {
    if p == 0 then Zero(i) else if p == 1 then One(i) else Two(i)
  }

  // What is sent in turn i.
  function OutAt(i: nat): seq<Message> {
    match i
    case 0 => [Est(0, 1)]
    case 1 => [Est(0, 0)]
    case 2 => [Est(0, 1)]
    case 4 => [Est(0, 0)]
    case 8 => [Est(0, 0)]
    case 10 => [Aux(0, 0)]
    case 11 => [Aux(0, 0)]
    case 12 => [Aux(0, 0)]
    case 16 => [Conf(0, [0, 1])]
    case 17 => [Conf(0, [0])]
    case 18 => [Conf(0, [0])]
    case 20 => [Est(1, 0)]
    case 22 => [Est(1, 0)]
    case 27 => [Aux(1, 0)]
    case 28 => [Aux(1, 0)]
    case 31 => [Conf(1, [0])]
    case 32 => [Conf(1, [0])]
    case 37 => [Est(1, 0)]
    case _ => []
  }

  // Turn i on pictures.
  ghost predicate Drawn(i: nat)
    requires i < 41
  {
    var (p, M) := Turns(i);
    var P, Q := PictureAt(p, i), PictureAt(p, i + 1);
    p < 3 && MoveOk(P, M) && Effect(P, M) == Q && Says(P, M) == OutAt(i)
  }

  // The other nodes stay as they are.
  ghost predicate OthersSame(i: nat)
    requires i < 41
  {
    var p := Turns(i).0;
    && (p != 0 ==> Zero(i) == Zero(i + 1)) && (p != 1 ==> One(i) == One(i + 1)) && (p != 2 ==> Two(i) == Two(i + 1))
  }

  lemma SamePicture(P: Picture, Q: Picture)
    requires P.phase == Q.phase && P.r == Q.r && P.decided == Q.decided && P.est == Q.est && P.aux == Q.aux
    requires P.conf == Q.conf && P.bin == Q.bin && P.sent == Q.sent && P.confs == Q.confs
    ensures P == Q
  {
  }

  lemma Orders()
    ensures {1, 3, 0} == {0, 1, 3} && {1} + {0} == {0, 1}
  {
  }

  lemma Tuples()
    ensures Tuple({0, 1}) == [0, 1] && Tuple({0}) == [0]
  {
  }

  lemma DrawnFrom0(i: nat)
    requires 0 <= i < 3
    ensures Drawn(i)
  {
    var (p, M) := Turns(i);
    SamePicture(Effect(PictureAt(p, i), M), PictureAt(p, i + 1));
  }

  lemma DrawnFrom3(i: nat)
    requires 3 <= i < 5
    ensures Drawn(i)
  {
    var (p, M) := Turns(i);
    SamePicture(Effect(PictureAt(p, i), M), PictureAt(p, i + 1));
  }

  lemma DrawnFrom5(i: nat)
    requires 5 <= i < 6
    ensures Drawn(i)
  {
    var (p, M) := Turns(i);
    Orders();
    SamePicture(Effect(PictureAt(p, i), M), PictureAt(p, i + 1));
  }

  lemma DrawnFrom6(i: nat)
    requires 6 <= i < 7
    ensures Drawn(i)
  {
    var (p, M) := Turns(i);
    SamePicture(Effect(PictureAt(p, i), M), PictureAt(p, i + 1));
  }

  lemma DrawnFrom7(i: nat)
    requires 7 <= i < 9
    ensures Drawn(i)
  {
    var (p, M) := Turns(i);
    SamePicture(Effect(PictureAt(p, i), M), PictureAt(p, i + 1));
  }

  lemma DrawnFrom9(i: nat)
    requires 9 <= i < 11
    ensures Drawn(i)
  {
    var (p, M) := Turns(i);
    SamePicture(Effect(PictureAt(p, i), M), PictureAt(p, i + 1));
  }

  lemma DrawnFrom11(i: nat)
    requires 11 <= i < 13
    ensures Drawn(i)
  {
    var (p, M) := Turns(i);
    SamePicture(Effect(PictureAt(p, i), M), PictureAt(p, i + 1));
  }

  lemma DrawnFrom13(i: nat)
    requires 13 <= i < 15
    ensures Drawn(i)
  {
    var (p, M) := Turns(i);
    SamePicture(Effect(PictureAt(p, i), M), PictureAt(p, i + 1));
  }

  lemma DrawnFrom15(i: nat)
    requires 15 <= i < 17
    ensures Drawn(i)
  {
    var (p, M) := Turns(i);
    Tuples();
    SamePicture(Effect(PictureAt(p, i), M), PictureAt(p, i + 1));
  }

  lemma DrawnFrom17(i: nat)
    requires 17 <= i < 19
    ensures Drawn(i)
  {
    var (p, M) := Turns(i);
    Tuples();
    SamePicture(Effect(PictureAt(p, i), M), PictureAt(p, i + 1));
  }

  lemma DrawnFrom19(i: nat)
    requires 19 <= i < 21
    ensures Drawn(i)
  {
    var (p, M) := Turns(i);
    SamePicture(Effect(PictureAt(p, i), M), PictureAt(p, i + 1));
  }

  lemma DrawnFrom21(i: nat)
    requires 21 <= i < 23
    ensures Drawn(i)
  {
    var (p, M) := Turns(i);
    SamePicture(Effect(PictureAt(p, i), M), PictureAt(p, i + 1));
  }

  lemma DrawnFrom23(i: nat)
    requires 23 <= i < 25
    ensures Drawn(i)
  {
    var (p, M) := Turns(i);
    SamePicture(Effect(PictureAt(p, i), M), PictureAt(p, i + 1));
  }

  lemma DrawnFrom25(i: nat)
    requires 25 <= i < 27
    ensures Drawn(i)
  {
    var (p, M) := Turns(i);
    SamePicture(Effect(PictureAt(p, i), M), PictureAt(p, i + 1));
  }

  lemma DrawnFrom27(i: nat)
    requires 27 <= i < 29
    ensures Drawn(i)
  {
    var (p, M) := Turns(i);
    SamePicture(Effect(PictureAt(p, i), M), PictureAt(p, i + 1));
  }

  lemma DrawnFrom29(i: nat)
    requires 29 <= i < 31
    ensures Drawn(i)
  {
    var (p, M) := Turns(i);
    SamePicture(Effect(PictureAt(p, i), M), PictureAt(p, i + 1));
  }

  lemma DrawnFrom31(i: nat)
    requires 31 <= i < 33
    ensures Drawn(i)
  {
    var (p, M) := Turns(i);
    Tuples();
    SamePicture(Effect(PictureAt(p, i), M), PictureAt(p, i + 1));
  }

  lemma DrawnFrom33(i: nat)
    requires 33 <= i < 35
    ensures Drawn(i)
  {
    var (p, M) := Turns(i);
    SamePicture(Effect(PictureAt(p, i), M), PictureAt(p, i + 1));
  }

  lemma DrawnFrom35(i: nat)
    requires 35 <= i < 37
    ensures Drawn(i)
  {
    var (p, M) := Turns(i);
    SamePicture(Effect(PictureAt(p, i), M), PictureAt(p, i + 1));
  }

  lemma DrawnFrom37(i: nat)
    requires 37 <= i < 38
    ensures Drawn(i)
  {
    var (p, M) := Turns(i);
    SamePicture(Effect(PictureAt(p, i), M), PictureAt(p, i + 1));
  }

  lemma DrawnFrom38(i: nat)
    requires 38 <= i < 39
    ensures Drawn(i)
  {
    var (p, M) := Turns(i);
    SamePicture(Effect(PictureAt(p, i), M), PictureAt(p, i + 1));
  }

  lemma DrawnFrom39(i: nat)
    requires 39 <= i < 40
    ensures Drawn(i)
  {
    var (p, M) := Turns(i);
    SamePicture(Effect(PictureAt(p, i), M), PictureAt(p, i + 1));
  }

  lemma DrawnFrom40(i: nat)
    requires 40 <= i < 41
    ensures Drawn(i)
  {
    var (p, M) := Turns(i);
    SamePicture(Effect(PictureAt(p, i), M), PictureAt(p, i + 1));
  }

  lemma SameFrom0(i: nat)
    requires 0 <= i < 10
    ensures OthersSame(i)
  {
  }

  lemma SameFrom10(i: nat)
    requires 10 <= i < 20
    ensures OthersSame(i)
  {
  }

  lemma SameFrom20(i: nat)
    requires 20 <= i < 31
    ensures OthersSame(i)
  {
  }

  lemma SameFrom31(i: nat)
    requires 31 <= i < 41
    ensures OthersSame(i)
  {
  }

  lemma AllDrawn(i: nat)
    requires i < 41
    ensures Drawn(i)
  {
    if i < 7 {
      if i < 3 {
        DrawnFrom0(i);
      } else if i < 5 {
        DrawnFrom3(i);
      } else if i < 6 {
        DrawnFrom5(i);
      } else {
        DrawnFrom6(i);
      }
    } else if i < 15 {
      if i < 9 {
        DrawnFrom7(i);
      } else if i < 11 {
        DrawnFrom9(i);
      } else if i < 13 {
        DrawnFrom11(i);
      } else {
        DrawnFrom13(i);
      }
    } else if i < 23 {
      if i < 17 {
        DrawnFrom15(i);
      } else if i < 19 {
        DrawnFrom17(i);
      } else if i < 21 {
        DrawnFrom19(i);
      } else {
        DrawnFrom21(i);
      }
    } else if i < 31 {
      if i < 25 {
        DrawnFrom23(i);
      } else if i < 27 {
        DrawnFrom25(i);
      } else if i < 29 {
        DrawnFrom27(i);
      } else {
        DrawnFrom29(i);
      }
    } else if i < 38 {
      if i < 33 {
        DrawnFrom31(i);
      } else if i < 35 {
        DrawnFrom33(i);
      } else if i < 37 {
        DrawnFrom35(i);
      } else {
        DrawnFrom37(i);
      }
    } else {
      if i < 39 {
        DrawnFrom38(i);
      } else if i < 40 {
        DrawnFrom39(i);
      } else {
        DrawnFrom40(i);
      }
    }
  }

  lemma AllSame(i: nat)
    requires i < 41
    ensures OthersSame(i)
  {
    if i < 10 {
      SameFrom0(i);
    } else if i < 20 {
      SameFrom10(i);
    } else if i < 31 {
      SameFrom20(i);
    } else {
      SameFrom31(i);
    }
  }

  // ---------- messages ----------

  // Everything sent before turn i.
  function SentAt(i: nat): set<(nat, Message)>
    requires i <= 41
  {
    if i == 0 then {} else SentAt(i - 1) + Sending(Turns(i - 1).0, OutAt(i - 1))
  }

  function SceneAt(i: nat): Scene
    requires i <= 41
  {
    Scene(Zero(i), One(i), Two(i), SentAt(i))
  }

  // The turn in which node q has sent what is delivered by this action.
  function Source(a: Action): nat {
    match a
    case GetEst(k, q) =>
      if k == 0 then (if q == 0 then 4 else if q == 1 then 1 else 8)
      else if k == 1 then (if q == 0 then 0 else 2)
      else if q == 0 then 20 else if q == 1 then 22 else 37
    case GetAux(k, q) => if k == 0 then 10 + q else 27 + q
    case GetConf(k, q) => if k == 0 then 16 + q else if k == 2 then 16 else 31 + q
    case _ => 0
  }

  // It was sent before turn i.
  predicate Sourced(i: nat, p: nat, a: Action) {
    var e, t := EventOf(p, a), Source(a);
    e.Deliver? && e.from != 3 ==> e.from < 3 && t < i && Turns(t).0 == e.from && OutAt(t) == [e.m]
  }

  lemma {:induction false} SentIn(t: nat, i: nat)
    requires t < i <= 41 && OutAt(t) != []
    ensures (Turns(t).0, OutAt(t)[0]) in SentAt(i)
  {
    if i - 1 > t {
      SentIn(t, i - 1);
    } else {
      assert OutAt(t)[0] in OutAt(t);
    }
  }

  lemma SourcedArrives(i: nat, p: nat, a: Action)
    requires i <= 41 && Sourced(i, p, a)
    ensures Arrives(SentAt(i), p, a)
  {
    var e := EventOf(p, a);
    if e.Deliver? && e.from != 3 {
      SentIn(Source(a), i);
    }
  }

  ghost predicate AllSourced(i: nat) {
    var (p, M) := Turns(i);
    forall a :: a in ActsOf(M) ==> Sourced(i, p, a)
  }

  lemma SourcedFrom0(i: nat)
    requires 0 <= i < 7
    ensures AllSourced(i)
  {
  }

  lemma SourcedFrom7(i: nat)
    requires 7 <= i < 13
    ensures AllSourced(i)
  {
  }

  lemma SourcedFrom13(i: nat)
    requires 13 <= i < 17
    ensures AllSourced(i)
  {
  }

  lemma SourcedFrom17(i: nat)
    requires 17 <= i < 20
    ensures AllSourced(i)
  {
  }

  lemma SourcedFrom20(i: nat)
    requires 20 <= i < 23
    ensures AllSourced(i)
  {
  }

  lemma SourcedFrom23(i: nat)
    requires 23 <= i < 26
    ensures AllSourced(i)
  {
  }

  lemma SourcedFrom26(i: nat)
    requires 26 <= i < 30
    ensures AllSourced(i)
  {
  }

  lemma SourcedFrom30(i: nat)
    requires 30 <= i < 33
    ensures AllSourced(i)
  {
  }

  lemma SourcedFrom33(i: nat)
    requires 33 <= i < 37
    ensures AllSourced(i)
  {
  }

  lemma SourcedFrom37(i: nat)
    requires 37 <= i < 39
    ensures AllSourced(i)
  {
  }

  lemma SourcedFrom39(i: nat)
    requires 39 <= i < 41
    ensures AllSourced(i)
  {
  }

  lemma AllArrive(i: nat)
    requires i < 41
    ensures var (p, M) := Turns(i); ArriveAll(SentAt(i), p, ActsOf(M))
  {
    Sources(i);
    var (p, M) := Turns(i);
    forall a | a in ActsOf(M) ensures Arrives(SentAt(i), p, a) {
      SourcedArrives(i, p, a);
    }
  }

  lemma Sources(i: nat)
    requires i < 41
    ensures AllSourced(i)
  {
    if i < 7 {
      SourcedFrom0(i);
    } else if i < 13 {
      SourcedFrom7(i);
    } else if i < 17 {
      SourcedFrom13(i);
    } else if i < 20 {
      SourcedFrom17(i);
    } else if i < 23 {
      SourcedFrom20(i);
    } else if i < 26 {
      SourcedFrom23(i);
    } else if i < 30 {
      SourcedFrom26(i);
    } else if i < 33 {
      SourcedFrom30(i);
    } else if i < 37 {
      SourcedFrom33(i);
    } else if i < 39 {
      SourcedFrom37(i);
    } else {
      SourcedFrom39(i);
    }
  }

  // ---------- the run ----------

  lemma Opening()
    ensures Shows(InitSystem(Honest()), SceneAt(0))
  {
  }

  lemma NextScene(i: nat)
    requires i < 41
    ensures var (p, M) := Turns(i);
      var P := PictureOf(SceneAt(i), p);
      && p < 3 && MoveOk(P, M) && ArriveAll(SceneAt(i).sent, p, ActsOf(M))
      && Redraw(SceneAt(i), p, Effect(P, M), SceneAt(i).sent + Sending(p, Says(P, M))) == SceneAt(i + 1)
  {
    AllDrawn(i);
    AllSame(i);
    AllArrive(i);
    var (p, M) := Turns(i);
    assert PictureOf(SceneAt(i), p) == PictureAt(p, i);
  }

  // The first i turns.
  lemma {:induction false} Performed(c: Config, i: nat) returns (es: seq<Event>, s: System)
    requires Fits(c) && i <= 41
    ensures Reached(c, es, s, SceneAt(i))
  {
    if i == 0 {
      Opening();
      es, s := [], InitSystem(Honest());
    } else {
      es, s := Performed(c, i - 1);
      NextScene(i - 1);
      es, s := PlayMove(c, es, s, SceneAt(i - 1), Turns(i - 1).0, Turns(i - 1).1);
    }
  }

  // ---------- the last scene ----------

  // What is sent is the message of some turn.
  lemma {:induction false} TurnOf(i: nat, x: (nat, Message)) returns (t: nat)
    requires i <= 41 && x in SentAt(i)
    ensures t < i && x.0 == Turns(t).0 && OutAt(t) == [x.1]
  {
    if x in SentAt(i - 1) {
      t := TurnOf(i - 1, x);
    } else {
      t := i - 1;
      assert x.1 in OutAt(t);
    }
  }

  // Node n has counted the message of turn t.
  ghost predicate HeardAt(n: Node, t: nat) {
    OutAt(t) != [] ==> Recorded(n, Turns(t).0, OutAt(t)[0])
  }

  lemma EstHeard(n: Node, t: nat)
    requires t < 41 && (OutAt(t) != [] ==> OutAt(t)[0].Est?)
    requires At(n.inbox.est, (0, 0)) == {0, 1, 2} && At(n.inbox.est, (0, 1)) == {0, 2} && At(n.inbox.est, (1, 0)) == {0, 1, 2}
    ensures HeardAt(n, t)
  {
  }

  lemma AuxHeard(n: Node, t: nat)
    requires t < 41 && (OutAt(t) != [] ==> OutAt(t)[0].Aux?)
    requires At(n.inbox.aux, (0, 0)) == {0, 1, 2} && At(n.inbox.aux, (1, 0)) == {0, 1}
    ensures HeardAt(n, t)
  {
  }

  lemma ConfHeard(n: Node, t: nat)
    requires t < 41 && (OutAt(t) != [] ==> OutAt(t)[0].Conf?)
    requires At(n.inbox.conf, (0, [0])) == {1, 2} && At(n.inbox.conf, (0, [0, 1])) == {0} && At(n.inbox.conf, (1, [0])) == {0, 1}
    ensures HeardAt(n, t)
  {
  }

  lemma LastCounted(s: System)
    requires Shows(s, SceneAt(41))
    ensures var b := s.nodes[2].inbox;
      && At(b.est, (0, 0)) == {0, 1, 2} && At(b.est, (0, 1)) == {0, 2} && At(b.est, (1, 0)) == {0, 1, 2}
      && At(b.aux, (0, 0)) == {0, 1, 2} && At(b.aux, (1, 0)) == {0, 1}
      && At(b.conf, (0, [0])) == {1, 2} && At(b.conf, (0, [0, 1])) == {0} && At(b.conf, (1, [0])) == {0, 1}
      && At(b.conf, (0, [1])) == {} && At(b.bin, 0) == {0}
  {
    var b := s.nodes[2].inbox;
    assert At(b.est, EstKey(0)) == {0, 1, 2} && At(b.est, EstKey(1)) == {0, 2} && At(b.est, EstKey(2)) == {0, 1, 2};
    assert At(b.aux, EstKey(0)) == {0, 1, 2} && At(b.aux, EstKey(2)) == {0, 1};
    assert At(b.conf, ConfKey(0)) == {1, 2} && At(b.conf, ConfKey(1)) == {} && At(b.conf, ConfKey(2)) == {0};
    assert At(b.conf, ConfKey(3)) == {0, 1};
  }

  lemma LastHears(s: System)
    requires Shows(s, SceneAt(41))
    ensures Hears(s, 2)
  {
    LastCounted(s);
    forall x | x in s.sent ensures Recorded(s.nodes[2], x.0, x.1) {
      var t := TurnOf(41, x);
      if x.1.Est? {
        EstHeard(s.nodes[2], t);
      } else if x.1.Aux? {
        AuxHeard(s.nodes[2], t);
      } else {
        ConfHeard(s.nodes[2], t);
      }
    }
  }

  lemma LastLoops(s: System)
    requires Shows(s, SceneAt(41))
    ensures s.nodes[0].loop.phase == Quit && s.nodes[1].loop.phase == Quit && !s.nodes[0].receiving && !s.nodes[1].receiving
    ensures s.nodes[0].loop.alreadyDecided == Some(0) && s.nodes[1].loop.alreadyDecided == Some(0)
    ensures s.nodes[2].loop.phase == WaitConf && s.nodes[2].loop.r == 0 && s.nodes[2].loop.alreadyDecided == None
  {
  }

  // Two CONFs (0,) count at node 2, and CONF (0, 1) does not.
  lemma CannotLeave(c: Config, box: Inbox)
    requires Fits(c) && At(box.conf, (0, [0])) == {1, 2} && At(box.conf, (0, [1])) == {} && At(box.bin, 0) == {0}
    ensures !BoxLeaves(c, box, 0, WaitConf)
  {
  }

  /** However the run goes on without node 3, node 2 stays in the CONF wait of round 0 and never decides. */
  ghost predicate Abandoned(c: Config, es: seq<Event>) {
    forall more, s' :: Silent(Honest(), more) && Run(c, Honest(), es + more) == Some(s') ==>
      2 in s'.nodes && s'.nodes[2].loop.phase == WaitConf && s'.nodes[2].loop.r == 0 && s'.nodes[2].log.decisions == []
  }

  // What the last scene is about.
  ghost predicate Ending(c: Config, s: System) {
    && s.nodes.Keys == {0, 1, 2} && s.nodes[0].loop.phase == Quit && s.nodes[1].loop.phase == Quit
    && s.nodes[0].loop.alreadyDecided == Some(0) && s.nodes[1].loop.alreadyDecided == Some(0)
    && s.nodes[2].loop.phase == WaitConf && s.nodes[2].loop.r == 0 && s.nodes[2].loop.alreadyDecided == None
    && Hears(s, 2) && !s.nodes[0].receiving && !s.nodes[1].receiving
    && !CanStep(c, s.nodes[2]) && AtLeast(s.nodes[2], 0, WaitConf)
  }

  lemma Stays(c: Config, es: seq<Event>, s: System, more: seq<Event>, s': System)
    requires Fits(c) && Run(c, Honest(), es) == Some(s) && Ending(c, s)
    requires Silent(Honest(), more) && Run(c, Honest(), es + more) == Some(s')
    ensures 2 in s'.nodes && s'.nodes[2].loop.phase == WaitConf && s'.nodes[2].loop.r == 0 && s'.nodes[2].log.decisions == []
  {
    BlockedForGood(c, Honest(), es, s, 2, more, s');
    Undecided(c, es + more, s');
  }

  lemma NeverDecides(c: Config, es: seq<Event>, s: System)
    requires Fits(c) && Run(c, Honest(), es) == Some(s) && Ending(c, s)
    ensures Abandoned(c, es)
  {
    forall more, s' | Silent(Honest(), more) && Run(c, Honest(), es + more) == Some(s')
      ensures 2 in s'.nodes && s'.nodes[2].loop.phase == WaitConf && s'.nodes[2].loop.r == 0 && s'.nodes[2].log.decisions == []
    {
      Stays(c, es, s, more, s');
    }
  }

  lemma Undecided(c: Config, es: seq<Event>, s: System)
    requires Valid(c, Honest()) && Run(c, Honest(), es) == Some(s) && 2 in s.nodes && s.nodes[2].loop.alreadyDecided == None
    ensures s.nodes[2].log.decisions == []
  {
    RunInv(c, Honest(), es);
    assert NodeInv(c, Honest(), s.sent, s.nodes[2]);
  }

  /**
   A quit that blocks: nodes 0 and 1 have decided 0 and quit, node 2 has recorded
   every message they ever sent and has not decided, and unless a message of node
   3 arrives it never leaves round 0.
   */
  lemma QuitBlocks(c: Config) returns (es: seq<Event>, s: System)
    requires Fits(c)
    ensures Valid(c, Honest()) && Run(c, Honest(), es) == Some(s) && s.nodes.Keys == Honest().honest
    ensures forall q :: q in {0, 1} ==> s.nodes[q].loop.phase == Quit && s.nodes[q].loop.alreadyDecided == Some(0)
    ensures Active(s.nodes[2]) && Hears(s, 2) && !CanStep(c, s.nodes[2]) && Abandoned(c, es)
  {
    es, s := Ended(c);
    NeverDecides(c, es, s);
  }

  lemma Ended(c: Config) returns (es: seq<Event>, s: System)
    requires Fits(c)
    ensures Run(c, Honest(), es) == Some(s) && Ending(c, s)
  {
    es, s := Performed(c, 41);
    LastLoops(s);
    LastCounted(s);
    CannotLeave(c, s.nodes[2].inbox);
    LastHears(s);
    LastWaits(c, es, s);
  }

  lemma LastWaits(c: Config, es: seq<Event>, s: System)
    requires Fits(c) && Run(c, Honest(), es) == Some(s) && 2 in s.nodes
    requires s.nodes[2].loop.phase == WaitConf && s.nodes[2].loop.r == 0 && !BoxLeaves(c, s.nodes[2].inbox, 0, WaitConf)
    ensures !CanStep(c, s.nodes[2]) && AtLeast(s.nodes[2], 0, WaitConf)
  {
    RunInv(c, Honest(), es);
    assert NodeInv(c, Honest(), s.sent, s.nodes[2]);
    NodeSteps(c, Honest(), s, 2);
  }
}
