/**
 A run of two-value agreement that blocks for good without any faulty node: two
 nodes with the inputs u and v count the same ESTs, but one sends CONF {v} and
 the other CONF {u, v}. Steps of a node are shown to act on a picture of its state.
 */
module TwoValueDeadlock {
  import opened FiniteSets
  import opened Quorums
  import opened Options
  import opened Tables
  import opened TwoValueAgreement
  import opened TwoValueSafety
  import opened TwoValueProgress

  /** Senders of EST u, EST v, AUX v, CONF {v} and CONF {u, v} in round 0, int_values[0], ESTs and CONFs sent. */
  datatype Picture = Picture(
    phase: Phase, estU: set<nat>, estV: set<nat>, auxV: set<nat>, confV: set<nat>, confBoth: set<nat>,
    ints: set<int>, sentU: bool, sentV: bool, confs: seq<set<int>>)

  ghost predicate Looks(n: Node, u: int, v: int, P: Picture) {
    && n.receiving && n.loop.r == 0 && n.loop.phase == P.phase && n.log.confs == P.confs && n.inbox.ints.Keys <= {0}
    && At(n.inbox.est, (0, u)) == P.estU && At(n.inbox.est, (0, v)) == P.estV && At(n.inbox.aux, (0, v)) == P.auxV
    && At(n.inbox.conf, (0, {v})) == P.confV && At(n.inbox.conf, (0, {u, v})) == P.confBoth
    && At(n.inbox.ints, 0) == P.ints
    && ((0, u) in n.estSent <==> P.sentU) && ((0, v) in n.estSent <==> P.sentV)
    && (P.confs == [] ==> n.loop.confSent == {})
  }

  ghost predicate Two(c: Config, u: int, v: int) {
    c.N == 2 && c.f == 0 && u != v
  }

  // What the steps of the run do to a picture.
  datatype Action =
    | TakeU | TakeV | CountU(q: nat) | CountV(q: nat) | PickV | CountAux(q: nat)
    | ConfirmV | ConfirmBoth | CountConfV(q: nat) | CountConfBoth(q: nat)

  function EventOf(p: nat, a: Action, u: int, v: int): Event {
    match a
    case TakeU => Input(p, u)
    case TakeV => Input(p, v)
    case CountU(q) => Deliver(p, q, Est(0, u))
    case CountV(q) => Deliver(p, q, Est(0, v))
    case CountAux(q) => Deliver(p, q, Aux(0, v))
    case CountConfV(q) => Deliver(p, q, Conf(0, {v}))
    case CountConfBoth(q) => Deliver(p, q, Conf(0, {u, v}))
    case _ => Wake(p, v)
  }

  predicate Possible(P: Picture, a: Action, u: int, v: int) {
    match a
    case TakeU => P.phase == NoInput && !P.sentU
    case TakeV => P.phase == NoInput && !P.sentV
    case CountU(q) => q < 2 && q !in P.estU
    case CountV(q) => q < 2 && q !in P.estV
    case PickV => P.phase == WaitInt && v in P.ints
    case ConfirmV => P.phase == WaitAux && P.ints == {v} && |P.auxV| == 2 && P.confs == []
    case ConfirmBoth => P.phase == WaitAux && P.ints == {u, v} && |P.auxV| == 2 && P.confs == []
    case _ => a.q < 2
  }

  // With f = 0 one EST is relayed and enters int_values.
  function After(p: nat, P: Picture, a: Action, u: int, v: int): Picture {
    match a
    case TakeU => P.(phase := WaitInt, estU := P.estU + {p}, sentU := true)
    case TakeV => P.(phase := WaitInt, estV := P.estV + {p}, sentV := true)
    case CountU(q) => P.(estU := P.estU + {q}, ints := P.ints + {u}, sentU := true)
    case CountV(q) => P.(estV := P.estV + {q}, ints := P.ints + {v}, sentV := true)
    case PickV => P.(phase := WaitAux, auxV := P.auxV + {p})
    case CountAux(q) => P.(auxV := P.auxV + {q})
    case ConfirmV => P.(phase := WaitConf, confV := P.confV + {p}, confs := [{v}])
    case ConfirmBoth => P.(phase := WaitConf, confBoth := P.confBoth + {p}, confs := [{u, v}])
    case CountConfV(q) => P.(confV := P.confV + {q})
    case CountConfBoth(q) => P.(confBoth := P.confBoth + {q})
  }

  function OutOf(P: Picture, a: Action, u: int, v: int): seq<Message> {
    match a
    case TakeU => [Est(0, u)]
    case TakeV => [Est(0, v)]
    case CountU(_) => if P.sentU then [] else [Est(0, u)]
    case CountV(_) => if P.sentV then [] else [Est(0, v)]
    case PickV => [Aux(0, v)]
    case ConfirmV => [Conf(0, {v})]
    case ConfirmBoth => [Conf(0, {u, v})]
    case _ => []
  }

  // ---------- actions are steps of a node ----------

  /** Action a, taken by node p in state n, brings it to n', which has picture Q, and sends out. */
  ghost predicate Moves(c: Config, p: nat, n: Node, a: Action, u: int, v: int, n': Node, Q: Picture, out: seq<Message>) {
    Local(c, n, EventOf(p, a, u, v)) == (n', out) && Looks(n', u, v, Q)
  }

  lemma Takes(c: Config, p: nat, n: Node, u: int, v: int, P: Picture, a: Action) returns (n': Node)
    requires Two(c, u, v) && Looks(n, u, v, P) && Possible(P, a, u, v) && (a.TakeU? || a.TakeV?)
    ensures Moves(c, p, n, a, u, v, n', After(p, P, a, u, v), OutOf(P, a, u, v))
  {
    n' := Local(c, n, EventOf(p, a, u, v)).0;
  }

  lemma OneEst(c: Config, n: Node, q: nat, w: int)
    requires c.N == 2 && c.f == 0 && n.receiving && q < 2 && q !in At(n.inbox.est, (0, w))
    ensures var (n', out) := Receive(c, n, q, Est(0, w));
      && n' == n.(estSent := n.estSent + {(0, w)},
                  inbox := n.inbox.(est := n.inbox.est[(0, w) := At(n.inbox.est, (0, w)) + {q}],
                                    ints := n.inbox.ints[0 := At(n.inbox.ints, 0) + {w}]))
      && out == if (0, w) in n.estSent then [] else [Est(0, w)]
  {
    if (0, w) in n.estSent {
      assert n.estSent + {(0, w)} == n.estSent;
    }
  }

  lemma CountsU(c: Config, p: nat, n: Node, u: int, v: int, P: Picture, a: Action) returns (n': Node)
    requires Two(c, u, v) && Looks(n, u, v, P) && Possible(P, a, u, v) && a.CountU?
    ensures Moves(c, p, n, a, u, v, n', After(p, P, a, u, v), OutOf(P, a, u, v))
  {
    OneEst(c, n, a.q, u);
    n' := Local(c, n, EventOf(p, a, u, v)).0;
  }

  lemma CountsV(c: Config, p: nat, n: Node, u: int, v: int, P: Picture, a: Action) returns (n': Node)
    requires Two(c, u, v) && Looks(n, u, v, P) && Possible(P, a, u, v) && a.CountV?
    ensures Moves(c, p, n, a, u, v, n', After(p, P, a, u, v), OutOf(P, a, u, v))
  {
    OneEst(c, n, a.q, v);
    n' := Local(c, n, EventOf(p, a, u, v)).0;
  }

  lemma PicksOrCounts(c: Config, p: nat, n: Node, u: int, v: int, P: Picture, a: Action) returns (n': Node)
    requires Two(c, u, v) && Looks(n, u, v, P) && Possible(P, a, u, v) && (a.PickV? || a.CountAux?)
    ensures Moves(c, p, n, a, u, v, n', After(p, P, a, u, v), OutOf(P, a, u, v))
  {
    n' := Local(c, n, EventOf(p, a, u, v)).0;
  }

  lemma Different(u: int, v: int)
    requires u != v
    ensures {v} != {u, v} && |{v}| == 1 && |{u, v}| == 2
  {
    assert u in {u, v} && u !in {v};
  }

  lemma Confirms(c: Config, p: nat, n: Node, u: int, v: int, P: Picture, a: Action) returns (n': Node)
    requires Two(c, u, v) && Looks(n, u, v, P) && Possible(P, a, u, v) && (a.ConfirmV? || a.ConfirmBoth?)
    ensures Moves(c, p, n, a, u, v, n', After(p, P, a, u, v), OutOf(P, a, u, v))
  {
    Different(u, v);
    var x := if a.ConfirmV? then v else u;
    assert x in P.ints && v in P.ints && P.ints == {x, v};
    assert AuxDone(c, n.inbox, 0);
    n' := Local(c, n, EventOf(p, a, u, v)).0;
  }

  lemma CountsConf(c: Config, p: nat, n: Node, u: int, v: int, P: Picture, a: Action) returns (n': Node)
    requires Two(c, u, v) && Looks(n, u, v, P) && Possible(P, a, u, v) && (a.CountConfV? || a.CountConfBoth?)
    ensures Moves(c, p, n, a, u, v, n', After(p, P, a, u, v), OutOf(P, a, u, v))
  {
    Different(u, v);
    n' := Local(c, n, EventOf(p, a, u, v)).0;
  }

  lemma Acts(c: Config, p: nat, n: Node, u: int, v: int, P: Picture, a: Action) returns (n': Node)
    requires Two(c, u, v) && Looks(n, u, v, P) && Possible(P, a, u, v)
    ensures Moves(c, p, n, a, u, v, n', After(p, P, a, u, v), OutOf(P, a, u, v))
  {
    match a
    case TakeU => n' := Takes(c, p, n, u, v, P, a);
    case TakeV => n' := Takes(c, p, n, u, v, P, a);
    case CountU(_) => n' := CountsU(c, p, n, u, v, P, a);
    case CountV(_) => n' := CountsV(c, p, n, u, v, P, a);
    case ConfirmV => n' := Confirms(c, p, n, u, v, P, a);
    case ConfirmBoth => n' := Confirms(c, p, n, u, v, P, a);
    case CountConfV(_) => n' := CountsConf(c, p, n, u, v, P, a);
    case CountConfBoth(_) => n' := CountsConf(c, p, n, u, v, P, a);
    case _ => n' := PicksOrCounts(c, p, n, u, v, P, a);
  }

  // ---------- the run ----------

  /** Both nodes are honest. */
  function Both(): Faults {
    Faults(2, 0, {0, 1})
  }

  /** The pictures of nodes 0 and 1, and what has been sent. */
  datatype Scene = Scene(first: Picture, second: Picture, sent: set<(nat, Message)>)

  function PictureOf(x: Scene, p: nat): Picture {
    if p == 0 then x.first else x.second
  }

  // Only messages that were sent are delivered.
  predicate Playable(x: Scene, p: nat, a: Action, u: int, v: int) {
    var e := EventOf(p, a, u, v);
    && Possible(PictureOf(x, p), a, u, v)
    && (e.Deliver? ==> e.from == 1 - p && (e.from, e.m) in x.sent)
    && (e.Input? ==> e == Input(0, u) || e == Input(1, v))
  }

  function Redraw(x: Scene, p: nat, Q: Picture, sent: set<(nat, Message)>): Scene {
    if p == 0 then Scene(Q, x.second, sent) else Scene(x.first, Q, sent)
  }

  function Next(x: Scene, p: nat, a: Action, u: int, v: int): Scene {
    var P := PictureOf(x, p);
    Redraw(x, p, After(p, P, a, u, v), x.sent + Sending(p, OutOf(P, a, u, v)))
  }

  ghost predicate Shows(s: System, u: int, v: int, x: Scene) {
    && s.nodes.Keys == {0, 1} && s.sent == x.sent
    && Looks(s.nodes[0], u, v, x.first) && Looks(s.nodes[1], u, v, x.second)
  }

  /** The events es, with no inputs but u at node 0 and v at node 1, lead to this scene. */
  ghost predicate Reached(c: Config, k: nat, u: int, v: int, es: seq<Event>, s: System, x: Scene) {
    && Run(c, Both(), k, es) == Some(s) && Shows(s, u, v, x)
    && forall e :: e in es && e.Input? ==> e == Input(0, u) || e == Input(1, v)
  }

  lemma RunMore(c: Config, F: Faults, k: nat, es: seq<Event>, s: System, e: Event, s': System)
    requires Run(c, F, k, es) == Some(s) && TraceStep(c, F, k, s, e, s')
    ensures Run(c, F, k, es + [e]) == Some(s')
  {
    assert (es + [e])[..|es + [e]| - 1] == es;
  }

  lemma Redrawn(s: System, u: int, v: int, x: Scene, p: nat, n': Node, Q: Picture, sent: set<(nat, Message)>)
    requires Shows(s, u, v, x) && p < 2 && Looks(n', u, v, Q)
    ensures Shows(System(s.nodes[p := n'], sent), u, v, Redraw(x, p, Q, sent))
  {
  }

  lemma Enables(c: Config, k: nat, s: System, u: int, v: int, x: Scene, p: nat, a: Action)
    requires Two(c, u, v) && Shows(s, u, v, x) && p < 2 && Playable(x, p, a, u, v)
    ensures Enabled(c, Both(), k, s, EventOf(p, a, u, v))
  {
  }

  lemma Steps(c: Config, k: nat, s: System, e: Event, n': Node, out: seq<Message>)
    requires Enabled(c, Both(), k, s, e) && Local(c, s.nodes[e.p], e) == (n', out)
    ensures TraceStep(c, Both(), k, s, e, System(s.nodes[e.p := n'], s.sent + Sending(e.p, out)))
  {
  }

  lemma PlayStep(c: Config, k: nat, s: System, u: int, v: int, x: Scene, p: nat, a: Action) returns (s': System)
    requires Two(c, u, v) && Shows(s, u, v, x) && p < 2 && Playable(x, p, a, u, v)
    ensures TraceStep(c, Both(), k, s, EventOf(p, a, u, v), s') && Shows(s', u, v, Next(x, p, a, u, v))
  {
    var P := PictureOf(x, p);
    var out := OutOf(P, a, u, v);
    var n' := Acts(c, p, s.nodes[p], u, v, P, a);
    Enables(c, k, s, u, v, x, p, a);
    Steps(c, k, s, EventOf(p, a, u, v), n', out);
    s' := System(s.nodes[p := n'], s.sent + Sending(p, out));
    Redrawn(s, u, v, x, p, n', After(p, P, a, u, v), s'.sent);
  }

  /** One step: node p takes action a. */
  lemma Play(c: Config, k: nat, u: int, v: int, es: seq<Event>, s: System, x: Scene, p: nat, a: Action)
    returns (es': seq<Event>, s': System, x': Scene)
    requires Two(c, u, v) && Reached(c, k, u, v, es, s, x) && p < 2 && Playable(x, p, a, u, v)
    ensures Reached(c, k, u, v, es', s', x') && x' == Next(x, p, a, u, v)
  {
    var e := EventOf(p, a, u, v);
    s' := PlayStep(c, k, s, u, v, x, p, a);
    RunMore(c, Both(), k, es, s, e, s');
    es', x' := es + [e], Next(x, p, a, u, v);
  }

  // ---------- the script ----------

  // Who acts next, and how.
  function Script(): seq<(nat, Action)> {
    [(0, TakeU), (1, TakeV), (0, CountV(1)), (1, CountV(0)), (0, PickV), (1, PickV), (0, CountAux(1)), (1, CountAux(0)),
     (0, ConfirmV), (1, CountU(0)), (1, ConfirmBoth), (0, CountU(1)), (0, CountConfBoth(1)), (1, CountConfV(0))]
  }

  // Node 0 after i events.
  function First(u: int, v: int, i: nat): Picture {
    if i < 1 then Picture(NoInput, {}, {}, {}, {}, {}, {}, false, false, [])
    else if i < 3 then Picture(WaitInt, {0}, {}, {}, {}, {}, {}, true, false, [])
    else if i < 5 then Picture(WaitInt, {0}, {1}, {}, {}, {}, {v}, true, true, [])
    else if i < 7 then Picture(WaitAux, {0}, {1}, {0}, {}, {}, {v}, true, true, [])
    else if i < 9 then Picture(WaitAux, {0}, {1}, {0, 1}, {}, {}, {v}, true, true, [])
    else if i < 12 then Picture(WaitConf, {0}, {1}, {0, 1}, {0}, {}, {v}, true, true, [{v}])
    else if i < 13 then Picture(WaitConf, {0, 1}, {1}, {0, 1}, {0}, {}, {u, v}, true, true, [{v}])
    else Picture(WaitConf, {0, 1}, {1}, {0, 1}, {0}, {1}, {u, v}, true, true, [{v}])
  }

  // Node 1 after i events.
  function Second(u: int, v: int, i: nat): Picture {
    if i < 2 then Picture(NoInput, {}, {}, {}, {}, {}, {}, false, false, [])
    else if i < 4 then Picture(WaitInt, {}, {1}, {}, {}, {}, {}, false, true, [])
    else if i < 6 then Picture(WaitInt, {}, {0, 1}, {}, {}, {}, {v}, false, true, [])
    else if i < 8 then Picture(WaitAux, {}, {0, 1}, {1}, {}, {}, {v}, false, true, [])
    else if i < 10 then Picture(WaitAux, {}, {0, 1}, {0, 1}, {}, {}, {v}, false, true, [])
    else if i < 11 then Picture(WaitAux, {0}, {0, 1}, {0, 1}, {}, {}, {u, v}, true, true, [])
    else if i < 14 then Picture(WaitConf, {0}, {0, 1}, {0, 1}, {}, {1}, {u, v}, true, true, [{u, v}])
    else Picture(WaitConf, {0}, {0, 1}, {0, 1}, {0}, {1}, {u, v}, true, true, [{u, v}])
  }

  // Everything sent in the first i events.
  function Sent(u: int, v: int, i: nat): set<(nat, Message)> {
    (if i > 0 then {(0, Est(0, u))} else {}) + (if i > 1 then {(1, Est(0, v))} else {})
    + (if i > 2 then {(0, Est(0, v))} else {}) + (if i > 4 then {(0, Aux(0, v))} else {})
    + (if i > 5 then {(1, Aux(0, v))} else {}) + (if i > 8 then {(0, Conf(0, {v}))} else {})
    + (if i > 9 then {(1, Est(0, u))} else {}) + (if i > 10 then {(1, Conf(0, {u, v}))} else {})
  }

  function SceneAt(u: int, v: int, i: nat): Scene {
    Scene(First(u, v, i), Second(u, v, i), Sent(u, v, i))
  }

  function Last(u: int, v: int): Scene {
    SceneAt(u, v, 14)
  }

  // Pictures are equal when their sets are.
  predicate SamePicture(P: Picture, Q: Picture) {
    && P.phase == Q.phase && P.estU == Q.estU && P.estV == Q.estV && P.auxV == Q.auxV && P.confV == Q.confV
    && P.confBoth == Q.confBoth && P.ints == Q.ints && P.sentU == Q.sentU && P.sentV == Q.sentV && P.confs == Q.confs
  }

  lemma SameScene(x: Scene, y: Scene)
    requires SamePicture(x.first, y.first) && SamePicture(x.second, y.second) && x.sent == y.sent
    ensures x == y
  {
  }

  // The i-th turn of the script leads from scene i to scene i + 1.
  ghost predicate Turn(u: int, v: int, i: nat)
    requires i < 14
  {
    var (p, a) := Script()[i];
    Playable(SceneAt(u, v, i), p, a, u, v) && Next(SceneAt(u, v, i), p, a, u, v) == SceneAt(u, v, i + 1)
  }

  lemma OneSent(p: nat, m: Message)
    ensures Sending(p, [m]) == {(p, m)} && Sending(p, []) == {}
  {
  }

  lemma TurnsEst(u: int, v: int, i: nat)
    requires 0 <= i < 4 && u != v
    ensures Turn(u, v, i)
  {
    var (p, a) := Script()[i];
    var x, y := SceneAt(u, v, i), SceneAt(u, v, i + 1);
    var out := OutOf(PictureOf(x, p), a, u, v);
    OneSent(p, if out == [] then Finish(0) else out[0]);
    SameScene(Next(x, p, a, u, v), y);
  }

  lemma TurnsAux(u: int, v: int, i: nat)
    requires 4 <= i < 8 && u != v
    ensures Turn(u, v, i)
  {
    var (p, a) := Script()[i];
    var x, y := SceneAt(u, v, i), SceneAt(u, v, i + 1);
    var out := OutOf(PictureOf(x, p), a, u, v);
    OneSent(p, if out == [] then Finish(0) else out[0]);
    SameScene(Next(x, p, a, u, v), y);
  }

  lemma TurnsFirstConf(u: int, v: int, i: nat)
    requires 8 <= i < 10 && u != v
    ensures Turn(u, v, i)
  {
    var (p, a) := Script()[i];
    var x, y := SceneAt(u, v, i), SceneAt(u, v, i + 1);
    var out := OutOf(PictureOf(x, p), a, u, v);
    OneSent(p, if out == [] then Finish(0) else out[0]);
    SameScene(Next(x, p, a, u, v), y);
  }

  // Node 1 sends CONF {u, v}.
  lemma TurnConfBoth(u: int, v: int)
    requires u != v
    ensures Turn(u, v, 10)
  {
    OneSent(1, Conf(0, {u, v}));
    SameScene(Next(SceneAt(u, v, 10), 1, ConfirmBoth, u, v), SceneAt(u, v, 11));
  }

  lemma TurnsLast(u: int, v: int, i: nat)
    requires 11 <= i < 14 && u != v
    ensures Turn(u, v, i)
  {
    var (p, a) := Script()[i];
    var x, y := SceneAt(u, v, i), SceneAt(u, v, i + 1);
    OneSent(p, Finish(0));
    SameScene(Next(x, p, a, u, v), y);
  }

  lemma Turned(u: int, v: int, i: nat)
    requires i < 14 && u != v
    ensures Turn(u, v, i)
  {
    if i < 8 {
      if i < 4 { TurnsEst(u, v, i); } else { TurnsAux(u, v, i); }
    } else if i < 10 {
      TurnsFirstConf(u, v, i);
    } else if i == 10 {
      TurnConfBoth(u, v);
    } else {
      TurnsLast(u, v, i);
    }
  }

  lemma Opening(c: Config, k: nat, u: int, v: int)
    ensures Reached(c, k, u, v, [], InitSystem(Both()), SceneAt(u, v, 0))
  {
  }

  // The first i turns.
  lemma {:induction false} Performed(c: Config, k: nat, u: int, v: int, i: nat) returns (es: seq<Event>, s: System)
    requires Two(c, u, v) && i <= 14
    ensures Reached(c, k, u, v, es, s, SceneAt(u, v, i))
  {
    if i == 0 {
      Opening(c, k, u, v);
      es, s := [], InitSystem(Both());
    } else {
      es, s := Performed(c, k, u, v, i - 1);
      Turned(u, v, i - 1);
      var (p, a) := Script()[i - 1];
      var x;
      es, s, x := Play(c, k, u, v, es, s, SceneAt(u, v, i - 1), p, a);
    }
  }

  // ---------- the last scene ----------

  lemma LastRecorded(s: System, u: int, v: int)
    requires Shows(s, u, v, Last(u, v))
    ensures AllRecorded(Both(), s)
  {
    forall p, x | p in Both().honest && x in s.sent && x.0 != p ensures Recorded(s.nodes[p], x.0, x.1) {
      if p == 0 {
        FirstRecorded(s, u, v, x);
      } else {
        SecondRecorded(s, u, v, x);
      }
    }
  }

  lemma FirstRecorded(s: System, u: int, v: int, x: (nat, Message))
    requires Shows(s, u, v, Last(u, v)) && x in s.sent && x.0 != 0
    ensures Recorded(s.nodes[0], x.0, x.1)
  {
    assert x in {(1, Est(0, v)), (1, Aux(0, v)), (1, Est(0, u)), (1, Conf(0, {u, v}))};
  }

  lemma SecondRecorded(s: System, u: int, v: int, x: (nat, Message))
    requires Shows(s, u, v, Last(u, v)) && x in s.sent && x.0 != 1
    ensures Recorded(s.nodes[1], x.0, x.1)
  {
    assert x in {(0, Est(0, u)), (0, Est(0, v)), (0, Aux(0, v)), (0, Conf(0, {v}))};
  }

  // Neither node has two equal CONFs.
  lemma LastStuck(c: Config, s: System, u: int, v: int, q: nat)
    requires Two(c, u, v) && Shows(s, u, v, Last(u, v)) && q in {0, 1}
    ensures Active(s.nodes[q]) && At(s.nodes[q].inbox.ints, 0) == {u, v} && !CanStep(c, q, s.nodes[q])
  {
    LeavesConf(c, q, s.nodes[q]);
  }

  lemma OneVoter(s: System, u: int, v: int, b: set<int>)
    requires u != v && Shows(s, u, v, Last(u, v))
    ensures |Voters(Both(), s, 0, b)| <= 1
  {
    Different(u, v);
    var V := Voters(Both(), s, 0, b);
    if b == {v} {
      SubsetSize(V, {0});
    } else {
      SubsetSize(V, {1});
    }
  }

  lemma LastDivided(c: Config, s: System, u: int, v: int)
    requires Two(c, u, v) && Shows(s, u, v, Last(u, v))
    ensures Divided(c, Both(), s, 0)
  {
    forall b ensures |Voters(Both(), s, 0, b)| + (c.N - |Both().honest|) < c.N - c.f {
      OneVoter(s, u, v, b);
    }
  }

  /** Whatever happens after the events es, neither node ever decides. */
  ghost predicate NeverDecided(c: Config, k: nat, es: seq<Event>) {
    forall more, s', p ::
      Run(c, Both(), k, es + more) == Some(s') && p in {0, 1} ==> p in s'.nodes && s'.nodes[p].log.decisions == []
  }

  lemma Never(c: Config, k: nat, u: int, v: int, es: seq<Event>, s: System)
    requires Two(c, u, v) && Reached(c, k, u, v, es, s, Last(u, v)) && Divided(c, Both(), s, 0)
    ensures NeverDecided(c, k, es)
  {
    forall more, s', p | Run(c, Both(), k, es + more) == Some(s') && p in {0, 1}
      ensures p in s'.nodes && s'.nodes[p].log.decisions == []
    {
      NeverDecides(c, Both(), k, es, s, more, s', p);
    }
  }

  /**
   Deadlock without faults: two correct nodes with different inputs, every message
   delivered, reach equal int_values but cannot leave the CONF wait of round 0,
   and in no continuation does either node decide.
   */
  lemma Deadlock(c: Config, k: nat, u: int, v: int) returns (es: seq<Event>, s: System)
    requires c.N == 2 && c.f == 0 && u != v
    ensures Valid(c, Both()) && Run(c, Both(), k, es) == Some(s) && s.nodes.Keys == Both().honest && AllRecorded(Both(), s)
    ensures forall e :: e in es && e.Input? ==> e == Input(0, u) || e == Input(1, v)
    ensures forall q :: q in {0, 1} ==> Active(s.nodes[q]) && At(s.nodes[q].inbox.ints, 0) == {u, v}
    ensures forall q :: q in {0, 1} ==> !CanStep(c, q, s.nodes[q])
    ensures Divided(c, Both(), s, 0) && NeverDecided(c, k, es)
  {
    es, s := Performed(c, k, u, v, 14);
    LastRecorded(s, u, v);
    LastStuck(c, s, u, v, 0);
    LastStuck(c, s, u, v, 1);
    LastDivided(c, s, u, v);
    Never(c, k, u, v, es, s);
  }
}
