/**
 One node of the two-value agreement of mulebft/core/twovalueagreement.py, whose
 inputs are two consecutive integers. A step handles one message or runs
 main_loop up to its next wait. A tuple of int_values is taken as its set.
 */
module TwoValueAgreement {
  import opened PowersOfTwo
  import opened Tables

  datatype Message =
    | Est(round: nat, v: int)
    | Aux(round: nat, v: int)
    | Conf(round: nat, vals: set<int>)
    | Finish(v: int)

  /** cheapCoins is the hash of sid as an integer, coin the common coin used from round 10 on. */
  datatype Config = Config(N: nat, f: nat, cheapCoins: nat, coin: nat -> int)

  datatype Inbox = Inbox(
    est: map<(nat, int), set<nat>>,
    aux: map<(nat, int), set<nat>>,
    conf: map<(nat, set<int>), set<nat>>,
    ints: map<nat, set<int>>)

  /** Failed: an assertion of main_loop failed; Done: killed after finish_signal. */
  datatype Phase = NoInput | WaitInt | WaitAux | WaitConf | WaitCoin | Failed | Done

  datatype Loop = Loop(phase: Phase, r: nat, est: int, values: set<int>, confSent: set<(nat, set<int>)>)

  /** finish_sent, finish_value, finish_cnt, and the senders of the FINISHes counted, in order. */
  datatype Finishing = Finishing(sent: bool, value: set<int>, cnt: nat, from: seq<nat>)

  /** est at the start of each round, CONF sent and values left with in each round, calls of decide. */
  datatype Log = Log(ests: seq<int>, confs: seq<set<int>>, vals: seq<set<int>>, decisions: seq<int>)

  datatype Node = Node(inbox: Inbox, estSent: set<(nat, int)>, receiving: bool, fin: Finishing, loop: Loop, log: Log)

  function Init(): Node {
    Node(Inbox(map[], map[], map[], map[]), {}, true, Finishing(false, {}, 0, []),
         Loop(NoInput, 0, 0, {}, {}), Log([], [], [], []))
  }

  // ---------- recv ----------

  function AddEst(c: Config, box: Inbox, sender: nat, r: nat, v: int): Inbox {
    var senders := At(box.est, (r, v)) + {sender};
    box.(est := box.est[(r, v) := senders],
         ints := if |senders| >= 2 * c.f + 1 then box.ints[r := At(box.ints, r) + {v}] else box.ints)
  }

  function OnEst(c: Config, n: Node, sender: nat, r: nat, v: int): (Node, seq<Message>) {
    if sender in At(n.inbox.est, (r, v)) then (n, [])
    else
      var box := AddEst(c, n.inbox, sender, r, v);
      if |At(box.est, (r, v))| >= c.f + 1 && (r, v) !in n.estSent then
        (n.(inbox := box, estSent := n.estSent + {(r, v)}), [Est(r, v)])
      else
        (n.(inbox := box), [])
  }

  function AddAux(box: Inbox, sender: nat, r: nat, v: int): Inbox {
    box.(aux := box.aux[(r, v) := At(box.aux, (r, v)) + {sender}])
  }

  function AddConf(box: Inbox, sender: nat, r: nat, vals: set<int>): Inbox {
    box.(conf := box.conf[(r, vals) := At(box.conf, (r, vals)) + {sender}])
  }

  function OnConf(n: Node, sender: nat, r: nat, vals: set<int>): Node {
    if |vals| != 1 && |vals| != 2 then n.(receiving := false) else n.(inbox := AddConf(n.inbox, sender, r, vals))
  }

  // decide(v) and the FINISH that goes with it.
  function Decide(n: Node, v: int): (Node, seq<Message>) {
    (n.(fin := n.fin.(sent := true, cnt := n.fin.cnt + 1), log := n.log.(decisions := n.log.decisions + [v])), [Finish(v)])
  }

  function OnFinish(c: Config, n: Node, sender: nat, v: int): (Node, seq<Message>) {
    var n1 := n.(fin := n.fin.(cnt := n.fin.cnt + 1, value := n.fin.value + {v}, from := n.fin.from + [sender]));
    if n1.fin.value != {v} then (n1.(receiving := false), [])
    else if !n1.fin.sent && n1.fin.cnt >= c.f + 1 then Decide(n1, v)
    else (n1, [])
  }

  function Receive(c: Config, n: Node, sender: nat, m: Message): (Node, seq<Message>) {
    if !n.receiving then (n, [])
    else if sender >= c.N then (n.(receiving := false), [])
    else
      match m
      case Est(r, v) => OnEst(c, n, sender, r, v)
      case Aux(r, v) => (n.(inbox := AddAux(n.inbox, sender, r, v)), [])
      case Conf(r, vals) => (OnConf(n, sender, r, vals), [])
      case Finish(v) => OnFinish(c, n, sender, v)
  }

  // ---------- main_loop ----------

  // The top of the loop; a node counts its own EST here.
  function EnterRound(c: Config, pid: nat, n: Node, r: nat, est: int): (Node, seq<Message>) {
    var n' := n.(loop := n.loop.(phase := WaitInt, r := r, est := est), log := n.log.(ests := n.log.ests + [est]));
    if (r, est) in n.estSent then (n', [])
    else
      (n'.(estSent := n.estSent + {(r, est)},
           inbox := n.inbox.(est := n.inbox.est[(r, est) := At(n.inbox.est, (r, est)) + {pid}])),
       [Est(r, est)])
  }

  function Start(c: Config, pid: nat, n: Node, vi: int): (Node, seq<Message>) {
    if n.loop.phase != NoInput then (n, []) else EnterRound(c, pid, n, 0, vi)
  }

  /** The AUX wait (twovalueagreement.py:183-196) is over; its assertion has passed. */
  predicate AuxDone(c: Config, box: Inbox, r: nat) {
    var ints := At(box.ints, r);
    exists x, y :: x in ints && y in ints && ints == {x, y}
      && (if x == y then |At(box.aux, (r, x))| else |At(box.aux, (r, x))| + |At(box.aux, (r, y))|) >= c.N - c.f
  }

  /** (cheap_coins >> r) & 1 for r < 10, then the common coin reduced to a bit. */
  function CoinAt(c: Config, r: nat): (s: int)
    ensures s == 0 || s == 1
  {
    if r < 10 then (c.cheapCoins / Pow2(r)) % 2 else c.coin(r) % 2
  }

  /** The two values of a set that passes the assertions of lines 244-248. */
  predicate Consecutive(values: set<int>) {
    exists x :: x in values && values == {x, x + 1}
  }

  lemma NonEmpty(values: set<int>)
    requires |values| == 1
    ensures exists v :: v in values
  {
    if forall v :: v !in values {
      assert false;
    }
  }

  /** The new estimate: the single value, or the one with the parity of the coin. */
  ghost function NewEst(values: set<int>, s: int): (e: int)
    requires |values| == 1 || Consecutive(values)
    requires s == 0 || s == 1
    ensures e in values && (|values| == 2 ==> e % 2 == s)
  {
    if |values| == 1 then
      NonEmpty(values);
      var v :| v in values; v
    else
      var x :| x in values && values == {x, x + 1};
      if x % 2 == s then x else x + 1
  }

  // The end of a round (lines 230-255).
  ghost function AfterCoin(c: Config, pid: nat, n: Node): (Node, seq<Message>) {
    var s := CoinAt(c, n.loop.r);
    var values := n.loop.values;
    if |values| != 1 && !Consecutive(values) then (n.(loop := n.loop.(phase := Failed)), [])
    else
      var est := NewEst(values, s);
      var (n1, out1) := if |values| == 1 && est % 2 == s && !n.fin.sent then Decide(n, est) else (n, []);
      var (n2, out2) := EnterRound(c, pid, n1, n.loop.r + 1, est);
      (n2, out1 + out2)
  }

  // The CONF that closes the AUX phase; a node counts its own.
  function ToConf(pid: nat, n: Node): (Node, seq<Message>) {
    var r, ints := n.loop.r, At(n.inbox.ints, n.loop.r);
    if (r, ints) in n.loop.confSent then (n.(loop := n.loop.(phase := WaitConf)), [])
    else
      (n.(inbox := AddConf(n.inbox, pid, r, ints),
          loop := n.loop.(phase := WaitConf, confSent := n.loop.confSent + {(r, ints)}),
          log := n.log.(confs := n.log.confs + [ints])),
       [Conf(r, ints)])
  }

  /** main_loop resumes at node pid: w is the element of int_values[r] that it picks. */
  ghost function Resume(c: Config, pid: nat, n: Node, w: int): (Node, seq<Message>) {
    var r := n.loop.r;
    var ints := At(n.inbox.ints, r);
    match n.loop.phase
    case WaitInt =>
      if w in ints then (n.(loop := n.loop.(phase := WaitAux), inbox := AddAux(n.inbox, pid, r, w)), [Aux(r, w)]) else (n, [])
    case WaitAux =>
      if |ints| != 1 && |ints| != 2 then (n.(loop := n.loop.(phase := Failed)), [])
      else if AuxDone(c, n.inbox, r) then ToConf(pid, n)
      else (n, [])
    case WaitConf =>
      if |At(n.inbox.conf, (r, ints))| >= c.N - c.f then
        (n.(loop := n.loop.(phase := WaitCoin, values := ints), log := n.log.(vals := n.log.vals + [ints])), [])
      else (n, [])
    case WaitCoin => AfterCoin(c, pid, n)
    case _ => (n, [])
  }

  /** finish_signal has been set: both greenlets are killed. */
  function Halt(c: Config, n: Node): Node {
    if n.fin.cnt >= 2 * c.f + 1 then n.(receiving := false, loop := n.loop.(phase := Done)) else n
  }
}
