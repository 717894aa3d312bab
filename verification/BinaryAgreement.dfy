/**
 One node of the binary agreement of honeybadgerbft/core/binaryagreement.py and
 of its biased variant dumbobft/core/baisedbinaryagreement.py (coin 1 in round
 0). A step handles one message or runs the main loop up to its next wait.
 */
module BinaryAgreement {
  import opened Options
  import opened Tables

  datatype Message =
    | Est(round: nat, v: int)
    | Aux(round: nat, v: int)
    | Conf(round: nat, vals: seq<int>)

  /** coin(r) is the common coin; biased selects baisedbinaryagreement.py. */
  datatype Config = Config(N: nat, f: nat, biased: bool, coin: nat -> int)

  /** est_values, aux_values, conf_values and bin_values. */
  datatype Inbox = Inbox(
    est: map<(nat, int), set<nat>>,
    aux: map<(nat, int), set<nat>>,
    conf: map<(nat, seq<int>), set<nat>>,
    bin: map<nat, set<int>>)

  /** Where the main loop waits; Failed and Quit are final. */
  datatype Phase = NoInput | WaitBin | WaitAux | WaitConf | WaitCoin | Quit | Failed

  /** The variables of the main loop. */
  datatype Loop = Loop(
    phase: Phase,
    r: nat,
    est: int,
    values: set<int>,
    confSent: set<(nat, seq<int>)>,
    alreadyDecided: Option<int>)

  /**
   The past: est at the start of each round, the CONF sent and the values left
   with in each round, and every call of decide.
   */
  datatype Log = Log(ests: seq<int>, confs: seq<seq<int>>, vals: seq<set<int>>, decisions: seq<int>)

  /** One node; receiving is false once _recv has been killed or has raised. */
  datatype Node = Node(inbox: Inbox, estSent: set<(nat, int)>, receiving: bool, loop: Loop, log: Log)

  function Init(): Node {
    Node(Inbox(map[], map[], map[], map[]), {}, true, Loop(NoInput, 0, 0, {}, {}, None), Log([], [], [], []))
  }

  // ---------- bits and tuples of bits ----------

  predicate Bit(v: int) {
    v == 0 || v == 1
  }

  /** tuple(b) for a set b of bits. */
  function Tuple(b: set<int>): seq<int> {
    (if 0 in b then [0] else []) + (if 1 in b then [1] else [])
  }

  predicate IsConf(vals: seq<int>) {
    vals == [0] || vals == [1] || vals == [0, 1]
  }

  // ---------- _recv ----------

  function AddEst(c: Config, box: Inbox, sender: nat, r: nat, v: int): Inbox {
    var senders := At(box.est, (r, v)) + {sender};
    box.(est := box.est[(r, v) := senders],
         bin := if |senders| >= 2 * c.f + 1 then box.bin[r := At(box.bin, r) + {v}] else box.bin)
  }

  function OnEst(c: Config, n: Node, sender: nat, r: nat, v: int): (Node, seq<Message>) {
    if !Bit(v) then (n.(receiving := false), [])
    else if sender in At(n.inbox.est, (r, v)) && !c.biased then (n, [])
    else
      var box := AddEst(c, n.inbox, sender, r, v);
      if |At(box.est, (r, v))| >= c.f + 1 && (r, v) !in n.estSent then
        (n.(inbox := box, estSent := n.estSent + {(r, v)}), [Est(r, v)])
      else
        (n.(inbox := box), [])
  }

  function OnAux(c: Config, n: Node, sender: nat, r: nat, v: int): Node {
    var known := At(n.inbox.aux, (r, v));
    if !Bit(v) || (sender in known && !c.biased) then n.(receiving := false)
    else n.(inbox := n.inbox.(aux := n.inbox.aux[(r, v) := known + {sender}]))
  }

  function OnConf(n: Node, sender: nat, r: nat, vals: seq<int>): Node {
    var known := At(n.inbox.conf, (r, vals));
    if !IsConf(vals) || sender in known then n.(receiving := false)
    else n.(inbox := n.inbox.(conf := n.inbox.conf[(r, vals) := known + {sender}]))
  }

  function Receive(c: Config, n: Node, sender: nat, m: Message): (Node, seq<Message>) {
    if !n.receiving then (n, [])
    else if sender >= c.N then (n.(receiving := false), [])
    else
      match m
      case Est(r, v) => OnEst(c, n, sender, r, v)
      case Aux(r, v) => (OnAux(c, n, sender, r, v), [])
      case Conf(r, vals) => (OnConf(n, sender, r, vals), [])
  }

  // ---------- the main loop ----------

  // The top of the loop, in round r with estimate est.
  function EnterRound(n: Node, r: nat, est: int): (Node, seq<Message>) {
    var n' := n.(loop := n.loop.(phase := WaitBin, r := r, est := est), log := n.log.(ests := n.log.ests + [est]));
    if (r, est) in n.estSent then (n', [])
    else (n'.(estSent := n.estSent + {(r, est)}), [Est(r, est)])
  }

  function Start(n: Node, vi: int): (Node, seq<Message>) {
    if n.loop.phase != NoInput then (n, [])
    else if !Bit(vi) then (n.(loop := n.loop.(phase := Failed)), [])
    else EnterRound(n, 0, vi)
  }

  /** What the AUX wait of round r (binaryagreement.py:213-233) leaves with, if anything. */
  function AuxDone(c: Config, box: Inbox, r: nat): Option<set<int>> {
    var bin, aux0, aux1 := At(box.bin, r), At(box.aux, (r, 0)), At(box.aux, (r, 1));
    if 1 in bin && |aux1| >= c.N - c.f then Some({1})
    else if 0 in bin && |aux0| >= c.N - c.f then Some({0})
    else if (if 0 in bin then |aux0| else 0) + (if 1 in bin then |aux1| else 0) >= c.N - c.f then Some({0, 1})
    else None
  }

  /** What wait_for_conf_values of round r (binaryagreement.py:43-59) returns, if anything. */
  function ConfDone(c: Config, box: Inbox, r: nat): Option<set<int>> {
    var bin := At(box.bin, r);
    var conf0, conf1, conf01 := At(box.conf, (r, [0])), At(box.conf, (r, [1])), At(box.conf, (r, [0, 1]));
    if 1 in bin && |conf1| >= c.N - c.f then Some({1})
    else if 0 in bin && |conf0| >= c.N - c.f then Some({0})
    else if (if 0 in bin then |conf0| else 0) + (if 1 in bin then |conf1| else 0)
            + (if 0 in bin && 1 in bin then |conf01| else 0) >= c.N - c.f then Some({0, 1})
    else None
  }

  function CoinAt(c: Config, r: nat): int {
    if !c.biased then c.coin(r) else if r == 0 then 1 else c.coin(r) % 2
  }

  /** The estimate that set_new_estimate returns. */
  function NewEst(values: set<int>, s: int): int {
    if values == {0} then 0 else if values == {1} then 1 else s
  }

  // Leaving the CONF phase.
  function ToCoin(n: Node, values: set<int>): Node {
    n.(loop := n.loop.(phase := WaitCoin, values := values), log := n.log.(vals := n.log.vals + [values]))
  }

  // Entering the CONF phase.
  function ToConf(n: Node, values: set<int>): (Node, seq<Message>) {
    var conf := Tuple(At(n.inbox.bin, n.loop.r));
    (n.(loop := n.loop.(phase := WaitConf, values := values, confSent := n.loop.confSent + {(n.loop.r, Tuple(values))}),
        log := n.log.(confs := n.log.confs + [conf])),
     [Conf(n.loop.r, conf)])
  }

  // set_new_estimate and the start of the next round.
  function AfterCoin(c: Config, n: Node): (Node, seq<Message>) {
    var s := CoinAt(c, n.loop.r);
    var next := NewEst(n.loop.values, s);
    if n.loop.values != {s} then EnterRound(n, n.loop.r + 1, next)
    else if n.loop.alreadyDecided == None then
      EnterRound(n.(loop := n.loop.(alreadyDecided := Some(s)), log := n.log.(decisions := n.log.decisions + [s])),
                 n.loop.r + 1, next)
    else if n.loop.alreadyDecided == Some(s) then (n.(loop := n.loop.(phase := Quit), receiving := false), [])
    else EnterRound(n, n.loop.r + 1, next)
  }

  /** The main loop resumes: w is the element of bin_values[r] that it picks. */
  function Resume(c: Config, n: Node, w: int): (Node, seq<Message>) {
    var r := n.loop.r;
    match n.loop.phase
    case WaitBin =>
      if w in At(n.inbox.bin, r) then (n.(loop := n.loop.(phase := WaitAux)), [Aux(r, w)]) else (n, [])
    case WaitAux =>
      var values := AuxDone(c, n.inbox, r);
      if values.None? then (n, [])
      else if (r, Tuple(values.value)) in n.loop.confSent then (ToCoin(n, values.value), [])
      else ToConf(n, values.value)
    case WaitConf =>
      var values := ConfDone(c, n.inbox, r);
      if values.None? then (n, []) else (ToCoin(n, values.value), [])
    case WaitCoin => AfterCoin(c, n)
    case _ => (n, [])
  }
}
