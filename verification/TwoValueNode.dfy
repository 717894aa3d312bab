/**
 The code of one two-value agreement node, statement by statement, proved
 against the step functions of TwoValueAgreement: recv, and main_loop between
 its waits.
 */
module TwoValueNode {
  import opened FiniteSets
  import opened Tables
  import opened TwoValueAgreement

  class TwoValueProcess {
    const c: Config
    const pid: nat
    var estValues: map<(nat, int), set<nat>>
    var auxValues: map<(nat, int), set<nat>>
    var confValues: map<(nat, set<int>), set<nat>>
    var intValues: map<nat, set<int>>
    var estSent: set<(nat, int)>
    var confSent: set<(nat, set<int>)>
    var receiving: bool
    var finishSent: bool
    var finishValue: set<int>
    var finishCnt: nat
    var phase: Phase
    var r: nat
    var est: int
    var values: set<int>
    ghost var finishFrom: seq<nat>
    ghost var log: Log

    ghost function View(): Node
      reads this
    {
      Node(Inbox(estValues, auxValues, confValues, intValues), estSent, receiving,
           Finishing(finishSent, finishValue, finishCnt, finishFrom), Loop(phase, r, est, values, confSent), log)
    }

    constructor (c: Config, pid: nat)
      ensures View() == TwoValueAgreement.Init() && this.c == c && this.pid == pid
    {
      this.c, this.pid := c, pid;
      estValues, auxValues, confValues, intValues := map[], map[], map[], map[];
      estSent, confSent, receiving := {}, {}, true;
      finishSent, finishValue, finishCnt, finishFrom := false, {}, 0, [];
      phase, r, est, values := NoInput, 0, 0, {};
      log := Log([], [], [], []);
    }

    method Recv(sender: nat, m: Message) returns (out: seq<Message>)
      modifies this
      ensures (View(), out) == Receive(c, old(View()), sender, m)
    {
      out := [];
      if !receiving {
        return;
      }
      if sender >= c.N {
        receiving := false;
        return;
      }
      match m
      case Est(r, v) => out := RecvEst(sender, r, v);
      case Aux(r, v) => auxValues := auxValues[(r, v) := At(auxValues, (r, v)) + {sender}];
      case Conf(r, vals) => RecvConf(sender, r, vals);
      case Finish(v) => out := RecvFinish(sender, v);
    }

    method RecvEst(sender: nat, r: nat, v: int) returns (out: seq<Message>)
      modifies this
      ensures (View(), out) == OnEst(c, old(View()), sender, r, v)
    {
      out := [];
      if sender in At(estValues, (r, v)) {
        return;
      }
      CountEst(sender, r, v);
      // f + 1 senders: one of them is honest.
      if |At(estValues, (r, v))| >= c.f + 1 && (r, v) !in estSent {
        estSent := estSent + {(r, v)};
        out := [Est(r, v)];
      }
    }

    // The sender is recorded; with 2f + 1 of them v enters int_values.
    method CountEst(sender: nat, r: nat, v: int)
      modifies `estValues, `intValues
      ensures View() == old(View()).(inbox := AddEst(c, old(View()).inbox, sender, r, v))
    {
      var senders := At(estValues, (r, v)) + {sender};
      estValues := estValues[(r, v) := senders];
      if |senders| >= 2 * c.f + 1 {
        intValues := intValues[r := At(intValues, r) + {v}];
      }
    }

    method RecvConf(sender: nat, r: nat, vals: set<int>)
      modifies this
      ensures View() == OnConf(old(View()), sender, r, vals)
    {
      if |vals| != 1 && |vals| != 2 {
        receiving := false;
        return;
      }
      confValues := confValues[(r, vals) := At(confValues, (r, vals)) + {sender}];
    }

    method RecvFinish(sender: nat, v: int) returns (out: seq<Message>)
      modifies this
      ensures (View(), out) == OnFinish(c, old(View()), sender, v)
    {
      out := [];
      finishCnt, finishFrom := finishCnt + 1, finishFrom + [sender];
      finishValue := finishValue + {v};
      if finishValue != {v} {
        receiving := false;
        return;
      }
      if !finishSent && finishCnt >= c.f + 1 {
        out := SendFinish(v);
      }
    }

    // decide(v), with the FINISH that goes with it.
    method SendFinish(v: int) returns (out: seq<Message>)
      modifies `log, `finishCnt, `finishSent
      ensures (View(), out) == Decide(old(View()), v)
    {
      log := log.(decisions := log.decisions + [v]);
      out := [Finish(v)];
      finishCnt := finishCnt + 1;
      finishSent := true;
    }

    method Input(vi: int) returns (out: seq<Message>)
      modifies this
      ensures (View(), out) == Start(c, pid, old(View()), vi)
    {
      out := [];
      if phase == NoInput {
        r, est := 0, vi;
        out := BeginRound();
      }
    }

    // The top of main_loop.
    method BeginRound() returns (out: seq<Message>)
      modifies this
      ensures (View(), out) == EnterRound(c, pid, old(View()), old(r), old(est))
    {
      out := [];
      if (r, est) !in estSent {
        estSent := estSent + {(r, est)};
        out := [Est(r, est)];
        estValues := estValues[(r, est) := At(estValues, (r, est)) + {pid}];
      }
      phase := WaitInt;
      log := log.(ests := log.ests + [est]);
    }

    method WakeInt(w: int) returns (out: seq<Message>)
      requires phase == WaitInt
      modifies this
      ensures (View(), out) == Resume(c, pid, old(View()), w)
    {
      out := [];
      if w in At(intValues, r) {
        out := [Aux(r, w)];
        auxValues := auxValues[(r, w) := At(auxValues, (r, w)) + {pid}];
        phase := WaitAux;
      }
    }

    // Whether the AUX wait can be left: the sum over int_values[r] of the AUX senders.
    method CheckAux(ints: set<int>) returns (done: bool)
      requires |ints| == 1 || |ints| == 2
      requires ints == At(intValues, r)
      ensures done <==> AuxDone(c, View().inbox, r)
    {
      NonEmptySet(ints);
      var x :| x in ints;
      if |ints| == 1 {
        SameSize({x}, ints);
        assert ints == {x, x};
        done := |At(auxValues, (r, x))| >= c.N - c.f;
      } else {
        NonEmptySet(ints - {x});
        var y :| y in ints - {x};
        SameSize({x, y}, ints);
        done := |At(auxValues, (r, x))| + |At(auxValues, (r, y))| >= c.N - c.f;
      }
    }

    // The CONF of the round; a node counts its own.
    method SendConf(ints: set<int>) returns (out: seq<Message>)
      requires ints == At(intValues, r)
      modifies this
      ensures (View(), out) == ToConf(pid, old(View()))
    {
      out := [];
      if (r, ints) !in confSent {
        out := [Conf(r, ints)];
        confSent := confSent + {(r, ints)};
        confValues := confValues[(r, ints) := At(confValues, (r, ints)) + {pid}];
        log := log.(confs := log.confs + [ints]);
      }
      phase := WaitConf;
    }

    method WakeAux(ghost w: int) returns (out: seq<Message>)
      requires phase == WaitAux
      modifies this
      ensures (View(), out) == Resume(c, pid, old(View()), w)
    {
      out := [];
      var ints := At(intValues, r);
      if |ints| != 1 && |ints| != 2 {
        phase := Failed;
        return;
      }
      var done := CheckAux(ints);
      if done {
        out := SendConf(ints);
      }
    }

    method WakeConf(ghost w: int) returns (out: seq<Message>)
      requires phase == WaitConf
      modifies this
      ensures (View(), out) == Resume(c, pid, old(View()), w)
    {
      out := [];
      var ints := At(intValues, r);
      if |At(confValues, (r, ints))| >= c.N - c.f {
        values := ints;
        phase := WaitCoin;
        log := log.(vals := log.vals + [ints]);
      }
    }

    // The next estimate, unless the assertions on values fail.
    method PickEst(s: int) returns (ok: bool, e: int)
      requires s == 0 || s == 1
      ensures ok <==> |values| == 1 || Consecutive(values)
      ensures ok ==> e == NewEst(values, s)
    {
      ok, e := false, 0;
      ConsecutiveSize(values);
      if |values| == 1 {
        NonEmptySet(values);
        var v :| v in values;
        SameSize({v}, values);
        ok, e := true, v;
      } else if |values| == 2 {
        NonEmptySet(values);
        var x :| x in values;
        NonEmptySet(values - {x});
        var y :| y in values - {x};
        SameSize({x, y}, values);
        PairConsecutive(values, x, y);
        ok, e := x - y == 1 || y - x == 1, if x % 2 == s then x else y;
      }
    }

    // The decision of a round, when its single value has the parity of the coin.
    method DecideRound(v: int, s: int) returns (out: seq<Message>, decide: seq<int>)
      modifies `log, `finishCnt, `finishSent
      ensures (View(), out) == if |values| == 1 && v % 2 == s && !old(finishSent) then Decide(old(View()), v) else (old(View()), [])
      ensures log.decisions == old(log.decisions) + decide
    {
      out, decide := [], [];
      if |values| == 1 && v % 2 == s && !finishSent {
        decide := [v];
        out := SendFinish(v);
      }
    }

    /** Setting the estimate and the next round; decide is the value passed to decide(), if any. */
    method WakeCoin(ghost w: int) returns (out: seq<Message>, decide: seq<int>)
      requires phase == WaitCoin
      modifies this
      ensures (View(), out) == Resume(c, pid, old(View()), w)
      ensures log.decisions == old(log.decisions) + decide
    {
      out, decide := [], [];
      var s := CoinAt(c, r);
      var ok, v := PickEst(s);
      if !ok {
        phase := Failed;
        return;
      }
      out, decide := NextRound(v, s);
    }

    // The estimate v is set, perhaps after a decision, and the next round begins.
    method NextRound(v: int, s: int) returns (out: seq<Message>, decide: seq<int>)
      modifies this
      ensures
        var (n1, out1) := if |old(values)| == 1 && v % 2 == s && !old(finishSent) then Decide(old(View()), v) else (old(View()), []);
        var (n2, out2) := EnterRound(c, pid, n1, old(r) + 1, v);
        View() == n2 && out == out1 + out2
      ensures log.decisions == old(log.decisions) + decide
    {
      out, decide := DecideRound(v, s);
      est := v;
      r := r + 1;
      var round := BeginRound();
      out := out + round;
    }

    /** The wait on finish_signal is over: recv and main_loop are killed. */
    method Finished()
      modifies this
      ensures View() == Halt(c, old(View()))
    {
      if finishCnt >= 2 * c.f + 1 {
        receiving := false;
        phase := Done;
      }
    }
  }

  lemma NonEmptySet(s: set<int>)
    requires |s| >= 1
    ensures exists v :: v in s
  {
    if forall v :: v !in s {
      assert false;
    }
  }

  lemma ConsecutiveSize(values: set<int>)
    ensures Consecutive(values) ==> |values| == 2
  {
    if x :| x in values && values == {x, x + 1} {
      assert |{x, x + 1}| == 2;
    }
  }

  lemma PairConsecutive(values: set<int>, x: int, y: int)
    requires x != y && values == {x, y}
    ensures Consecutive(values) <==> x - y == 1 || y - x == 1
  {
    if Consecutive(values) {
      var z :| z in values && values == {z, z + 1};
      assert x in {z, z + 1} && y in {z, z + 1};
    } else {
      assert values == {y, x};
    }
  }
}
