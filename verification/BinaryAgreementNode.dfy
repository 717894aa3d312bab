/**
 The code of one binary agreement node, statement by statement, proved against
 the step functions of BinaryAgreement: _recv, the main loop between its waits,
 wait_for_conf_values and set_new_estimate.
 */
module BinaryAgreementNode {
  import opened Options
  import opened Tables
  import opened BinaryAgreement

  class AgreementNode {
    const c: Config
    var estValues: map<(nat, int), set<nat>>
    var auxValues: map<(nat, int), set<nat>>
    var confValues: map<(nat, seq<int>), set<nat>>
    var binValues: map<nat, set<int>>
    var estSent: set<(nat, int)>
    var confSent: set<(nat, seq<int>)>
    var receiving: bool
    var phase: Phase
    var r: nat
    var est: int
    var values: set<int>
    var alreadyDecided: Option<int>
    ghost var log: Log

    ghost function View(): Node
      reads this
    {
      Node(Inbox(estValues, auxValues, confValues, binValues), estSent, receiving,
           Loop(phase, r, est, values, confSent, alreadyDecided), log)
    }

    constructor (c: Config)
      ensures View() == BinaryAgreement.Init() && this.c == c
    {
      this.c := c;
      estValues, auxValues, confValues, binValues := map[], map[], map[], map[];
      estSent, confSent, receiving := {}, {}, true;
      phase, r, est, values, alreadyDecided := NoInput, 0, 0, {}, None;
      log := Log([], [], [], []);
    }

    method Recv(sender: nat, m: Message) returns (out: seq<Message>)
      modifies this
      ensures (View(), out) == Receive(c, old(View()), sender, m)
    {
      out := [];
      if !receiving {
        return;
      }
      if sender >= c.N {
        receiving := false;
        return;
      }
      match m
      case Est(r, v) => out := RecvEst(sender, r, v);
      case Aux(r, v) => RecvAux(sender, r, v);
      case Conf(r, vals) => RecvConf(sender, r, vals);
    }

    method RecvEst(sender: nat, r: nat, v: int) returns (out: seq<Message>)
      modifies this
      ensures (View(), out) == OnEst(c, old(View()), sender, r, v)
    {
      out := [];
      if !Bit(v) {
        receiving := false;
        return;
      }
      var senders := At(estValues, (r, v));
      if sender in senders && !c.biased {
        return;
      }
      senders := senders + {sender};
      estValues := estValues[(r, v) := senders];
      // f + 1 senders: one of them is honest.
      if |senders| >= c.f + 1 && (r, v) !in estSent {
        estSent := estSent + {(r, v)};
        out := [Est(r, v)];
      }
      // 2f + 1 senders: f + 1 of them are honest.
      if |senders| >= 2 * c.f + 1 {
        binValues := binValues[r := At(binValues, r) + {v}];
      }
    }

    method RecvAux(sender: nat, r: nat, v: int)
      modifies this
      ensures View() == OnAux(c, old(View()), sender, r, v)
    {
      var senders := At(auxValues, (r, v));
      if !Bit(v) || (sender in senders && !c.biased) {
        receiving := false;
        return;
      }
      auxValues := auxValues[(r, v) := senders + {sender}];
    }

    method RecvConf(sender: nat, r: nat, vals: seq<int>)
      modifies this
      ensures View() == OnConf(old(View()), sender, r, vals)
    {
      var senders := At(confValues, (r, vals));
      if !IsConf(vals) || sender in senders {
        receiving := false;
        return;
      }
      confValues := confValues[(r, vals) := senders + {sender}];
    }

    method Input(vi: int) returns (out: seq<Message>)
      modifies this
      ensures (View(), out) == Start(old(View()), vi)
    {
      out := [];
      if phase != NoInput {
        return;
      }
      if !Bit(vi) {
        phase := Failed;
        return;
      }
      est, r := vi, 0;
      out := BeginRound();
    }

    // The top of the main loop.
    method BeginRound() returns (out: seq<Message>)
      modifies this
      ensures (View(), out) == EnterRound(old(View()), old(r), old(est))
    {
      out := [];
      if (r, est) !in estSent {
        estSent := estSent + {(r, est)};
        out := [Est(r, est)];
      }
      phase := WaitBin;
      log := log.(ests := log.ests + [est]);
    }

    // What the AUX wait leaves with, if it can leave.
    method CheckAux() returns (done: Option<set<int>>)
      ensures done == AuxDone(c, View().inbox, r)
    {
      var bin := At(binValues, r);
      if 1 in bin && |At(auxValues, (r, 1))| >= c.N - c.f {
        return Some({1});
      }
      if 0 in bin && |At(auxValues, (r, 0))| >= c.N - c.f {
        return Some({0});
      }
      var sum := 0;
      if 0 in bin {
        sum := sum + |At(auxValues, (r, 0))|;
      }
      if 1 in bin {
        sum := sum + |At(auxValues, (r, 1))|;
      }
      return if sum >= c.N - c.f then Some({0, 1}) else None;
    }

    // What wait_for_conf_values returns, if it can return.
    method CheckConf() returns (done: Option<set<int>>)
      ensures done == ConfDone(c, View().inbox, r)
    {
      var bin := At(binValues, r);
      if 1 in bin && |At(confValues, (r, [1]))| >= c.N - c.f {
        return Some({1});
      }
      if 0 in bin && |At(confValues, (r, [0]))| >= c.N - c.f {
        return Some({0});
      }
      var sum := 0;
      if 0 in bin {
        sum := sum + |At(confValues, (r, [0]))|;
      }
      if 1 in bin {
        sum := sum + |At(confValues, (r, [1]))|;
      }
      if 0 in bin && 1 in bin {
        sum := sum + |At(confValues, (r, [0, 1]))|;
      }
      return if sum >= c.N - c.f then Some({0, 1}) else None;
    }

    method WakeBin(w: int) returns (out: seq<Message>)
      requires phase == WaitBin
      modifies this
      ensures (View(), out) == Resume(c, old(View()), w)
    {
      out := [];
      if w in At(binValues, r) {
        out := [Aux(r, w)];
        phase := WaitAux;
      }
    }

    method WakeAux(ghost w: int) returns (out: seq<Message>)
      requires phase == WaitAux
      modifies this
      ensures (View(), out) == Resume(c, old(View()), w)
    {
      out := [];
      var done := CheckAux();
      if done == None {
        return;
      }
      values := done.value;
      if (r, Tuple(values)) in confSent {
        phase := WaitCoin;
        log := log.(vals := log.vals + [values]);
      } else {
        confSent := confSent + {(r, Tuple(values))};
        var conf := Tuple(At(binValues, r));
        out := [Conf(r, conf)];
        phase := WaitConf;
        log := log.(confs := log.confs + [conf]);
      }
    }

    method WakeConf(ghost w: int) returns (out: seq<Message>)
      requires phase == WaitConf
      modifies this
      ensures (View(), out) == Resume(c, old(View()), w)
    {
      out := [];
      var done := CheckConf();
      if done != None {
        values := done.value;
        phase := WaitCoin;
        log := log.(vals := log.vals + [values]);
      }
    }

    /** set_new_estimate and the next round; decide is the value passed to decide(), if any. */
    method WakeCoin(ghost w: int) returns (out: seq<Message>, decide: Option<int>)
      requires phase == WaitCoin
      modifies this
      ensures (View(), out) == Resume(c, old(View()), w)
      ensures log.decisions == old(log.decisions) + (if decide.Some? then [decide.value] else [])
    {
      out, decide := [], None;
      var s := CoinAt(c, r);
      if values == {s} {
        if alreadyDecided == None {
          alreadyDecided := Some(s);
          decide := Some(s);
          log := log.(decisions := log.decisions + [s]);
        } else if alreadyDecided == Some(s) {
          phase := Quit;
          receiving := false;
          return;
        }
      }
      est := NewEst(values, s);
      r := r + 1;
      out := BeginRound();
    }
  }
}
