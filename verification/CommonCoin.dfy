/**
 The common coin of honeybadgerbft/core/commoncoin.py: nodes sign the round and
 hash the combined signature. Rounds stand for the source's round labels; the
 message hash and the digest of a serialized signature are arbitrary functions.
 */
module CommonCoin {
  import opened FiniteSets
  import opened Interpolation
  import opened Options
  import opened ThresholdSignature

  /** What all nodes share: group, public key, hash of (sid, round), first byte of the signature's hash. */
  datatype Setup = Setup(p: int, pk: PublicKey, f: nat, hashMessage: int -> int, firstByte: int -> int, singleBit: bool)

  /** The keys come from the dealer with polynomial a, threshold f + 1 (commoncoin.py:37-38). */
  ghost predicate ValidSetup(c: Setup, a: seq<int>) {
    Dealt(c.p, c.pk, a) && c.pk.k == c.f + 1
  }

  /** The coin computed from a combined signature. */
  function CoinOf(c: Setup, sig: int): int {
    if c.singleBit then c.firstByte(sig) % 2 else c.firstByte(sig)
  }

  /** The local variables of shared_coin; emitted records every put into the output queues. */
  datatype State = State(
    received: map<int, seq<(nat, int)>>,
    queue: map<int, seq<int>>,
    emitted: map<int, seq<int>>,
    receiving: bool)

  function Init(): State {
    State(map[], map[], map[], true)
  }

  function Row<T>(m: map<int, seq<T>>, r: int): seq<T> {
    if r in m then m[r] else []
  }

  // combine, verify_signature and put_nowait; None stands for an exception.
  function Combined(c: Setup, shares: seq<(nat, int)>, r: int): Option<int>
    requires Group(c.p, c.pk)
  {
    match CombineShares(c.p, c.pk, shares)
    case None => None
    case Some(sig) => if VerifySignature(c.p, c.pk, sig, c.hashMessage(r)) then Some(CoinOf(c, sig)) else None
  }

  /** One iteration of _recv at node pid. */
  function Receive(c: Setup, pid: nat, s: State, i: nat, r: int, sig: int): State
    requires Group(c.p, c.pk)
  {
    if !s.receiving then s
    else if i >= c.pk.l then s.(receiving := false)
    else if i in Keys(Row(s.received, r)) then s
    else if i != pid && !VerifyShare(c.p, c.pk, sig, i, c.hashMessage(r)) then s
    else Accept(c, s, i, r, sig)
  }

  // A new share: the output queue is served when the threshold is reached.
  function Accept(c: Setup, s: State, i: nat, r: int, sig: int): State
    requires Group(c.p, c.pk)
  {
    var row := Row(s.received, r) + [(i, sig)];
    var s' := s.(received := s.received[r := row]);
    if |row| == c.f + 1 then Serve(s', r, Combined(c, row, r)) else s'
  }

  // outputQueue[r].put_nowait(coin), unless combining raised or the queue is full.
  function Serve(s: State, r: int, coin: Option<int>): State {
    if coin.None? || Row(s.queue, r) != [] then s.(receiving := false)
    else s.(queue := s.queue[r := [coin.value]], emitted := s.emitted[r := Row(s.emitted, r) + [coin.value]])
  }

  /** The blocking get of getCoin(r), once a coin is there. */
  function Take(s: State, r: int): (State, Option<int>) {
    var q := Row(s.queue, r);
    if q == [] then (s, None) else (s.(queue := s.queue[r := q[1..]]), Some(q[0]))
  }

  class SharedCoin {
    const c: Setup
    const pid: nat
    const sk: int
    var received: map<int, seq<(nat, int)>>
    var outputQueue: map<int, seq<int>>
    var receiving: bool
    ghost var emitted: map<int, seq<int>>

    ghost function View(): State
      reads this
    {
      State(received, outputQueue, emitted, receiving)
    }

    constructor (c: Setup, pid: nat, sk: int)
      ensures View() == Init() && this.c == c && this.pid == pid && this.sk == sk
    {
      this.c, this.pid, this.sk := c, pid, sk;
      received, outputQueue, receiving, emitted := map[], map[], true, map[];
    }

    method Recv(i: nat, r: int, sig: int)
      requires Group(c.p, c.pk)
      modifies this
      ensures View() == Receive(c, pid, old(View()), i, r, sig)
    {
      if !receiving {
        return;
      }
      if i >= c.pk.l {
        receiving := false;
        return;
      }
      var row := Row(received, r);
      if i in Keys(row) {
        return;
      }
      var h := c.hashMessage(r);
      if i != pid && !VerifyShare(c.p, c.pk, sig, i, h) {
        return;
      }
      row := row + [(i, sig)];
      received := received[r := row];
      if |row| == c.f + 1 {
        var coin := Combined(c, row, r);
        if coin.None? || Row(outputQueue, r) != [] {
          receiving := false;
          return;
        }
        outputQueue := outputQueue[r := [coin.value]];
        emitted := emitted[r := Row(emitted, r) + [coin.value]];
      }
    }

    /** getCoin: the share to broadcast, and the coin if it does not block. */
    method GetCoin(r: int) returns (share: int, coin: Option<int>)
      requires Group(c.p, c.pk)
      modifies this
      ensures share == Sign(c.p, c.hashMessage(r), sk)
      ensures (View(), coin) == Take(old(View()), r)
    {
      share := Sign(c.p, c.hashMessage(r), sk);
      var q := Row(outputQueue, r);
      if q == [] {
        coin := None;
      } else {
        coin := Some(q[0]);
        outputQueue := outputQueue[r := q[1..]];
      }
    }
  }

  // ---------- every run ----------

  datatype Event = Deliver(i: nat, r: int, sig: int) | Get(r: int)

  /**
   What can reach node pid: its own share is not verified, so it must be the one
   it signed; every other sender may send anything.
   */
  ghost predicate Admissible(c: Setup, a: seq<int>, pid: nat, e: Event)
    requires c.p > 0
  {
    e.Deliver? ==>
      && e.i < c.pk.l
      && (e.i == pid ==> e.sig == Sign(c.p, c.hashMessage(e.r), PolyEval(a, pid + 1) % c.p))
  }

  ghost function Step(c: Setup, pid: nat, s: State, e: Event): State
    requires Group(c.p, c.pk)
  {
    match e
    case Deliver(i, r, sig) => Receive(c, pid, s, i, r, sig)
    case Get(r) => Take(s, r).0
  }

  ghost function Run(c: Setup, pid: nat, es: seq<Event>): State
    requires Group(c.p, c.pk)
  {
    if es == [] then Init() else Step(c, pid, Run(c, pid, es[..|es| - 1]), es[|es| - 1])
  }

  /** The coin of round r: it depends on the key and the round only. */
  ghost function CoinValue(c: Setup, a: seq<int>, r: int): int
    requires c.p > 0 && a != []
  {
    CoinOf(c, (c.hashMessage(r) * a[0]) % c.p)
  }

  ghost predicate RowInv(c: Setup, s: State, r: int)
    requires c.p > 0 && |c.pk.vks| == c.pk.l
  {
    var row := Row(s.received, r);
    && IsDict(row)
    && forall k :: 0 <= k < |row| ==> VerifyShare(c.p, c.pk, row[k].1, row[k].0, c.hashMessage(r))
  }

  ghost predicate OutInv(c: Setup, a: seq<int>, s: State, r: int)
    requires c.p > 0 && a != []
  {
    && Row(s.emitted, r) == (if |Row(s.received, r)| < c.f + 1 then [] else [CoinValue(c, a, r)])
    && (Row(s.queue, r) == [] || Row(s.queue, r) == Row(s.emitted, r))
  }

  ghost predicate Inv(c: Setup, a: seq<int>, s: State)
    requires c.p > 0 && |c.pk.vks| == c.pk.l && a != []
  {
    s.receiving && forall r :: RowInv(c, s, r) && OutInv(c, a, s, r)
  }

  // A row of f + 1 verified shares gives the coin of its round.
  lemma CombinedCoin(c: Setup, a: seq<int>, row: seq<(nat, int)>, r: int)
    requires ValidSetup(c, a) && IsDict(row) && |row| == c.f + 1
    requires forall k :: 0 <= k < |row| ==> VerifyShare(c.p, c.pk, row[k].1, row[k].0, c.hashMessage(r))
    ensures Combined(c, row, r) == Some(CoinValue(c, a, r))
  {
    CombineVerified(c.p, c.pk, a, c.hashMessage(r), row);
  }

  // A change confined to round r keeps the invariant of the other rounds.
  lemma RoundFrame(c: Setup, a: seq<int>, s: State, s': State, r: int)
    requires ValidSetup(c, a) && Inv(c, a, s) && s'.receiving
    requires forall q :: q != r ==> Row(s'.received, q) == Row(s.received, q)
    requires forall q :: q != r ==> Row(s'.queue, q) == Row(s.queue, q) && Row(s'.emitted, q) == Row(s.emitted, q)
    requires RowInv(c, s', r) && OutInv(c, a, s', r)
    ensures Inv(c, a, s')
  {
    forall q | q != r ensures RowInv(c, s', q) && OutInv(c, a, s', q) {
      assert RowInv(c, s, q) && OutInv(c, a, s, q);
    }
  }

  lemma RowGrows(c: Setup, s: State, i: nat, r: int, sig: int)
    requires c.p > 0 && |c.pk.vks| == c.pk.l && RowInv(c, s, r)
    requires i !in Keys(Row(s.received, r)) && VerifyShare(c.p, c.pk, sig, i, c.hashMessage(r))
    ensures RowInv(c, s.(received := s.received[r := Row(s.received, r) + [(i, sig)]]), r)
  {
    var row := Row(s.received, r);
    assert forall k :: 0 <= k < |row| ==> row[k].0 in Keys(row);
  }

  lemma OutGrows(c: Setup, a: seq<int>, s: State, i: nat, r: int, sig: int)
    requires ValidSetup(c, a) && s.receiving && OutInv(c, a, s, r)
    requires RowInv(c, s.(received := s.received[r := Row(s.received, r) + [(i, sig)]]), r)
    ensures OutInv(c, a, Accept(c, s, i, r, sig), r) && Accept(c, s, i, r, sig).receiving
  {
    var row := Row(s.received, r) + [(i, sig)];
    if |row| == c.f + 1 {
      CombinedCoin(c, a, row, r);
    }
  }

  lemma AcceptFrame(c: Setup, s: State, i: nat, r: int, sig: int)
    requires Group(c.p, c.pk)
    ensures var s' := Accept(c, s, i, r, sig);
      forall q :: q != r ==>
        Row(s'.received, q) == Row(s.received, q) && Row(s'.queue, q) == Row(s.queue, q) && Row(s'.emitted, q) == Row(s.emitted, q)
  {
    var row := Row(s.received, r) + [(i, sig)];
    var s1 := s.(received := s.received[r := row]);
    RowUpdate(s.received, r, row);
    if |row| == c.f + 1 {
      ServeFrame(s1, r, Combined(c, row, r));
    }
  }

  lemma ServeFrame(s: State, r: int, coin: Option<int>)
    ensures var s' := Serve(s, r, coin);
      s'.received == s.received && forall q :: q != r ==> Row(s'.queue, q) == Row(s.queue, q) && Row(s'.emitted, q) == Row(s.emitted, q)
  {
  }

  lemma RowUpdate<T>(m: map<int, seq<T>>, r: int, row: seq<T>)
    ensures forall q :: Row(m[r := row], q) == if q == r then row else Row(m, q)
  {
    forall q ensures Row(m[r := row], q) == if q == r then row else Row(m, q) {}
  }

  lemma AcceptInv(c: Setup, a: seq<int>, s: State, i: nat, r: int, sig: int)
    requires ValidSetup(c, a) && Inv(c, a, s)
    requires i !in Keys(Row(s.received, r)) && VerifyShare(c.p, c.pk, sig, i, c.hashMessage(r))
    ensures Inv(c, a, Accept(c, s, i, r, sig))
  {
    assert RowInv(c, s, r) && OutInv(c, a, s, r);
    RowGrows(c, s, i, r, sig);
    OutGrows(c, a, s, i, r, sig);
    AcceptFrame(c, s, i, r, sig);
    RoundFrame(c, a, s, Accept(c, s, i, r, sig), r);
  }

  lemma ReceiveInv(c: Setup, a: seq<int>, pid: nat, s: State, i: nat, r: int, sig: int)
    requires ValidSetup(c, a) && pid < c.pk.l && Inv(c, a, s) && Admissible(c, a, pid, Deliver(i, r, sig))
    ensures Inv(c, a, Receive(c, pid, s, i, r, sig))
  {
    if i == pid {
      VerifiedShare(c.p, c.pk, a, sig, pid, c.hashMessage(r));
    }
    if i !in Keys(Row(s.received, r)) && VerifyShare(c.p, c.pk, sig, i, c.hashMessage(r)) {
      AcceptInv(c, a, s, i, r, sig);
    }
  }

  lemma TakeInv(c: Setup, a: seq<int>, s: State, r: int)
    requires ValidSetup(c, a) && Inv(c, a, s)
    ensures Inv(c, a, Take(s, r).0)
    ensures Take(s, r).1.Some? ==> Take(s, r).1.value == CoinValue(c, a, r)
  {
    var s' := Take(s, r).0;
    forall q ensures RowInv(c, s', q) && OutInv(c, a, s', q) {
      assert RowInv(c, s, q) && OutInv(c, a, s, q);
    }
    assert OutInv(c, a, s, r);
  }

  lemma {:induction false} RunInv(c: Setup, a: seq<int>, pid: nat, es: seq<Event>)
    requires ValidSetup(c, a) && pid < c.pk.l
    requires forall k :: 0 <= k < |es| ==> Admissible(c, a, pid, es[k])
    ensures Inv(c, a, Run(c, pid, es))
  {
    if es != [] {
      var init, e := es[..|es| - 1], es[|es| - 1];
      RunInv(c, a, pid, init);
      match e {
        case Deliver(i, r, sig) => ReceiveInv(c, a, pid, Run(c, pid, init), i, r, sig);
        case Get(r) => TakeInv(c, a, Run(c, pid, init), r);
      }
    }
  }

  /**
   Coin agreement: in any runs of any two nodes, whichever shares they combined,
   getCoin(r) returns the same coin at both; each node puts at most one coin per
   round into its queue, and its receive loop never fails.
   */
  lemma CoinAgreement(c: Setup, a: seq<int>, p: nat, q: nat, es: seq<Event>, fs: seq<Event>, r: int)
    requires ValidSetup(c, a) && p < c.pk.l && q < c.pk.l
    requires forall k :: 0 <= k < |es| ==> Admissible(c, a, p, es[k])
    requires forall k :: 0 <= k < |fs| ==> Admissible(c, a, q, fs[k])
    ensures
      var coin, coin' := Take(Run(c, p, es), r).1, Take(Run(c, q, fs), r).1;
      coin.Some? && coin'.Some? ==> coin.value == coin'.value == CoinValue(c, a, r)
    ensures |Row(Run(c, p, es).emitted, r)| <= 1 && Run(c, p, es).receiving
  {
    RunInv(c, a, p, es);
    RunInv(c, a, q, fs);
    TakeInv(c, a, Run(c, p, es), r);
    TakeInv(c, a, Run(c, q, fs), r);
    assert OutInv(c, a, Run(c, p, es), r);
  }

  /** Node i's share of round r has been handled, and it is valid. */
  ghost predicate ShareHandled(c: Setup, es: seq<Event>, i: nat, r: int)
    requires Group(c.p, c.pk)
  {
    exists sig :: Deliver(i, r, sig) in es && VerifyShare(c.p, c.pk, sig, i, c.hashMessage(r))
  }

  // The row of round r holds exactly the senders of valid shares, and a coin stays until it is taken.
  ghost predicate Recorded(c: Setup, s: State, es: seq<Event>, r: int)
    requires Group(c.p, c.pk)
  {
    && (forall i :: i in Keys(Row(s.received, r)) <==> ShareHandled(c, es, i, r))
    && (Get(r) !in es ==> Row(s.queue, r) == Row(s.emitted, r))
  }

  lemma HandledMore(c: Setup, es: seq<Event>, e: Event, i: nat, r: int)
    requires Group(c.p, c.pk)
    ensures ShareHandled(c, es + [e], i, r) <==>
      ShareHandled(c, es, i, r) || (e.Deliver? && e.i == i && e.r == r && VerifyShare(c.p, c.pk, e.sig, i, c.hashMessage(r)))
  {
    var es' := es + [e];
    if ShareHandled(c, es, i, r) {
      var sig :| Deliver(i, r, sig) in es && VerifyShare(c.p, c.pk, sig, i, c.hashMessage(r));
      assert Deliver(i, r, sig) in es';
    }
    if e.Deliver? && e.i == i && e.r == r && VerifyShare(c.p, c.pk, e.sig, i, c.hashMessage(r)) {
      assert Deliver(i, r, e.sig) in es';
    }
    if ShareHandled(c, es', i, r) {
      var sig :| Deliver(i, r, sig) in es' && VerifyShare(c.p, c.pk, sig, i, c.hashMessage(r));
      assert Deliver(i, r, sig) in es || Deliver(i, r, sig) == e;
    }
  }

  // What one delivery adds to the row of a round, and to its queue.
  lemma ReceiveAdds(c: Setup, a: seq<int>, pid: nat, s: State, i: nat, r: int, sig: int, q: int)
    requires ValidSetup(c, a) && pid < c.pk.l && Inv(c, a, s) && Admissible(c, a, pid, Deliver(i, r, sig))
    ensures var s' := Receive(c, pid, s, i, r, sig);
      && Keys(Row(s'.received, q)) ==
           Keys(Row(s.received, q)) + (if q == r && VerifyShare(c.p, c.pk, sig, i, c.hashMessage(r)) then {i} else {})
      && (Row(s.queue, q) == Row(s.emitted, q) ==> Row(s'.queue, q) == Row(s'.emitted, q))
  {
    if i == pid {
      VerifiedShare(c.p, c.pk, a, sig, pid, c.hashMessage(r));
    }
    if i !in Keys(Row(s.received, r)) && VerifyShare(c.p, c.pk, sig, i, c.hashMessage(r)) {
      NewShare(c, a, s, i, r, sig, q);
    }
  }

  lemma NewShare(c: Setup, a: seq<int>, s: State, i: nat, r: int, sig: int, q: int)
    requires ValidSetup(c, a) && Inv(c, a, s)
    requires i !in Keys(Row(s.received, r)) && VerifyShare(c.p, c.pk, sig, i, c.hashMessage(r))
    ensures var s' := Accept(c, s, i, r, sig);
      && Keys(Row(s'.received, q)) == Keys(Row(s.received, q)) + (if q == r then {i} else {})
      && (Row(s.queue, q) == Row(s.emitted, q) ==> Row(s'.queue, q) == Row(s'.emitted, q))
  {
    AcceptFrame(c, s, i, r, sig);
    if q == r {
      assert RowInv(c, s, r) && OutInv(c, a, s, r);
      RowGrows(c, s, i, r, sig);
      OutGrows(c, a, s, i, r, sig);
      AcceptAdds(c, s, i, r, sig);
    }
  }

  lemma AcceptAdds(c: Setup, s: State, i: nat, r: int, sig: int)
    requires Group(c.p, c.pk)
    ensures var s' := Accept(c, s, i, r, sig);
      && Keys(Row(s'.received, r)) == Keys(Row(s.received, r)) + {i}
      && ((Row(s'.queue, r) == Row(s.queue, r) && Row(s'.emitted, r) == Row(s.emitted, r)) || |Row(s'.queue, r)| == 1)
  {
    var row := Row(s.received, r) + [(i, sig)];
    KeysMore(Row(s.received, r), i, sig);
    ServeQueue(s.(received := s.received[r := row]), r, Combined(c, row, r));
  }

  lemma ServeQueue(s: State, r: int, coin: Option<int>)
    ensures var s' := Serve(s, r, coin);
      && s'.received == s.received
      && ((Row(s'.queue, r) == Row(s.queue, r) && Row(s'.emitted, r) == Row(s.emitted, r)) || |Row(s'.queue, r)| == 1)
  {
  }

  lemma KeysMore(row: seq<(nat, int)>, i: nat, sig: int)
    ensures Keys(row + [(i, sig)]) == Keys(row) + {i}
  {
    forall k | k in Keys(row + [(i, sig)]) ensures k in Keys(row) + {i} {}
    assert (row + [(i, sig)])[|row|] == (i, sig);
    forall k | k in Keys(row) ensures k in Keys(row + [(i, sig)]) {
      var j :| 0 <= j < |row| && row[j].0 == k;
      assert (row + [(i, sig)])[j].0 == k;
    }
  }

  lemma RecordedStep(c: Setup, a: seq<int>, pid: nat, s: State, es: seq<Event>, e: Event, r: int)
    requires ValidSetup(c, a) && pid < c.pk.l && Inv(c, a, s) && Admissible(c, a, pid, e) && Recorded(c, s, es, r)
    ensures Recorded(c, Step(c, pid, s, e), es + [e], r)
  {
    assert forall x :: x in es ==> x in es + [e];
    assert e in es + [e];
    var s' := Step(c, pid, s, e);
    forall i ensures i in Keys(Row(s'.received, r)) <==> ShareHandled(c, es + [e], i, r) {
      HandledMore(c, es, e, i, r);
      if e.Deliver? {
        ReceiveAdds(c, a, pid, s, e.i, e.r, e.sig, r);
      }
    }
    if e.Deliver? {
      ReceiveAdds(c, a, pid, s, e.i, e.r, e.sig, r);
    }
  }

  lemma {:induction false} RunRecorded(c: Setup, a: seq<int>, pid: nat, es: seq<Event>, r: int)
    requires ValidSetup(c, a) && pid < c.pk.l
    requires forall k :: 0 <= k < |es| ==> Admissible(c, a, pid, es[k])
    ensures Recorded(c, Run(c, pid, es), es, r)
  {
    if es != [] {
      var init, e := es[..|es| - 1], es[|es| - 1];
      assert es == init + [e];
      RunInv(c, a, pid, init);
      RunRecorded(c, a, pid, init, r);
      RecordedStep(c, a, pid, Run(c, pid, init), init, e, r);
    }
  }

  /**
   A coin is made exactly when valid shares of f + 1 different nodes have been
   handled, and getCoin(r) returns it unless an earlier call has taken it; a second
   call finds nothing.
   */
  lemma CoinAvailable(c: Setup, a: seq<int>, pid: nat, es: seq<Event>, r: int)
    requires ValidSetup(c, a) && pid < c.pk.l
    requires forall k :: 0 <= k < |es| ==> Admissible(c, a, pid, es[k])
    ensures Row(Run(c, pid, es).emitted, r) != [] <==>
      exists S: set<nat> :: |S| == c.f + 1 && forall i :: i in S ==> ShareHandled(c, es, i, r)
    ensures Get(r) !in es ==> (Take(Run(c, pid, es), r).1.Some? <==> Row(Run(c, pid, es).emitted, r) != [])
    ensures Take(Take(Run(c, pid, es), r).0, r).1.None?
  {
    RunInv(c, a, pid, es);
    RunRecorded(c, a, pid, es, r);
    var s := Run(c, pid, es);
    assert RowInv(c, s, r) && OutInv(c, a, s, r);
    var senders := Keys(Row(s.received, r));
    KeysSize(Row(s.received, r));
    if |senders| >= c.f + 1 {
      var S := Part(senders, c.f + 1);
      assert forall i :: i in S ==> ShareHandled(c, es, i, r);
    } else if S: set<nat> :| |S| == c.f + 1 && forall i :: i in S ==> ShareHandled(c, es, i, r) {
      SubsetSize(S, senders);
    }
  }

  /**
   The coin of a round is computed from the one valid signature on it: the first
   byte of its hash, or the low bit of that byte, which is 0 or 1.
   */
  lemma CoinFromSignature(c: Setup, a: seq<int>, p: nat, es: seq<Event>, r: int, sig: int)
    requires ValidSetup(c, a) && p < c.pk.l
    requires forall k :: 0 <= k < |es| ==> Admissible(c, a, p, es[k])
    requires 0 <= sig < c.p && VerifySignature(c.p, c.pk, sig, c.hashMessage(r)) && Take(Run(c, p, es), r).1.Some?
    ensures var coin := Take(Run(c, p, es), r).1.value;
      if c.singleBit then coin == c.firstByte(sig) % 2 && (coin == 0 || coin == 1) else coin == c.firstByte(sig)
  {
    RunInv(c, a, p, es);
    TakeInv(c, a, Run(c, p, es), r);
    OneSignature(c.p, c.pk, a, c.hashMessage(r), sig);
    LowBit(c.firstByte(sig));
  }

  lemma OneSignature(p: int, pk: PublicKey, a: seq<int>, h: int, sig: int)
    requires Dealt(p, pk, a) && 0 <= sig < p && VerifySignature(p, pk, sig, h)
    ensures sig == (h * a[0]) % p
  {
    VerifiedSignature(p, pk, a, h);
    SmallMod(p, sig);
    ModRange(p, h * a[0]);
    SmallMod(p, (h * a[0]) % p);
  }

  lemma SmallMod(p: int, x: int)
    requires 0 <= x < p
    ensures x % p == x
  {
  }

  lemma ModRange(p: int, x: int)
    requires p > 0
    ensures 0 <= x % p < p
  {
  }

  lemma LowBit(x: int)
    ensures x % 2 == 0 || x % 2 == 1
  {
  }

  /** In every run only a sender out of range ends the receive loop: combining verified shares never raises. */
  lemma LoopEndsExactly(c: Setup, a: seq<int>, pid: nat, es: seq<Event>, i: nat, r: int, sig: int)
    requires ValidSetup(c, a) && pid < c.pk.l
    requires forall k :: 0 <= k < |es| ==> Admissible(c, a, pid, es[k])
    requires i == pid ==> sig == Sign(c.p, c.hashMessage(r), PolyEval(a, pid + 1) % c.p)
    ensures Run(c, pid, es).receiving
    ensures Receive(c, pid, Run(c, pid, es), i, r, sig).receiving <==> i < c.pk.l
  {
    RunInv(c, a, pid, es);
    if i < c.pk.l {
      ReceiveInv(c, a, pid, Run(c, pid, es), i, r, sig);
    }
  }
}
