/**
 Common subset over N binary agreements and N reliable broadcasts, used through
 their proved agreement and validity: the count assertion never fails, all
 honest nodes return the same tuple, with at least N - f broadcast values.
 */
module CommonSubsetSafety {
  import opened Quorums
  import opened Options
  import opened ByteStrings
  import opened Tables
  import opened CommonSubset
  import BA = BinaryAgreement
  import BAS = BinaryAgreementSafety
  import Erasure
  import RB = ReliableBroadcast
  import RBS = ReliableBroadcastSafety

  // ---------- one node ----------

  /** aba_in[j] has been called with v. */
  predicate Given(given: seq<(nat, int)>, j: nat, v: int) {
    (j, v) in given
  }

  // At most one input per agreement, and aba_inputted records exactly the agreements with one.
  ghost predicate OneEach(given: seq<(nat, int)>, inputted: seq<bool>) {
    && (forall i, k :: 0 <= i < k < |given| ==> given[i].0 != given[k].0)
    && (forall i :: 0 <= i < |given| ==> given[i].0 < |inputted| && inputted[given[i].0] && (given[i].1 == 0 || given[i].1 == 1))
  }

  // 1 is given for a broadcast that has returned, 0 once N - f agreements have output 1.
  ghost predicate GivenOk(c: Config, given: seq<(nat, int)>, sum: int, es: seq<Event>) {
    && (forall j: nat :: Given(given, j, 1) ==> exists m :: RbcEnd(j, Some(m)) in es)
    && (forall j: nat :: Given(given, j, 0) ==> sum >= c.N - c.f)
  }

  // aba_values and rbc_values hold what the threads have received.
  ghost predicate ValuesOk(n: Node, es: seq<Event>) {
    && (forall j: nat :: j < |n.abaValues| ==> if j in n.abaDone then AbaOut(j, n.abaValues[j]) in es else n.abaValues[j] == 0)
    && (forall j: nat :: j < |n.rbcValues| ==> RbcOk(n, es, j))
  }

  ghost predicate RbcOk(n: Node, es: seq<Event>, j: nat)
    requires j < |n.rbcValues|
  {
    match n.rbcValues[j]
    case Some(m) => j in n.rbcDone && RbcEnd(j, Some(m)) in es
    case None => j in n.rbcDone ==> RbcEnd(j, None) in es || Killed(n, j)
  }

  // The main thread has killed r_threads[j].
  predicate Killed(n: Node, j: nat) {
    j < |n.abaValues| && n.abaValues[j] == 0 && match n.phase case Joining(i) => j < i case Collecting => false case _ => true
  }

  // What the main thread has established so far.
  ghost predicate PhaseOk(c: Config, n: Node, es: seq<Event>) {
    match n.phase
    case Collecting => true
    case Joining(j) => AllDone(c, n.abaDone) && Sum(n.abaValues) >= c.N - c.f && JoinedTo(n, j)
    case Returned => AllDone(c, n.abaDone) && Sum(n.abaValues) >= c.N - c.f && JoinedTo(n, c.N)
    case Failed =>
      && AllDone(c, n.abaDone)
      && (Sum(n.abaValues) < c.N - c.f
          || exists j: nat :: j < |n.abaValues| && n.abaValues[j] != 0 && RbcEnd(j, None) in es)
  }

  ghost predicate JoinedTo(n: Node, k: nat) {
    forall j: nat :: j < k && j < |n.abaValues| && j < |n.rbcValues| ==> j in n.rbcDone && (n.abaValues[j] != 0 <==> n.rbcValues[j].Some?)
  }

  ghost predicate LocalInv(c: Config, n: Node, es: seq<Event>) {
    && WellFormed(c, n) && OneEach(n.given, n.abaInputted) && GivenOk(c, n.given, Sum(n.abaValues), es)
    && ValuesOk(n, es) && PhaseOk(c, n, es)
  }

  /** Every agreement outputs a bit. */
  ghost predicate BitOutputs(es: seq<Event>) {
    forall e :: e in es && e.AbaOut? ==> e.v == 0 || e.v == 1
  }

  lemma {:induction false} SumUpdate(s: seq<int>, j: nat, v: int)
    requires j < |s|
    ensures Sum(s[j := v]) == Sum(s) - s[j] + v
  {
    var t := s[j := v];
    if j == |s| - 1 {
      assert t[..|t| - 1] == s[..|s| - 1];
    } else {
      assert t[..|t| - 1] == s[..|s| - 1][j := v];
      SumUpdate(s[..|s| - 1], j, v);
    }
  }

  lemma GivenLater(c: Config, given: seq<(nat, int)>, sum: int, es: seq<Event>, sum': int, e: Event)
    requires GivenOk(c, given, sum, es) && sum' >= sum
    ensures GivenOk(c, given, sum', es + [e])
  {
    forall j: nat | Given(given, j, 1) ensures exists m :: RbcEnd(j, Some(m)) in es + [e] {
      var m :| RbcEnd(j, Some(m)) in es;
      assert RbcEnd(j, Some(m)) in es + [e];
    }
  }

  lemma GiveOne(c: Config, given: seq<(nat, int)>, inputted: seq<bool>, sum: int, es: seq<Event>, j: nat, m: Bytes)
    requires OneEach(given, inputted) && GivenOk(c, given, sum, es) && j < |inputted| && !inputted[j]
    requires RbcEnd(j, Some(m)) in es
    ensures OneEach(given + [(j, 1)], inputted[j := true]) && GivenOk(c, given + [(j, 1)], sum, es)
  {
    var more := given + [(j, 1)];
    forall k: nat | Given(more, k, 1) ensures exists m' :: RbcEnd(k, Some(m')) in es {
      assert Given(given, k, 1) || k == j;
    }
    forall k: nat | Given(more, k, 0) ensures sum >= c.N - c.f {
      assert Given(given, k, 0);
    }
  }

  lemma GiveZeros(c: Config, given: seq<(nat, int)>, inputted: seq<bool>, sum: int, es: seq<Event>)
    requires OneEach(given, inputted) && GivenOk(c, given, sum, es) && sum >= c.N - c.f && |inputted| == c.N
    ensures var more := given + Zeros(inputted, c.N); OneEach(more, seq(c.N, _ => true)) && GivenOk(c, more, sum, es)
  {
    var zeros := Zeros(inputted, c.N);
    var more := given + zeros;
    forall k: nat | Given(more, k, 1) ensures exists m :: RbcEnd(k, Some(m)) in es {
      assert Given(given, k, 1);
    }
  }

  lemma RbcStep(c: Config, n: Node, es: seq<Event>, j: nat, out: Option<Bytes>)
    requires LocalInv(c, n, es)
    ensures LocalInv(c, OnRbc(c, n, j, out), es + [RbcEnd(j, out)])
  {
    var n', es' := OnRbc(c, n, j, out), es + [RbcEnd(j, out)];
    assert forall e :: e in es ==> e in es';
    assert RbcEnd(j, out) in es';
    forall k: nat | k < |n'.rbcValues| ensures RbcOk(n', es', k) {
      assert RbcOk(n, es, k);
    }
    GivenLater(c, n.given, Sum(n.abaValues), es, Sum(n.abaValues), RbcEnd(j, out));
    if n'.given != n.given {
      GiveOne(c, n.given, n.abaInputted, Sum(n.abaValues), es', j, out.value);
    }
  }

  lemma AbaStep(c: Config, n: Node, es: seq<Event>, j: nat, v: int)
    requires LocalInv(c, n, es) && (v == 0 || v == 1)
    ensures LocalInv(c, OnAba(c, n, j, v), es + [AbaOut(j, v)])
  {
    var n', es' := OnAba(c, n, j, v), es + [AbaOut(j, v)];
    assert forall e :: e in es ==> e in es';
    assert AbaOut(j, v) in es';
    forall k: nat | k < |n'.rbcValues| ensures RbcOk(n', es', k) {
      assert RbcOk(n, es, k);
    }
    if j < c.N && j !in n.abaDone {
      SumUpdate(n.abaValues, j, v);
      GivenLater(c, n.given, Sum(n.abaValues), es, Sum(n'.abaValues), AbaOut(j, v));
      if Sum(n'.abaValues) >= c.N - c.f {
        GiveZeros(c, n.given, n.abaInputted, Sum(n'.abaValues), es');
      }
    } else {
      GivenLater(c, n.given, Sum(n.abaValues), es, Sum(n.abaValues), AbaOut(j, v));
    }
  }

  lemma JoinStep(c: Config, n: Node, es: seq<Event>)
    requires LocalInv(c, n, es)
    ensures LocalInv(c, OnJoin(c, n), es + [Join])
  {
    var n', es' := OnJoin(c, n), es + [Join];
    assert forall e :: e in es ==> e in es';
    forall k: nat | k < |n'.rbcValues| ensures RbcOk(n', es', k) {
      assert RbcOk(n, es, k);
    }
    GivenLater(c, n.given, Sum(n.abaValues), es, Sum(n.abaValues), Join);
    if n.phase.Joining? && n.phase.j < c.N {
      assert RbcOk(n, es, n.phase.j);
    }
  }

  lemma {:induction false} LocalRun(c: Config, es: seq<Event>)
    requires BitOutputs(es)
    ensures LocalInv(c, RunOf(c, es), es)
  {
    if es != [] {
      var init, e := es[..|es| - 1], es[|es| - 1];
      assert es == init + [e];
      assert forall x :: x in init ==> x in es;
      assert e in es;
      LocalRun(c, init);
      match e
      case RbcEnd(j, out) => RbcStep(c, RunOf(c, init), init, j, out);
      case AbaOut(j, v) => AbaStep(c, RunOf(c, init), init, j, v);
      case Join => JoinStep(c, RunOf(c, init), init);
    }
  }

  // ---------- which inputs are given, and when the main thread goes on ----------

  ghost predicate HasInput(given: seq<(nat, int)>, j: nat) {
    exists v :: Given(given, j, v)
  }

  ghost predicate HasOutput(es: seq<Event>, j: nat) {
    exists v :: AbaOut(j, v) in es
  }

  // Every agreement has an input once N - f have output 1; so has one whose broadcast has returned.
  ghost predicate InputsOk(c: Config, n: Node, es: seq<Event>)
    requires WellFormed(c, n)
  {
    && (forall j: nat :: j < c.N && n.abaInputted[j] ==> HasInput(n.given, j))
    && (Sum(n.abaValues) >= c.N - c.f ==> forall j: nat :: j < c.N ==> n.abaInputted[j])
    && (forall j: nat :: j < c.N && j in n.rbcDone ==> n.abaInputted[j] || RbcEnd(j, None) in es)
    && (forall j: nat, out :: j < c.N && RbcEnd(j, out) in es ==> j in n.rbcDone)
    && (forall j: nat :: j < c.N ==> (j in n.abaDone <==> HasOutput(es, j)))
  }

  lemma InputLater(given: seq<(nat, int)>, more: seq<(nat, int)>, j: nat)
    requires HasInput(given, j)
    ensures HasInput(given + more, j)
  {
    var v :| Given(given, j, v);
    assert Given(given + more, j, v);
  }

  lemma {:induction false} ZerosFor(inputted: seq<bool>, k: nat, j: nat)
    requires j < k <= |inputted| && !inputted[j]
    ensures (j, 0) in Zeros(inputted, k)
  {
    if j < k - 1 {
      ZerosFor(inputted, k - 1, j);
    }
  }

  lemma AbaDoneStep(c: Config, n: Node, es: seq<Event>, e: Event, j: nat)
    requires WellFormed(c, n) && j < c.N && (j in n.abaDone <==> HasOutput(es, j))
    ensures j in Step(c, n, e).abaDone <==> HasOutput(es + [e], j)
  {
    var es' := es + [e];
    assert e in es';
    if v :| AbaOut(j, v) in es {
      assert AbaOut(j, v) in es';
    }
    if v :| AbaOut(j, v) in es' {
      assert AbaOut(j, v) in es || AbaOut(j, v) == e;
    }
    if e.AbaOut? && e.j == j {
      assert AbaOut(j, e.v) in es';
    }
  }

  lemma InputsRbc(c: Config, n: Node, es: seq<Event>, j: nat, out: Option<Bytes>)
    requires WellFormed(c, n) && InputsOk(c, n, es)
    ensures InputsOk(c, OnRbc(c, n, j, out), es + [RbcEnd(j, out)])
  {
    var n', e := OnRbc(c, n, j, out), RbcEnd(j, out);
    assert forall x :: x in es ==> x in es + [e];
    assert e in es + [e];
    forall k: nat | k < c.N && n'.abaInputted[k] ensures HasInput(n'.given, k) {
      if n.abaInputted[k] {
        InputLater(n.given, n'.given[|n.given|..], k);
        assert n'.given == n.given + n'.given[|n.given|..];
      } else {
        assert Given(n'.given, k, 1);
      }
    }
    forall k: nat | k < c.N ensures k in n'.abaDone <==> HasOutput(es + [e], k) {
      AbaDoneStep(c, n, es, e, k);
    }
  }

  lemma InputsAba(c: Config, n: Node, es: seq<Event>, j: nat, v: int)
    requires WellFormed(c, n) && InputsOk(c, n, es) && LocalInv(c, n, es) && (v == 0 || v == 1)
    ensures InputsOk(c, OnAba(c, n, j, v), es + [AbaOut(j, v)])
  {
    var n', e := OnAba(c, n, j, v), AbaOut(j, v);
    assert forall x :: x in es ==> x in es + [e];
    if j < c.N && j !in n.abaDone {
      SumUpdate(n.abaValues, j, v);
      AllGiven(c, n, n', v, j);
    }
    forall k: nat | k < c.N ensures k in n'.abaDone <==> HasOutput(es + [e], k) {
      AbaDoneStep(c, n, es, e, k);
    }
  }

  lemma AllGiven(c: Config, n: Node, n': Node, v: int, j: nat)
    requires WellFormed(c, n) && j < c.N && j !in n.abaDone && n' == OnAba(c, n, j, v)
    requires forall k: nat :: k < c.N && n.abaInputted[k] ==> HasInput(n.given, k)
    ensures forall k: nat :: k < c.N && n'.abaInputted[k] ==> HasInput(n'.given, k)
  {
    forall k: nat | k < c.N && n'.abaInputted[k] ensures HasInput(n'.given, k) {
      if n.abaInputted[k] {
        InputLater(n.given, Zeros(n.abaInputted, c.N), k);
      } else {
        ZerosFor(n.abaInputted, c.N, k);
        assert Given(n'.given, k, 0);
      }
    }
  }

  lemma InputsJoin(c: Config, n: Node, es: seq<Event>)
    requires WellFormed(c, n) && InputsOk(c, n, es) && PhaseOk(c, n, es)
    ensures InputsOk(c, OnJoin(c, n), es + [Join])
  {
    assert forall x :: x in es ==> x in es + [Join];
    forall k: nat | k < c.N ensures k in OnJoin(c, n).abaDone <==> HasOutput(es + [Join], k) {
      AbaDoneStep(c, n, es, Join, k);
    }
  }

  lemma {:induction false} RunInputs(c: Config, es: seq<Event>)
    requires BitOutputs(es) && c.f < c.N
    ensures LocalInv(c, RunOf(c, es), es) && InputsOk(c, RunOf(c, es), es)
  {
    LocalRun(c, es);
    if es == [] {
      ZeroSum(c.N);
    } else {
      var init, e := es[..|es| - 1], es[|es| - 1];
      assert es == init + [e];
      assert forall x :: x in init ==> x in es;
      assert e in es;
      RunInputs(c, init);
      match e
      case RbcEnd(j, out) => InputsRbc(c, RunOf(c, init), init, j, out);
      case AbaOut(j, v) => InputsAba(c, RunOf(c, init), init, j, v);
      case Join => InputsJoin(c, RunOf(c, init), init);
    }
  }

  lemma {:induction false} ZeroSum(k: nat)
    ensures Sum(seq(k, _ => 0)) == 0
  {
    if k > 0 {
      assert seq(k, _ => 0)[..k - 1] == seq(k - 1, _ => 0);
      ZeroSum(k - 1);
    }
  }

  /**
   The inputs a node has given. To every agreement once N - f agreements have output
   1; before that, 1 to exactly the agreements whose broadcast has returned.
   */
  lemma InputsExactly(c: Config, es: seq<Event>, j: nat)
    requires BitOutputs(es) && c.f < c.N && j < c.N && RbcEnd(j, None) !in es
    ensures var n := RunOf(c, es); Sum(n.abaValues) >= c.N - c.f ==> HasInput(n.given, j)
    ensures var n := RunOf(c, es); Sum(n.abaValues) < c.N - c.f ==>
      (HasInput(n.given, j) <==> exists m :: RbcEnd(j, Some(m)) in es) && (HasInput(n.given, j) <==> Given(n.given, j, 1))
    ensures var n := RunOf(c, es); (exists m :: RbcEnd(j, Some(m)) in es) ==> HasInput(n.given, j)
  {
    RunInputs(c, es);
    var n := RunOf(c, es);
    if m :| RbcEnd(j, Some(m)) in es {
      assert j in n.rbcDone;
    }
    if v :| Given(n.given, j, v) {
      assert v == 0 || v == 1;
    }
  }

  /**
   The main thread goes on exactly when what it waits for is there: all outputs of
   the agreements, then for each agreement that has output 1 the end of its broadcast.
   */
  lemma MainGoesOn(c: Config, es: seq<Event>)
    requires BitOutputs(es) && c.f < c.N
    ensures var n := RunOf(c, es); n.phase == Collecting ==>
      (OnJoin(c, n).phase != Collecting <==> forall j: nat :: j < c.N ==> HasOutput(es, j))
    ensures var n := RunOf(c, es); n.phase.Joining? && n.phase.j < c.N ==>
      (OnJoin(c, n).phase != n.phase <==> n.abaValues[n.phase.j] == 0 || n.phase.j in n.rbcDone)
    ensures var n := RunOf(c, es); forall j: nat, out :: j < c.N && RbcEnd(j, out) in es ==> j in n.rbcDone
    ensures var n := RunOf(c, es); n.phase == Joining(c.N) ==> OnJoin(c, n).phase == Returned
  {
    RunInputs(c, es);
  }

  // ---------- the composition ----------

  /** The run of one binary agreement, and that of one reliable broadcast. */
  datatype Agreement = Agreement(c: BA.Config, es: seq<BAS.Event>, s: BAS.System)

  datatype Broadcast = Broadcast(c: RB.Config, es: seq<RBS.Event>, s: RBS.System)

  /** What the nodes, the agreements and the broadcasts have done in one run. */
  datatype Subset = Subset(nodes: map<nat, seq<Event>>, agreements: seq<Agreement>, broadcasts: seq<Broadcast>)

  function NodeOf(c: Config, x: Subset, p: nat): Node
    requires p in x.nodes
  {
    RunOf(c, x.nodes[p])
  }

  // Agreement j takes its inputs from aba_in[j] and gives its decisions to aba_out[j].
  ghost predicate AgreementJoined(c: Config, F: Faults, x: Subset, j: nat)
    requires x.nodes.Keys == F.honest && j < |x.agreements|
  {
    var a := x.agreements[j];
    && BAS.Valid(a.c, F) && BAS.Run(a.c, F, a.es) == Some(a.s)
    && (forall e :: e in a.es && e.Input? ==> e.p in F.honest && Given(NodeOf(c, x, e.p).given, j, e.v))
    && (forall p, v :: p in F.honest && AbaOut(j, v) in x.nodes[p] ==> p in a.s.nodes && v in a.s.nodes[p].log.decisions)
  }

  // Broadcast j gives its outcomes to rbc_out[j].
  ghost predicate BroadcastJoined(F: Faults, x: Subset, j: nat)
    requires x.nodes.Keys == F.honest && j < |x.broadcasts|
  {
    var b := x.broadcasts[j];
    && b.c.leader == j && RBS.Valid(b.c, F) && RBS.Run(b.c, F, b.es) == Some(b.s)
    && forall p, out :: p in F.honest && RbcEnd(j, out) in x.nodes[p] ==> Ended(b.s, p, out)
  }

  ghost predicate Ended(s: RBS.System, p: nat, out: Option<Bytes>) {
    p in s.nodes && s.nodes[p].outcome == if out.Some? then RB.Returned(out.value) else RB.Raised
  }

  ghost predicate Composed(c: Config, F: Faults, x: Subset) {
    && Resilient(F) && F.N == c.N && F.f == c.f
    && x.nodes.Keys == F.honest && |x.agreements| == c.N && |x.broadcasts| == c.N
    && (forall j: nat :: j < c.N ==> AgreementJoined(c, F, x, j))
    && (forall j: nat :: j < c.N ==> BroadcastJoined(F, x, j))
    && (forall p, e :: p in F.honest && e in x.nodes[p] && !e.Join? ==> e.j < c.N)
  }

  // A decision is a bit.
  lemma DecisionBit(c: BA.Config, F: Faults, es: seq<BAS.Event>, s: BAS.System, p: nat, v: int)
    requires BAS.Valid(c, F) && BAS.Run(c, F, es) == Some(s) && p in F.honest && p in s.nodes && v in s.nodes[p].log.decisions
    ensures v == 0 || v == 1
  {
    BAS.RunHistories(c, F, es, s);
    assert BAS.Decided(c, s.nodes[p].loop, s.nodes[p].log);
    var k: nat :| BAS.DecidesIn(c, s.nodes[p].loop, s.nodes[p].log, k, v);
    assert BA.Bit(BA.CoinAt(c, k));
  }

  lemma Locals(c: Config, F: Faults, x: Subset, p: nat)
    requires Composed(c, F, x) && p in F.honest
    ensures LocalInv(c, NodeOf(c, x, p), x.nodes[p]) && BitOutputs(x.nodes[p])
  {
    forall e | e in x.nodes[p] && e.AbaOut? ensures e.v == 0 || e.v == 1 {
      assert AgreementJoined(c, F, x, e.j);
      var a := x.agreements[e.j];
      DecisionBit(a.c, F, a.es, a.s, p, e.v);
    }
    LocalRun(c, x.nodes[p]);
  }

  /** Two outputs of agreement j are equal. */
  lemma SameOutputs(c: Config, F: Faults, x: Subset, j: nat, p: nat, q: nat, u: int, v: int)
    requires Composed(c, F, x) && j < c.N && p in F.honest && q in F.honest
    requires AbaOut(j, u) in x.nodes[p] && AbaOut(j, v) in x.nodes[q]
    ensures u == v
  {
    assert AgreementJoined(c, F, x, j);
    var a := x.agreements[j];
    BAS.Agreement(a.c, F, a.es, a.s, p, q);
  }

  /** An agreement that outputs v was given v by some honest node. */
  lemma OutputGiven(c: Config, F: Faults, x: Subset, j: nat, p: nat, v: int) returns (q: nat)
    requires Composed(c, F, x) && j < c.N && p in F.honest && AbaOut(j, v) in x.nodes[p]
    ensures q in F.honest && Given(NodeOf(c, x, q).given, j, v)
  {
    assert AgreementJoined(c, F, x, j);
    var a := x.agreements[j];
    DecisionBit(a.c, F, a.es, a.s, p, v);
    if e :| e in a.es && e.Input? && e.v == v {
      q := e.p;
    } else {
      forall e | e in a.es && e.Input? ensures e.v == 1 - v {
        GivenBit(c, F, x, e.p, j, e.v);
      }
      BAS.Validity(a.c, F, a.es, a.s, 1 - v);
      assert false;
    }
  }

  lemma GivenBit(c: Config, F: Faults, x: Subset, p: nat, j: nat, v: int)
    requires Composed(c, F, x) && p in F.honest && Given(NodeOf(c, x, p).given, j, v)
    ensures v == 0 || v == 1
  {
    Locals(c, F, x, p);
    var given := NodeOf(c, x, p).given;
    var i :| 0 <= i < |given| && given[i] == (j, v);
  }

  lemma {:induction false} SumBelow(s: seq<int>, t: seq<int>)
    requires |s| == |t| && forall i :: 0 <= i < |s| ==> s[i] <= t[i]
    ensures Sum(s) <= Sum(t)
  {
    if s != [] {
      SumBelow(s[..|s| - 1], t[..|t| - 1]);
    }
  }

  // A node's values are below those of a node with all outputs.
  lemma ValuesBelow(c: Config, F: Faults, x: Subset, p: nat, q: nat)
    requires Composed(c, F, x) && p in F.honest && q in F.honest && AllDone(c, NodeOf(c, x, p).abaDone)
    ensures Sum(NodeOf(c, x, q).abaValues) <= Sum(NodeOf(c, x, p).abaValues)
  {
    Locals(c, F, x, p);
    Locals(c, F, x, q);
    var s, t := NodeOf(c, x, q).abaValues, NodeOf(c, x, p).abaValues;
    forall j: nat | j < |s| ensures s[j] <= t[j] {
      assert AbaOut(j, t[j]) in x.nodes[p];
      if j in NodeOf(c, x, q).abaDone {
        SameOutputs(c, F, x, j, p, q, t[j], s[j]);
      }
    }
    SumBelow(s, t);
  }

  lemma {:induction false} SumOfOnes(s: seq<int>)
    requires forall i :: 0 <= i < |s| ==> s[i] == 1
    ensures Sum(s) == |s|
  {
    if s != [] {
      SumOfOnes(s[..|s| - 1]);
    }
  }

  /** The assertion sum(aba_values) >= N - f never fails. */
  lemma CountAssertion(c: Config, F: Faults, x: Subset, p: nat)
    requires Composed(c, F, x) && p in F.honest && AllDone(c, NodeOf(c, x, p).abaDone)
    ensures Sum(NodeOf(c, x, p).abaValues) >= c.N - c.f
  {
    var n := NodeOf(c, x, p);
    Locals(c, F, x, p);
    if j: nat :| j < c.N && n.abaValues[j] == 0 {
      var q := OutputGiven(c, F, x, j, p, 0);
      Locals(c, F, x, q);
      ValuesBelow(c, F, x, p, q);
    } else {
      forall j: nat | j < c.N ensures n.abaValues[j] == 1 {
        assert AbaOut(j, n.abaValues[j]) in x.nodes[p];
      }
      SumOfOnes(n.abaValues);
    }
  }

  /** An agreement with output 1: its broadcast has returned at some honest node. */
  lemma OneMeansReturned(c: Config, F: Faults, x: Subset, j: nat, p: nat) returns (q: nat, m: Bytes)
    requires Composed(c, F, x) && j < c.N && p in F.honest && AbaOut(j, 1) in x.nodes[p]
    ensures q in F.honest && RbcEnd(j, Some(m)) in x.nodes[q]
  {
    q := OutputGiven(c, F, x, j, p, 1);
    Locals(c, F, x, q);
    m :| RbcEnd(j, Some(m)) in x.nodes[q];
  }

  // Two nodes have received the same from broadcast j, or its hash collides.
  lemma SameBroadcast(c: Config, F: Faults, x: Subset, j: nat, p: nat, q: nat, u: Option<Bytes>, v: Option<Bytes>) returns (a: Bytes, b: Bytes)
    requires Composed(c, F, x) && j < c.N && p in F.honest && q in F.honest
    requires RbcEnd(j, u) in x.nodes[p] && RbcEnd(j, v) in x.nodes[q]
    ensures u == v || Collision(x.broadcasts[j].c.H, a, b)
  {
    assert BroadcastJoined(F, x, j);
    var rb := x.broadcasts[j];
    assert Ended(rb.s, p, u) && Ended(rb.s, q, v);
    a, b := RBS.OutcomeAgreement(rb.c, F, rb.es, rb.s, p, q);
  }

  /** Some broadcast's hash has two preimages. */
  ghost predicate Collides(x: Subset) {
    exists j: nat, a, b :: j < |x.broadcasts| && Collision(x.broadcasts[j].c.H, a, b)
  }

  /** No assertion of the main thread fails, unless a hash collides. */
  lemma NoFailedAssertion(c: Config, F: Faults, x: Subset, p: nat)
    requires Composed(c, F, x) && p in F.honest
    ensures NodeOf(c, x, p).phase != Failed || Collides(x)
  {
    var n := NodeOf(c, x, p);
    Locals(c, F, x, p);
    if n.phase == Failed {
      CountAssertion(c, F, x, p);
      var j: nat :| j < |n.abaValues| && n.abaValues[j] != 0 && RbcEnd(j, None) in x.nodes[p];
      assert AbaOut(j, n.abaValues[j]) in x.nodes[p];
      var q, m := OneMeansReturned(c, F, x, j, p);
      var a, b := SameBroadcast(c, F, x, j, p, q, None, Some(m));
      assert Collision(x.broadcasts[j].c.H, a, b);
    }
  }

  /** Every agreement gets at most one input from each honest node. */
  lemma OneInputEach(c: Config, F: Faults, x: Subset, p: nat)
    requires Composed(c, F, x) && p in F.honest
    ensures var given := NodeOf(c, x, p).given;
      forall i, k :: 0 <= i < |given| && 0 <= k < |given| && given[i].0 == given[k].0 ==> i == k
  {
    Locals(c, F, x, p);
  }

  // Where both have returned, entry j is the same.
  lemma SameEntry(c: Config, F: Faults, x: Subset, p: nat, q: nat, j: nat)
    requires Composed(c, F, x) && p in F.honest && q in F.honest && j < c.N
    requires NodeOf(c, x, p).phase == Returned && NodeOf(c, x, q).phase == Returned
    ensures NodeOf(c, x, p).rbcValues[j] == NodeOf(c, x, q).rbcValues[j] || Collides(x)
  {
    var n, m := NodeOf(c, x, p), NodeOf(c, x, q);
    Locals(c, F, x, p);
    Locals(c, F, x, q);
    SameOutputs(c, F, x, j, p, q, n.abaValues[j], m.abaValues[j]);
    assert RbcOk(n, x.nodes[p], j) && RbcOk(m, x.nodes[q], j);
    if n.rbcValues[j].Some? && m.rbcValues[j].Some? {
      var a, b := SameBroadcast(c, F, x, j, p, q, n.rbcValues[j], m.rbcValues[j]);
      assert n.rbcValues[j] == m.rbcValues[j] || Collision(x.broadcasts[j].c.H, a, b);
    }
  }

  /** All honest nodes return the same tuple, unless a hash collides. */
  lemma SameTuple(c: Config, F: Faults, x: Subset, p: nat, q: nat)
    requires Composed(c, F, x) && p in F.honest && q in F.honest
    requires NodeOf(c, x, p).phase == Returned && NodeOf(c, x, q).phase == Returned
    ensures NodeOf(c, x, p).rbcValues == NodeOf(c, x, q).rbcValues || Collides(x)
  {
    if !Collides(x) {
      forall j: nat | j < c.N ensures NodeOf(c, x, p).rbcValues[j] == NodeOf(c, x, q).rbcValues[j] {
        SameEntry(c, F, x, p, q, j);
      }
    }
  }

  function Present(values: seq<Option<Bytes>>): nat {
    if values == [] then 0 else Present(values[..|values| - 1]) + if values[|values| - 1].Some? then 1 else 0
  }

  lemma {:induction false} PresentIsSum(values: seq<Option<Bytes>>, bits: seq<int>)
    requires |values| == |bits|
    requires forall j :: 0 <= j < |bits| ==> (bits[j] == 0 || bits[j] == 1) && (bits[j] != 0 <==> values[j].Some?)
    ensures Present(values) == Sum(bits)
  {
    if bits != [] {
      PresentIsSum(values[..|values| - 1], bits[..|bits| - 1]);
    }
  }

  /** A returned tuple holds the values of at least N - f broadcasts, each as its broadcast has returned it. */
  lemma TupleContents(c: Config, F: Faults, x: Subset, p: nat)
    requires Composed(c, F, x) && p in F.honest && NodeOf(c, x, p).phase == Returned
    ensures Present(NodeOf(c, x, p).rbcValues) >= c.N - c.f
    ensures forall j: nat :: j < c.N && NodeOf(c, x, p).rbcValues[j].Some? ==> RbcEnd(j, NodeOf(c, x, p).rbcValues[j]) in x.nodes[p]
  {
    var n := NodeOf(c, x, p);
    Locals(c, F, x, p);
    forall j: nat | j < c.N ensures n.abaValues[j] == 0 || n.abaValues[j] == 1 {
      assert AbaOut(j, n.abaValues[j]) in x.nodes[p];
    }
    PresentIsSum(n.rbcValues, n.abaValues);
    forall j: nat | j < c.N && n.rbcValues[j].Some? ensures RbcEnd(j, n.rbcValues[j]) in x.nodes[p] {
      assert RbcOk(n, x.nodes[p], j);
    }
  }

  /** The entry of an honest node j is the input of j, as far as K allows the padding to be undone. */
  lemma HonestEntry(c: Config, F: Faults, x: Subset, p: nat, j: nat, m: Bytes)
    requires Composed(c, F, x) && p in F.honest && NodeOf(c, x, p).phase == Returned
    requires j in F.honest && j < c.N && NodeOf(c, x, p).rbcValues[j].Some?
    requires var b := x.broadcasts[j]; RBS.FirstInput(b.es) == Some(m) && b.c.K() <= 128
    requires var b := x.broadcasts[j]; b.c.K() >= 1 && Erasure.ZfecSizes(b.c.K(), b.c.N)
    ensures NodeOf(c, x, p).rbcValues[j] == Some(m) || Collides(x)
  {
    TupleContents(c, F, x, p);
    assert BroadcastJoined(F, x, j);
    var b := x.broadcasts[j];
    assert Ended(b.s, p, NodeOf(c, x, p).rbcValues[j]);
    var u, v := RBS.LeaderValidity(b.c, F, b.es, b.s, m, p);
    assert Collision(b.c.H, u, v) ==> Collides(x);
  }
}
