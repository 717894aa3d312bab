/**
 What a node of the validated agreement sends, and when: its commit list, its
 ballots, and its inputs to the binary agreements.
 */
module ValidatedAgreementMessages {
  import opened FiniteSets
  import opened Quorums
  import opened Options
  import opened Tables
  import opened ValidatedAgreement
  import opened ValidatedAgreementSafety

  /** Everything a node has sent in the events es, in order. */
  ghost function SentBy(c: Config, es: seq<Event>): seq<Message> {
    if es == [] then [] else SentBy(c, es[..|es| - 1]) + Step(c, RunOf(c, es[..|es| - 1]), es[|es| - 1]).1
  }

  /** Input broadcast j has returned a value that the external predicate accepts. */
  ghost predicate HasReturned(es: seq<Event>, j: nat) {
    exists out :: CbcEnd(j, out, true) in es
  }

  ghost predicate IsPermutation(N: nat, pi: seq<nat>) {
    && |pi| == N && (forall i :: 0 <= i < N ==> pi[i] < N)
    && forall i, k :: 0 <= i < k < N ==> pi[i] != pi[k]
  }

  /** There are N input broadcasts, and the coin draws permutations of 0, ..., N - 1. */
  ghost predicate Threads(c: Config, es: seq<Event>) {
    forall e :: e in es ==> (e.CbcEnd? ==> e.j < c.N) && (e.Permutation? ==> IsPermutation(c.N, e.pi))
  }

  lemma ReturnedLater(es: seq<Event>, t: nat, j: nat)
    requires t <= |es| && HasReturned(es[..t], j)
    ensures HasReturned(es, j)
  {
    var out :| CbcEnd(j, out, true) in es[..t];
    assert CbcEnd(j, out, true) in es;
  }

  // ---------- what has been delivered ----------

  // Before the permutation is drawn.
  predicate Early(phase: Phase) {
    phase == WaitCbc || phase == WaitCommit || phase == WaitCoin
  }

  // An entry that is there without delivery came from the ballots of an earlier round.
  ghost predicate FedBefore(n: Node, j: nat) {
    exists i :: 0 <= i < |n.abaInputs| && i < |n.pi| && n.pi[i] == j
  }

  ghost predicate DeliveredOk(n: Node, es: seq<Event>) {
    && (forall j :: j in n.delivered ==> j in n.cbcOutputs && CbcEnd(j, n.cbcOutputs[j], true) in es)
    && (forall j :: HasReturned(es, j) ==> j in n.cbcOutputs)
    && (forall j :: j in n.cbcOutputs && j !in n.delivered ==> FedBefore(n, j))
    && (Early(n.phase) ==> n.abaInputs == [])
    && (!Early(n.phase) ==> Permutation(n.pi) in es)
  }

  // A step that delivers nothing and feeds nothing.
  ghost predicate SameOutputs(n: Node, n': Node) {
    && n'.cbcOutputs == n.cbcOutputs && n'.delivered == n.delivered && n'.abaInputs == n.abaInputs
    && (n'.pi == n.pi || n.abaInputs == [])
  }

  lemma DeliveredKept(n: Node, n': Node, es: seq<Event>, e: Event)
    requires DeliveredOk(n, es) && SameOutputs(n, n') && !(e.CbcEnd? && e.accepted)
    requires Early(n'.phase) ==> Early(n.phase)
    requires !Early(n'.phase) ==> Permutation(n'.pi) in es + [e]
    ensures DeliveredOk(n', es + [e])
  {
    var es' := es + [e];
    assert forall x :: x in es ==> x in es';
    forall j | HasReturned(es', j) ensures j in n'.cbcOutputs {
      var out :| CbcEnd(j, out, true) in es';
      assert CbcEnd(j, out, true) in es;
    }
    forall j | j in n'.cbcOutputs && j !in n'.delivered ensures FedBefore(n', j) {
      var i :| 0 <= i < |n.abaInputs| && i < |n.pi| && n.pi[i] == j;
    }
  }

  lemma CbcStep(n: Node, es: seq<Event>, j: nat, out: Certified)
    requires DeliveredOk(n, es)
    ensures DeliveredOk(OnCbc(n, j, out, true), es + [CbcEnd(j, out, true)])
  {
    var n', es' := OnCbc(n, j, out, true), es + [CbcEnd(j, out, true)];
    assert forall x :: x in es ==> x in es';
    assert CbcEnd(j, out, true) in es';
    forall k | HasReturned(es', k) ensures k in n'.cbcOutputs {
      var out' :| CbcEnd(k, out', true) in es';
      assert CbcEnd(k, out', true) in es || k == j;
      assert k != j ==> HasReturned(es, k);
    }
    forall k | k in n'.cbcOutputs && k !in n'.delivered ensures FedBefore(n', k) {
      assert FedBefore(n, k);
    }
  }

  // Leaving the vote loop of round r fills the entry of pi[r] only.
  lemma LeaveStep(n: Node, es: seq<Event>, e: Event, pick: Vote)
    requires DeliveredOk(n, es) && n.phase == Voting && n.r < |n.pi| && n.a == n.pi[n.r] && |n.abaInputs| == n.r
    requires e.GetVote?
    ensures DeliveredOk(LeaveVotes(n, pick), es + [e])
  {
    var n', es' := LeaveVotes(n, pick), es + [e];
    assert forall x :: x in es ==> x in es';
    forall j | HasReturned(es', j) ensures j in n'.cbcOutputs {
      var out :| CbcEnd(j, out, true) in es';
      assert CbcEnd(j, out, true) in es;
    }
    forall j | j in n'.cbcOutputs && j !in n'.delivered ensures FedBefore(n', j) {
      if j == n.a {
        assert n'.pi[n.r] == j && n.r < |n'.abaInputs|;
      } else {
        var i :| 0 <= i < |n.abaInputs| && i < |n.pi| && n.pi[i] == j;
        assert n'.pi[i] == j;
      }
    }
  }

  // What a ballot does when the vote loop goes on.
  lemma VoteStays(c: Config, n: Node, sender: nat, vote: Vote, pick: Vote)
    requires FewVotes(c, n) && c.N > c.f && n.phase == Voting && n.r < |n.pi|
    ensures var n' := OnVote(c, n, sender, vote, pick);
      || (SameOutputs(n, n') && n'.pi == n.pi && !Early(n'.phase))
      || (vote.a == n.pi[n.r] && n' == LeaveVotes(n.(a := vote.a, votes := n.votes + {(sender, vote)}), pick))
  {
  }

  lemma VoteStep(c: Config, n: Node, es: seq<Event>, e: Event)
    requires DeliveredOk(n, es) && RoundsOk(n, es) && FewVotes(c, n) && c.N > c.f && e.GetVote?
    ensures DeliveredOk(OnVote(c, n, e.sender, e.vote, e.pick), es + [e])
  {
    var n' := OnVote(c, n, e.sender, e.vote, e.pick);
    if n.phase == Voting && n.r < |n.pi| {
      VoteStays(c, n, e.sender, e.vote, e.pick);
      var n2 := n.(a := e.vote.a, votes := n.votes + {(e.sender, e.vote)});
      if SameOutputs(n, n') && n'.pi == n.pi && !Early(n'.phase) {
        DeliveredKept(n, n', es, e);
      } else {
        DeliveredKept(n, n2, es, e);
        LeaveStep(n2, es, e, e.pick);
      }
    } else {
      DeliveredKept(n, n, es, e);
    }
  }

  lemma DeliveredStep(c: Config, n: Node, es: seq<Event>, e: Event)
    requires DeliveredOk(n, es) && RoundsOk(n, es) && FewVotes(c, n) && c.N > c.f
    ensures DeliveredOk(Step(c, n, e).0, es + [e])
  {
    assert forall x :: x in es ==> x in es + [e];
    assert e in es + [e];
    match e
    case CbcEnd(j, out, accepted) =>
      if accepted {
        CbcStep(n, es, j, out);
      } else {
        DeliveredKept(n, n, es, e);
      }
    case GetVote(_, _, _) => VoteStep(c, n, es, e);
    case _ => DeliveredKept(n, Step(c, n, e).0, es, e);
  }

  lemma {:induction false} RunDelivered(c: Config, es: seq<Event>)
    requires c.N > c.f
    ensures DeliveredOk(RunOf(c, es), es)
  {
    if es != [] {
      var init, e := es[..|es| - 1], es[|es| - 1];
      assert es == init + [e];
      RunDelivered(c, init);
      LocalRun(c, init);
      DeliveredStep(c, RunOf(c, init), init, e);
    }
  }

  // Before the permutation, exactly the broadcasts that have returned are delivered.
  lemma EarlyDelivered(n: Node, es: seq<Event>, j: nat)
    requires DeliveredOk(n, es) && Early(n.phase)
    ensures j in n.delivered <==> HasReturned(es, j)
  {
  }

  // The same for the leader of a round that starts.
  lemma LeaderDelivered(n: Node, es: seq<Event>, j: nat)
    requires DeliveredOk(n, es) && !FedBefore(n, j)
    ensures j in n.delivered <==> HasReturned(es, j)
  {
  }

  // ---------- the commit list and the ballots ----------

  /** list says of every input broadcast whether it has returned in es. */
  ghost predicate CommitOf(c: Config, es: seq<Event>, list: seq<int>) {
    |list| == c.N && forall j: nat :: j < c.N ==> list[j] == if HasReturned(es, j) then 1 else 0
  }

  /** The ballot is for leader a: 1 with the certified value of its broadcast if that has returned in es, 0 otherwise. */
  ghost predicate BallotOf(es: seq<Event>, a: nat, vote: Vote) {
    if HasReturned(es, a) then exists out :: CbcEnd(a, out, true) in es && vote == Vote(a, 1, Some(out))
    else vote == Vote(a, 0, None)
  }

  lemma OneMore(D: set<nat>, k: nat)
    ensures |D * Below(k + 1)| == |D * Below(k)| + if k in D then 1 else 0
  {
    if k in D {
      assert D * Below(k + 1) == D * Below(k) + {k};
    } else {
      assert D * Below(k + 1) == D * Below(k);
    }
  }

  lemma {:induction false} SumFlags(c: Config, D: set<nat>, k: nat)
    ensures Sum(Flags(c.(N := k), D)) == |D * Below(k)|
  {
    var flags := Flags(c.(N := k), D);
    if k == 0 {
      assert D * Below(0) == {};
    } else {
      assert flags[..k - 1] == Flags(c.(N := k - 1), D);
      SumFlags(c, D, k - 1);
      OneMore(D, k - 1);
    }
  }

  lemma DeliveredBelow(c: Config, n: Node, es: seq<Event>)
    requires DeliveredOk(n, es) && Threads(c, es)
    ensures n.delivered <= Below(c.N)
  {
    forall j | j in n.delivered ensures j in Below(c.N) {
      assert CbcEnd(j, n.cbcOutputs[j], true) in es;
    }
  }

  // The one place where the commit list is made.
  lemma CommitOut(c: Config, n: Node, e: Event, list: seq<int>)
    requires CommitInput(list) in Step(c, n, e).1
    ensures e.Proceed? && n.phase == WaitCbc && |n.delivered| >= c.N - c.f && list == Flags(c, n.delivered)
    ensures Step(c, n, e).0.phase == WaitCommit && Step(c, n, e).1 == [CommitInput(list)]
  {
  }

  lemma CommitMade(c: Config, n: Node, es: seq<Event>, list: seq<int>)
    requires DeliveredOk(n, es) && Threads(c, es) && n.phase == WaitCbc && |n.delivered| >= c.N - c.f
    requires list == Flags(c, n.delivered)
    ensures CommitOf(c, es, list) && Sum(list) >= c.N - c.f
  {
    DeliveredBelow(c, n, es);
    SumFlags(c, n.delivered, c.N);
    assert n.delivered * Below(c.N) == n.delivered;
    assert c.(N := c.N) == c;
    forall j: nat | j < c.N ensures list[j] == if HasReturned(es, j) then 1 else 0 {
      EarlyDelivered(n, es, j);
    }
  }

  // The two places where a ballot is cast; n1 is the node at the top of the loop.
  lemma BallotOut(c: Config, n: Node, e: Event, r: nat, vote: Vote)
    requires CastVote(r, vote) in Step(c, n, e).1
    ensures
      || (e.Permutation? && n.phase == WaitCoin && r == 0 && StartRound(n.(pi := e.pi, r := 0)) == Step(c, n, e))
      || (e.AbaOut? && n.phase == WaitAba && r == n.r + 1 && e.v != 1
          && StartRound(n.(abaOutputs := n.abaOutputs + [e.v], r := r)) == Step(c, n, e))
    ensures var n' := Step(c, n, e).0;
      && n'.phase == Voting && n'.r == r < |n'.pi| && n'.a == n'.pi[r] == vote.a
      && Step(c, n, e).1 == [CastVote(r, vote)]
  {
  }

  lemma BallotMade(n1: Node, es: seq<Event>, a: nat)
    requires (forall j :: j in n1.delivered ==> j in n1.cbcOutputs && CbcEnd(j, n1.cbcOutputs[j], true) in es)
    requires a in n1.delivered <==> HasReturned(es, a)
    requires n1.r < |n1.pi| && n1.pi[n1.r] == a
    ensures forall m :: m in StartRound(n1).1 ==> m.CastVote? && BallotOf(es, a, m.vote)
  {
    if a in n1.delivered {
      assert CbcEnd(a, n1.cbcOutputs[a], true) in es;
    }
  }

  // The leader of the round that starts has no ballots of earlier rounds.
  lemma FreshLeader(c: Config, n: Node, es: seq<Event>, e: Event, r: nat, vote: Vote)
    requires DeliveredOk(n, es) && RoundsOk(n, es) && Threads(c, es + [e]) && CastVote(r, vote) in Step(c, n, e).1
    ensures var n' := Step(c, n, e).0; IsPermutation(c.N, n'.pi) && !FedBefore(n', n'.pi[r])
  {
    BallotOut(c, n, e, r, vote);
    assert e in es + [e];
    var n' := Step(c, n, e).0;
    if !e.Permutation? {
      assert Permutation(n.pi) in es + [e];
    }
    forall i | 0 <= i < |n'.abaInputs| && i < |n'.pi| ensures n'.pi[i] != n'.pi[r] {}
  }

  lemma BallotStep(c: Config, n: Node, es: seq<Event>, e: Event, r: nat, vote: Vote)
    requires DeliveredOk(n, es) && RoundsOk(n, es) && Threads(c, es + [e]) && CastVote(r, vote) in Step(c, n, e).1
    ensures BallotOf(es, vote.a, vote)
  {
    BallotOut(c, n, e, r, vote);
    FreshLeader(c, n, es, e, r, vote);
    var n' := Step(c, n, e).0;
    if e.Permutation? {
      LeaderDelivered(n, es, vote.a);
      BallotMade(n.(pi := e.pi, r := 0), es, vote.a);
    } else {
      assert n'.pi == n.pi && n'.abaInputs == n.abaInputs;
      LeaderDelivered(n, es, vote.a);
      BallotMade(n.(abaOutputs := n.abaOutputs + [e.v], r := r), es, vote.a);
    }
  }

  // ---------- what has been sent in a run ----------

  // The commit list is that of some earlier moment, and unique.
  ghost predicate CommitsOk(c: Config, n: Node, es: seq<Event>) {
    && (n.phase == WaitCbc ==> forall list :: CommitInput(list) !in SentBy(c, es))
    && (forall list :: CommitInput(list) in SentBy(c, es) ==> Sum(list) >= c.N - c.f && CommitBefore(c, es, list))
    && (forall list, list' :: CommitInput(list) in SentBy(c, es) && CommitInput(list') in SentBy(c, es) ==> list == list')
  }

  /** At some moment list said what had returned. */
  ghost predicate CommitBefore(c: Config, es: seq<Event>, list: seq<int>) {
    exists t: nat :: t <= |es| && CommitOf(c, es[..t], list)
  }

  ghost predicate BallotBefore(es: seq<Event>, vote: Vote) {
    exists t: nat :: t <= |es| && BallotOf(es[..t], vote.a, vote)
  }

  // No ballot before the permutation.
  ghost predicate EarlySilent(c: Config, n: Node, es: seq<Event>) {
    Early(n.phase) ==> forall r: nat, vote :: CastVote(r, vote) !in SentBy(c, es)
  }

  ghost predicate BallotsFit(c: Config, n: Node, es: seq<Event>) {
    forall r: nat, vote :: CastVote(r, vote) in SentBy(c, es) ==> Fits(c, n, es, r, vote)
  }

  ghost predicate Fits(c: Config, n: Node, es: seq<Event>, r: nat, vote: Vote) {
    r < |n.pi| && vote.a == n.pi[r] && IsPermutation(c.N, n.pi) && BallotBefore(es, vote)
  }

  // A ballot for 0 goes with a 0 in the commit list.
  ghost predicate ZerosOk(c: Config, es: seq<Event>) {
    forall r: nat, vote, list :: CastVote(r, vote) in SentBy(c, es) && CommitInput(list) in SentBy(c, es) && vote.bit == 0 ==>
      vote.a < |list| && list[vote.a] == 0
  }

  ghost predicate BallotsOk(c: Config, n: Node, es: seq<Event>) {
    EarlySilent(c, n, es) && BallotsFit(c, n, es) && ZerosOk(c, es)
  }

  lemma SentMore(c: Config, es: seq<Event>, e: Event)
    ensures SentBy(c, es + [e]) == SentBy(c, es) + Step(c, RunOf(c, es), e).1
    ensures RunOf(c, es + [e]) == Step(c, RunOf(c, es), e).0
  {
    assert (es + [e])[..|es|] == es;
  }

  lemma CommitLater(c: Config, es: seq<Event>, e: Event, list: seq<int>)
    requires CommitBefore(c, es, list)
    ensures CommitBefore(c, es + [e], list)
  {
    var t: nat :| t <= |es| && CommitOf(c, es[..t], list);
    assert (es + [e])[..t] == es[..t];
  }

  lemma BallotLater(es: seq<Event>, e: Event, vote: Vote)
    requires BallotBefore(es, vote)
    ensures BallotBefore(es + [e], vote)
  {
    var t: nat :| t <= |es| && BallotOf(es[..t], vote.a, vote);
    assert (es + [e])[..t] == es[..t];
  }

  lemma BackToCbc(c: Config, n: Node, e: Event)
    requires Step(c, n, e).0.phase == WaitCbc
    ensures n.phase == WaitCbc && forall list :: CommitInput(list) !in Step(c, n, e).1
  {
  }

  lemma CommitsStep(c: Config, n: Node, es: seq<Event>, e: Event)
    requires n == RunOf(c, es) && DeliveredOk(n, es) && Threads(c, es) && CommitsOk(c, n, es)
    ensures CommitsOk(c, Step(c, n, e).0, es + [e])
  {
    var es', out := es + [e], Step(c, n, e).1;
    SentMore(c, es, e);
    forall list | CommitInput(list) in SentBy(c, es') ensures Sum(list) >= c.N - c.f && CommitBefore(c, es', list) {
      if CommitInput(list) in SentBy(c, es) {
        CommitLater(c, es, e, list);
      } else {
        CommitOut(c, n, e, list);
        CommitMade(c, n, es, list);
        assert es'[..|es|] == es;
      }
    }
    forall list, list' | CommitInput(list) in SentBy(c, es') && CommitInput(list') in SentBy(c, es') ensures list == list' {
      if CommitInput(list) in out {
        CommitOut(c, n, e, list);
      }
      if CommitInput(list') in out {
        CommitOut(c, n, e, list');
      }
    }
    if Step(c, n, e).0.phase == WaitCbc {
      BackToCbc(c, n, e);
    }
  }

  // A ballot for 0 goes with a 0 in the commit list, which is older.
  lemma ZeroBefore(c: Config, es: seq<Event>, vote: Vote, list: seq<int>)
    requires BallotOf(es, vote.a, vote) && vote.bit == 0 && CommitBefore(c, es, list) && vote.a < c.N
    ensures vote.a < |list| && list[vote.a] == 0
  {
    var t: nat :| t <= |es| && CommitOf(c, es[..t], list);
    if HasReturned(es[..t], vote.a) {
      ReturnedLater(es, t, vote.a);
    }
  }

  lemma BackToEarly(c: Config, n: Node, e: Event)
    ensures Early(Step(c, n, e).0.phase) ==> Early(n.phase) && forall r: nat, vote :: CastVote(r, vote) !in Step(c, n, e).1
    ensures !Early(n.phase) ==> Step(c, n, e).0.pi == n.pi
    ensures forall list :: CommitInput(list) in Step(c, n, e).1 ==> Early(n.phase) && Early(Step(c, n, e).0.phase)
  {
  }

  lemma FitsStep(c: Config, n: Node, es: seq<Event>, e: Event)
    requires n == RunOf(c, es) && DeliveredOk(n, es) && RoundsOk(n, es) && Threads(c, es + [e])
    requires EarlySilent(c, n, es) && BallotsFit(c, n, es)
    ensures BallotsFit(c, Step(c, n, e).0, es + [e])
  {
    var es', n' := es + [e], Step(c, n, e).0;
    SentMore(c, es, e);
    BackToEarly(c, n, e);
    forall r: nat, vote | CastVote(r, vote) in SentBy(c, es') ensures Fits(c, n', es', r, vote) {
      if CastVote(r, vote) in SentBy(c, es) {
        assert Fits(c, n, es, r, vote);
        BallotLater(es, e, vote);
      } else {
        NewBallot(c, n, es, e, r, vote);
      }
    }
  }

  lemma ZerosStep(c: Config, n: Node, es: seq<Event>, e: Event)
    requires n == RunOf(c, es) && DeliveredOk(n, es) && RoundsOk(n, es) && Threads(c, es + [e])
    requires CommitsOk(c, n, es) && EarlySilent(c, n, es) && ZerosOk(c, es)
    ensures ZerosOk(c, es + [e])
  {
    var es' := es + [e];
    SentMore(c, es, e);
    forall r: nat, vote, list | CastVote(r, vote) in SentBy(c, es') && CommitInput(list) in SentBy(c, es') && vote.bit == 0
      ensures vote.a < |list| && list[vote.a] == 0
    {
      if CastVote(r, vote) !in SentBy(c, es) {
        NewBallot(c, n, es, e, r, vote);
        OldCommit(c, n, es, e, r, vote, list);
        ZeroBefore(c, es, vote, list);
      } else if CommitInput(list) !in SentBy(c, es) {
        CommitOut(c, n, e, list);
      }
    }
  }

  // The step that casts a ballot makes no commit list.
  lemma OldCommit(c: Config, n: Node, es: seq<Event>, e: Event, r: nat, vote: Vote, list: seq<int>)
    requires n == RunOf(c, es) && CommitsOk(c, n, es)
    requires CastVote(r, vote) in Step(c, n, e).1 && CommitInput(list) in SentBy(c, es) + Step(c, n, e).1
    ensures CommitBefore(c, es, list)
  {
    BallotOut(c, n, e, r, vote);
  }

  lemma BallotsStep(c: Config, n: Node, es: seq<Event>, e: Event)
    requires n == RunOf(c, es) && DeliveredOk(n, es) && RoundsOk(n, es) && Threads(c, es + [e])
    requires CommitsOk(c, n, es) && BallotsOk(c, n, es)
    ensures BallotsOk(c, Step(c, n, e).0, es + [e])
  {
    SentMore(c, es, e);
    BackToEarly(c, n, e);
    FitsStep(c, n, es, e);
    ZerosStep(c, n, es, e);
  }

  lemma NewBallot(c: Config, n: Node, es: seq<Event>, e: Event, r: nat, vote: Vote)
    requires DeliveredOk(n, es) && RoundsOk(n, es) && Threads(c, es + [e]) && CastVote(r, vote) in Step(c, n, e).1
    ensures var n' := Step(c, n, e).0; r < |n'.pi| && vote.a == n'.pi[r] && IsPermutation(c.N, n'.pi) && vote.a < c.N
    ensures BallotOf(es, vote.a, vote) && BallotBefore(es + [e], vote)
  {
    BallotOut(c, n, e, r, vote);
    FreshLeader(c, n, es, e, r, vote);
    BallotStep(c, n, es, e, r, vote);
    assert (es + [e])[..|es|] == es;
  }

  lemma {:induction false} RunMessages(c: Config, es: seq<Event>)
    requires c.N > c.f && Threads(c, es)
    ensures CommitsOk(c, RunOf(c, es), es) && BallotsOk(c, RunOf(c, es), es)
  {
    if es != [] {
      var init, e := es[..|es| - 1], es[|es| - 1];
      assert es == init + [e];
      assert forall x :: x in init ==> x in es;
      RunMessages(c, init);
      RunDelivered(c, init);
      LocalRun(c, init);
      MessagesStep(c, RunOf(c, init), init, e);
    }
  }

  lemma MessagesStep(c: Config, n: Node, es: seq<Event>, e: Event)
    requires n == RunOf(c, es) && DeliveredOk(n, es) && RoundsOk(n, es) && Threads(c, es) && Threads(c, es + [e])
    requires CommitsOk(c, n, es) && BallotsOk(c, n, es)
    ensures CommitsOk(c, RunOf(c, es + [e]), es + [e]) && BallotsOk(c, RunOf(c, es + [e]), es + [e])
  {
    SentMore(c, es, e);
    CommitsStep(c, n, es, e);
    BallotsStep(c, n, es, e);
  }

  // ---------- the theorems: what is sent ----------

  /**
   A node sends at most one commit list. It has length N, says which input
   broadcasts had returned an accepted value at some moment, names N - f of them,
   and so is taken by every node whose commit broadcast returns it.
   */
  lemma CommitList(c: Config, es: seq<Event>, list: seq<int>, list': seq<int>, n: Node, j: nat)
    requires c.N > c.f && Threads(c, es) && CommitInput(list) in SentBy(c, es)
    ensures exists t: nat :: t <= |es| && CommitOf(c, es[..t], list)
    ensures |list| == c.N && Sum(list) >= c.N - c.f
    ensures CommitInput(list') in SentBy(c, es) ==> list' == list
    ensures OnCommit(c, n, j, list) == n.(commits := n.commits[j := list])
  {
    RunMessages(c, es);
    assert CommitBefore(c, es, list);
  }

  /**
   A ballot of round r is for pi[r]: 1, with the certified value that its
   broadcast has returned, if the broadcast had returned one, and 0 otherwise.
   */
  lemma Ballot(c: Config, es: seq<Event>, r: nat, vote: Vote)
    requires c.N > c.f && Threads(c, es) && CastVote(r, vote) in SentBy(c, es)
    ensures var n := RunOf(c, es); r < |n.pi| && vote.a == n.pi[r] && vote.a < c.N
    ensures exists t: nat :: t <= |es| && BallotOf(es[..t], vote.a, vote)
  {
    RunMessages(c, es);
    assert Fits(c, RunOf(c, es), es, r, vote);
  }

  // A node counts a ballot for the leader of its round on these conditions.
  lemma Counted(c: Config, n: Node, sender: nat, vote: Vote, pick: Vote)
    requires n.phase == Voting && n.r < |n.pi| && (sender, vote) !in n.votes
    ensures (sender, vote) in OnVote(c, n, sender, vote, pick).votes <==>
      && vote.a == n.pi[n.r]
      && ((vote.bit == 1 && vote.out.Some? && CB.CbcValidate(c.cbc(vote.a), vote.out.value.0, vote.out.value.1))
          || (vote.bit == 0 && sender in n.commits && vote.a < |n.commits[sender]| && n.commits[sender][vote.a] == 0))
  {
  }

  // A ballot for 1 of an honest node carries an accepted certificate.
  lemma OneSupports(c: Config, F: Faults, x: Validated, p: nat, r: nat, vote: Vote)
    requires Composed(c, F, x) && p in F.honest && Threads(c, x.nodes[p])
    requires CastVote(r, vote) in SentBy(c, x.nodes[p]) && vote.bit == 1
    ensures Supports(c, vote)
  {
    Ballot(c, x.nodes[p], r, vote);
    var es := x.nodes[p];
    var t: nat :| t <= |es| && BallotOf(es[..t], vote.a, vote);
    var out :| CbcEnd(vote.a, out, true) in es[..t] && vote == Vote(vote.a, 1, Some(out));
    assert CbcEnd(vote.a, out, true) in es;
    assert BroadcastJoined(c, F, x, vote.a);
    var b := x.broadcasts(vote.a);
    CBS.RunInv(c.cbc(vote.a), F, b.es);
    assert CBS.OutputOk(c.cbc(vote.a), F, b.s, b.s.nodes[p]);
  }

  // A ballot is for a node, and has bit 0 or 1.
  lemma BallotBit(c: Config, es: seq<Event>, r: nat, vote: Vote)
    requires c.N > c.f && Threads(c, es) && CastVote(r, vote) in SentBy(c, es)
    ensures vote.bit == 0 || vote.bit == 1
  {
    Ballot(c, es, r, vote);
  }

  // The leaders of a round are one at all nodes.
  lemma SameRoundLeader(c: Config, F: Faults, x: Validated, p: nat, q: nat, r: nat)
    requires Composed(c, F, x) && p in F.honest && q in F.honest
    requires !Early(NodeOf(c, x, p).phase) && !Early(NodeOf(c, x, q).phase)
    ensures NodeOf(c, x, p).pi == NodeOf(c, x, q).pi
  {
    RunDelivered(c, x.nodes[p]);
    RunDelivered(c, x.nodes[q]);
    SamePermutation(c, F, x, p, q, NodeOf(c, x, p).pi, NodeOf(c, x, q).pi);
  }

  /**
   Honest ballots count: an honest node in the vote loop of round r counts the
   ballot of an honest node p exactly when it is for 1 or the commit list of p has
   arrived. (A ballot for 0 that comes first is dropped.)
   */
  lemma HonestBallot(c: Config, F: Faults, x: Validated, p: nat, q: nat, r: nat, vote: Vote, pick: Vote)
    requires Composed(c, F, x) && p in F.honest && q in F.honest && Threads(c, x.nodes[p])
    requires CastVote(r, vote) in SentBy(c, x.nodes[p])
    requires var n := NodeOf(c, x, q); n.phase == Voting && n.r == r && (p, vote) !in n.votes
    requires var n := NodeOf(c, x, q); p in n.commits ==> CommitInput(n.commits[p]) in SentBy(c, x.nodes[p])
    ensures var n := NodeOf(c, x, q); (p, vote) in OnVote(c, n, p, vote, pick).votes <==> vote.bit == 1 || p in n.commits
  {
    var n := NodeOf(c, x, q);
    Ballot(c, x.nodes[p], r, vote);
    BallotBit(c, x.nodes[p], r, vote);
    RunMessages(c, x.nodes[p]);
    LocalRun(c, x.nodes[q]);
    SameRoundLeader(c, F, x, p, q, r);
    Counted(c, n, p, vote, pick);
    if vote.bit == 1 {
      OneSupports(c, F, x, p, r, vote);
    }
  }

  // ---------- the theorems: when the waits end ----------

  // The commit lists that have arrived and name N - f broadcasts.
  ghost predicate HasCommitted(c: Config, es: seq<Event>, j: nat) {
    exists list :: CommitEnd(j, list) in es && Sum(list) >= c.N - c.f
  }

  ghost predicate ArrivedOk(c: Config, n: Node, es: seq<Event>) {
    forall j :: j in n.commits <==> HasCommitted(c, es, j)
  }

  lemma ArrivedStep(c: Config, n: Node, es: seq<Event>, e: Event)
    requires ArrivedOk(c, n, es)
    ensures ArrivedOk(c, Step(c, n, e).0, es + [e])
  {
    var n', es' := Step(c, n, e).0, es + [e];
    assert n'.commits == if e.CommitEnd? then OnCommit(c, n, e.j, e.list).commits else n.commits;
    forall j ensures j in n'.commits <==> HasCommitted(c, es', j) {
      CommittedMore(c, es, e, j);
    }
  }

  lemma CommittedMore(c: Config, es: seq<Event>, e: Event, j: nat)
    ensures HasCommitted(c, es + [e], j) <==>
      HasCommitted(c, es, j) || (e.CommitEnd? && e.j == j && Sum(e.list) >= c.N - c.f)
  {
    var es' := es + [e];
    if HasCommitted(c, es, j) {
      var list :| CommitEnd(j, list) in es && Sum(list) >= c.N - c.f;
      assert CommitEnd(j, list) in es';
    }
    if e.CommitEnd? && e.j == j && Sum(e.list) >= c.N - c.f {
      assert CommitEnd(j, e.list) in es';
    }
    if HasCommitted(c, es', j) {
      var list :| CommitEnd(j, list) in es' && Sum(list) >= c.N - c.f;
      assert CommitEnd(j, list) in es || CommitEnd(j, list) == e;
    }
  }

  lemma {:induction false} RunArrived(c: Config, es: seq<Event>)
    ensures ArrivedOk(c, RunOf(c, es), es)
  {
    if es != [] {
      var init, e := es[..|es| - 1], es[|es| - 1];
      assert es == init + [e];
      RunArrived(c, init);
      ArrivedStep(c, RunOf(c, init), init, e);
    }
  }

  /**
   The two waits end exactly when N - f input broadcasts have returned accepted
   values, and when N - f commit broadcasts have returned lists that name N - f.
   */
  lemma WaitsExactly(c: Config, es: seq<Event>)
    requires c.N > c.f
    ensures var n := RunOf(c, es); n.phase == WaitCbc ==>
      (OnProceed(c, n).0.phase == WaitCommit <==>
       exists D: set<nat> :: |D| == c.N - c.f && forall j :: j in D ==> HasReturned(es, j))
    ensures var n := RunOf(c, es); n.phase == WaitCommit ==>
      (OnProceed(c, n).0.phase == WaitCoin <==>
       exists D: set<nat> :: |D| == c.N - c.f && forall j :: j in D ==> HasCommitted(c, es, j))
  {
    var n := RunOf(c, es);
    RunDelivered(c, es);
    RunArrived(c, es);
    if n.phase == WaitCbc {
      Enough(n.delivered, c.N - c.f, (j: nat) => HasReturned(es, j));
    } else if n.phase == WaitCommit {
      Enough(n.commits.Keys, c.N - c.f, (j: nat) => HasCommitted(c, es, j));
    }
  }

  lemma Enough(S: set<nat>, k: nat, P: nat -> bool)
    requires forall j: nat :: j in S <==> P(j)
    ensures |S| >= k <==> exists D: set<nat> :: |D| == k && forall j :: j in D ==> P(j)
  {
    if |S| >= k {
      var D := Part(S, k);
      assert forall j :: j in D ==> P(j);
    } else if D: set<nat> :| |D| == k && forall j :: j in D ==> P(j) {
      SubsetSize(D, S);
    }
  }

  /**
   The vote loop of a round ends exactly with the ballot that makes N - f, which is
   for the leader; the node then gives its agreement 1 exactly when some counted
   ballot is for 1, and in that case holds a value of the leader to decide.
   */
  lemma LeavesExactly(c: Config, es: seq<Event>, e: Event)
    requires c.N > c.f && RunOf(c, es).phase == Voting && e.GetVote?
    ensures var n, n' := RunOf(c, es), RunOf(c, es + [e]);
      && n.r < |n.pi| && |n.votes| < c.N - c.f
      && (n'.phase == WaitAba <==> |n'.votes| >= c.N - c.f)
      && (n'.phase == WaitAba ==>
            && (e.sender, e.vote) in n'.votes && e.vote.a == n.pi[n.r]
            && n'.abaInputs == n.abaInputs + [if HasOne(n'.votes) then 1 else 0]
            && (HasOne(n'.votes) ==> n.pi[n.r] in n'.cbcOutputs))
  {
    VoteFacts(c, es);
    RunDelivered(c, es);
    SentMore(c, es, e);
    LeavesLocal(c, RunOf(c, es), es, e);
  }

  lemma VoteFacts(c: Config, es: seq<Event>)
    requires c.N > c.f
    ensures var n := RunOf(c, es); RoundsOk(n, es) && VotesOk(c, n, es) && FewVotes(c, n)
  {
    LocalRun(c, es);
  }

  lemma LeavesLocal(c: Config, n: Node, es: seq<Event>, e: Event)
    requires DeliveredOk(n, es) && RoundsOk(n, es) && VotesOk(c, n, es) && FewVotes(c, n) && c.N > c.f
    requires n.phase == Voting && e.GetVote?
    ensures var n' := OnVote(c, n, e.sender, e.vote, e.pick);
      && (n'.phase == WaitAba <==> |n'.votes| >= c.N - c.f)
      && (n'.phase == WaitAba ==>
            && (e.sender, e.vote) in n'.votes && e.vote.a == n.pi[n.r]
            && n'.abaInputs == n.abaInputs + [if HasOne(n'.votes) then 1 else 0]
            && (HasOne(n'.votes) ==> n.pi[n.r] in n'.cbcOutputs))
  {
    VoteStays(c, n, e.sender, e.vote, e.pick);
    CarriesValues(c, n, es, e);
    var n' := OnVote(c, n, e.sender, e.vote, e.pick);
    if n'.phase == WaitAba {
      OneHeld(n.(a := e.vote.a, votes := n.votes + {(e.sender, e.vote)}), es, e.pick);
    }
  }

  // The counted ballots for 1 carry values.
  lemma CarriesValues(c: Config, n: Node, es: seq<Event>, e: Event)
    requires VotesOk(c, n, es) && FewVotes(c, n) && n.phase == Voting && n.r < |n.pi| && e.GetVote? && c.N > c.f
    ensures OnVote(c, n, e.sender, e.vote, e.pick).phase == WaitAba ==>
      forall x :: x in n.votes + {(e.sender, e.vote)} && x.1.bit == 1 ==> x.1.out.Some?
  {
    forall x | x in n.votes ensures x.1.bit == 1 ==> x.1.out.Some? {
      assert VoteOk(c, n, es, x.1);
    }
  }

  lemma OneHeld(n: Node, es: seq<Event>, pick: Vote)
    requires DeliveredOk(n, es) && forall x :: x in n.votes && x.1.bit == 1 ==> x.1.out.Some?
    ensures HasOne(n.votes) ==> n.a in LeaveVotes(n, pick).cbcOutputs
  {
    if x :| x in n.votes && x.1.bit == 1 {
      assert x.1.out.Some?;
    }
  }

  // ---------- the theorems: how the main thread goes on ----------

  // A node that has given 1 to an agreement holds a value of its leader.
  ghost predicate OnesHeld(n: Node) {
    forall i :: 0 <= i < |n.abaInputs| && i < |n.pi| && n.abaInputs[i] == 1 ==> n.pi[i] in n.cbcOutputs
  }

  lemma OnesVote(c: Config, n: Node, es: seq<Event>, e: Event)
    requires OnesHeld(n) && DeliveredOk(n, es) && RoundsOk(n, es) && VotesOk(c, n, es) && FewVotes(c, n) && c.N > c.f
    requires n.phase == Voting && e.GetVote?
    ensures OnesHeld(OnVote(c, n, e.sender, e.vote, e.pick))
  {
    VoteStays(c, n, e.sender, e.vote, e.pick);
    LeavesLocal(c, n, es, e);
  }

  lemma OnesOther(c: Config, n: Node, e: Event)
    requires OnesHeld(n) && !(e.GetVote? && n.phase == Voting) && (Early(n.phase) ==> n.abaInputs == [])
    ensures OnesHeld(Step(c, n, e).0)
  {
  }

  lemma {:induction false} RunOnes(c: Config, es: seq<Event>)
    requires c.N > c.f
    ensures OnesHeld(RunOf(c, es))
  {
    if es != [] {
      var init, e := es[..|es| - 1], es[|es| - 1];
      RunOnes(c, init);
      RunDelivered(c, init);
      VoteFacts(c, init);
      if e.GetVote? && RunOf(c, init).phase == Voting {
        OnesVote(c, RunOf(c, init), init, e);
      } else {
        OnesOther(c, RunOf(c, init), e);
      }
    }
  }

  /**
   The permutation starts round 0, an agreement that outputs 0 starts the next
   round, with the ballot of that round, and one that outputs 1 ends the rounds.
   */
  lemma RoundsGoOn(c: Config, es: seq<Event>, e: Event)
    requires c.N > c.f
    ensures var n, (n', out) := RunOf(c, es), Step(c, RunOf(c, es), e);
      && (n.phase == WaitCoin && e.Permutation? && e.pi != [] ==>
            n'.phase == Voting && n'.r == 0 && n'.pi == e.pi && |out| == 1 && out[0].CastVote? && out[0].r == 0)
      && (n.phase == WaitAba && e == AbaOut(n.r, 1) ==> n'.phase == WaitOutput && n'.r == n.r && out == [])
      && (n.phase == WaitAba && e == AbaOut(n.r, 0) && n.r + 1 < |n.pi| ==>
            n'.phase == Voting && n'.r == n.r + 1 && |out| == 1 && out[0].CastVote? && out[0].r == n.r + 1)
  {
  }

  /**
   Once the rounds are over, the node decides, with a value of the leader, exactly
   when it holds one; and it does if the leader's broadcast has returned, or if the
   node itself has given 1 to the last agreement.
   */
  lemma DecidesExactly(c: Config, es: seq<Event>)
    requires c.N > c.f && RunOf(c, es).phase == WaitOutput
    ensures var n := RunOf(c, es);
      && n.r < |n.pi| && n.r < |n.abaInputs|
      && (OnGet(n).phase == Decided <==> n.pi[n.r] in n.cbcOutputs)
      && (OnGet(n).phase == Decided ==> OnGet(n).decided == Some((n.pi[n.r], n.cbcOutputs[n.pi[n.r]].0)))
      && (HasReturned(es, n.pi[n.r]) || n.abaInputs[n.r] == 1 ==> OnGet(n).phase == Decided)
  {
    RunDelivered(c, es);
    VoteFacts(c, es);
    RunOnes(c, es);
  }

  /**
   What fails a node: a ballot for 0 on the leader from a sender whose commit list is
   too short to have an entry for the leader, and rounds beyond the permutation.
   */
  lemma FailsExactly(c: Config, n: Node, e: Event)
    requires n.phase != Failed
    ensures Step(c, n, e).0.phase == Failed <==>
      || (e.GetVote? && n.phase == Voting && n.r < |n.pi| && e.vote.a == n.pi[n.r] && e.vote.bit == 0
          && e.sender in n.commits && e.vote.a >= |n.commits[e.sender]|)
      || (e.Permutation? && n.phase == WaitCoin && e.pi == [])
      || (e.AbaOut? && n.phase == WaitAba && e.r == n.r && e.v != 1 && n.r + 1 >= |n.pi|)
  {
    if e.GetVote? {
      VoteFails(c, n, e.sender, e.vote, e.pick);
    }
  }

  lemma VoteFails(c: Config, n: Node, sender: nat, vote: Vote, pick: Vote)
    requires n.phase != Failed
    ensures OnVote(c, n, sender, vote, pick).phase == Failed <==>
      && n.phase == Voting && n.r < |n.pi| && vote.a == n.pi[n.r] && vote.bit == 0
      && sender in n.commits && vote.a >= |n.commits[sender]|
  {
  }
}
