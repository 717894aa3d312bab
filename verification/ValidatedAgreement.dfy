/**
 One node of the validated agreement of dumbobft/core/validatedagreement.py: the
 threads that wait for the 2N consistent broadcasts, and the main thread with
 its loop over leaders, votes and biased binary agreements.
 */
module ValidatedAgreement {
  import opened Options
  import opened ByteStrings
  import opened Signatures
  import opened Tables
  import CB = ConsistentBroadcast

  /** cbc(j) is the input broadcast of node j. */
  datatype Config = Config(N: nat, f: nat, cbc: nat -> CB.Config)

  type Certified = (Bytes, Certificate)

  /** A ballot (a, bit, cbc_out); out is None for "Bottom". */
  datatype Vote = Vote(a: nat, bit: int, out: Option<Certified>)

  datatype Message = CommitInput(list: seq<int>) | CastVote(r: nat, vote: Vote)

  /** Voting: in the inner loop of round r. Failed: an index was out of range. */
  datatype Phase = WaitCbc | WaitCommit | WaitCoin | Voting | WaitAba | WaitOutput | Decided | Failed

  /** votes is votes[r]; abaInputs and abaOutputs are the values put into and taken from the agreements, by round. */
  datatype Node = Node(
    phase: Phase, cbcOutputs: map<nat, Certified>, delivered: set<nat>, commits: map<nat, seq<int>>,
    pi: seq<nat>, r: nat, a: nat, votes: set<(nat, Vote)>, abaInputs: seq<int>, abaOutputs: seq<int>,
    decided: Option<(nat, Bytes)>)

  /** accepted is predicate(m); pick is the ballot that the loop over votes[r] puts into cbc_outputs, if it does. */
  datatype Event =
    | CbcEnd(j: nat, out: Certified, accepted: bool)
    | CommitEnd(j: nat, list: seq<int>)
    | Proceed
    | Permutation(pi: seq<nat>)
    | GetVote(sender: nat, vote: Vote, pick: Vote)
    | AbaOut(r: nat, v: int)
    | GetOutput

  function Init(): Node {
    Node(WaitCbc, map[], {}, map[], [], 0, 0, {}, [], [], None)
  }

  // wait_for_cbc_to_continue(j)
  function OnCbc(n: Node, j: nat, out: Certified, accepted: bool): Node {
    if accepted && j !in n.cbcOutputs then n.(cbcOutputs := n.cbcOutputs[j := out], delivered := n.delivered + {j}) else n
  }

  // wait_for_commit_to_continue(j)
  function OnCommit(c: Config, n: Node, j: nat, list: seq<int>): Node {
    if Sum(list) >= c.N - c.f then n.(commits := n.commits[j := list]) else n
  }

  /** is_cbc_delivered as a list. */
  function Flags(c: Config, delivered: set<nat>): seq<int> {
    seq(c.N, j requires 0 <= j < c.N => if j in delivered then 1 else 0)
  }

  // The waits for N - f input broadcasts and for N - f commit broadcasts.
  function OnProceed(c: Config, n: Node): (Node, seq<Message>) {
    if n.phase == WaitCbc && |n.delivered| >= c.N - c.f then (n.(phase := WaitCommit), [CommitInput(Flags(c, n.delivered))])
    else if n.phase == WaitCommit && |n.commits| >= c.N - c.f then (n.(phase := WaitCoin), [])
    else (n, [])
  }

  // The top of the loop over r.
  function StartRound(n: Node): (Node, seq<Message>) {
    if n.r >= |n.pi| then (n.(phase := Failed), [])
    else
      var a := n.pi[n.r];
      var vote := if a in n.delivered && a in n.cbcOutputs then Vote(a, 1, Some(n.cbcOutputs[a])) else Vote(a, 0, None);
      (n.(phase := Voting, a := a, votes := {}), [CastVote(n.r, vote)])
  }

  /** A ballot for bit 1 whose certificate passes cbc_validate. */
  predicate Supports(c: Config, vote: Vote) {
    vote.bit == 1 && vote.out.Some? && CB.CbcValidate(c.cbc(vote.a), vote.out.value.0, vote.out.value.1)
  }

  /** A ballot for bit 0 against the commit list of its sender; None when that list is too short. */
  function Opposes(n: Node, sender: nat, vote: Vote): Option<bool> {
    if vote.bit != 0 || sender !in n.commits then Some(false)
    else if vote.a >= |n.commits[sender]| then None
    else Some(n.commits[sender][vote.a] == 0)
  }

  predicate HasOne(votes: set<(nat, Vote)>) {
    exists x :: x in votes && x.1.bit == 1
  }

  // A counted ballot for bit 1, with what it carries.
  predicate IsOne(votes: set<(nat, Vote)>, pick: Vote) {
    pick.bit == 1 && pick.out.Some? && exists x :: x in votes && x.1 == pick
  }

  // The ballot that the loop over votes puts into the queue: pick, if that is one, or any other.
  ghost function Chosen(votes: set<(nat, Vote)>, pick: Vote): Option<Certified>
    ensures Chosen(votes, pick).Some? ==> exists x :: x in votes && x.1.bit == 1 && x.1.out == Chosen(votes, pick)
  {
    if IsOne(votes, pick) then pick.out
    else if x :| x in votes && x.1.bit == 1 && x.1.out.Some? then x.1.out
    else None
  }

  // After the inner loop: the input of the agreement, and what goes into cbc_outputs[a].
  ghost function LeaveVotes(n: Node, pick: Vote): Node {
    var out := Chosen(n.votes, pick);
    n.(phase := WaitAba, abaInputs := n.abaInputs + [if HasOne(n.votes) then 1 else 0],
       cbcOutputs := if n.a !in n.delivered && n.a !in n.cbcOutputs && out.Some?
                     then n.cbcOutputs[n.a := out.value] else n.cbcOutputs)
  }

  // One turn of the inner loop; it overwrites a with that of the ballot.
  ghost function OnVote(c: Config, n: Node, sender: nat, vote: Vote, pick: Vote): Node {
    if n.phase != Voting || n.r >= |n.pi| then n
    else
      var n1 := n.(a := vote.a);
      var n2 :=
        if n.pi[n.r] != vote.a then n1
        else if Supports(c, vote) then n1.(votes := n.votes + {(sender, vote)})
        else
          match Opposes(n, sender, vote)
          case None => n1.(phase := Failed)
          case Some(counts) => if counts then n1.(votes := n.votes + {(sender, vote)}) else n1;
      if n2.phase == Voting && |n2.votes| >= c.N - c.f then LeaveVotes(n2, pick) else n2
  }

  // The agreement of round r has put v into aba_outputs[r].
  function OnAba(n: Node, r: nat, v: int): (Node, seq<Message>) {
    if n.phase != WaitAba || r != n.r then (n, [])
    else
      var n1 := n.(abaOutputs := n.abaOutputs + [v]);
      if v == 1 then (n1.(phase := WaitOutput), []) else StartRound(n1.(r := n.r + 1))
  }

  function OnPermutation(n: Node, pi: seq<nat>): (Node, seq<Message>) {
    if n.phase != WaitCoin then (n, []) else StartRound(n.(pi := pi, r := 0))
  }

  // decide(cbc_outputs[a].get()[0])
  function OnGet(n: Node): Node {
    if n.phase == WaitOutput && n.a in n.cbcOutputs then
      n.(phase := Decided, decided := Some((n.a, n.cbcOutputs[n.a].0)))
    else n
  }

  ghost function Step(c: Config, n: Node, e: Event): (Node, seq<Message>) {
    match e
    case CbcEnd(j, out, accepted) => (OnCbc(n, j, out, accepted), [])
    case CommitEnd(j, list) => (OnCommit(c, n, j, list), [])
    case Proceed => OnProceed(c, n)
    case Permutation(pi) => OnPermutation(n, pi)
    case GetVote(sender, vote, pick) => (OnVote(c, n, sender, vote, pick), [])
    case AbaOut(r, v) => OnAba(n, r, v)
    case GetOutput => (OnGet(n), [])
  }

  /** The node after the events es. */
  ghost function RunOf(c: Config, es: seq<Event>): Node {
    if es == [] then Init() else Step(c, RunOf(c, es[..|es| - 1]), es[|es| - 1]).0
  }

  /** The code of the node. */
  class ValidatedProcess {
    const c: Config
    var phase: Phase
    var cbcOutputs: map<nat, Certified>
    var isCbcDelivered: set<nat>
    var commitValues: map<nat, seq<int>>
    var pi: seq<nat>
    var r: nat
    var a: nat
    var votes: set<(nat, Vote)>
    var decided: Option<(nat, Bytes)>
    ghost var abaInputs: seq<int>
    ghost var abaOutputs: seq<int>

    ghost function View(): Node
      reads this
    {
      Node(phase, cbcOutputs, isCbcDelivered, commitValues, pi, r, a, votes, abaInputs, abaOutputs, decided)
    }

    constructor (c: Config)
      ensures View() == Init() && this.c == c
    {
      this.c, phase, cbcOutputs, isCbcDelivered, commitValues := c, WaitCbc, map[], {}, map[];
      pi, r, a, votes, decided, abaInputs, abaOutputs := [], 0, 0, {}, None, [], [];
    }

    /** wait_for_cbc_to_continue(j): broadcast j has returned out. */
    method RecvCbc(j: nat, out: Certified, accepted: bool)
      modifies `cbcOutputs, `isCbcDelivered
      ensures View() == OnCbc(old(View()), j, out, accepted)
    {
      if accepted {
        if j !in cbcOutputs {
          cbcOutputs := cbcOutputs[j := out];
          isCbcDelivered := isCbcDelivered + {j};
        }
      }
    }

    /** wait_for_commit_to_continue(j): commit broadcast j has returned list. */
    method RecvCommit(j: nat, list: seq<int>)
      modifies `commitValues
      ensures View() == OnCommit(c, old(View()), j, list)
    {
      var sum := 0;
      for i := 0 to |list|
        invariant sum == Sum(list[..i])
      {
        assert list[..i + 1][..i] == list[..i];
        sum := sum + list[i];
      }
      assert list[..|list|] == list;
      if sum >= c.N - c.f {
        commitValues := commitValues[j := list];
      }
    }

    /** The waits on wait_cbc_signal and on wait_commit_signal. */
    method Continue() returns (out: seq<Message>)
      modifies `phase
      ensures (View(), out) == OnProceed(c, old(View()))
    {
      out := [];
      if phase == WaitCbc && |isCbcDelivered| >= c.N - c.f {
        out := [CommitInput(Flags(c, isCbcDelivered))];
        phase := WaitCommit;
      } else if phase == WaitCommit && |commitValues| >= c.N - c.f {
        phase := WaitCoin;
      }
    }

    // The top of the loop over r: the leader and the ballot for it.
    method BeginRound() returns (out: seq<Message>)
      modifies `phase, `a, `votes
      ensures (View(), out) == StartRound(old(View()))
    {
      out := [];
      if r >= |pi| {
        phase := Failed;
        return;
      }
      a := pi[r];
      var vote := Vote(a, 0, None);
      if a in isCbcDelivered && a in cbcOutputs {
        vote := Vote(a, 1, Some(cbcOutputs[a]));
      }
      phase, votes := Voting, {};
      out := [CastVote(r, vote)];
    }

    /** The permutation coin has returned; perm is the permutation drawn from it. */
    method RecvPermutation(perm: seq<nat>) returns (out: seq<Message>)
      requires phase == WaitCoin
      modifies this
      ensures (View(), out) == OnPermutation(old(View()), perm)
    {
      pi, r := perm, 0;
      out := BeginRound();
    }

    // Whether the ballot is counted; bad when a commit list is too short.
    method CheckVote(sender: nat, vote: Vote) returns (counts: bool, bad: bool)
      requires phase == Voting && r < |pi|
      ensures counts <==> pi[r] == vote.a && (Supports(c, vote) || Opposes(View(), sender, vote) == Some(true))
      ensures bad <==> pi[r] == vote.a && !Supports(c, vote) && Opposes(View(), sender, vote) == None
    {
      counts, bad := false, false;
      if pi[r] != vote.a {
        return;
      }
      if vote.bit == 1 {
        if vote.out.Some? {
          var (m, sigmas) := vote.out.value;
          counts := CB.CbcValidate(c.cbc(vote.a), m, sigmas);
        }
      } else if vote.bit == 0 {
        if sender in commitValues {
          if vote.a >= |commitValues[sender]| {
            bad := true;
          } else {
            counts := commitValues[sender][vote.a] == 0;
          }
        }
      }
    }

    /** One turn of the inner loop; pick is the ballot that the loop over votes[r] used, input what went into aba_inputs[r]. */
    method RecvVote(sender: nat, vote: Vote) returns (input: Option<int>, ghost pick: Vote)
      requires phase == Voting && r < |pi|
      modifies this
      ensures View() == OnVote(c, old(View()), sender, vote, pick)
      ensures abaInputs == old(abaInputs) + if input.Some? then [input.value] else []
    {
      input, pick := None, vote;
      var counts, bad := CheckVote(sender, vote);
      a := vote.a;
      if bad {
        phase := Failed;
        return;
      }
      if counts {
        votes := votes + {(sender, vote)};
      }
      if |votes| >= c.N - c.f {
        var i;
        i, pick := FeedVotes();
        input := Some(i);
      }
    }

    // The inner loop is left: the loop over votes[r] gives the input of the agreement.
    method FeedVotes() returns (input: int, ghost pick: Vote)
      modifies `phase, `cbcOutputs, `abaInputs
      ensures View() == LeaveVotes(old(View()), pick)
      ensures abaInputs == old(abaInputs) + [input]
    {
      input, pick := PassOnes();
      phase := WaitAba;
      abaInputs := abaInputs + [input];
    }

    // The loop over votes[r].
    method PassOnes() returns (input: int, ghost pick: Vote)
      modifies `cbcOutputs
      ensures input == if HasOne(votes) then 1 else 0
      ensures var out := Chosen(votes, pick);
        cbcOutputs == if a !in isCbcDelivered && a !in old(cbcOutputs) && out.Some?
                      then old(cbcOutputs)[a := out.value] else old(cbcOutputs)
    {
      input, pick := 0, Vote(0, 0, None);
      var rest := votes;
      ghost var before := cbcOutputs;
      while rest != {}
        invariant rest <= votes && (input == 0 || input == 1)
        invariant input == 1 <==> HasOne(votes - rest)
        invariant cbcOutputs == before || Fed(before, pick)
        invariant cbcOutputs == before ==> a in isCbcDelivered || a in before || (Bottoms(votes - rest) && pick == Vote(0, 0, None))
        modifies `cbcOutputs
        decreases |rest|
      {
        var x :| x in rest;
        if x.1.bit == 1 {
          input := 1;
          if a !in isCbcDelivered && a !in cbcOutputs && x.1.out.Some? {
            cbcOutputs := cbcOutputs[a := x.1.out.value];
            pick := x.1;
          }
        }
        rest := rest - {x};
      }
      assert votes - rest == votes;
    }

    // pick went into cbc_outputs[a], which was empty.
    ghost predicate Fed(before: map<nat, Certified>, pick: Vote)
      reads this
    {
      && IsOne(votes, pick) && a !in isCbcDelivered && a !in before
      && cbcOutputs == before[a := pick.out.value]
    }

    ghost predicate Bottoms(some: set<(nat, Vote)>) {
      forall x :: x in some && x.1.bit == 1 ==> x.1.out.None?
    }

    /** aba_outputs[r] has returned v. */
    method RecvAba(v: int) returns (out: seq<Message>)
      requires phase == WaitAba
      modifies this
      ensures (View(), out) == OnAba(old(View()), old(r), v)
    {
      out := [];
      abaOutputs := abaOutputs + [v];
      if v == 1 {
        phase := WaitOutput;
      } else {
        r := r + 1;
        out := BeginRound();
      }
    }

    /** decide(cbc_outputs[a].get()[0]) */
    method Finish()
      requires phase == WaitOutput && a in cbcOutputs
      modifies `phase, `decided
      ensures View() == OnGet(old(View()))
    {
      decided := Some((a, cbcOutputs[a].0));
      phase := Decided;
    }
  }
}
