/**
 One node of the common subset of honeybadgerbft/core/commonsubset.py: its
 threads on the N broadcasts and the N binary agreements, and its main thread.
 */
module CommonSubset {
  import opened Options
  import opened ByteStrings
  import opened Tables

  datatype Config = Config(N: nat, f: nat)

  /** Joining(j): the main thread is at index j of its last loop. Failed: an assertion failed. */
  datatype Phase = Collecting | Joining(j: nat) | Returned | Failed

  /** given lists the calls aba_in[k](v); rbcDone and abaDone the threads that have ended. */
  datatype Node = Node(
    phase: Phase, abaInputted: seq<bool>, abaValues: seq<int>, abaDone: set<nat>,
    rbcValues: seq<Option<Bytes>>, rbcDone: set<nat>, given: seq<(nat, int)>)

  /** RbcEnd(j, None): the broadcast has raised. */
  datatype Event = RbcEnd(j: nat, out: Option<Bytes>) | AbaOut(j: nat, v: int) | Join

  function Init(c: Config): Node {
    Node(Collecting, seq(c.N, _ => false), seq(c.N, _ => 0), {}, seq(c.N, _ => None), {}, [])
  }

  predicate WellFormed(c: Config, n: Node) {
    |n.abaInputted| == c.N && |n.abaValues| == c.N && |n.rbcValues| == c.N && (n.phase.Joining? ==> n.phase.j <= c.N)
  }

  // _recv_rbc(j)
  function OnRbc(c: Config, n: Node, j: nat, out: Option<Bytes>): (n': Node)
    requires WellFormed(c, n)
    ensures WellFormed(c, n')
  {
    if j >= c.N || j in n.rbcDone then n
    else if out.None? then n.(rbcDone := n.rbcDone + {j})
    else
      var n1 := n.(rbcDone := n.rbcDone + {j}, rbcValues := n.rbcValues[j := out]);
      if n.abaInputted[j] then n1
      else n1.(abaInputted := n.abaInputted[j := true], given := n.given + [(j, 1)])
  }

  /** Input 0 for every agreement below k that has none yet. */
  function Zeros(inputted: seq<bool>, k: nat): (z: seq<(nat, int)>)
    requires k <= |inputted|
    ensures forall i :: 0 <= i < |z| ==> z[i].0 < k && !inputted[z[i].0] && z[i].1 == 0
    ensures forall i, j :: 0 <= i < j < |z| ==> z[i].0 != z[j].0
  {
    if k == 0 then [] else Zeros(inputted, k - 1) + if inputted[k - 1] then [] else [(k - 1, 0)]
  }

  // _recv_aba(j)
  function OnAba(c: Config, n: Node, j: nat, v: int): (n': Node)
    requires WellFormed(c, n)
    ensures WellFormed(c, n')
  {
    if j >= c.N || j in n.abaDone then n
    else
      var n1 := n.(abaDone := n.abaDone + {j}, abaValues := n.abaValues[j := v]);
      if Sum(n1.abaValues) >= c.N - c.f then
        n1.(abaInputted := seq(c.N, _ => true), given := n.given + Zeros(n.abaInputted, c.N))
      else n1
  }

  predicate AllDone(c: Config, done: set<nat>) {
    forall j: nat :: j < c.N ==> j in done
  }

  // The main thread: joinall and its assertion, then one index of the last loop.
  function OnJoin(c: Config, n: Node): (n': Node)
    requires WellFormed(c, n)
    ensures WellFormed(c, n')
  {
    match n.phase
    case Collecting =>
      if !AllDone(c, n.abaDone) then n
      else n.(phase := if Sum(n.abaValues) >= c.N - c.f then Joining(0) else Failed)
    case Joining(j) =>
      if j >= c.N then n.(phase := Returned)
      else if n.abaValues[j] == 0 then
        n.(phase := Joining(j + 1), rbcDone := n.rbcDone + {j}, rbcValues := n.rbcValues[j := None])
      else if j !in n.rbcDone then n
      else n.(phase := if n.rbcValues[j].Some? then Joining(j + 1) else Failed)
    case _ => n
  }

  function Step(c: Config, n: Node, e: Event): (n': Node)
    requires WellFormed(c, n)
    ensures WellFormed(c, n')
  {
    match e
    case RbcEnd(j, out) => OnRbc(c, n, j, out)
    case AbaOut(j, v) => OnAba(c, n, j, v)
    case Join => OnJoin(c, n)
  }

  /** The node after the events es. */
  function RunOf(c: Config, es: seq<Event>): (n: Node)
    ensures WellFormed(c, n)
  {
    if es == [] then Init(c) else Step(c, RunOf(c, es[..|es| - 1]), es[|es| - 1])
  }

  /** The code of the node. */
  class CommonSubsetProcess {
    const c: Config
    var phase: Phase
    const abaInputted: array<bool>
    const abaValues: array<int>
    const rbcValues: array<Option<Bytes>>
    var abaDone: set<nat>
    var rbcDone: set<nat>
    ghost var given: seq<(nat, int)>

    ghost predicate Valid()
      reads this
    {
      && abaInputted.Length == c.N && abaValues.Length == c.N && rbcValues.Length == c.N
      && (phase.Joining? ==> phase.j <= c.N)
    }

    ghost function View(): Node
      reads this, abaInputted, abaValues, rbcValues
    {
      Node(phase, abaInputted[..], abaValues[..], abaDone, rbcValues[..], rbcDone, given)
    }

    constructor (c: Config)
      ensures Valid() && View() == Init(c) && this.c == c
      ensures fresh(abaInputted) && fresh(abaValues) && fresh(rbcValues)
    {
      this.c, phase, abaDone, rbcDone, given := c, Collecting, {}, {}, [];
      abaInputted := new bool[c.N](_ => false);
      abaValues := new int[c.N](_ => 0);
      rbcValues := new Option<Bytes>[c.N](_ => None);
    }

    /** _recv_rbc(j), once rbc_out[j] has returned or raised; input is the call of aba_in[j], if any. */
    method RecvRbc(j: nat, out: Option<Bytes>) returns (input: Option<int>)
      requires Valid() && j < c.N && j !in rbcDone
      modifies this, abaInputted, rbcValues
      ensures Valid() && View() == OnRbc(c, old(View()), j, out)
      ensures given == old(given) + if input.Some? then [(j, input.value)] else []
    {
      input := None;
      rbcDone := rbcDone + {j};
      if out.None? {
        return;
      }
      rbcValues[j] := out;
      if !abaInputted[j] {
        abaInputted[j] := true;
        input := Some(1);
        given := given + [(j, 1)];
      }
    }

    method SumValues() returns (s: int)
      ensures s == Sum(abaValues[..])
    {
      s := 0;
      for i := 0 to abaValues.Length
        invariant s == Sum(abaValues[..i])
      {
        assert abaValues[..i + 1][..i] == abaValues[..i];
        s := s + abaValues[i];
      }
      assert abaValues[..abaValues.Length] == abaValues[..];
    }

    /** _recv_aba(j), once aba_out[j] has returned v; zeros lists the calls of aba_in, all with 0. */
    method RecvAba(j: nat, v: int) returns (zeros: seq<(nat, int)>)
      requires Valid() && j < c.N && j !in abaDone
      modifies this, abaInputted, abaValues
      ensures Valid() && View() == OnAba(c, old(View()), j, v)
      ensures given == old(given) + zeros
    {
      zeros := [];
      abaDone := abaDone + {j};
      abaValues[j] := v;
      var sum := SumValues();
      if sum >= c.N - c.f {
        zeros := GiveZeros();
      }
    }

    // Provide 0 to all other agreements.
    method GiveZeros() returns (zeros: seq<(nat, int)>)
      requires Valid()
      modifies abaInputted, `given
      ensures abaInputted[..] == seq(c.N, _ => true)
      ensures zeros == Zeros(old(abaInputted[..]), c.N) && given == old(given) + zeros
    {
      zeros := [];
      ghost var was := abaInputted[..];
      for k := 0 to c.N
        invariant Valid() && zeros == Zeros(was, k) && given == old(given) + zeros
        invariant forall i :: 0 <= i < k ==> abaInputted[i]
        invariant forall i :: k <= i < c.N ==> abaInputted[i] == was[i]
      {
        if !abaInputted[k] {
          abaInputted[k] := true;
          zeros := zeros + [(k, 0)];
          given := given + [(k, 0)];
        }
      }
    }

    /** The main thread, from one wait to the next: joinall, or index phase.j of the last loop. */
    method Resume()
      requires Valid()
      modifies this, rbcValues
      ensures Valid() && View() == OnJoin(c, old(View()))
    {
      if phase == Collecting {
        var done := forall j: nat | j < c.N :: j in abaDone;
        if done {
          var sum := SumValues();
          phase := if sum >= c.N - c.f then Joining(0) else Failed;
        }
      } else if phase.Joining? {
        var j := phase.j;
        if j >= c.N {
          phase := Returned;
        } else if abaValues[j] != 0 {
          if j in rbcDone {
            phase := if rbcValues[j].Some? then Joining(j + 1) else Failed;
          }
        } else {
          rbcDone := rbcDone + {j};
          rbcValues[j] := None;
          phase := Joining(j + 1);
        }
      }
    }
  }
}
