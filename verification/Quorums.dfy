/** N nodes, at most f of them Byzantine, N >= 3f + 1: what quorums have in common. */
module Quorums {
  import opened FiniteSets

  /** The nodes are 0, ..., N - 1; those in honest follow the protocol. */
  datatype Faults = Faults(N: nat, f: nat, honest: set<nat>)

  predicate Resilient(F: Faults) {
    F.N >= 3 * F.f + 1 && F.honest <= Below(F.N) && |F.honest| >= F.N - F.f
  }

  lemma HonestPart(F: Faults, Q: set<nat>)
    requires Resilient(F) && Q <= Below(F.N)
    ensures |Q * F.honest| >= |Q| - F.f
  {
    Overlap(Q, F.honest, Below(F.N));
  }

  lemma HonestMember(F: Faults, Q: set<nat>) returns (q: nat)
    requires Resilient(F) && Q <= Below(F.N) && |Q| >= F.f + 1
    ensures q in Q && q in F.honest
  {
    HonestPart(F, Q);
    assert Q * F.honest != {};
    q :| q in Q * F.honest;
  }

  lemma HonestInBoth(F: Faults, A: set<nat>, B: set<nat>) returns (q: nat)
    requires Resilient(F) && A <= Below(F.N) && B <= Below(F.N)
    requires |A| >= F.N - F.f && |B| >= F.N - F.f
    ensures q in A && q in B && q in F.honest
  {
    Overlap(A, B, Below(F.N));
    q := HonestMember(F, A * B);
  }

  /** Recorded senders of m: nodes, of which the honest ones have sent it. */
  ghost predicate Senders<M(!new)>(F: Faults, sent: set<(nat, M)>, S: set<nat>, m: M) {
    S <= Below(F.N) && forall q :: q in S && q in F.honest ==> (q, m) in sent
  }

  lemma SendersAdd<M(!new)>(F: Faults, sent: set<(nat, M)>, S: set<nat>, m: M, from: nat)
    requires Senders(F, sent, S, m) && from < F.N && (from in F.honest ==> (from, m) in sent)
    ensures Senders(F, sent, S + {from}, m) && |S| <= |S + {from}|
  {
    SubsetSize(S, S + {from});
  }
}
