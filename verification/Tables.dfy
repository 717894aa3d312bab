/** Lookups in defaultdicts of sets, sums and ends of lists. */
module Tables {

  /** m[k] of a defaultdict whose missing entries are empty sets. */
  function At<K, T>(m: map<K, set<T>>, k: K): set<T> {
    if k in m then m[k] else {}
  }

  function Sum(s: seq<int>): int {
    if s == [] then 0 else Sum(s[..|s| - 1]) + s[|s| - 1]
  }

  lemma SplitLast<T>(a: seq<T>, b: seq<T>)
    requires b != []
    ensures a + b == (a + b[..|b| - 1]) + [b[|b| - 1]]
  {
  }

  lemma SplitNone<T>(a: seq<T>)
    ensures a + [] == a
  {
  }
}
