/** Sequences without repetitions, and searching in sequences. */
module Sequences {
  predicate Distinct<T(==)>(s: seq<T>) {
    forall i, j :: 0 <= i < j < |s| ==> s[i] != s[j]
  }

  predicate OccursAt<T(==)>(text: seq<T>, what: seq<T>, k: nat) {
    k + |what| <= |text| && text[k..k + |what|] == what
  }

  /** The first occurrence of `what` at `from` or later, or -1. */
  function Find<T(==)>(text: seq<T>, what: seq<T>, from: nat): (r: int)
    ensures r == -1 || (from <= r && OccursAt(text, what, r))
    ensures forall k :: from <= k && (r == -1 || k < r) ==> !OccursAt(text, what, k)
    decreases |text| - from
  {
    if from + |what| > |text| then -1
    else if text[from..from + |what|] == what then from
    else Find(text, what, from + 1)
  }
}
