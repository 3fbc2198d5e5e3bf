/** Subsequences by position: what a filtering loop keeps, and from where. */
module Picking {
  predicate Increasing(at: seq<nat>) {
    forall i, j :: 0 <= i < j < |at| ==> at[i] < at[j]
  }

  /** `kept` is the entries of `xs` at the positions `at`, in order. */
  predicate Picks<T(==)>(kept: seq<T>, xs: seq<T>, at: seq<nat>) {
    && |at| == |kept| && Increasing(at)
    && forall k :: 0 <= k < |at| ==> at[k] < |xs| && kept[k] == xs[at[k]]
  }

  lemma PicksSnoc<T>(kept: seq<T>, xs: seq<T>, at: seq<nat>, x: T)
    requires Picks(kept, xs, at)
    ensures Picks(kept, xs + [x], at)
    ensures Picks(kept + [x], xs + [x], at + [|xs|])
  {
  }
}
