/** Sliding windows over logs of times: pruning, and what the distance between
    entries says about how many fit in a window. */
module SlidingWindow {
  import opened Picking

  /** The entries after `cutoff`, in order. */
  function After(times: seq<int>, cutoff: int): seq<int> {
    if times == [] then []
    else
      var kept := After(times[..|times| - 1], cutoff);
      if times[|times| - 1] > cutoff then kept + [times[|times| - 1]] else kept
  }

  /** By position: exactly the entries later than the cutoff, in order. */
  lemma {:induction false} AfterAt(times: seq<int>, cutoff: int) returns (at: seq<nat>)
    ensures Picks(After(times, cutoff), times, at)
    ensures forall j :: 0 <= j < |times| ==> (j in at <==> times[j] > cutoff)
  {
    at := [];
    if times != [] {
      var last := |times| - 1;
      at := AfterAt(times[..last], cutoff);
      PicksSnoc(After(times[..last], cutoff), times[..last], at, times[last]);
      assert times == times[..last] + [times[last]];
      if times[last] > cutoff {
        at := at + [last];
      }
    }
  }

  function AddIf(added: bool, times: seq<int>, t: int): seq<int> {
    if added then times + [t] else times
  }

  lemma AfterSnoc(times: seq<int>, t: int, cutoff: int)
    ensures After(times + [t], cutoff) == AddIf(t > cutoff, After(times, cutoff), t)
  {
    assert (times + [t])[..|times|] == times;
  }

  /** Pruning with a later cutoff forgets nothing that was not to be forgotten. */
  lemma {:induction false} AfterAfter(times: seq<int>, cutoff: int, cutoff': int)
    requires cutoff <= cutoff'
    ensures After(After(times, cutoff), cutoff') == After(times, cutoff')
  {
    if times != [] {
      var past, t := times[..|times| - 1], times[|times| - 1];
      AfterAfter(past, cutoff, cutoff');
      if t > cutoff {
        AfterSnoc(After(past, cutoff), t, cutoff');
      }
    }
  }

  predicate Sorted(times: seq<int>) {
    forall i, j :: 0 <= i < j < |times| ==> times[i] <= times[j]
  }

  lemma {:induction false} AfterCons(t: int, times: seq<int>, cutoff: int)
    ensures After([t] + times, cutoff) == (if t > cutoff then [t] else []) + After(times, cutoff)
  {
    if times == [] {
      assert [t][..0] == [];
    } else {
      var past, last := times[..|times| - 1], times[|times| - 1];
      AfterCons(t, past, cutoff);
      assert [t] + times == [t] + past + [last];
      AfterSnoc([t] + past, last, cutoff);
    }
  }

  /** From the first entry after the cutoff on. */
  function SuffixAfter(times: seq<int>, cutoff: int): seq<int> {
    if times == [] then [] else if times[0] > cutoff then times else SuffixAfter(times[1..], cutoff)
  }

  /** Cutting a suffix is filtering, for as long as the log stays sorted. */
  lemma {:induction false} SuffixIsAfter(times: seq<int>, cutoff: int)
    requires Sorted(times)
    ensures SuffixAfter(times, cutoff) == After(times, cutoff)
  {
    if times != [] {
      assert times == [times[0]] + times[1..];
      AfterCons(times[0], times[1..], cutoff);
      SuffixIsAfter(times[1..], cutoff);
      if times[0] > cutoff && |times| > 1 {
        assert SuffixAfter(times[1..], cutoff) == times[1..];
      }
    }
  }

  lemma {:induction false} AfterSorted(log: seq<int>, cutoff: int)
    requires Sorted(log)
    ensures Sorted(After(log, cutoff)) && |After(log, cutoff)| <= |log|
    ensures forall i :: 0 <= i < |After(log, cutoff)| ==> log != [] && After(log, cutoff)[i] <= log[|log| - 1]
  {
    if log != [] {
      AfterSorted(log[..|log| - 1], cutoff);
    }
  }

  /** Cutting a suffix of what an earlier cut left is filtering the whole log. */
  lemma PrunedAgain(log: seq<int>, cutoff: int, cutoff': int)
    requires Sorted(log) && cutoff <= cutoff'
    ensures SuffixAfter(After(log, cutoff), cutoff') == After(log, cutoff')
    ensures |After(log, cutoff')| <= |After(log, cutoff)|
  {
    AfterSorted(log, cutoff);
    AfterSorted(After(log, cutoff), cutoff');
    SuffixIsAfter(After(log, cutoff), cutoff');
    AfterAfter(log, cutoff, cutoff');
  }

  /** With fewer than `n` entries after the cutoff, the last `n` are not all after it. */
  lemma {:induction false} FewAfter(times: seq<int>, cutoff: int, n: nat)
    requires Sorted(times) && |After(times, cutoff)| < n <= |times|
    ensures times[|times| - n] <= cutoff
  {
    var past := times[..|times| - 1];
    if times[|times| - 1] > cutoff && n > 1 {
      FewAfter(past, cutoff, n - 1);
    }
  }

  /** Entries `gap` places apart are at least a whole window apart. */
  ghost predicate Spaced(log: seq<int>, gap: nat, window: int) {
    forall i, j :: 0 <= i < j < |log| && j == i + gap ==> log[j] - log[i] >= window
  }

  /** How many times lie in the half-open interval from `lo` to `hi`. */
  function Within(times: seq<int>, lo: int, hi: int): nat {
    if times == [] then 0
    else Within(times[..|times| - 1], lo, hi) + (if lo <= times[|times| - 1] < hi then 1 else 0)
  }

  lemma {:induction false} WithinAtMost(times: seq<int>, lo: int, hi: int, n: nat)
    requires n <= |times| && forall i :: 0 <= i < n ==> times[i] < lo
    ensures Within(times, lo, hi) <= |times| - n
  {
    if |times| > n {
      WithinAtMost(times[..|times| - 1], lo, hi, n);
    } else if n > 0 {
      WithinAtMost(times[..|times| - 1], lo, hi, n - 1);
    }
  }

  /** Then no window, wherever it starts, holds more than `gap` of them. */
  lemma {:induction false} SpacedBound(log: seq<int>, gap: nat, window: int, from: int)
    requires gap > 0 && Sorted(log) && Spaced(log, gap, window)
    ensures Within(log, from, from + window) <= gap
  {
    if |log| <= gap {
      WithinAtMost(log, from, from + window, 0);
    } else {
      var last := |log| - 1;
      if log[last] >= from + window {
        SpacedBound(log[..last], gap, window, from);
      } else {
        assert log[last] - log[last - gap] >= window;
        WithinAtMost(log, from, from + window, last - gap + 1);
      }
    }
  }

  lemma WithinSnoc(times: seq<int>, t: int, lo: int, hi: int)
    ensures Within(times + [t], lo, hi) == Within(times, lo, hi) + (if lo <= t < hi then 1 else 0)
  {
    assert (times + [t])[..|times|] == times;
  }
}
