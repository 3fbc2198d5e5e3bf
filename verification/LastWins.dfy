/** Maps filled from a list in order, a later entry replacing an earlier one with
    the same key, and the array readers that fill them. */
module LastWins {
  import opened Wire
  import opened WireArrays

  function Add<K, V>(m: map<K, V>, entry: Option<(K, V)>): map<K, V> {
    match entry
    case None => m
    case Some((k, v)) => m[k := v]
  }

  function Fill<T, K, V>(xs: seq<T>, acc: map<K, V>, entry: T -> Option<(K, V)>): map<K, V> {
    if xs == [] then acc else Fill(xs[1..], Add(acc, entry(xs[0])), entry)
  }

  ghost predicate HasKey<T, K, V>(x: T, entry: T -> Option<(K, V)>, k: K) {
    entry(x).Some? && entry(x).value.0 == k
  }

  /** Entry `i` is the last one with key `k`. */
  ghost predicate IsLast<T, K, V>(xs: seq<T>, entry: T -> Option<(K, V)>, k: K, i: int) {
    && 0 <= i < |xs| && HasKey(xs[i], entry, k)
    && forall j :: i < j < |xs| ==> !HasKey(xs[j], entry, k)
  }

  ghost predicate Mentions<T, K, V>(xs: seq<T>, entry: T -> Option<(K, V)>, k: K) {
    exists i :: 0 <= i < |xs| && HasKey(xs[i], entry, k)
  }

  lemma {:induction false} FillKeys<T, K, V>(xs: seq<T>, acc: map<K, V>, entry: T -> Option<(K, V)>, k: K)
    ensures k in Fill(xs, acc, entry) <==> k in acc || Mentions(xs, entry, k)
  {
    if xs != [] {
      var acc' := Add(acc, entry(xs[0]));
      FillKeys(xs[1..], acc', entry, k);
      if Mentions(xs[1..], entry, k) {
        var i :| 0 <= i < |xs[1..]| && HasKey(xs[1..][i], entry, k);
        assert HasKey(xs[i + 1], entry, k);
      }
      if Mentions(xs, entry, k) && !HasKey(xs[0], entry, k) {
        var i :| 0 <= i < |xs| && HasKey(xs[i], entry, k);
        assert HasKey(xs[1..][i - 1], entry, k);
      }
    }
  }

  /** The value kept for a key is that of its last entry. */
  lemma {:induction false} FillValue<T, K, V>(xs: seq<T>, acc: map<K, V>, entry: T -> Option<(K, V)>, k: K, i: int)
    requires IsLast(xs, entry, k, i)
    ensures k in Fill(xs, acc, entry) && Fill(xs, acc, entry)[k] == entry(xs[i]).value.1
  {
    var acc' := Add(acc, entry(xs[0]));
    if i == 0 {
      forall j | 0 <= j < |xs[1..]|
        ensures !HasKey(xs[1..][j], entry, k)
      {
        assert xs[1..][j] == xs[j + 1];
      }
      FillUnmentioned(xs[1..], acc', entry, k);
    } else {
      forall j | i - 1 < j < |xs[1..]|
        ensures !HasKey(xs[1..][j], entry, k)
      {
        assert xs[1..][j] == xs[j + 1];
      }
      FillValue(xs[1..], acc', entry, k, i - 1);
    }
  }

  lemma {:induction false} FillUnmentioned<T, K, V>(xs: seq<T>, acc: map<K, V>, entry: T -> Option<(K, V)>, k: K)
    requires k in acc && forall j :: 0 <= j < |xs| ==> !HasKey(xs[j], entry, k)
    ensures k in Fill(xs, acc, entry) && Fill(xs, acc, entry)[k] == acc[k]
  {
    if xs != [] {
      assert !HasKey(xs[0], entry, k);
      forall j | 0 <= j < |xs[1..]|
        ensures !HasKey(xs[1..][j], entry, k)
      {
        assert xs[1..][j] == xs[j + 1];
      }
      FillUnmentioned(xs[1..], Add(acc, entry(xs[0])), entry, k);
    }
  }

  /** Every mentioned key has a last entry. */
  lemma {:induction false} LastExists<T, K, V>(xs: seq<T>, entry: T -> Option<(K, V)>, k: K) returns (i: int)
    requires Mentions(xs, entry, k)
    ensures IsLast(xs, entry, k, i)
  {
    var n := |xs| - 1;
    if HasKey(xs[n], entry, k) {
      i := n;
    } else {
      var j :| 0 <= j < |xs| && HasKey(xs[j], entry, k);
      assert HasKey(xs[..n][j], entry, k);
      i := LastExists(xs[..n], entry, k);
      forall j | i < j < |xs|
        ensures !HasKey(xs[j], entry, k)
      {
        if j < n {
          assert xs[j] == xs[..n][j];
        }
      }
    }
  }

  // ------------------------------------------------- reading printed entries

  ghost predicate AnyBad<T>(xs: seq<T>, bad: T -> bool) {
    exists i :: 0 <= i < |xs| && bad(xs[i])
  }

  /** The step adds a printed entry to the map, or fails on a bad one. */
  ghost predicate AddsPrinted<T(!new), K(!new), V(!new)>(
      step: (Bytes, map<K, V>) -> Result<(map<K, V>, Bytes)>, print_: T -> Bytes,
      valid: T -> bool, bad: T -> bool, entry: T -> Option<(K, V)>)
  {
    forall x, rest, acc {:trigger print_(x) + rest, Add(acc, entry(x))} :: valid(x) ==>
      step(print_(x) + rest, acc) == if bad(x) then Err(UnknownLeader) else Ok((Add(acc, entry(x)), rest))
  }

  lemma {:induction false} FillPrinted<T(!new), K(!new), V(!new)>(
      xs: seq<T>, rest: Bytes, acc: map<K, V>,
      step: (Bytes, map<K, V>) -> Result<(map<K, V>, Bytes)>, print_: T -> Bytes,
      valid: T -> bool, bad: T -> bool, entry: T -> Option<(K, V)>)
    requires AllValid(xs, valid) && AddsPrinted(step, print_, valid, bad, entry)
    ensures FoldMany(PrintMany(xs, print_) + rest, |xs|, acc, step)
         == if AnyBad(xs, bad) then Err(UnknownLeader) else Ok((Fill(xs, acc, entry), rest))
  {
    if xs == [] {
      assert [] + rest == rest;
    } else {
      var tail := PrintMany(xs[1..], print_) + rest;
      AppendAssoc(print_(xs[0]), PrintMany(xs[1..], print_), rest);
      var acc' := Add(acc, entry(xs[0]));
      assert valid(xs[0]);
      assert step(print_(xs[0]) + tail, acc) == if bad(xs[0]) then Err(UnknownLeader) else Ok((acc', tail));
      FillPrinted(xs[1..], rest, acc', step, print_, valid, bad, entry);
      if AnyBad(xs[1..], bad) {
        var i :| 0 <= i < |xs[1..]| && bad(xs[1..][i]);
        assert bad(xs[i + 1]);
      }
      if AnyBad(xs, bad) && !bad(xs[0]) {
        var i :| 0 <= i < |xs| && bad(xs[i]);
        assert bad(xs[1..][i - 1]);
      }
    }
  }
}
