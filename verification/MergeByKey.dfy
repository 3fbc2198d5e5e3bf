/** Merging two lists by key, the first list winning: what `mergeBrokers` (by node
    id) and `mergeTopics` (by name) compute with their `seen` maps. */
module MergeByKey {
  import opened Picking

  ghost function KeysOf<T, K>(xs: seq<T>, key: T -> K): set<K> {
    set x | x in xs :: key(x)
  }

  /** The entries of `xs` whose key was not seen before, each key once. */
  ghost function Unseen<T, K>(xs: seq<T>, key: T -> K, seen: set<K>): seq<T> {
    if xs == [] then []
    else if key(xs[0]) in seen then Unseen(xs[1..], key, seen)
    else [xs[0]] + Unseen(xs[1..], key, seen + {key(xs[0])})
  }

  ghost function Merge<T, K>(primary: seq<T>, secondary: seq<T>, key: T -> K): seq<T> {
    primary + Unseen(secondary, key, KeysOf(primary, key))
  }

  /** Position of the first entry with key `k`; the length when there is none. */
  ghost function FirstWith<T, K>(xs: seq<T>, key: T -> K, k: K): (i: nat)
    ensures i <= |xs|
    ensures i < |xs| ==> key(xs[i]) == k
    ensures forall j :: 0 <= j < i ==> key(xs[j]) != k
  {
    if xs == [] || key(xs[0]) == k then 0 else 1 + FirstWith(xs[1..], key, k)
  }

  ghost predicate IsFirst<T, K>(xs: seq<T>, key: T -> K, x: T) {
    var i := FirstWith(xs, key, key(x));
    i < |xs| && xs[i] == x
  }

  ghost predicate InOrder<T, K>(xs: seq<T>, key: T -> K, x: T, y: T) {
    FirstWith(xs, key, key(x)) < FirstWith(xs, key, key(y))
  }

  lemma InKeys<T, K>(xs: seq<T>, key: T -> K, k: K)
    ensures k in KeysOf(xs, key) <==> exists i :: 0 <= i < |xs| && key(xs[i]) == k
  {
    if k in KeysOf(xs, key) {
      var x :| x in xs && key(x) == k;
      var i :| 0 <= i < |xs| && xs[i] == x;
    }
  }

  lemma KeysOfAppend<T, K>(xs: seq<T>, ys: seq<T>, key: T -> K)
    ensures KeysOf(xs + ys, key) == KeysOf(xs, key) + KeysOf(ys, key)
  {
    assert forall x :: x in xs + ys <==> x in xs || x in ys;
  }

  lemma KeysOfOne<T, K>(x: T, xs: seq<T>, key: T -> K)
    ensures KeysOf([x] + xs, key) == {key(x)} + KeysOf(xs, key)
  {
    KeysOfAppend([x], xs, key);
    assert x in [x];
  }

  lemma {:induction false} UnseenKeys<T, K>(xs: seq<T>, key: T -> K, seen: set<K>)
    ensures KeysOf(Unseen(xs, key, seen), key) == KeysOf(xs, key) - seen
  {
    if xs != [] {
      assert xs == [xs[0]] + xs[1..];
      KeysOfOne(xs[0], xs[1..], key);
      var seen' := if key(xs[0]) in seen then seen else seen + {key(xs[0])};
      UnseenKeys(xs[1..], key, seen');
      KeysOfOne(xs[0], Unseen(xs[1..], key, seen'), key);
    }
  }

  /** Of several entries with one key the first is kept. */
  lemma {:induction false} UnseenAreFirst<T, K>(xs: seq<T>, key: T -> K, seen: set<K>, j: nat)
    requires j < |Unseen(xs, key, seen)|
    ensures var x := Unseen(xs, key, seen)[j]; IsFirst(xs, key, x) && key(x) !in seen
  {
    if key(xs[0]) in seen {
      UnseenAreFirst(xs[1..], key, seen, j);
    } else if j > 0 {
      UnseenAreFirst(xs[1..], key, seen + {key(xs[0])}, j - 1);
    }
  }

  /** Entries are kept in order, so no key is kept twice. */
  lemma {:induction false} UnseenInOrder<T, K>(xs: seq<T>, key: T -> K, seen: set<K>, i: nat, j: nat)
    requires i < j < |Unseen(xs, key, seen)|
    ensures InOrder(xs, key, Unseen(xs, key, seen)[i], Unseen(xs, key, seen)[j])
  {
    if key(xs[0]) in seen {
      UnseenInOrder(xs[1..], key, seen, i, j);
      UnseenAreFirst(xs[1..], key, seen, i);
      UnseenAreFirst(xs[1..], key, seen, j);
    } else {
      var seen' := seen + {key(xs[0])};
      UnseenAreFirst(xs[1..], key, seen', j - 1);
      if i > 0 {
        UnseenAreFirst(xs[1..], key, seen', i - 1);
        UnseenInOrder(xs[1..], key, seen', i - 1, j - 1);
      }
    }
  }

  /** The merge keeps the first list as it is and appends exactly the entries with
      new keys: each new key once, by its first entry, in order. */
  lemma MergeMeaning<T, K>(primary: seq<T>, secondary: seq<T>, key: T -> K)
    ensures primary <= Merge(primary, secondary, key)
    ensures KeysOf(Merge(primary, secondary, key), key) == KeysOf(primary, key) + KeysOf(secondary, key)
    ensures var r := Merge(primary, secondary, key);
            forall j :: |primary| <= j < |r| ==> IsFirst(secondary, key, r[j]) && key(r[j]) !in KeysOf(primary, key)
    ensures var r := Merge(primary, secondary, key);
            forall i, j :: |primary| <= i < j < |r| ==> InOrder(secondary, key, r[i], r[j])
  {
    var seen, r := KeysOf(primary, key), Merge(primary, secondary, key);
    UnseenKeys(secondary, key, seen);
    KeysOfAppend(primary, Unseen(secondary, key, seen), key);
    forall j | |primary| <= j < |r|
      ensures IsFirst(secondary, key, r[j]) && key(r[j]) !in seen
    {
      UnseenAreFirst(secondary, key, seen, j - |primary|);
    }
    forall i, j | |primary| <= i < j < |r|
      ensures InOrder(secondary, key, r[i], r[j])
    {
      UnseenInOrder(secondary, key, seen, i - |primary|, j - |primary|);
    }
  }

  /** The second list contributes nothing exactly when it has no new key. */
  lemma MergeAddsNothing<T, K>(primary: seq<T>, secondary: seq<T>, key: T -> K)
    ensures Merge(primary, secondary, key) == primary <==> KeysOf(secondary, key) <= KeysOf(primary, key)
  {
    var seen := KeysOf(primary, key);
    var added := Unseen(secondary, key, seen);
    UnseenKeys(secondary, key, seen);
    if added == [] {
      assert primary + added == primary;
      forall k | k in KeysOf(secondary, key)
        ensures k in seen
      {
        assert k !in KeysOf(added, key);
      }
    } else {
      assert added[0] in added && key(added[0]) in KeysOf(added, key);
      assert |Merge(primary, secondary, key)| > |primary|;
    }
  }

  /** Dropping repeated keys first changes nothing. */
  lemma {:induction false} UnseenOfUnseen<T, K>(xs: seq<T>, key: T -> K, seen: set<K>, seen': set<K>)
    requires seen <= seen'
    ensures Unseen(Unseen(xs, key, seen), key, seen') == Unseen(xs, key, seen')
  {
    if xs != [] {
      if key(xs[0]) in seen {
        UnseenOfUnseen(xs[1..], key, seen, seen');
      } else {
        var rest := Unseen(xs[1..], key, seen + {key(xs[0])});
        assert ([xs[0]] + rest)[1..] == rest;
        if key(xs[0]) in seen' {
          UnseenOfUnseen(xs[1..], key, seen + {key(xs[0])}, seen');
        } else {
          UnseenOfUnseen(xs[1..], key, seen + {key(xs[0])}, seen' + {key(xs[0])});
        }
      }
    }
  }

  /** A list without repeated or seen keys is kept whole. */
  lemma {:induction false} UnseenOfDistinct<T, K>(xs: seq<T>, key: T -> K, seen: set<K>)
    requires forall i, j :: 0 <= i < j < |xs| ==> key(xs[i]) != key(xs[j])
    requires forall i :: 0 <= i < |xs| ==> key(xs[i]) !in seen
    ensures Unseen(xs, key, seen) == xs
  {
    if xs != [] {
      UnseenOfDistinct(xs[1..], key, seen + {key(xs[0])});
      assert xs == [xs[0]] + xs[1..];
    }
  }

  /** Invariants of the merging loop, after `i` entries of the second list. */
  lemma {:induction false} UnseenSnoc<T, K>(xs: seq<T>, key: T -> K, seen: set<K>, x: T)
    ensures Unseen(xs + [x], key, seen)
         == Unseen(xs, key, seen) + (if key(x) in seen + KeysOf(xs, key) then [] else [x])
  {
    if xs == [] {
      assert (xs + [x])[1..] == [];
      assert Unseen([], key, seen) == [] && Unseen([], key, seen + {key(x)}) == [];
    } else {
      assert (xs + [x])[1..] == xs[1..] + [x] && (xs + [x])[0] == xs[0];
      var seen' := if key(xs[0]) in seen then seen else seen + {key(xs[0])};
      UnseenSnoc(xs[1..], key, seen', x);
      assert seen + KeysOf(xs, key) == seen' + KeysOf(xs[1..], key) by {
        assert forall y :: y in xs <==> y == xs[0] || y in xs[1..];
      }
    }
  }

  /** No earlier entry has the key of entry `j`, and it was not seen before. */
  ghost predicate IsNew<T, K>(xs: seq<T>, key: T -> K, seen: set<K>, j: nat)
    requires j < |xs|
  {
    key(xs[j]) !in seen && forall i :: 0 <= i < j ==> key(xs[i]) != key(xs[j])
  }

  lemma NewSnoc<T, K>(xs: seq<T>, key: T -> K, seen: set<K>, j: nat)
    requires j < |xs|
    ensures j < |xs| - 1 ==> IsNew(xs, key, seen, j) == IsNew(xs[..|xs| - 1], key, seen, j)
    ensures j == |xs| - 1 ==> (IsNew(xs, key, seen, j) <==> key(xs[j]) !in seen + KeysOf(xs[..j], key))
  {
    if j == |xs| - 1 {
      forall i | 0 <= i < j ensures key(xs[i]) in KeysOf(xs[..j], key) {
        assert xs[..j][i] == xs[i];
      }
    }
  }

  /** Which entries are kept, by position: exactly the new ones, in order. */
  lemma {:induction false} UnseenAt<T, K>(xs: seq<T>, key: T -> K, seen: set<K>) returns (at: seq<nat>)
    ensures Picks(Unseen(xs, key, seen), xs, at)
    ensures forall j :: 0 <= j < |xs| ==> (j in at <==> IsNew(xs, key, seen, j))
  {
    at := [];
    if xs != [] {
      var past, last := xs[..|xs| - 1], |xs| - 1;
      at := UnseenAt(past, key, seen);
      assert xs == past + [xs[last]];
      UnseenSnoc(past, key, seen, xs[last]);
      PicksSnoc(Unseen(past, key, seen), past, at, xs[last]);
      forall j: nat | j < |xs| { NewSnoc(xs, key, seen, j); }
      if IsNew(xs, key, seen, last) {
        at := at + [last];
      }
    }
  }

  /** Both merging loops of the source, with the key as a parameter. */
  method MergeLists<T, K(==)>(primary: seq<T>, secondary: seq<T>, key: T -> K) returns (merged: seq<T>)
    ensures merged == Merge(primary, secondary, key)
  {
    var seen: set<K> := {};
    merged := [];
    for i := 0 to |primary|
      invariant merged == primary[..i] && seen == KeysOf(primary[..i], key)
    {
      assert primary[..i + 1] == primary[..i] + [primary[i]];
      seen := seen + {key(primary[i])};
      merged := merged + [primary[i]];
    }
    assert primary[..|primary|] == primary;
    ghost var primaryKeys := seen;
    for i := 0 to |secondary|
      invariant merged == primary + Unseen(secondary[..i], key, primaryKeys)
      invariant seen == primaryKeys + KeysOf(secondary[..i], key)
    {
      var x := secondary[i];
      assert secondary[..i + 1] == secondary[..i] + [x];
      UnseenSnoc(secondary[..i], key, primaryKeys, x);
      if key(x) !in seen {
        seen := seen + {key(x)};
        merged := merged + [x];
      }
    }
    assert secondary[..|secondary|] == secondary;
  }
}
