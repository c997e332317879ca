/**
 * Array.prototype.sort with a comparator that orders by an integer key. It is stable, which is
 * what insertion from the right reproduces.
 */
module Sorting {
  import opened Common

  ghost predicate SortedBy<T>(xs: seq<T>, key: T -> int) {
    forall i, j :: 0 <= i < j < |xs| ==> key(xs[i]) <= key(xs[j])
  }

  function Insert<T>(x: T, xs: seq<T>, key: T -> int): (r: seq<T>)
    ensures multiset(r) == multiset{x} + multiset(xs)
  {
    if xs == [] then [x]
    else if key(x) <= key(xs[0]) then [x] + xs
    else
      assert xs == [xs[0]] + xs[1..];
      [xs[0]] + Insert(x, xs[1..], key)
  }

  lemma {:induction false} InsertSorted<T>(x: T, xs: seq<T>, key: T -> int)
    requires SortedBy(xs, key)
    ensures SortedBy(Insert(x, xs, key), key)
  {
    if xs != [] && key(x) > key(xs[0]) {
      var rest := Insert(x, xs[1..], key);
      InsertSorted(x, xs[1..], key);
      forall j | 0 <= j < |rest| ensures key(xs[0]) <= key(rest[j]) {
        assert rest[j] in multiset(rest);
        assert rest[j] == x || rest[j] in xs[1..];
      }
    }
  }

  function Sort<T>(xs: seq<T>, key: T -> int): (r: seq<T>)
    ensures SortedBy(r, key)
    ensures multiset(r) == multiset(xs)
  {
    if xs == [] then []
    else
      var tail := Sort(xs[1..], key);
      InsertSorted(xs[0], tail, key);
      assert xs == [xs[0]] + xs[1..];
      Insert(xs[0], tail, key)
  }

  lemma SortLength<T>(xs: seq<T>, key: T -> int)
    ensures |Sort(xs, key)| == |xs|
  {
    assert |multiset(Sort(xs, key))| == |multiset(xs)|;
  }

  lemma SortedElements<T>(xs: seq<T>, key: T -> int)
    ensures forall x :: x in Sort(xs, key) <==> x in xs
  {
    forall x ensures x in Sort(xs, key) <==> x in xs {
      assert x in Sort(xs, key) <==> x in multiset(Sort(xs, key));
    }
  }

  /** The elements a predicate picks, in their order. */
  function Filter<T>(xs: seq<T>, keep: T -> bool): (r: seq<T>)
    ensures forall x :: x in r ==> x in xs && keep(x)
    ensures forall x :: x in xs && keep(x) ==> x in r
  {
    if xs == [] then []
    else
      var rest := Filter(xs[1..], keep);
      if keep(xs[0]) then [xs[0]] + rest else rest
  }

  ghost function Places<T>(xs: seq<T>, keep: T -> bool): (places: set<nat>)
    ensures forall i: nat :: i in places <==> i < |xs| && keep(xs[i])
  {
    set i: nat | i < |xs| && keep(xs[i])
  }

  lemma PlacesOneMore<T>(xs: seq<T>, x: T, keep: T -> bool)
    ensures |Places(xs + [x], keep)| == |Places(xs, keep)| + if keep(x) then 1 else 0
  {
    assert Places(xs + [x], keep) == Places(xs, keep) + if keep(x) then {|xs|} else {};
  }

  /** The filter keeps as many elements as there are places with one to keep. */
  lemma {:induction false} FilterCount<T>(xs: seq<T>, keep: T -> bool)
    ensures |Filter(xs, keep)| == |Places(xs, keep)|
  {
    if xs == [] {
      assert Places(xs, keep) == {};
    } else {
      var init, x := xs[..|xs| - 1], xs[|xs| - 1];
      FilterCount(init, keep);
      assert xs == init + [x];
      FilterOneMore(init, x, keep);
      PlacesOneMore(init, x, keep);
    }
  }

  function WithKey<T>(key: T -> int, k: int): T -> bool {
    (x: T) => key(x) == k
  }

  lemma {:induction false} FilterInserted<T>(x: T, xs: seq<T>, key: T -> int, k: int)
    requires SortedBy(xs, key)
    ensures Filter(Insert(x, xs, key), WithKey(key, k)) == Filter([x] + xs, WithKey(key, k))
  {
    var keep := WithKey(key, k);
    assert ([x] + xs)[1..] == xs;
    if xs != [] && key(x) > key(xs[0]) {
      FilterInserted(x, xs[1..], key, k);
      assert ([x] + xs[1..])[1..] == xs[1..];
      var rest := Insert(x, xs[1..], key);
      assert ([xs[0]] + rest)[1..] == rest;
      if key(x) == k {
        assert !keep(xs[0]);
      }
    }
  }

  /** Stability: elements with equal keys keep their order. */
  lemma {:induction false} SortIsStable<T>(xs: seq<T>, key: T -> int, k: int)
    ensures Filter(Sort(xs, key), WithKey(key, k)) == Filter(xs, WithKey(key, k))
  {
    if xs != [] {
      var keep := WithKey(key, k);
      SortIsStable(xs[1..], key, k);
      var tail := Sort(xs[1..], key);
      FilterInserted(xs[0], tail, key, k);
      assert ([xs[0]] + tail)[1..] == tail;
      assert Filter([xs[0]] + tail, keep) == Filter(xs, keep);
    }
  }

  ghost predicate Pairwise<T>(xs: seq<T>, related: (T, T) -> bool) {
    forall i, j :: 0 <= i < j < |xs| ==> related(xs[i], xs[j])
  }

  ghost predicate PairwiseInTies<T>(xs: seq<T>, key: T -> int, related: (T, T) -> bool) {
    forall i, j :: 0 <= i < j < |xs| && key(xs[i]) == key(xs[j]) ==> related(xs[i], xs[j])
  }

  /** A pairwise relation of the input survives between elements with equal keys. */
  lemma {:induction false} SortKeeps<T>(xs: seq<T>, key: T -> int, related: (T, T) -> bool)
    requires Pairwise(xs, related)
    ensures PairwiseInTies(Sort(xs, key), key, related)
  {
    if xs != [] {
      var tail := Sort(xs[1..], key);
      SortKeeps(xs[1..], key, related);
      forall y | y in tail ensures related(xs[0], y) {
        assert y in multiset(tail);
        var j :| 0 <= j < |xs[1..]| && xs[1..][j] == y;
        assert y == xs[j + 1];
      }
      InsertKeeps(xs[0], tail, key, related);
    }
  }

  lemma {:induction false} InsertKeeps<T>(x: T, xs: seq<T>, key: T -> int, related: (T, T) -> bool)
    requires forall y :: y in xs ==> related(x, y)
    requires PairwiseInTies(xs, key, related)
    ensures PairwiseInTies(Insert(x, xs, key), key, related)
  {
    if xs != [] && key(x) > key(xs[0]) {
      var rest := Insert(x, xs[1..], key);
      InsertKeeps(x, xs[1..], key, related);
      forall y | y in rest && key(xs[0]) == key(y) ensures related(xs[0], y) {
        assert y in multiset(rest);
        var j :| 0 <= j < |xs[1..]| && xs[1..][j] == y;
        assert y == xs[j + 1];
      }
    } else {
      assert forall j :: 0 <= j < |xs| ==> xs[j] in xs;
    }
  }

  lemma {:induction false} FilterAppended<T>(xs: seq<T>, ys: seq<T>, keep: T -> bool)
    ensures Filter(xs + ys, keep) == Filter(xs, keep) + Filter(ys, keep)
  {
    if xs == [] {
      assert xs + ys == ys;
    } else {
      FilterAppended(xs[1..], ys, keep);
      assert (xs + ys)[0] == xs[0] && (xs + ys)[1..] == xs[1..] + ys;
      Regroup([xs[0]], Filter(xs[1..], keep), Filter(ys, keep));
    }
  }

  /** Two lists that hold the same elements with each key, in the same order, sort alike. */
  lemma SortForgetsTheRest<T>(xs: seq<T>, ys: seq<T>, key: T -> int)
    requires forall k: int :: Filter(xs, WithKey(key, k)) == Filter(ys, WithKey(key, k))
    ensures Sort(xs, key) == Sort(ys, key)
  {
    var a, b := Sort(xs, key), Sort(ys, key);
    forall k: int ensures Filter(a, WithKey(key, k)) == Filter(b, WithKey(key, k)) {
      SortIsStable(xs, key, k);
      SortIsStable(ys, key, k);
    }
    SortedByParts(a, b, key);
  }

  lemma {:induction false} SortedByParts<T>(a: seq<T>, b: seq<T>, key: T -> int)
    requires SortedBy(a, key) && SortedBy(b, key)
    requires forall k: int :: Filter(a, WithKey(key, k)) == Filter(b, WithKey(key, k))
    ensures a == b
  {
    if a == [] || b == [] {
      if a != [] { HeadIsKept(a, key); }
      if b != [] { HeadIsKept(b, key); }
    } else {
      HeadsAgree(a, b, key);
      forall k: int ensures Filter(a[1..], WithKey(key, k)) == Filter(b[1..], WithKey(key, k)) {
        var keep := WithKey(key, k);
        assert Filter(a, keep) == Filter(b, keep);
        if keep(a[0]) {
          assert Filter(a, keep)[1..] == Filter(a[1..], keep);
          assert Filter(b, keep)[1..] == Filter(b[1..], keep);
        }
      }
      SortedByParts(a[1..], b[1..], key);
    }
  }

  lemma HeadIsKept<T>(a: seq<T>, key: T -> int)
    requires a != []
    ensures Filter(a, WithKey(key, key(a[0]))) != []
  {
  }

  lemma HeadsAgree<T>(a: seq<T>, b: seq<T>, key: T -> int)
    requires SortedBy(a, key) && SortedBy(b, key) && a != [] && b != []
    requires forall k: int :: Filter(a, WithKey(key, k)) == Filter(b, WithKey(key, k))
    ensures a[0] == b[0]
  {
    assert a[0] in Filter(a, WithKey(key, key(a[0])));
    assert a[0] in Filter(b, WithKey(key, key(a[0])));
    assert b[0] in Filter(b, WithKey(key, key(b[0])));
    assert b[0] in Filter(a, WithKey(key, key(b[0])));
    assert key(a[0]) == key(b[0]);
    assert Filter(a, WithKey(key, key(a[0])))[0] == a[0];
    assert Filter(b, WithKey(key, key(a[0])))[0] == b[0];
  }

  lemma {:induction false} FilterNone<T>(xs: seq<T>, keep: T -> bool)
    requires forall x :: x in xs ==> !keep(x)
    ensures Filter(xs, keep) == []
  {
    if xs != [] {
      FilterNone(xs[1..], keep);
    }
  }

  lemma FilterOneMore<T>(xs: seq<T>, x: T, keep: T -> bool)
    ensures Filter(xs + [x], keep) == Filter(xs, keep) + (if keep(x) then [x] else [])
  {
    FilterAppended(xs, [x], keep);
    assert [x][1..] == [];
  }

  lemma {:induction false} FilterBoth<T>(xs: seq<T>, p: T -> bool, q: T -> bool, both: T -> bool)
    requires forall x :: both(x) == (p(x) && q(x))
    ensures Filter(Filter(xs, p), q) == Filter(xs, both)
  {
    if xs != [] {
      FilterBoth(xs[1..], p, q, both);
    }
  }

  lemma {:induction false} FilterPermutes<T>(xs: seq<T>, ys: seq<T>, keep: T -> bool)
    requires multiset(xs) == multiset(ys)
    ensures multiset(Filter(xs, keep)) == multiset(Filter(ys, keep))
  {
    if xs == [] {
      assert |multiset(xs)| == |multiset(ys)|;
    } else {
      assert xs[0] in multiset(ys);
      var i :| 0 <= i < |ys| && ys[i] == xs[0];
      var left, right := ys[..i], ys[i + 1..];
      assert xs == [xs[0]] + xs[1..];
      assert ys == left + ([ys[i]] + right);
      assert multiset(xs[1..]) == multiset(xs) - multiset{xs[0]};
      assert multiset(left + right) == multiset(ys) - multiset{ys[i]};
      FilterPermutes(xs[1..], left + right, keep);
      FilterAppended(left, right, keep);
      FilterAppended(left, [ys[i]] + right, keep);
    }
  }

  // ---------- permutations without repetition ----------

  lemma {:induction false} CountedOnce<T>(xs: seq<T>, x: T)
    requires Distinct(xs)
    ensures multiset(xs)[x] <= 1
  {
    if xs != [] {
      CountedOnce(xs[1..], x);
      assert xs == [xs[0]] + xs[1..];
      assert xs[0] !in xs[1..];
    }
  }

  lemma CountAppended<T>(xs: seq<T>, ys: seq<T>, x: T)
    ensures multiset(xs + ys)[x] == multiset(xs)[x] + multiset(ys)[x]
  {
  }

  lemma CountedTwice<T>(ys: seq<T>, i: nat, j: nat)
    requires i < j < |ys| && ys[i] == ys[j]
    ensures multiset(ys)[ys[i]] >= 2
  {
    assert ys == ys[..j] + ys[j..];
    assert ys[i] in ys[..j] && ys[i] in ys[j..];
  }

  lemma PermutationHasNoRepeats<T>(xs: seq<T>, ys: seq<T>)
    requires multiset(xs) == multiset(ys) && Distinct(xs)
    ensures Distinct(ys)
  {
    forall i, j | 0 <= i < j < |ys| ensures ys[i] != ys[j] {
      if ys[i] == ys[j] {
        CountedTwice(ys, i, j);
        CountedOnce(xs, ys[i]);
      }
    }
  }

  lemma {:induction false} FilterHasNoRepeats<T>(xs: seq<T>, keep: T -> bool)
    requires Distinct(xs)
    ensures Distinct(Filter(xs, keep))
  {
    if xs != [] {
      FilterHasNoRepeats(xs[1..], keep);
      assert xs[0] !in xs[1..];
      assert xs[0] !in Filter(xs[1..], keep);
    }
  }
}
