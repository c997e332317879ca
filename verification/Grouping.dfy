/** Grouping into a JavaScript Map, whose entries come back in the order in which their keys were first set. */
module Grouping {
  import opened Common
  import opened Sorting

  /** The elements of one group, in their order; an element without a key is in no group. */
  function Members<T, K(==)>(xs: seq<T>, key: T -> Option<K>, k: K): seq<T> {
    Filter(xs, x => key(x) == Some(k))
  }

  lemma MembersHaveNoRepeats<T, K>(xs: seq<T>, key: T -> Option<K>, k: K)
    requires Distinct(xs)
    ensures Distinct(Members(xs, key, k))
  {
    FilterHasNoRepeats(xs, x => key(x) == Some(k));
  }

  lemma NoMembers<T(!new), K(!new)>(xs: seq<T>, key: T -> Option<K>, k: K)
    requires k !in Keys(xs, key)
    ensures Members(xs, key, k) == []
  {
    FilterNone(xs, x => key(x) == Some(k));
  }

  /** The keys in the order in which they first appear. */
  function Keys<T(!new), K(==, !new)>(xs: seq<T>, key: T -> Option<K>): (keys: seq<K>)
    ensures Distinct(keys)
    ensures forall k :: k in keys <==> exists x :: x in xs && key(x) == Some(k)
  {
    if xs == [] then []
    else
      var before, last := Keys(xs[..|xs| - 1], key), xs[|xs| - 1];
      assert xs == xs[..|xs| - 1] + [last];
      assert forall x :: x in xs <==> x in xs[..|xs| - 1] || x == last;
      if key(last).None? || key(last).value in before then before else before + [key(last).value]
  }

  method GroupBy<T(!new), K(==, !new)>(xs: seq<T>, key: T -> Option<K>) returns (order: seq<K>, groups: map<K, seq<T>>)
    ensures order == Keys(xs, key)
    ensures forall k :: k in order ==> k in groups && groups[k] == Members(xs, key, k)
  {
    order, groups := [], map[];
    var i := 0;
    while i < |xs|
      invariant 0 <= i <= |xs|
      invariant order == Keys(xs[..i], key)
      invariant forall k :: k in groups <==> k in order
      invariant forall k :: Members(xs[..i], key, k) == if k in groups then groups[k] else []
    {
      OneMore(xs, key, i);
      var x := xs[i];
      i := i + 1;
      if key(x).None? {
        continue;
      }
      var k := key(x).value;
      if k !in groups {
        order := order + [k];
        groups := groups[k := []];
      }
      groups := groups[k := groups[k] + [x]];
    }
    assert xs[..i] == xs;
  }

  lemma OneMore<T(!new), K(!new)>(xs: seq<T>, key: T -> Option<K>, i: nat)
    requires i < |xs|
    ensures var x, before := xs[i], Keys(xs[..i], key);
            Keys(xs[..i + 1], key) == if key(x).None? || key(x).value in before then before else before + [key(x).value]
    ensures forall k ::
              Members(xs[..i + 1], key, k) == Members(xs[..i], key, k) + (if key(xs[i]) == Some(k) then [xs[i]] else [])
  {
    var next := xs[..i + 1];
    assert next[..|next| - 1] == xs[..i];
    assert next == xs[..i] + [xs[i]];
    forall k ensures Members(next, key, k) == Members(xs[..i], key, k)
      + (if key(xs[i]) == Some(k) then [xs[i]] else []) {
      FilterOneMore(xs[..i], xs[i], x => key(x) == Some(k));
    }
  }

  /** The parts of all keys, one after the other. */
  function Gather<K, T>(keys: seq<K>, part: K -> seq<T>): seq<T> {
    if keys == [] then [] else Gather(keys[..|keys| - 1], part) + part(keys[|keys| - 1])
  }

  lemma GatherOneMore<K, T>(keys: seq<K>, part: K -> seq<T>, i: nat)
    requires i < |keys|
    ensures Gather(keys[..i + 1], part) == Gather(keys[..i], part) + part(keys[i])
  {
    var next := keys[..i + 1];
    assert next[..|next| - 1] == keys[..i];
  }
}
