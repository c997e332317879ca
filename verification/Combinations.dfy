/** apps/api/src/seating.service.ts: combinationsOfSize and findMinimalCombos. */
module Combinations {
  import opened Common
  import opened Sorting

  // ---------- combinationsOfSize ----------

  function Prepend<T>(head: T, tails: seq<seq<T>>): (r: seq<seq<T>>)
  {
    seq(|tails|, i requires 0 <= i < |tails| => [head] + tails[i])
  }

  /** First the combinations with the first item, then those without. */
  function Combos<T>(items: seq<T>, size: nat): seq<seq<T>> {
    if size == 0 then [[]]
    else if |items| < size then []
    else Prepend(items[0], Combos(items[1..], size - 1)) + Combos(items[1..], size)
  }

  /** What remains when the item at `i` heads its own combinations. */
  lemma CombosNext<T>(items: seq<T>, i: nat, size: nat)
    requires size >= 1 && i + size <= |items|
    ensures Combos(items[i..], size) == Prepend(items[i], Combos(items[i + 1..], size - 1))
              + Combos(items[i + 1..], size)
  {
  }

  function Singles<T>(items: seq<T>): (r: seq<seq<T>>)
    ensures |r| == |items| && forall i :: 0 <= i < |r| ==> r[i] == [items[i]]
  {
    seq(|items|, i requires 0 <= i < |items| => [items[i]])
  }

  lemma {:induction false} SinglesAreCombos<T>(items: seq<T>, size: nat)
    requires size == 1
    ensures Combos(items, size) == Singles(items)
  {
    if items != [] {
      SinglesAreCombos(items[1..], size);
      assert Combos(items[1..], 0) == [[]];
      assert Prepend(items[0], [[]])[0] == [items[0]];
    }
  }

  lemma TooFew<T>(items: seq<T>, i: nat, size: nat)
    requires i <= |items| < i + size
    ensures Combos(items[i..], size) == []
  {
  }

  method CombinationsOfSize<T>(items: seq<T>, size: nat) returns (results: seq<seq<T>>)
    requires size >= 1
    ensures results == Combos(items, size)
    decreases size
  {
    if size == 1 {
      SinglesAreCombos(items, size);
      return Singles(items);
    }
    results := [];
    var i := 0;
    ghost var all, left := Combos(items, size), Combos(items, size);
    assert items[0..] == items;
    while i <= |items| - size
      invariant 0 <= i <= |items|
      invariant left == Combos(items[i..], size) && all == results + left
    {
      var rest := items[i + 1..];
      var tailCombos := CombinationsOfSize(rest, size - 1);
      CombosNext(items, i, size);
      Regroup(results, Prepend(items[i], tailCombos), Combos(rest, size));
      left := Combos(rest, size);
      results := PrependAll(results, items[i], tailCombos);
      i := i + 1;
    }
    TooFew(items, i, size);
  }

  /** The inner loop: each tail is pushed behind the head. */
  method PrependAll<T>(results: seq<seq<T>>, head: T, tails: seq<seq<T>>) returns (r: seq<seq<T>>)
    ensures r == results + Prepend(head, tails)
  {
    r := results;
    var j := 0;
    while j < |tails|
      invariant 0 <= j <= |tails|
      invariant r == results + Prepend(head, tails[..j])
    {
      PrependOneMore(head, tails, j);
      r := r + [[head] + tails[j]];
      j := j + 1;
    }
    assert tails[..j] == tails;
  }

  lemma PrependOneMore<T>(head: T, tails: seq<seq<T>>, j: nat)
    requires j < |tails|
    ensures Prepend(head, tails[..j + 1]) == Prepend(head, tails[..j]) + [[head] + tails[j]]
  {
  }

  // ---------- every combination, once ----------

  ghost predicate Rising(xs: seq<nat>) {
    forall i, j :: 0 <= i < j < |xs| ==> xs[i] < xs[j]
  }

  /** Positions `from` to `end - 1`. */
  function Positions(from: nat, end: nat): (xs: seq<nat>)
    requires from <= end
    ensures |xs| == end - from && forall i :: 0 <= i < |xs| ==> xs[i] == from + i
  {
    seq(end - from, i requires 0 <= i => from + i)
  }

  /** `c` picks `size` positions out of `from` to `end - 1`, in order. */
  ghost predicate Picks(c: seq<nat>, size: nat, from: nat, end: nat) {
    |c| == size && Rising(c) && forall i :: 0 <= i < |c| ==> from <= c[i] < end
  }

  lemma PositionsTail(from: nat, end: nat)
    requires from < end
    ensures Positions(from, end)[0] == from && Positions(from, end)[1..] == Positions(from + 1, end)
  {
  }

  /** A pick starts with the first position or is a pick from the rest. */
  lemma PicksSplit(c: seq<nat>, size: nat, from: nat, end: nat)
    requires size > 0
    ensures Picks(c, size, from, end) <==>
              || (c != [] && c[0] == from < end && Picks(c[1..], size - 1, from + 1, end))
              || Picks(c, size, from + 1, end)
  {
  }

  lemma {:induction false} CombosAreThePicks(from: nat, end: nat, size: nat, c: seq<nat>)
    requires from <= end
    ensures c in Combos(Positions(from, end), size) <==> Picks(c, size, from, end)
    decreases end - from, size
  {
    if size > 0 && end - from < size {
      if Picks(c, size, from, end) {
        PicksFit(c, from, end);
      }
    } else if size > 0 {
      CombosAreThePicks(from + 1, end, size, c);
      if c != [] {
        CombosAreThePicks(from + 1, end, size - 1, c[1..]);
      }
      CombosSplit(from, end, size, c);
      PicksSplit(c, size, from, end);
    }
  }

  lemma CombosSplit(from: nat, end: nat, size: nat, c: seq<nat>)
    requires 0 < size <= end - from
    ensures c in Combos(Positions(from, end), size) <==>
              || (c != [] && c[0] == from && c[1..] in Combos(Positions(from + 1, end), size - 1))
              || c in Combos(Positions(from + 1, end), size)
  {
    PositionsTail(from, end);
    InPrepend(from, Combos(Positions(from + 1, end), size - 1), c);
  }

  lemma InPrepend<T>(head: T, tails: seq<seq<T>>, c: seq<T>)
    ensures c in Prepend(head, tails) <==> c != [] && c[0] == head && c[1..] in tails
  {
    var r := Prepend(head, tails);
    if c in r {
      var i :| 0 <= i < |r| && r[i] == c;
      assert c[1..] == tails[i];
    }
    if c != [] && c[0] == head && c[1..] in tails {
      var i :| 0 <= i < |tails| && tails[i] == c[1..];
      assert r[i] == c;
    }
  }

  /** A rising sequence fits between its bounds. */
  lemma {:induction false} PicksFit(c: seq<nat>, from: nat, end: nat)
    requires from <= end && Picks(c, |c|, from, end)
    ensures |c| <= end - from
    decreases |c|
  {
    if c != [] {
      PicksFit(c[1..], c[0] + 1, end);
    }
  }

  lemma {:induction false} CombosAreDistinct(from: nat, end: nat, size: nat)
    requires from <= end
    ensures Distinct(Combos(Positions(from, end), size))
    decreases end - from, size
  {
    if size != 0 && end - from >= size {
      PositionsTail(from, end);
      var rest := Positions(from + 1, end);
      CombosAreDistinct(from + 1, end, size - 1);
      CombosAreDistinct(from + 1, end, size);
      var with, without := Prepend(from, Combos(rest, size - 1)), Combos(rest, size);
      forall i, j | 0 <= i < |with| && 0 <= j < |without| ensures with[i] != without[j] {
        assert without[j] in without;
        CombosAreThePicks(from + 1, end, size, without[j]);
        assert with[i][0] == from;
      }
      forall i, j | 0 <= i < j < |with| ensures with[i] != with[j] {
        assert with[i][1..] == Combos(rest, size - 1)[i] && with[j][1..] == Combos(rest, size - 1)[j];
      }
    }
  }

  /** Pascal's rule. */
  function Choose(n: nat, k: nat): nat {
    if k == 0 then 1 else if n < k then 0 else Choose(n - 1, k - 1) + Choose(n - 1, k)
  }

  lemma {:induction false} CombosAreCounted<T>(items: seq<T>, size: nat)
    ensures |Combos(items, size)| == Choose(|items|, size)
    decreases |items|, size
  {
    if size != 0 && |items| >= size {
      CombosAreCounted(items[1..], size - 1);
      CombosAreCounted(items[1..], size);
    }
  }

  ghost predicate Within(c: seq<nat>, n: nat) {
    forall i :: 0 <= i < |c| ==> c[i] < n
  }

  ghost function Select<T>(items: seq<T>, c: seq<nat>): (r: seq<T>)
    requires Within(c, |items|)
    ensures |r| == |c| && forall i :: 0 <= i < |r| ==> r[i] == items[c[i]]
  {
    seq(|c|, i requires 0 <= i < |c| => items[c[i]])
  }

  ghost function SelectAll<T>(items: seq<T>, cs: seq<seq<nat>>): (r: seq<seq<T>>)
    requires forall j :: 0 <= j < |cs| ==> Within(cs[j], |items|)
    ensures |r| == |cs| && forall j :: 0 <= j < |r| ==> r[j] == Select(items, cs[j])
  {
    seq(|cs|, j requires 0 <= j < |cs| => Select(items, cs[j]))
  }

  lemma PicksInRange(from: nat, end: nat, size: nat)
    requires from <= end
    ensures var ps := Combos(Positions(from, end), size);
            forall j :: 0 <= j < |ps| ==> Picks(ps[j], size, from, end) && Within(ps[j], end)
  {
    var ps := Combos(Positions(from, end), size);
    forall j | 0 <= j < |ps| ensures Picks(ps[j], size, from, end) {
      assert ps[j] in ps;
      CombosAreThePicks(from, end, size, ps[j]);
    }
  }

  /** Combinations of items are combinations of their positions, in the same order. */
  lemma {:induction false} CombosByPosition<T>(items: seq<T>, from: nat, size: nat)
    requires from <= |items|
    ensures var ps := Combos(Positions(from, |items|), size);
            && (forall j :: 0 <= j < |ps| ==> Within(ps[j], |items|))
            && Combos(items[from..], size) == SelectAll(items, ps)
    decreases |items| - from, size
  {
    PicksInRange(from, |items|, size);
    if size == 0 {
      var ps := Combos(Positions(from, |items|), size);
      assert Select(items, ps[0]) == [];
    } else if |items| - from >= size {
      PositionsTail(from, |items|);
      var rest := Positions(from + 1, |items|);
      CombosByPosition(items, from + 1, size - 1);
      CombosByPosition(items, from + 1, size);
      CombosNext(items, from, size);
      SelectAllPrepended(items, from, Combos(rest, size - 1));
      SelectAllAppended(items, Prepend(from, Combos(rest, size - 1)), Combos(rest, size));
    }
  }

  lemma SelectAllPrepended<T>(items: seq<T>, from: nat, ps: seq<seq<nat>>)
    requires from < |items| && forall j :: 0 <= j < |ps| ==> Within(ps[j], |items|)
    ensures var with := Prepend(from, ps);
            && (forall j :: 0 <= j < |with| ==> Within(with[j], |items|))
            && SelectAll(items, with) == Prepend(items[from], SelectAll(items, ps))
  {
    var with := Prepend(from, ps);
    forall j | 0 <= j < |ps|
      ensures Within(with[j], |items|) && Select(items, with[j]) == [items[from]] + Select(items, ps[j])
    {
      assert with[j] == [from] + ps[j];
    }
  }

  lemma SelectAllAppended<T>(items: seq<T>, a: seq<seq<nat>>, b: seq<seq<nat>>)
    requires forall j :: 0 <= j < |a| ==> Within(a[j], |items|)
    requires forall j :: 0 <= j < |b| ==> Within(b[j], |items|)
    ensures SelectAll(items, a + b) == SelectAll(items, a) + SelectAll(items, b)
  {
  }

  /**
   * The combinations of a given size: each choice of positions yields exactly one, at exactly one
   * place in the result, and there are as many as there are choices.
   */
  lemma CombinationsAreExact<T>(items: seq<T>, size: nat)
    ensures |Combos(items, size)| == Choose(|items|, size)
    ensures forall c :: Picks(c, size, 0, |items|) ==> Select(items, c) in Combos(items, size)
    ensures forall x :: x in Combos(items, size) ==> exists c :: Picks(c, size, 0, |items|) && x == Select(items, c)
    ensures var ps := Combos(Positions(0, |items|), size);
            && Distinct(ps) && |ps| == |Combos(items, size)|
            && forall i :: 0 <= i < |ps| ==>
              Picks(ps[i], size, 0, |items|) && Combos(items, size)[i] == Select(items, ps[i])
  {
    CombosAreCounted(items, size);
    CombosAreDistinct(0, |items|, size);
    AtPositions(items, size, Combos(Positions(0, |items|), size));
    forall c | Picks(c, size, 0, |items|) ensures Select(items, c) in Combos(items, size) {
      PicksAreReached(items, size, c);
    }
    forall x | x in Combos(items, size) ensures exists c :: Picks(c, size, 0, |items|) && x == Select(items, c) {
      CombosAreDrawn(items, size, x);
    }
  }

  lemma AtPositions<T>(items: seq<T>, size: nat, ps: seq<seq<nat>>)
    requires ps == Combos(Positions(0, |items|), size)
    ensures |ps| == |Combos(items, size)|
    ensures forall i :: 0 <= i < |ps| ==>
              Picks(ps[i], size, 0, |items|) && Combos(items, size)[i] == Select(items, ps[i])
  {
    assert items[0..] == items;
    PicksInRange(0, |items|, size);
    CombosByPosition(items, 0, size);
  }

  lemma PicksAreReached<T>(items: seq<T>, size: nat, c: seq<nat>)
    requires Picks(c, size, 0, |items|)
    ensures Select(items, c) in Combos(items, size)
  {
    var cs, ps := Combos(items, size), Combos(Positions(0, |items|), size);
    AtPositions(items, size, ps);
    CombosAreThePicks(0, |items|, size, c);
    var i :| 0 <= i < |ps| && ps[i] == c;
    assert cs[i] == Select(items, c);
  }

  lemma CombosAreDrawn<T>(items: seq<T>, size: nat, x: seq<T>)
    requires x in Combos(items, size)
    ensures |x| == size && exists c :: Picks(c, size, 0, |items|) && x == Select(items, c)
  {
    var cs, ps := Combos(items, size), Combos(Positions(0, |items|), size);
    AtPositions(items, size, ps);
    var i :| 0 <= i < |cs| && cs[i] == x;
    assert Picks(ps[i], size, 0, |items|);
  }

  // ---------- findMinimalCombos ----------

  /** The combinations of one size that cover the party, in order; `covers` compares the seats with the party. */
  function CoveringOfSize<T>(covers: seq<T> -> bool, items: seq<T>, size: nat): seq<seq<T>> {
    Filter(Combos(items, size), covers)
  }

  method FindMinimalCombos<T>(covers: seq<T> -> bool, items: seq<T>) returns (results: seq<seq<T>>)
    ensures results == MinimalCombos(covers, items)
  {
    results := [];
    var size := 2;
    while size <= |items|
      invariant 2 <= size <= Max(|items| + 1, 2)
      invariant results == [] && MinimalCombos(covers, items) == MinimalFrom(covers, items, size)
    {
      var all := CombinationsOfSize(items, size);
      var combos := Filter(all, covers);
      if |combos| > 0 {
        results := results + combos;
        break;
      }
      size := size + 1;
    }
  }

  function MinimalFrom<T>(covers: seq<T> -> bool, items: seq<T>, size: nat): seq<seq<T>>
    decreases |items| + 1 - size
  {
    if size > |items| then []
    else
      var combos := CoveringOfSize(covers, items, size);
      if combos != [] then combos else MinimalFrom(covers, items, size + 1)
  }

  function MinimalCombos<T>(covers: seq<T> -> bool, items: seq<T>): seq<seq<T>> {
    MinimalFrom(covers, items, 2)
  }

  /** No combination of at least two and fewer than `size` items covers the party. */
  ghost predicate NoneSmaller<T>(covers: seq<T> -> bool, items: seq<T>, size: nat) {
    forall c, k :: 2 <= k < size && Picks(c, k, 0, |items|) ==> !covers(Select(items, c))
  }

  /** All the covering picks of the least size from two on that has any, or none at all. */
  ghost predicate LeastCovers<T>(covers: seq<T> -> bool, items: seq<T>, r: seq<seq<T>>) {
    if r == [] then NoneSmaller(covers, items, |items| + 1)
    else exists k :: 2 <= k <= |items| && NoneSmaller(covers, items, k) && CoversOfSize(covers, items, k, r)
  }

  /** The covering picks of one size. */
  ghost predicate CoversOfSize<T>(covers: seq<T> -> bool, items: seq<T>, size: nat, r: seq<seq<T>>) {
    && (forall c :: Picks(c, size, 0, |items|) && covers(Select(items, c)) ==> Select(items, c) in r)
    && (forall x :: x in r ==> covers(x) && exists c :: Picks(c, size, 0, |items|) && x == Select(items, c))
  }

  lemma CoveringIsExact<T>(covers: seq<T> -> bool, items: seq<T>, size: nat)
    ensures CoversOfSize(covers, items, size, CoveringOfSize(covers, items, size))
  {
    CombinationsAreExact(items, size);
  }

  lemma NoneOneMore<T>(covers: seq<T> -> bool, items: seq<T>, size: nat)
    requires NoneSmaller(covers, items, size) && CoveringOfSize(covers, items, size) == []
    ensures NoneSmaller(covers, items, size + 1)
  {
    CoveringIsExact(covers, items, size);
    assert CoversOfSize(covers, items, size, []);
  }

  lemma {:induction false} MinimalFromIsLeast<T>(covers: seq<T> -> bool, items: seq<T>, size: nat)
    requires 2 <= size && NoneSmaller(covers, items, size)
    ensures LeastCovers(covers, items, MinimalFrom(covers, items, size))
    decreases |items| + 1 - size
  {
    if size > |items| {
      assert NoneSmaller(covers, items, |items| + 1);
    } else {
      CoveringIsExact(covers, items, size);
      if CoveringOfSize(covers, items, size) == [] {
        NoneOneMore(covers, items, size);
        MinimalFromIsLeast(covers, items, size + 1);
      }
    }
  }

  /**
   * The result is all the covering combinations of the least size from two on that has any; it is
   * empty only for a group of fewer than two, or one that does not cover the party all together.
   */
  lemma MinimalIsExact<T>(covers: seq<T> -> bool, items: seq<T>)
    ensures LeastCovers(covers, items, MinimalCombos(covers, items))
    ensures MinimalCombos(covers, items) == [] && |items| >= 2 ==> !covers(items)
  {
    MinimalFromIsLeast(covers, items, 2);
    if MinimalCombos(covers, items) == [] && |items| >= 2 {
      var all := Positions(0, |items|);
      assert Picks(all, |items|, 0, |items|);
      assert Select(items, all) == items;
    }
  }
}
