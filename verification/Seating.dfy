/** apps/api/src/seating.service.ts: which tables are suggested for a reservation. */
module Seating {
  import opened Common
  import opened Rows
  import opened Conflicts
  import opened Assignments
  import opened Sorting
  import opened Grouping
  import opened Combinations
  import opened Ledger
  import Effects

  datatype Suggestion = Suggestion(tables: seq<TableId>, capacity: nat, wearTotal: nat, wearMax: nat, excess: nat)

  const SCORE_WEAR_MAX := 100_000
  const SCORE_WEAR_TOTAL := 1_000
  const SCORE_SPLIT := 100
  const SCORE_EXCESS := 1

  function Score(g: Suggestion): int {
    g.wearMax * SCORE_WEAR_MAX + g.wearTotal * SCORE_WEAR_TOTAL + |g.tables| * SCORE_SPLIT + g.excess * SCORE_EXCESS
  }

  /**
   * The weights put the wear of the most used table first, then the total wear, then the number of
   * tables, then the spare seats, as long as none of the later ones outgrows its weight.
   */
  lemma ScoreIsLexicographic(a: Suggestion, b: Suggestion)
    requires a.wearTotal < 100 && b.wearTotal < 100 && |a.tables| < 10 && |b.tables| < 10 && a.excess < 100
              && b.excess < 100
    ensures Score(a) < Score(b) <==>
              || a.wearMax < b.wearMax
              || (a.wearMax == b.wearMax && (
                    || a.wearTotal < b.wearTotal
                    || (a.wearTotal == b.wearTotal && (
                          || |a.tables| < |b.tables|
                          || (|a.tables| == |b.tables| && a.excess < b.excess)))))
  {
  }

  /** The ranges are the exact ones: at each bound the later quantities make up for one step of the earlier. */
  lemma ScoreTrades(g: Suggestion, more: seq<TableId>)
    ensures |more| == 1 ==> Score(g.(tables := g.tables + more)) == Score(g.(excess := g.excess + 100))
    ensures |more| == 10 ==> Score(g.(tables := g.tables + more)) == Score(g.(wearTotal := g.wearTotal + 1))
    ensures Score(g.(wearMax := g.wearMax + 1)) == Score(g.(wearTotal := g.wearTotal + 100))
    ensures g.wearMax == 0 && g.wearTotal == 0 && |g.tables| == 1 ==> Score(g) == 100 + g.excess
  {
  }

  // ---------- what the database answers ----------

  /** The venue's tables, each once; the database returns them by capacity, then label. */
  ghost predicate Lists(s: State, venue: VenueId, listing: seq<TableId>) {
    Distinct(listing) && forall t :: t in listing <==> TableInVenue(s, venue, t)
  }

  /** Nothing in the reservation's slot stands in the table's way. */
  predicate Available(s: State, id: ReservationId, t: TableId)
    requires id in s.reservations
  {
    SlotIsFree(s, SeatingQuery(id, s.reservations[id], {t}))
  }

  /** countTableUsage: on how many other active reservations of the day the table is in use. */
  function Wear(s: State, id: ReservationId, t: TableId): nat
    requires id in s.reservations
  {
    |Users(s, id, t)|
  }

  function Users(s: State, id: ReservationId, t: TableId): set<ReservationId>
    requires id in s.reservations
  {
    var r := s.reservations[id];
    set other | other in s.reservations && other != id
      && s.reservations[other].slot.venue == r.slot.venue && s.reservations[other].slot.date == r.slot.date
      && Blocking(s.reservations[other].status) && t in s.reservations[other].rows
  }

  /** The other active reservations of the day that have the table. */
  ghost function WearingTable(s: State, id: ReservationId, t: TableId): set<ReservationId>
    requires id in s.reservations
  {
    set other | other in s.reservations && other != id
      && s.reservations[other].slot.venue == s.reservations[id].slot.venue
      && s.reservations[other].slot.date == s.reservations[id].slot.date
      && (s.reservations[other].status == PENDING || s.reservations[other].status == CONFIRMED
          || s.reservations[other].status == SEATED)
      && t in s.reservations[other].rows
  }

  function Capacity(s: State, t: TableId): nat {
    if t in s.tables then s.tables[t].capacity else 0
  }

  function LabelRank(s: State, t: TableId): int {
    if t in s.tables then s.tables[t].labelRank else 0
  }

  function Group(s: State, t: TableId): Option<nat> {
    if t in s.tables then s.tables[t].joinGroup else None
  }

  // ---------- buildSuggestion ----------

  function Sum(xs: seq<nat>): nat {
    if xs == [] then 0 else xs[0] + Sum(xs[1..])
  }

  function Largest(xs: seq<nat>): (r: nat)
    ensures forall x :: x in xs ==> x <= r
    ensures xs != [] ==> r in xs
  {
    if xs == [] then 0
    else
      assert xs == [xs[0]] + xs[1..];
      Max(xs[0], Largest(xs[1..]))
  }

  function BuildSuggestion(s: State, id: ReservationId, tables: seq<TableId>): Suggestion
    requires id in s.reservations
  {
    var capacity := SumCapacity(s.tables, tables);
    var wear := WearOf(s, id, tables);
    Suggestion(tables, capacity, Sum(wear), Largest(wear), Max(0, capacity - s.reservations[id].partySize))
  }

  function BuildAll(s: State, id: ReservationId, combos: seq<seq<TableId>>): (r: seq<Suggestion>)
    requires id in s.reservations
    ensures |r| == |combos|
    ensures forall i :: 0 <= i < |r| ==> r[i] == BuildSuggestion(s, id, combos[i])
  {
    seq(|combos|, i requires 0 <= i < |combos| => BuildSuggestion(s, id, combos[i]))
  }

  // ---------- buildJoinGroupCombos ----------

  function JoinGroup(s: State): TableId -> Option<nat> {
    (t: TableId) => Group(s, t)
  }

  function Covers(s: State, party: int): seq<TableId> -> bool {
    (combo: seq<TableId>) => SumCapacity(s.tables, combo) >= party
  }

  /** By capacity, and then by label: sorting by the second key first. */
  function SortedGroup(s: State, members: seq<TableId>): (r: seq<TableId>)
    ensures multiset(r) == multiset(members)
  {
    Sort(Sort(members, t => LabelRank(s, t)), t => Capacity(s, t))
  }

  /** The combinations one group contributes. */
  function GroupCombos(s: State, party: int, members: seq<TableId>): seq<seq<TableId>> {
    if |members| < 2 then []
    else MinimalCombos(Covers(s, party), SortedGroup(s, members))
  }

  function AllGroupCombos(s: State, party: int, free: seq<TableId>): seq<seq<TableId>> {
    Gather(Keys(free, JoinGroup(s)), PartOf(s, party, free))
  }

  function PartOf(s: State, party: int, free: seq<TableId>): nat -> seq<seq<TableId>> {
    (g: nat) => GroupCombos(s, party, Members(free, JoinGroup(s), g))
  }

  method BuildJoinGroupCombos(s: State, id: ReservationId, free: seq<TableId>) returns (results: seq<Suggestion>)
    requires id in s.reservations
    ensures results == BuildAll(s, id, AllGroupCombos(s, s.reservations[id].partySize, free))
  {
    var party := s.reservations[id].partySize;
    var order, byGroup := GroupBy(free, JoinGroup(s));
    results := [];
    ghost var part, combosSoFar := PartOf(s, party, free), [];
    var k := 0;
    while k < |order|
      invariant 0 <= k <= |order|
      invariant combosSoFar == Gather(order[..k], part)
      invariant results == BuildAll(s, id, combosSoFar)
    {
      var members := byGroup[order[k]];
      assert order[k] in order;
      GatherOneMore(order, part, k);
      if |members| >= 2 {
        var sorted := SortedGroup(s, members);
        var combos := FindMinimalCombos(Covers(s, party), sorted);
        BuildAllAppended(s, id, combosSoFar, combos);
        results := results + BuildAll(s, id, combos);
        combosSoFar := combosSoFar + combos;
      }
      k := k + 1;
    }
    assert order[..k] == order;
  }

  lemma BuildAllAppended(s: State, id: ReservationId, a: seq<seq<TableId>>, b: seq<seq<TableId>>)
    requires id in s.reservations
    ensures BuildAll(s, id, a + b) == BuildAll(s, id, a) + BuildAll(s, id, b)
  {
  }

  // ---------- suggest ----------

  function FreeTables(s: State, id: ReservationId, listing: seq<TableId>): (free: seq<TableId>)
    requires id in s.reservations
    ensures forall t :: t in free <==> t in listing && Available(s, id, t)
  {
    Filter(listing, t => Available(s, id, t))
  }

  /** The free tables that seat the party on their own. */
  function AmpleTables(s: State, party: int, free: seq<TableId>): (r: seq<TableId>)
    ensures forall t :: t in r <==> t in free && Capacity(s, t) >= party
  {
    Filter(free, t => Capacity(s, t) >= party)
  }

  /** Every choice of tables that becomes a candidate, before ranking. */
  function CandidateTables(s: State, id: ReservationId, listing: seq<TableId>): seq<seq<TableId>>
    requires id in s.reservations
  {
    var party, free := s.reservations[id].partySize, FreeTables(s, id, listing);
    Singles(AmpleTables(s, party, free)) + AllGroupCombos(s, party, free)
  }

  function Candidates(s: State, id: ReservationId, listing: seq<TableId>): seq<Suggestion>
    requires id in s.reservations
  {
    BuildAll(s, id, CandidateTables(s, id, listing))
  }

  /**
   * The comparator's four keys, compared from the first to the last. `collate` ranks the joined
   * table ids in the locale's order.
   */
  predicate NotAfter(collate: seq<TableId> -> int, a: Suggestion, b: Suggestion) {
    || Score(a) < Score(b)
    || (Score(a) == Score(b) && (
          || |a.tables| < |b.tables|
          || (|a.tables| == |b.tables| && (
                || a.capacity < b.capacity
                || (a.capacity == b.capacity && collate(a.tables) <= collate(b.tables))))))
  }

  /** Sorting by one key after the other, the first key last, is sorting by all four. */
  function Ranked(collate: seq<TableId> -> int, xs: seq<Suggestion>): seq<Suggestion> {
    var byId := Sort(xs, (g: Suggestion) => collate(g.tables));
    var byCapacity := Sort(byId, (g: Suggestion) => g.capacity);
    var bySplit := Sort(byCapacity, (g: Suggestion) => |g.tables|);
    Sort(bySplit, Score)
  }

  function Top(collate: seq<TableId> -> int, limit: int, candidates: seq<Suggestion>): seq<Suggestion> {
    var ranked := Ranked(collate, candidates);
    ranked[..Min(Max(1, limit), |ranked|)]
  }

  function Suggest(
      s: State, id: ReservationId, listing: seq<TableId>, collate: seq<TableId> -> int, limit: int): seq<Suggestion>
    requires id in s.reservations
  {
    Top(collate, limit, Candidates(s, id, listing))
  }

  method SuggestFor(
      s: State, id: ReservationId, listing: seq<TableId>,
      collate: seq<TableId> -> int, limit: int) returns (out: seq<Suggestion>)
    requires id in s.reservations
    ensures out == Suggest(s, id, listing, collate, limit)
  {
    var party, free := s.reservations[id].partySize, FreeTables(s, id, listing);
    var singles := AmpleTables(s, party, free);
    var candidates := SuggestSingles(s, id, singles);
    var combos := BuildJoinGroupCombos(s, id, free);
    BuildAllAppended(s, id, Singles(singles), AllGroupCombos(s, party, free));
    candidates := candidates + combos;
    out := Top(collate, limit, candidates);
  }

  method SuggestSingles(s: State, id: ReservationId, singles: seq<TableId>) returns (candidates: seq<Suggestion>)
    requires id in s.reservations
    ensures candidates == BuildAll(s, id, Singles(singles))
  {
    candidates := [];
    var i := 0;
    while i < |singles|
      invariant 0 <= i <= |singles|
      invariant candidates == BuildAll(s, id, Singles(singles[..i]))
    {
      candidates := candidates + [BuildSuggestion(s, id, [singles[i]])];
      i := i + 1;
    }
    assert singles[..i] == singles;
  }

  // ---------- the ranking ----------

  /** Sorting anew by another key makes that key the first one compared. */
  ghost predicate ByKeyThen<T>(r: seq<T>, key: T -> int, next: (T, T) -> bool) {
    forall i, j :: 0 <= i < j < |r| ==> key(r[i]) < key(r[j]) || (key(r[i]) == key(r[j]) && next(r[i], r[j]))
  }

  lemma SortedThen<T>(xs: seq<T>, key: T -> int, next: (T, T) -> bool)
    requires Pairwise(xs, next)
    ensures ByKeyThen(Sort(xs, key), key, next)
  {
    SortKeeps(xs, key, next);
  }

  lemma RankedIsSorted(collate: seq<TableId> -> int, xs: seq<Suggestion>)
    ensures multiset(Ranked(collate, xs)) == multiset(xs)
    ensures Pairwise(Ranked(collate, xs), (a, b) => NotAfter(collate, a, b))
  {
    var byId := Sort(xs, (g: Suggestion) => collate(g.tables));
    var byCapacity := Sort(byId, (g: Suggestion) => g.capacity);
    var bySplit := Sort(byCapacity, (g: Suggestion) => |g.tables|);
    var thenId := (a: Suggestion, b: Suggestion) => collate(a.tables) <= collate(b.tables);
    SortedThen(byId, (g: Suggestion) => g.capacity, thenId);
    var thenCapacity := (a: Suggestion, b: Suggestion) => a.capacity < b.capacity
      || (a.capacity == b.capacity && thenId(a, b));
    assert Pairwise(byCapacity, thenCapacity);
    SortedThen(byCapacity, (g: Suggestion) => |g.tables|, thenCapacity);
    var thenSplit := (a: Suggestion, b: Suggestion) =>
      |a.tables| < |b.tables| || (|a.tables| == |b.tables| && thenCapacity(a, b));
    assert Pairwise(bySplit, thenSplit);
    SortedThen(bySplit, Score, thenSplit);
  }

  /** `out` is in order and made of elements of `all`, none of which comes after one that is left out. */
  ghost predicate BestOf<T(!new)>(out: seq<T>, all: seq<T>, related: (T, T) -> bool) {
    && Pairwise(out, related)
    && exists rest: seq<T> :: multiset(out) + multiset(rest) == multiset(all)
                              && forall g, h :: g in out && h in rest ==> related(g, h)
  }

  lemma PrefixIsBest<T(!new)>(ranked: seq<T>, n: nat, all: seq<T>, related: (T, T) -> bool)
    requires n <= |ranked| && Pairwise(ranked, related) && multiset(ranked) == multiset(all)
    ensures BestOf(ranked[..n], all, related)
  {
    var out, rest := ranked[..n], ranked[n..];
    assert ranked == out + rest;
    forall g, h | g in out && h in rest ensures related(g, h) {
      var i :| 0 <= i < n && ranked[i] == g;
      var j :| n <= j < |ranked| && ranked[j] == h;
    }
  }

  /** The suggestions are the best candidates, best first; there is at least one if there is a candidate. */
  lemma SuggestsTheBest(s: State, id: ReservationId, listing: seq<TableId>, collate: seq<TableId> -> int, limit: int)
    requires id in s.reservations
    ensures var out, all := Suggest(s, id, listing, collate, limit), Candidates(s, id, listing);
            && |out| == Min(Max(1, limit), |all|)
            && BestOf(out, all, (a, b) => NotAfter(collate, a, b))
  {
    TopIsBest(collate, limit, Candidates(s, id, listing));
  }

  lemma TopIsBest(collate: seq<TableId> -> int, limit: int, all: seq<Suggestion>)
    ensures var out := Top(collate, limit, all);
            && |out| == Min(Max(1, limit), |all|)
            && BestOf(out, all, (a, b) => NotAfter(collate, a, b))
            && forall g :: g in out ==> g in all
  {
    var ranked := Ranked(collate, all);
    RankedIsSorted(collate, all);
    assert |multiset(ranked)| == |multiset(all)|;
    PrefixIsBest(ranked, Min(Max(1, limit), |ranked|), all, (a, b) => NotAfter(collate, a, b));
    forall g | g in Top(collate, limit, all) ensures g in all {
      assert g in multiset(ranked);
    }
  }

  /** The tables of a group are compared by capacity and then by label. */
  lemma GroupIsSorted(s: State, members: seq<TableId>)
    ensures ByKeyThen(SortedGroup(s, members), t => Capacity(s, t), (t, u) => LabelRank(s, t) <= LabelRank(s, u))
  {
    var byLabel := Sort(members, t => LabelRank(s, t));
    SortedThen(byLabel, t => Capacity(s, t), (t, u) => LabelRank(s, t) <= LabelRank(s, u));
  }

  // ---------- what the numbers of a suggestion are ----------

  /** One more reservation wears a table exactly if it is active, on the day, in the venue, and has the table. */
  lemma WearCountsOne(s: State, id: ReservationId, t: TableId, other: ReservationId, r: Reservation)
    requires id in s.reservations && other !in s.reservations
    ensures var s' := s.(reservations := s.reservations[other := r]);
            Wear(s', id, t) == Wear(s, id, t) +
              if && r.slot.venue == s.reservations[id].slot.venue && r.slot.date == s.reservations[id].slot.date
                 && (r.status == PENDING || r.status == CONFIRMED || r.status == SEATED) && t in r.rows
              then 1 else 0
  {
    var s' := s.(reservations := s.reservations[other := r]);
    var before, after := WearingTable(s, id, t), WearingTable(s', id, t);
    assert Users(s, id, t) == before && Users(s', id, t) == after;
    if other in after {
      assert after == before + {other};
    } else {
      assert after == before;
    }
  }

  /** The reservation itself wears nothing, and on an otherwise empty day no table is worn. */
  lemma WearCountsFromZero(s: State, id: ReservationId, t: TableId)
    requires id in s.reservations
    ensures s.reservations.Keys == {id} ==> Wear(s, id, t) == 0
    ensures Wear(s, id, t) == |WearingTable(s, id, t)| && id !in WearingTable(s, id, t)
  {
    assert Users(s, id, t) == WearingTable(s, id, t);
    if s.reservations.Keys == {id} {
      assert WearingTable(s, id, t) == {};
    }
  }

  ghost function TotalWear(s: State, id: ReservationId, tables: seq<TableId>): nat
    requires id in s.reservations
  {
    if tables == [] then 0 else TotalWear(s, id, tables[..|tables| - 1]) + Wear(s, id, tables[|tables| - 1])
  }

  lemma {:induction false} SumAppended(xs: seq<nat>, x: nat)
    ensures Sum(xs + [x]) == Sum(xs) + x
  {
    if xs == [] {
      assert [x][1..] == [];
    } else {
      assert (xs + [x])[1..] == xs[1..] + [x];
      SumAppended(xs[1..], x);
    }
  }

  function WearOf(s: State, id: ReservationId, tables: seq<TableId>): (r: seq<nat>)
    requires id in s.reservations
    ensures |r| == |tables| && forall i :: 0 <= i < |r| ==> r[i] == Wear(s, id, tables[i])
  {
    seq(|tables|, i requires 0 <= i < |tables| => Wear(s, id, tables[i]))
  }

  lemma {:induction false} SumIsTotalWear(s: State, id: ReservationId, tables: seq<TableId>)
    requires id in s.reservations
    ensures Sum(WearOf(s, id, tables)) == TotalWear(s, id, tables)
  {
    if tables != [] {
      var n := |tables| - 1;
      SumIsTotalWear(s, id, tables[..n]);
      assert WearOf(s, id, tables) == WearOf(s, id, tables[..n]) + [Wear(s, id, tables[n])];
      SumAppended(WearOf(s, id, tables[..n]), Wear(s, id, tables[n]));
    }
  }

  /** The numbers of a suggestion are those of its tables: seats, total and largest wear, and seats to spare. */
  lemma SuggestionNumbers(
      s: State, id: ReservationId, listing: seq<TableId>, collate: seq<TableId> -> int, limit: int, g: Suggestion)
    requires id in s.reservations && Lists(s, s.reservations[id].slot.venue, listing)
    requires g in Suggest(s, id, listing, collate, limit)
    ensures g.capacity == SumCapacity(s.tables, g.tables)
    ensures g.wearTotal == TotalWear(s, id, g.tables)
    ensures forall t :: t in g.tables ==> Wear(s, id, t) <= g.wearMax
    ensures exists t :: t in g.tables && Wear(s, id, t) == g.wearMax
    ensures g.excess == g.capacity - s.reservations[id].partySize
  {
    SuggestedIsCandidate(s, id, listing, collate, limit, g);
    CandidatesAreSuitable(s, id, listing, g.tables);
    SuggestedIsBuilt(s, id, listing, collate, limit, g);
    BuiltNumbers(s, id, g.tables);
  }

  lemma SuggestedIsBuilt(
      s: State, id: ReservationId, listing: seq<TableId>, collate: seq<TableId> -> int, limit: int, g: Suggestion)
    requires id in s.reservations && g in Suggest(s, id, listing, collate, limit)
    ensures g == BuildSuggestion(s, id, g.tables)
  {
    TopIsBest(collate, limit, Candidates(s, id, listing));
    IsBuilt(s, id, CandidateTables(s, id, listing), g);
  }

  lemma IsBuilt(s: State, id: ReservationId, choices: seq<seq<TableId>>, g: Suggestion)
    requires id in s.reservations && g in BuildAll(s, id, choices)
    ensures g == BuildSuggestion(s, id, g.tables)
  {
    var i :| 0 <= i < |choices| && BuildAll(s, id, choices)[i] == g;
  }

  lemma BuiltNumbers(s: State, id: ReservationId, tables: seq<TableId>)
    requires id in s.reservations && tables != []
    ensures var g := BuildSuggestion(s, id, tables);
            && g.tables == tables && g.capacity == SumCapacity(s.tables, tables)
            && g.wearTotal == TotalWear(s, id, tables)
            && (forall t :: t in tables ==> Wear(s, id, t) <= g.wearMax)
            && (exists t :: t in tables && Wear(s, id, t) == g.wearMax)
            && (g.capacity >= s.reservations[id].partySize ==> g.excess == g.capacity - s.reservations[id].partySize)
  {
    var wear := WearOf(s, id, tables);
    SumIsTotalWear(s, id, tables);
    forall t | t in tables ensures Wear(s, id, t) <= Largest(wear) {
      var i :| 0 <= i < |tables| && tables[i] == t;
      assert wear[i] in wear;
    }
    var i :| 0 <= i < |wear| && wear[i] == Largest(wear);
    assert tables[i] in tables;
  }

  // ---------- which choices are candidates ----------

  lemma AvailableInPlainTerms(s: State, id: ReservationId, t: TableId)
    requires Consistent(s) && id in s.reservations
    ensures var slot := s.reservations[id].slot;
            Available(s, id, t) <==>
              !Effects.Occupied(s, slot, Some(t), Some(id)) && !Effects.Reserved(s, slot, Some(t), None)
  {
    Effects.FreeIsUnopposed(s, SeatingQuery(id, s.reservations[id], {t}), Some(t));
  }

  /** A table is a candidate on its own exactly if it is the venue's, free in the slot, and seats the party. */
  lemma SingleCandidates(s: State, id: ReservationId, listing: seq<TableId>, t: TableId)
    requires Consistent(s) && id in s.reservations && Lists(s, s.reservations[id].slot.venue, listing)
    ensures var r := s.reservations[id];
            [t] in CandidateTables(s, id, listing) <==>
              && t in s.tables && s.tables[t].venue == r.slot.venue && s.tables[t].capacity >= r.partySize
              && !Effects.Occupied(s, r.slot, Some(t), Some(id)) && !Effects.Reserved(s, r.slot, Some(t), None)
  {
    AvailableInPlainTerms(s, id, t);
    if [t] in CandidateTables(s, id, listing) {
      CandidatesAreSuitable(s, id, listing, [t]);
      SuitableSingle(s, id, t);
    }
    if t in listing && Available(s, id, t) && Capacity(s, t) >= s.reservations[id].partySize {
      var singles := AmpleTables(s, s.reservations[id].partySize, FreeTables(s, id, listing));
      IsSingle(singles, t);
    }
  }

  lemma SuitableSingle(s: State, id: ReservationId, t: TableId)
    requires id in s.reservations && Suitable(s, id, [t])
    ensures TableInVenue(s, s.reservations[id].slot.venue, t) && Available(s, id, t)
    ensures s.tables[t].capacity >= s.reservations[id].partySize
  {
    var one := [t];
    assert t in one && one[0] == t && one[1..] == [];
    assert SumCapacity(s.tables, one) == s.tables[t].capacity + SumCapacity(s.tables, one[1..]);
  }

  lemma IsSingle(singles: seq<TableId>, t: TableId)
    requires t in singles
    ensures [t] in Singles(singles)
  {
    var i :| 0 <= i < |singles| && singles[i] == t;
    assert Singles(singles)[i] == [t];
  }

  /** Several tables are a candidate exactly if they are one of the smallest choices that cover, in some join group. */
  lemma JoinedCandidates(s: State, id: ReservationId, listing: seq<TableId>, c: seq<TableId>)
    requires id in s.reservations && |c| >= 2
    ensures var party, free := s.reservations[id].partySize, FreeTables(s, id, listing);
            c in CandidateTables(s, id, listing) <==>
              exists g :: g in Keys(free, JoinGroup(s)) && c in GroupCombos(s, party, Members(free, JoinGroup(s), g))
  {
    var party, free := s.reservations[id].partySize, FreeTables(s, id, listing);
    GatheredFrom(s, party, free, Keys(free, JoinGroup(s)), c);
    var singles := Singles(AmpleTables(s, party, free));
    assert forall x :: x in singles ==> |x| == 1;
  }

  lemma {:induction false} GatheredFrom(s: State, party: int, free: seq<TableId>, groups: seq<nat>, c: seq<TableId>)
    ensures c in Gather(groups, PartOf(s, party, free)) <==>
              exists g :: g in groups && c in GroupCombos(s, party, Members(free, JoinGroup(s), g))
  {
    GatheredIn(groups, PartOf(s, party, free), c);
    assert forall g: nat :: PartOf(s, party, free)(g) == GroupCombos(s, party, Members(free, JoinGroup(s), g));
  }

  lemma {:induction false} GatheredIn<K, T>(keys: seq<K>, part: K -> seq<T>, x: T)
    ensures x in Gather(keys, part) <==> exists k :: k in keys && x in part(k)
  {
    if keys != [] {
      var init, last := keys[..|keys| - 1], keys[|keys| - 1];
      GatheredIn(init, part, x);
      assert keys == init + [last];
    }
  }

  // ---------- agreement with assignTables ----------

  /** What every candidate is made of. */
  ghost predicate Suitable(s: State, id: ReservationId, tables: seq<TableId>)
    requires id in s.reservations
  {
    && tables != [] && Distinct(tables)
    && (forall t :: t in tables ==> TableInVenue(s, s.reservations[id].slot.venue, t) && Available(s, id, t))
    && Joinable(s.tables, tables)
    && SumCapacity(s.tables, tables) >= s.reservations[id].partySize
  }

  /** What a group contributes: distinct members, at least two, that cover the party. */
  lemma GroupCombosCover(s: State, party: int, members: seq<TableId>, combo: seq<TableId>)
    requires Distinct(members) && combo in GroupCombos(s, party, members)
    ensures |combo| >= 2 && Distinct(combo) && (forall t :: t in combo ==> t in members)
    ensures SumCapacity(s.tables, combo) >= party
  {
    var sorted := SortedGroup(s, members);
    PermutationHasNoRepeats(members, sorted);
    LeastCoverMembers(Covers(s, party), sorted, MinimalCombos(Covers(s, party), sorted), combo);
    forall t | t in combo ensures t in members {
      assert t in multiset(sorted);
    }
  }

  lemma LeastCoverMembers<T>(covers: seq<T> -> bool, sorted: seq<T>, r: seq<seq<T>>, combo: seq<T>)
    requires Distinct(sorted) && combo in r && r == MinimalCombos(covers, sorted)
    ensures |combo| >= 2 && Distinct(combo) && (forall t :: t in combo ==> t in sorted) && covers(combo)
  {
    MinimalIsExact(covers, sorted);
    assert LeastCovers(covers, sorted, r);
    var k :| 2 <= k <= |sorted| && NoneSmaller(covers, sorted, k) && CoversOfSize(covers, sorted, k, r);
    var c :| Picks(c, k, 0, |sorted|) && combo == Select(sorted, c);
  }

  lemma GroupCombosAreSuitable(s: State, id: ReservationId, free: seq<TableId>, group: nat, combo: seq<TableId>)
    requires id in s.reservations && Distinct(free)
    requires forall t :: t in free ==> TableInVenue(s, s.reservations[id].slot.venue, t) && Available(s, id, t)
    requires combo in GroupCombos(s, s.reservations[id].partySize, Members(free, JoinGroup(s), group))
    ensures Suitable(s, id, combo)
  {
    MembersHaveNoRepeats(free, JoinGroup(s), group);
    GroupCombosCover(s, s.reservations[id].partySize, Members(free, JoinGroup(s), group), combo);
    assert forall t :: t in combo ==> t in free && Group(s, t) == Some(group);
    assert combo[0] in combo;
  }

  lemma {:induction false} GatheredCombosAreSuitable(
      s: State, id: ReservationId, free: seq<TableId>, groups: seq<nat>, combo: seq<TableId>)
    requires id in s.reservations && Distinct(free)
    requires forall t :: t in free ==> TableInVenue(s, s.reservations[id].slot.venue, t) && Available(s, id, t)
    requires combo in Gather(groups, PartOf(s, s.reservations[id].partySize, free))
    ensures Suitable(s, id, combo)
  {
    var part, n := PartOf(s, s.reservations[id].partySize, free), |groups| - 1;
    if combo in Gather(groups[..n], part) {
      GatheredCombosAreSuitable(s, id, free, groups[..n], combo);
    } else {
      GroupCombosAreSuitable(s, id, free, groups[n], combo);
    }
  }

  lemma FreeTablesAreFit(s: State, id: ReservationId, listing: seq<TableId>)
    requires id in s.reservations && Lists(s, s.reservations[id].slot.venue, listing)
    ensures var free := FreeTables(s, id, listing);
            Distinct(free) && forall t :: t in free ==>
              TableInVenue(s, s.reservations[id].slot.venue, t) && Available(s, id, t)
  {
    FilterHasNoRepeats(listing, t => Available(s, id, t));
  }

  lemma SinglesAreSuitable(s: State, id: ReservationId, singles: seq<TableId>, tables: seq<TableId>)
    requires id in s.reservations && tables in Singles(singles)
    requires forall t :: t in singles ==> TableInVenue(s, s.reservations[id].slot.venue, t) && Available(s, id, t)
                                          && Capacity(s, t) >= s.reservations[id].partySize
    ensures Suitable(s, id, tables)
  {
    var i :| 0 <= i < |singles| && Singles(singles)[i] == tables;
    assert singles[i] in singles;
    assert tables[1..] == [];
  }

  lemma CandidatesAreSuitable(s: State, id: ReservationId, listing: seq<TableId>, tables: seq<TableId>)
    requires id in s.reservations && Lists(s, s.reservations[id].slot.venue, listing)
    requires tables in CandidateTables(s, id, listing)
    ensures Suitable(s, id, tables)
  {
    var party, free := s.reservations[id].partySize, FreeTables(s, id, listing);
    FreeTablesAreFit(s, id, listing);
    var singles := AmpleTables(s, party, free);
    if tables in Singles(singles) {
      SinglesAreSuitable(s, id, singles, tables);
    } else {
      GatheredCombosAreSuitable(s, id, free, Keys(free, JoinGroup(s)), tables);
    }
  }

  /** Seats never count less in a larger choice; `b` may order its tables differently. */
  lemma {:induction false} MoreTablesMoreSeats(tables: map<TableId, Table>, a: seq<TableId>, b: seq<TableId>)
    requires Distinct(a) && forall t :: t in a ==> t in b
    ensures SumCapacity(tables, a) <= SumCapacity(tables, b)
  {
    if a != [] {
      assert a[0] in a;
      var i :| 0 <= i < |b| && b[i] == a[0];
      var rest := b[..i] + b[i + 1..];
      SumWithout(tables, b, i);
      forall t | t in a[1..] ensures t in rest {
        var k :| 0 <= k < |a[1..]| && a[1..][k] == t;
        assert a[k + 1] != a[0] && a[k + 1] in a;
        var j :| 0 <= j < |b| && b[j] == t;
        if j < i { assert b[..i][j] == t; } else { assert b[i + 1..][j - i - 1] == t; }
      }
      MoreTablesMoreSeats(tables, a[1..], rest);
    }
  }

  lemma {:induction false} SumWithout(tables: map<TableId, Table>, list: seq<TableId>, i: nat)
    requires i < |list|
    ensures SumCapacity(tables, list) == SumCapacity(tables, [list[i]]) + SumCapacity(tables, list[..i] + list[i + 1..])
  {
    if i == 0 {
      assert list[..0] + list[1..] == list[1..];
    } else {
      SumWithout(tables, list[1..], i - 1);
      assert (list[..i] + list[i + 1..])[1..] == list[1..][..i - 1] + list[1..][i..];
    }
  }

  /** What assignTables answers once all its checks have passed: the index over the rows decides. */
  function AfterChecks(s: State, id: ReservationId, primary: TableId): Outcome
    requires id in s.reservations
  {
    if ReservationIndexFree(s, Some(id), s.reservations[id].slot, Some(primary)) then Done else Refused(Failure)
  }

  /** Only the refusal by the index is answered with Failure. */
  predicate PassesChecks(s: State, id: ReservationId, raw: seq<RawId>) {
    AssignTables(s, id, raw).1 in {Done, Refused(Failure)}
  }

  /** The order in which tables are named, and blanks and repetitions among them, do not matter. */
  lemma SuitablePasses(s: State, id: ReservationId, tables: seq<TableId>, raw: seq<RawId>, later: int)
    requires id in s.reservations && Suitable(s, id, tables) && s.now <= later
    requires forall t :: Some(t) in raw <==> t in tables
    ensures NormalizeSorted(raw) != []
    ensures AssignTables(s.(now := later), id, raw).1 == AfterChecks(s, id, NormalizeSorted(raw)[0])
  {
    var list := NormalizeSorted(raw);
    assert forall t :: t in list <==> t in tables;
    MoreTablesMoreSeats(s.tables, tables, list);
    JoinableAnyOrder(s.tables, tables, list);
    SuitableSlotIsFree(s, id, tables, later);
    assert tables[0] in list;
    FittingListPasses(s.(now := later), id, list, Elements(tables));
    assert AfterChecks(s.(now := later), id, list[0]) == AfterChecks(s, id, list[0]);
  }

  lemma FittingListPasses(s: State, id: ReservationId, list: seq<TableId>, tables: set<TableId>)
    requires id in s.reservations && Increasing(list) && list != [] && tables == set t | t in list
    requires forall t :: t in list ==> TableInVenue(s, s.reservations[id].slot.venue, t)
    requires Joinable(s.tables, list) && SumCapacity(s.tables, list) >= s.reservations[id].partySize
    requires SlotIsFree(s, SeatingQuery(id, s.reservations[id], tables))
    ensures AssignList(s, id, list).1 == AfterChecks(s, id, list[0])
  {
  }

  lemma JoinableAnyOrder(tables: map<TableId, Table>, a: seq<TableId>, b: seq<TableId>)
    requires Distinct(b) && (forall t :: t in a <==> t in b) && Joinable(tables, a)
    ensures Joinable(tables, b)
  {
    if |b| > 1 {
      assert b[0] in a && b[1] in a;
      assert |a| > 1;
    }
  }

  lemma SuitableSlotIsFree(s: State, id: ReservationId, tables: seq<TableId>, later: int)
    requires id in s.reservations && tables != [] && s.now <= later
    requires forall t :: t in tables ==> Available(s, id, t)
    ensures SlotIsFree(s.(now := later), SeatingQuery(id, s.reservations[id], Elements(tables)))
  {
    var q := SeatingQuery(id, s.reservations[id], Elements(tables));
    forall t | t in tables ensures !HasConflicts(FindSlotConflicts(s, q.(requested := {t}))) {
      assert q.(requested := {t}) == SeatingQuery(id, s.reservations[id], {t});
    }
    FreeTogether(s, q, tables);
    LaterFindsFewer(s, later, q);
  }

  /**
   * Whatever is suggested passes every check of assignTables in the same database, now or at any
   * later time, in whatever order the tables are named; it is then assigned if and only if the
   * index is free for the least of them.
   */
  lemma SuggestionsAreAccepted(
    s: State, id: ReservationId, listing: seq<TableId>, collate: seq<TableId> -> int, limit: int,
    g: Suggestion, raw: seq<RawId>, later: int)
    requires id in s.reservations && Lists(s, s.reservations[id].slot.venue, listing)
    requires g in Suggest(s, id, listing, collate, limit) && s.now <= later
    requires forall t :: Some(t) in raw <==> t in g.tables
    ensures NormalizeSorted(raw) != []
    ensures AssignTables(s.(now := later), id, raw).1 == AfterChecks(s, id, NormalizeSorted(raw)[0])
  {
    SuggestedIsCandidate(s, id, listing, collate, limit, g);
    CandidatesAreSuitable(s, id, listing, g.tables);
    SuitablePasses(s, id, g.tables, raw, later);
  }

  /** The row is over: it no longer blocks its slot, but it is still in the index. */
  ghost predicate FinishedAt(s: State, other: ReservationId, slot: Slot, table: TableId) {
    && other in s.reservations && s.reservations[other].slot == slot
    && s.reservations[other].primary == Some(table) && !Blocking(s.reservations[other].status)
  }

  /** For a table that is free, the index is taken exactly by a completed or cancelled reservation. */
  lemma IndexTakenByFinished(s: State, id: ReservationId, t: TableId)
    requires Consistent(s) && id in s.reservations && Available(s, id, t)
    ensures ReservationIndexFree(s, Some(id), s.reservations[id].slot, Some(t))
       <==> forall other :: other != id ==> !FinishedAt(s, other, s.reservations[id].slot, t)
  {
    var r := s.reservations[id];
    var q := SeatingQuery(id, r, {t});
    FindsExactlyTheBlockers(s, q);
    forall other | other in s.reservations && other != id && s.reservations[other].slot == r.slot
                   && s.reservations[other].primary == Some(t)
      ensures FinishedAt(s, other, r.slot, t)
    {
      assert other !in FindSlotConflicts(s, q).reservations;
      assert !BlockedBy(other, s.reservations[other], q);
    }
  }

  lemma SuggestedIsCandidate(
      s: State, id: ReservationId, listing: seq<TableId>, collate: seq<TableId> -> int, limit: int, g: Suggestion)
    requires id in s.reservations && g in Suggest(s, id, listing, collate, limit)
    ensures g.tables in CandidateTables(s, id, listing)
  {
    TopIsBest(collate, limit, Candidates(s, id, listing));
    BuiltFrom(s, id, CandidateTables(s, id, listing), g);
  }

  lemma BuiltFrom(s: State, id: ReservationId, choices: seq<seq<TableId>>, g: Suggestion)
    requires id in s.reservations && g in BuildAll(s, id, choices)
    ensures g.tables in choices
  {
  }

  lemma FirstSuggestion(
      s: State, id: ReservationId, listing: seq<TableId>, collate: seq<TableId> -> int,
      limit: int) returns (g: Suggestion)
    requires id in s.reservations && Lists(s, s.reservations[id].slot.venue, listing)
    requires Suggest(s, id, listing, collate, limit) != []
    ensures g in Suggest(s, id, listing, collate, limit) && Suitable(s, id, g.tables)
  {
    g := Suggest(s, id, listing, collate, limit)[0];
    SuggestedIsCandidate(s, id, listing, collate, limit, g);
    CandidatesAreSuitable(s, id, listing, g.tables);
  }

  // ---------- nothing acceptable goes unsuggested ----------

  /** Tables that are free together are free one by one. */
  lemma FreeApart(s: State, id: ReservationId, tables: set<TableId>, t: TableId)
    requires id in s.reservations && t in tables && SlotIsFree(s, SeatingQuery(id, s.reservations[id], tables))
    ensures Available(s, id, t)
  {
  }

  lemma PassingIsSuitable(s: State, id: ReservationId, raw: seq<RawId>)
    requires PassesChecks(s, id, raw)
    ensures id in s.reservations && Suitable(s, id, NormalizeSorted(raw))
  {
    var list := NormalizeSorted(raw);
    forall t | t in list ensures Available(s, id, t) {
      FreeApart(s, id, (set u | u in list), t);
    }
  }

  /** If some choice of tables is suitable there is a candidate, though not always that choice. */
  lemma SuitableYieldsCandidates(s: State, id: ReservationId, listing: seq<TableId>, tables: seq<TableId>)
    requires id in s.reservations && Lists(s, s.reservations[id].slot.venue, listing) && Suitable(s, id, tables)
    ensures CandidateTables(s, id, listing) != []
  {
    var party, free := s.reservations[id].partySize, FreeTables(s, id, listing);
    var t := tables[0];
    assert t in tables && t in free;
    if |tables| == 1 {
      assert tables[1..] == [];
      assert SumCapacity(s.tables, tables) == Capacity(s, t);
      assert t in AmpleTables(s, party, free);
    } else {
      var g := Group(s, t).value;
      GroupSuffices(s, party, Members(free, JoinGroup(s), g), tables);
      assert JoinGroup(s)(t) == Some(g);
      GroupIsIncluded(s, party, free, Keys(free, JoinGroup(s)), g);
    }
  }

  lemma GroupSuffices(s: State, party: int, members: seq<TableId>, tables: seq<TableId>)
    requires |tables| >= 2 && Distinct(tables) && (forall t :: t in tables ==> t in members)
    requires SumCapacity(s.tables, tables) >= party
    ensures GroupCombos(s, party, members) != []
  {
    var sorted := SortedGroup(s, members);
    assert |multiset(sorted)| == |multiset(members)|;
    forall t | t in tables ensures t in sorted {
      assert t in multiset(sorted);
    }
    MoreTablesMoreSeats(s.tables, tables, sorted);
    MinimalIsExact(Covers(s, party), sorted);
    assert tables[0] in members && tables[1] in members;
  }

  lemma {:induction false} GroupIsIncluded(s: State, party: int, free: seq<TableId>, groups: seq<nat>, g: nat)
    requires g in groups && GroupCombos(s, party, Members(free, JoinGroup(s), g)) != []
    ensures Gather(groups, PartOf(s, party, free)) != []
  {
    if g != groups[|groups| - 1] {
      GroupIsIncluded(s, party, free, groups[..|groups| - 1], g);
    }
  }

  lemma SomethingPasses(s: State, id: ReservationId, listing: seq<TableId>, collate: seq<TableId> -> int, limit: int)
    requires id in s.reservations && Lists(s, s.reservations[id].slot.venue, listing)
    requires Suggest(s, id, listing, collate, limit) != []
    ensures exists raw :: PassesChecks(s, id, raw)
  {
    var g := Suggest(s, id, listing, collate, limit)[0];
    var raw := Raw(g.tables);
    RawNames(g.tables);
    SuggestionsAreAccepted(s, id, listing, collate, limit, g, raw, s.now);
    UnchangedClock(s, id, raw, s.now);
  }

  lemma RawNames(list: seq<TableId>)
    ensures forall t :: Some(t) in Raw(list) <==> t in list
  {
    forall t | t in list ensures Some(t) in Raw(list) {
      var i :| 0 <= i < |list| && list[i] == t;
      assert Raw(list)[i] == Some(t);
    }
  }

  lemma UnchangedClock(s: State, id: ReservationId, raw: seq<RawId>, later: int)
    requires later == s.now && PassesChecks(s.(now := later), id, raw)
    ensures PassesChecks(s, id, raw)
  {
    assert s.(now := later) == s;
  }

  lemma SomethingIsSuggested(
      s: State, id: ReservationId, listing: seq<TableId>, collate: seq<TableId> -> int, limit: int, raw: seq<RawId>)
    requires id in s.reservations && Lists(s, s.reservations[id].slot.venue, listing)
    requires PassesChecks(s, id, raw)
    ensures Suggest(s, id, listing, collate, limit) != []
  {
    PassingIsSuitable(s, id, raw);
    SuitableYieldsCandidates(s, id, listing, NormalizeSorted(raw));
    SuggestsTheBest(s, id, listing, collate, limit);
  }

  /** suggest finds something exactly when some list of tables would pass every check of assignTables. */
  lemma SuggestsIffAssignable(
      s: State, id: ReservationId, listing: seq<TableId>, collate: seq<TableId> -> int, limit: int)
    requires id in s.reservations && Lists(s, s.reservations[id].slot.venue, listing)
    ensures Suggest(s, id, listing, collate, limit) != [] <==> exists raw :: PassesChecks(s, id, raw)
  {
    if Suggest(s, id, listing, collate, limit) != [] {
      SomethingPasses(s, id, listing, collate, limit);
    }
    if raw :| PassesChecks(s, id, raw) {
      SomethingIsSuggested(s, id, listing, collate, limit, raw);
    }
  }
}
