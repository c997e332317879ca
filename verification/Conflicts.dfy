/** apps/api/src/utils/booking-conflicts.ts: the check that guards every booking step. */
module Conflicts {
  import opened Common
  import opened Rows

  /** The input of findSlotConflicts; `requested` is the set it builds from tableIds or tableId. */
  datatype Query = Query(
    slot: Slot,
    start: int,
    duration: int,
    requested: set<TableId>,
    excludeReservation: Option<ReservationId>,
    excludeHold: Option<HoldId>)

  datatype Found = Found(reservations: set<ReservationId>, holds: set<HoldId>)

  function Requested(table: Option<TableId>): set<TableId> {
    if table.Some? then {table.value} else {}
  }

  predicate TableMatches(requested: set<TableId>, existing: set<Option<TableId>>) {
    if requested == {} then true
    else if existing == {} then true
    else if None in existing then true
    else exists t :: t in requested && Some(t) in existing
  }

  function TablesOf(r: Reservation): (tables: set<Option<TableId>>) {
    {r.primary} + set t | t in r.rows :: Some(t)
  }

  /** The rows the database query returns, with the OR filter that is added for named tables. */
  predicate ReservationWhere(id: ReservationId, r: Reservation, q: Query) {
    && r.slot == q.slot
    && Blocking(r.status)
    && q.excludeReservation != Some(id)
    && (q.requested != {} ==>
          || (r.primary.Some? && r.primary.value in q.requested)
          || r.rows.Keys * q.requested != {}
          || r.primary.None?)
  }

  predicate HoldWhere(id: HoldId, h: Hold, q: Query, now: int) {
    && h.slot == q.slot
    && h.status == HELD
    && now < h.expiresAt
    && q.excludeHold != Some(id)
    && (q.requested != {} ==> h.table.None? || h.table.value in q.requested)
  }

  function TargetEnd(q: Query): int {
    q.start + q.duration * 60_000
  }

  /** A stored duration of 0 falls back to the requested one. */
  function ExistingEnd(r: Reservation, q: Query): int {
    r.start + (if r.duration != 0 then r.duration else q.duration) * 60_000
  }

  /** The filter applied to the returned reservations. */
  predicate ReservationConflicts(r: Reservation, q: Query) {
    && TableMatches(q.requested, TablesOf(r))
    && r.start < TargetEnd(q) && q.start < ExistingEnd(r, q)
  }

  predicate HoldConflicts(h: Hold, q: Query) {
    && TableMatches(q.requested, {h.table})
    && h.start < TargetEnd(q) && q.start < h.expiresAt
  }

  function FindSlotConflicts(s: State, q: Query): Found {
    var reservations := set id | id in s.reservations && ReservationWhere(id, s.reservations[id], q);
    var holds := set id | id in s.holds && HoldWhere(id, s.holds[id], q, s.now);
    Found(
      set id | id in reservations && ReservationConflicts(s.reservations[id], q),
      set id | id in holds && HoldConflicts(s.holds[id], q))
  }

  predicate HasConflicts(f: Found) {
    f.reservations != {} || f.holds != {}
  }

  // ---------- what the check decides ----------

  /** Stored instants agree with their slots, and stored durations are positive. */
  ghost predicate Consistent(s: State) {
    && (forall id :: id in s.reservations ==>
          s.reservations[id].start == StartOf(s, s.reservations[id].slot) && s.reservations[id].duration >= 1)
    && (forall id :: id in s.holds ==> s.holds[id].start == StartOf(s, s.holds[id].slot))
  }

  ghost predicate Meaningful(s: State, q: Query) {
    q.start == StartOf(s, q.slot) && q.duration >= 1
  }

  /** Two sides of which one names no table at all clash; so do two that name a common table. */
  ghost predicate Clash(requested: set<TableId>, primary: Option<TableId>, tables: set<TableId>) {
    requested == {} || primary.None? || primary.value in requested || requested * tables != {}
  }

  /** What the check finds, said without the query and the interval arithmetic. */
  ghost predicate BlockedBy(id: ReservationId, r: Reservation, q: Query) {
    r.slot == q.slot && Blocking(r.status) && q.excludeReservation != Some(id)
      && Clash(q.requested, r.primary, r.rows.Keys)
  }

  ghost predicate HeldBy(id: HoldId, h: Hold, q: Query, now: int) {
    h.slot == q.slot && Live(h, now) && q.excludeHold != Some(id) && Clash(q.requested, h.table, {})
      && q.start < h.expiresAt
  }

  lemma TableMatchesIsClash(requested: set<TableId>, r: Reservation)
    ensures TableMatches(requested, TablesOf(r)) <==> Clash(requested, r.primary, r.rows.Keys)
  {
    var existing := TablesOf(r);
    assert r.primary in existing;
    if requested != {} && r.primary.Some? {
      if t :| t in requested && Some(t) in existing {
        assert t == r.primary.value || t in requested * r.rows.Keys;
      }
      if r.primary.value in requested {
        assert Some(r.primary.value) in existing;
      } else if requested * r.rows.Keys != {} {
        var t :| t in requested * r.rows.Keys;
        assert Some(t) in existing;
      }
    }
  }

  lemma HoldTableMatchesIsClash(requested: set<TableId>, h: Hold)
    ensures TableMatches(requested, {h.table}) <==> Clash(requested, h.table, {})
  {
    if requested != {} && h.table.Some? && h.table.value in requested {
      assert Some(h.table.value) in {h.table};
    }
  }

  /** The database's OR filter drops nothing the in-memory filter would keep. */
  lemma PrefilterLosesNothing(s: State, q: Query)
    ensures FindSlotConflicts(s, q).reservations == set id | id in s.reservations
              && s.reservations[id].slot == q.slot && Blocking(s.reservations[id].status)
              && q.excludeReservation != Some(id) && ReservationConflicts(s.reservations[id], q)
    ensures FindSlotConflicts(s, q).holds == set id | id in s.holds
              && s.holds[id].slot == q.slot && Live(s.holds[id], s.now)
              && q.excludeHold != Some(id) && HoldConflicts(s.holds[id], q)
  {
    forall id | id in s.reservations && ReservationConflicts(s.reservations[id], q) {
      TableMatchesIsClash(q.requested, s.reservations[id]);
    }
    forall id | id in s.holds && HoldConflicts(s.holds[id], q) {
      HoldTableMatchesIsClash(q.requested, s.holds[id]);
    }
  }

  /** Because equal slots start together, the interval test never spares a blocking row of the slot. */
  lemma FindsExactlyTheBlockers(s: State, q: Query)
    requires Consistent(s) && Meaningful(s, q)
    ensures forall id :: id in FindSlotConflicts(s, q).reservations <==>
                           id in s.reservations && BlockedBy(id, s.reservations[id], q)
    ensures forall id :: id in FindSlotConflicts(s, q).holds <==>
                           id in s.holds && HeldBy(id, s.holds[id], q, s.now)
  {
    PrefilterLosesNothing(s, q);
    forall id | id in s.reservations {
      TableMatchesIsClash(q.requested, s.reservations[id]);
    }
    forall id | id in s.holds {
      HoldTableMatchesIsClash(q.requested, s.holds[id]);
    }
  }

  /** For named tables the check distributes over unions of requests. */
  lemma ChecksDistribute(s: State, q: Query, a: set<TableId>, b: set<TableId>)
    requires a != {} && b != {}
    ensures var fa, fb := FindSlotConflicts(s, q.(requested := a)), FindSlotConflicts(s, q.(requested := b));
            FindSlotConflicts(s, q.(requested := a + b)) == Found(fa.reservations + fb.reservations,
              fa.holds + fb.holds)
  {
    var qa, qb, qc := q.(requested := a), q.(requested := b), q.(requested := a + b);
    PrefilterLosesNothing(s, qa);
    PrefilterLosesNothing(s, qb);
    PrefilterLosesNothing(s, qc);
    forall id | id in s.reservations
      ensures ReservationConflicts(s.reservations[id], qc) <==>
              ReservationConflicts(s.reservations[id], qa) || ReservationConflicts(s.reservations[id], qb)
    {
      var r := s.reservations[id];
      TableMatchesIsClash(a, r);
      TableMatchesIsClash(b, r);
      TableMatchesIsClash(a + b, r);
      ClashDistributes(a, b, r.primary, r.rows.Keys);
    }
    forall id | id in s.holds
      ensures HoldConflicts(s.holds[id], qc) <==> HoldConflicts(s.holds[id], qa) || HoldConflicts(s.holds[id], qb)
    {
      var h := s.holds[id];
      HoldTableMatchesIsClash(a, h);
      HoldTableMatchesIsClash(b, h);
      HoldTableMatchesIsClash(a + b, h);
      ClashDistributes(a, b, h.table, {});
    }
  }

  lemma ClashDistributes(a: set<TableId>, b: set<TableId>, primary: Option<TableId>, tables: set<TableId>)
    requires a != {} && b != {}
    ensures Clash(a + b, primary, tables) <==> Clash(a, primary, tables) || Clash(b, primary, tables)
  {
  }

  /** Several tables are free together as soon as each is free on its own. */
  lemma {:induction false} FreeTogether(s: State, q: Query, tables: seq<TableId>)
    requires tables != []
    requires forall t :: t in tables ==> !HasConflicts(FindSlotConflicts(s, q.(requested := {t})))
    ensures !HasConflicts(FindSlotConflicts(s, q.(requested := Elements(tables))))
  {
    if |tables| == 1 {
      assert Elements(tables) == {tables[0]};
    } else {
      FreeTogether(s, q, tables[1..]);
      assert tables[1..][0] in Elements(tables[1..]);
      ChecksDistribute(s, q, {tables[0]}, Elements(tables[1..]));
      assert tables == [tables[0]] + tables[1..];
      assert Elements(tables) == {tables[0]} + Elements(tables[1..]);
    }
  }

  /** Time passing alone never adds a conflict. */
  lemma LaterFindsFewer(s: State, later: int, q: Query)
    requires s.now <= later
    ensures var f, g := FindSlotConflicts(s, q), FindSlotConflicts(s.(now := later), q);
            g.reservations == f.reservations && g.holds <= f.holds
  {
  }
}
