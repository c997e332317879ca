/** Nobody is booked twice: what every step of the ledger keeps, whatever guards it. */
module Exclusion {
  import opened Common
  import opened Rows
  import opened Conflicts
  import opened Assignments
  import opened Ledger

  ghost predicate Blocks(s: State, id: ReservationId) {
    id in s.reservations && Blocking(s.reservations[id].status)
  }

  ghost predicate LiveHold(s: State, id: HoldId) {
    id in s.holds && Live(s.holds[id], s.now)
  }

  /** Blocking reservations of one slot have different primary tables; one without a table is alone. */
  ghost predicate PrimariesExclusive(s: State) {
    forall a, b :: Blocks(s, a) && Blocks(s, b) && a != b && s.reservations[a].slot == s.reservations[b].slot ==>
      && s.reservations[a].primary.Some?
      && s.reservations[b].primary.Some?
      && s.reservations[a].primary != s.reservations[b].primary
  }

  ghost predicate Matching(a: Option<TableId>, b: Option<TableId>) {
    a.None? || b.None? || a == b
  }

  /** A live hold and a blocking reservation match in one slot only if the hold ends before the slot starts. */
  ghost predicate HoldsExcludeReservations(s: State) {
    forall h, r :: LiveHold(s, h) && Blocks(s, r) && s.holds[h].slot == s.reservations[r].slot
                   && Matching(s.holds[h].table, s.reservations[r].primary) ==>
      s.holds[h].expiresAt <= s.reservations[r].start
  }

  /** Hold identifiers grow, so the smaller one was created first. */
  ghost predicate HoldsExcludeHolds(s: State) {
    forall g, h :: LiveHold(s, g) && LiveHold(s, h) && g < h && s.holds[g].slot == s.holds[h].slot
                   && Matching(s.holds[g].table, s.holds[h].table) ==>
      s.holds[g].expiresAt <= s.holds[g].start
  }

  ghost predicate RowsAgree(s: State) {
    forall id :: id in s.reservations ==> Agrees(s.reservations[id].primary, s.reservations[id].rows)
  }

  ghost predicate FreshIds(s: State) {
    (forall id :: id in s.reservations ==> id < s.nextId) && (forall id :: id in s.holds ==> id < s.nextId)
  }

  ghost predicate Inv(s: State) {
    && Consistent(s) && FreshIds(s) && RowsAgree(s)
    && PrimariesExclusive(s) && HoldsExcludeReservations(s) && HoldsExcludeHolds(s)
  }

  // ---------- three kinds of change ----------

  /** What may happen to a hold: it leaves HELD, or its link changes, and nothing else. */
  ghost predicate Ages(before: Hold, after: Hold) {
    && after == before.(status := after.status, reservation := after.reservation)
    && (after.status == before.status || (before.status == HELD && after.status != HELD))
  }

  ghost predicate HoldsAge(s: State, s': State) {
    && s'.holds.Keys == s.holds.Keys
    && (forall h :: h in s.holds ==> Ages(s.holds[h], s'.holds[h]))
  }

  /** Holds run out or are cancelled, reservations disappear, time passes. */
  ghost predicate OnlyFrees(s: State, s': State) {
    && HoldsAge(s, s')
    && s'.instant == s.instant && s.now <= s'.now && s.nextId <= s'.nextId
    && s'.reservations.Keys <= s.reservations.Keys
    && (forall id :: id in s'.reservations ==> s'.reservations[id] == s.reservations[id])
  }

  lemma FreeingKeeps(s: State, s': State)
    requires Inv(s) && OnlyFrees(s, s')
    ensures Inv(s')
  {
    forall h | LiveHold(s', h) ensures LiveHold(s, h) {
      assert Ages(s.holds[h], s'.holds[h]);
    }
    forall h | h in s'.holds ensures Ages(s.holds[h], s'.holds[h]) {}
    assert forall r :: Blocks(s', r) ==> Blocks(s, r);
  }

  /** The check that allowed row `r` to be written at `id`. */
  ghost predicate Cleared(s: State, id: ReservationId, r: Reservation, q: Query) {
    && Meaningful(s, q) && q.slot == r.slot && q.excludeHold == None
    && (q.excludeReservation == Some(id) || (q.excludeReservation == None && id !in s.reservations))
    && (if r.primary.Some? then r.primary.value in q.requested else q.requested == {})
    && SlotIsFree(s, q)
  }

  /** The row takes no room in its slot that the reservation did not already have. */
  ghost predicate TakesNoMore(s: State, id: ReservationId, r: Reservation) {
    Blocking(r.status) ==> Blocks(s, id) && s.reservations[id].slot == r.slot && s.reservations[id].primary == r.primary
  }

  /** `s'` is `s` with row `r` written at `id`. */
  ghost predicate Writes(s: State, id: ReservationId, r: Reservation, s': State) {
    && s'.reservations == s.reservations[id := r] && s'.holds == s.holds
    && s'.now == s.now && s'.instant == s.instant
    && s.nextId <= s'.nextId && id < s'.nextId
  }

  lemma NotClashing(requested: set<TableId>, primary: Option<TableId>, tables: set<TableId>)
    requires !Clash(requested, primary, tables)
    ensures requested !! tables
  {
    forall t | t in requested ensures t !in tables {
      assert t in tables ==> t in requested * tables;
    }
  }

  lemma ClearedOfReservations(s: State, id: ReservationId, r: Reservation, q: Query, b: ReservationId)
    requires Consistent(s) && Cleared(s, id, r, q)
    requires Blocks(s, b) && b != id && s.reservations[b].slot == r.slot
    ensures r.primary.Some? && s.reservations[b].primary.Some? && r.primary != s.reservations[b].primary
    ensures s.reservations[b].rows.Keys !! q.requested
  {
    FindsExactlyTheBlockers(s, q);
    assert b !in FindSlotConflicts(s, q).reservations;
    assert !Clash(q.requested, s.reservations[b].primary, s.reservations[b].rows.Keys);
    NotClashing(q.requested, s.reservations[b].primary, s.reservations[b].rows.Keys);
  }

  lemma ClearedOfHolds(s: State, q: Query, h: HoldId)
    requires Consistent(s) && Meaningful(s, q) && SlotIsFree(s, q) && q.excludeHold == None
    requires LiveHold(s, h) && s.holds[h].slot == q.slot && Clash(q.requested, s.holds[h].table, {})
    ensures s.holds[h].expiresAt <= q.start
  {
    FindsExactlyTheBlockers(s, q);
    assert h !in FindSlotConflicts(s, q).holds;
    assert !HeldBy(h, s.holds[h], q, s.now);
  }

  lemma WritingKeepsPrimaries(s: State, id: ReservationId, r: Reservation, q: Query, s': State)
    requires Consistent(s) && PrimariesExclusive(s) && Writes(s, id, r, s')
    requires Cleared(s, id, r, q) || TakesNoMore(s, id, r)
    ensures PrimariesExclusive(s')
  {
    forall b | Blocks(s', b) && b != id ensures Blocks(s, b) {}
    if !TakesNoMore(s, id, r) {
      forall b | Blocks(s', b) && b != id && s'.reservations[b].slot == r.slot
        ensures r.primary.Some? && s.reservations[b].primary.Some? && r.primary != s.reservations[b].primary
      {
        ClearedOfReservations(s, id, r, q, b);
      }
    }
  }

  lemma WritingKeepsHoldLaw(s: State, id: ReservationId, r: Reservation, q: Query, s': State)
    requires Consistent(s) && HoldsExcludeReservations(s) && Writes(s, id, r, s')
    requires r.start == StartOf(s, r.slot)
    requires Cleared(s, id, r, q) || TakesNoMore(s, id, r)
    ensures HoldsExcludeReservations(s')
  {
    forall b | Blocks(s', b) && b != id ensures Blocks(s, b) {}
    forall h | LiveHold(s', h) ensures LiveHold(s, h) {}
    if !TakesNoMore(s, id, r) {
      forall h | LiveHold(s, h) && s.holds[h].slot == r.slot && Matching(s.holds[h].table, r.primary)
        ensures s.holds[h].expiresAt <= r.start
      {
        ClearedOfHolds(s, q, h);
      }
    }
  }

  lemma WritingKeepsRows(s: State, id: ReservationId, r: Reservation, s': State)
    requires Consistent(s) && FreshIds(s) && RowsAgree(s) && Writes(s, id, r, s')
    requires r.start == StartOf(s, r.slot) && r.duration >= 1 && Agrees(r.primary, r.rows)
    ensures Consistent(s') && FreshIds(s') && RowsAgree(s')
  {
  }

  lemma WritingKeeps(s: State, id: ReservationId, r: Reservation, q: Query, s': State)
    requires Inv(s) && Writes(s, id, r, s')
    requires r.start == StartOf(s, r.slot) && r.duration >= 1 && Agrees(r.primary, r.rows)
    requires Cleared(s, id, r, q) || TakesNoMore(s, id, r)
    ensures Inv(s')
  {
    WritingKeepsRows(s, id, r, s');
    WritingKeepsPrimaries(s, id, r, q, s');
    WritingKeepsHoldLaw(s, id, r, q, s');
    forall h | LiveHold(s', h) ensures LiveHold(s, h) {}
  }

  lemma HoldingKeeps(s: State, hold: Hold, q: Query, s': State)
    requires Inv(s)
    requires s'.reservations == s.reservations && s'.holds == s.holds[s.nextId := hold]
    requires s'.instant == s.instant && s'.now == s.now && s'.nextId == s.nextId + 1
    requires Meaningful(s, q) && q.slot == hold.slot && q.excludeHold == None && q.excludeReservation == None
    requires q.requested == Requested(hold.table) && hold.start == StartOf(s, hold.slot)
    requires SlotIsFree(s, q)
    ensures Inv(s')
  {
    forall b | Blocks(s, b) && s.reservations[b].slot == hold.slot
      ensures !Matching(hold.table, s.reservations[b].primary)
    {
      HoldMeetsNoReservation(s, hold, q, b);
    }
    forall h | LiveHold(s, h) && s.holds[h].slot == hold.slot && Matching(s.holds[h].table, hold.table)
      ensures s.holds[h].expiresAt <= hold.start
    {
      ClearedOfHolds(s, q, h);
    }
    forall h | LiveHold(s', h) && h != s.nextId ensures LiveHold(s, h) {}
    assert forall b :: Blocks(s', b) ==> Blocks(s, b);
  }

  lemma HoldMeetsNoReservation(s: State, hold: Hold, q: Query, b: ReservationId)
    requires Consistent(s) && Meaningful(s, q) && q.excludeReservation == None && q.requested == Requested(hold.table)
    requires SlotIsFree(s, q) && Blocks(s, b) && s.reservations[b].slot == q.slot
    ensures !Matching(hold.table, s.reservations[b].primary)
  {
    FindsExactlyTheBlockers(s, q);
    assert b !in FindSlotConflicts(s, q).reservations;
    assert !BlockedBy(b, s.reservations[b], q);
  }

  // ---------- every step ----------

  lemma CreateKeeps(s: State, req: CreateRequest)
    requires Inv(s)
    ensures Inv(Create(s, req).0)
  {
    var (s', outcome) := Create(s, req);
    if req.hold.Some? {
      CreateFromHoldKeeps(s, req.hold.value, req);
    } else if outcome.MadeReservation? {
      var venue := if req.venue.Some? then req.venue.value else DEFAULT_VENUE;
      var slot := BuildSlot(venue, req.date, req.time).value;
      var duration := ResolveDuration(s.venues[venue], req.duration);
      SyncOneAgrees(req.table);
      WritingKeeps(s, s.nextId, s'.reservations[s.nextId],
                   Query(slot, StartOf(s, slot), duration, Requested(req.table), None, None), s');
    }
  }

  /** Excluding a hold from the check is the same as checking once it is consumed. */
  lemma ExcludedHoldIsConsumed(s: State, h: HoldId, id: ReservationId, q: Query)
    requires h in s.holds && Consistent(s) && Meaningful(s, q) && q.excludeHold == Some(h)
    ensures FindSlotConflicts(ConsumeHold(s, h, id), q.(excludeHold := None)) == FindSlotConflicts(s, q)
  {
  }

  lemma CreateFromHoldKeeps(s: State, h: HoldId, req: CreateRequest)
    requires Inv(s)
    ensures Inv(CreateFromHold(s, h, req).0)
  {
    var (s', outcome) := CreateFromHold(s, h, req);
    if outcome.MadeReservation? {
      var s1, made, q := FromHoldWrites(s, h, req);
      FreeingKeeps(s, s1);
      WritingKeeps(s1, s.nextId, made, q, s');
    }
  }

  /** An accepted conversion, taken apart: the hold is consumed, and then the row is written under its check. */
  lemma FromHoldWrites(s: State, h: HoldId, req: CreateRequest) returns (s1: State, made: Reservation, q: Query)
    requires Inv(s) && CreateFromHold(s, h, req).1.MadeReservation?
    ensures OnlyFrees(s, s1) && Writes(s1, s.nextId, made, CreateFromHold(s, h, req).0)
              && Cleared(s1, s.nextId, made, q)
    ensures made.start == StartOf(s1, made.slot) && made.duration >= 1
    ensures Agrees(made.primary, made.rows) && made.rows.Keys <= q.requested
  {
    var hold := s.holds[h];
    made := FromHoldReservation(s, hold, req);
    s1 := ConsumeHold(s, h, s.nextId);
    q := FromHoldQuery(s, h, req).(excludeHold := None);
    ExcludedHoldIsConsumed(s, h, s.nextId, FromHoldQuery(s, h, req));
    SyncOneAgrees(FromHoldTable(hold, req));
  }

  /** An accepted update, taken apart: the row it writes and the query that cleared it. */
  ghost function NextRow(s: State, id: ReservationId, req: UpdateRequest): Reservation
    requires id in s.reservations && Update(s, id, req).1.Done? && !req.IsEmpty()
  {
    var r := s.reservations[id];
    Updated(s, r, req, req.NextSlot(r).value, s.venues[r.slot.venue])
  }

  ghost function NextQuery(s: State, id: ReservationId, req: UpdateRequest): Query
    requires id in s.reservations && Update(s, id, req).1.Done? && !req.IsEmpty()
  {
    var r := s.reservations[id];
    UpdateQuery(s, id, r, req, req.NextSlot(r).value, s.venues[r.slot.venue])
  }

  lemma UpdateWrites(s: State, id: ReservationId, req: UpdateRequest)
    requires Inv(s) && id in s.reservations && Update(s, id, req).1.Done? && !req.IsEmpty()
    ensures var r, q := NextRow(s, id, req), NextQuery(s, id, req);
            && Writes(s, id, r, Update(s, id, req).0)
            && r.start == StartOf(s, r.slot) && r.duration >= 1
            && (if req.NeedsConflictCheck() then Cleared(s, id, r, q) else TakesNoMore(s, id, r))
  {
  }

  lemma NextRowAgrees(s: State, id: ReservationId, req: UpdateRequest)
    requires RowsAgree(s) && id in s.reservations && Update(s, id, req).1.Done? && !req.IsEmpty()
    ensures var r := NextRow(s, id, req); Agrees(r.primary, r.rows)
  {
    SyncOneAgrees(req.NextTable(s.reservations[id]));
  }

  lemma UpdateKeeps(s: State, id: ReservationId, req: UpdateRequest)
    requires Inv(s)
    ensures Inv(Update(s, id, req).0)
  {
    if id in s.reservations && Update(s, id, req).1.Done? && !req.IsEmpty() {
      UpdateWrites(s, id, req);
      NextRowAgrees(s, id, req);
      WritingKeeps(s, id, NextRow(s, id, req), NextQuery(s, id, req), Update(s, id, req).0);
    }
  }

  lemma RemoveKeeps(s: State, id: ReservationId)
    requires Inv(s)
    ensures Inv(Remove(s, id).0)
  {
    RemoveFrees(s, id);
    FreeingKeeps(s, Remove(s, id).0);
  }

  lemma RemoveFrees(s: State, id: ReservationId)
    ensures OnlyFrees(s, Remove(s, id).0)
  {
  }

  lemma UpdateStatusKeeps(s: State, id: ReservationId, status: Option<ReservationStatus>, guest: bool)
    requires Inv(s)
    ensures Inv(UpdateStatus(s, id, status, guest).0)
  {
    var (s', outcome) := UpdateStatus(s, id, status, guest);
    if outcome.Done? {
      var r := s.reservations[id];
      WritingKeeps(s, id, s'.reservations[id], SeatingQuery(id, r, {}), s');
    }
  }

  lemma AssignTablesKeeps(s: State, id: ReservationId, raw: seq<RawId>)
    requires Inv(s)
    ensures Inv(AssignTables(s, id, raw).0)
  {
    var (s', outcome) := AssignTables(s, id, raw);
    if outcome.Done? {
      var list := NormalizeSorted(raw);
      var r := s.reservations[id];
      var q := SeatingQuery(id, r, set t | t in list);
      var next := r.(primary := Some(list[0]), rows := OrderMap(list));
      assert s'.reservations == s.reservations[id := next];
      assert Cleared(s, id, next, q);
      assert Agrees(next.primary, next.rows) by { SyncAgrees(list); }
      WritingKeeps(s, id, next, q, s');
    }
  }

  lemma RefusedHoldChangesNothing(s: State, req: HoldRequest, forOffer: bool)
    ensures !CreateHold(s, req, forOffer).1.MadeHold? ==> CreateHold(s, req, forOffer).0 == s
  {
  }

  /** A new hold was checked against its slot and its table. */
  lemma HoldIsChecked(s: State, req: HoldRequest, forOffer: bool) returns (hold: Hold, q: Query)
    requires CreateHold(s, req, forOffer).1.MadeHold?
    ensures CreateHold(s, req, forOffer).0 == s.(holds := s.holds[s.nextId := hold], nextId := s.nextId + 1)
    ensures Meaningful(s, q) && SlotIsFree(s, q) && q.excludeHold == None && q.excludeReservation == None
    ensures q.slot == hold.slot && q.requested == Requested(hold.table) && hold.start == StartOf(s, hold.slot)
  {
    var slot := BuildSlot(req.venue, req.date, req.time).value;
    hold := CreateHold(s, req, forOffer).0.holds[s.nextId];
    q := Query(slot, StartOf(s, slot), ResolveDuration(s.venues[req.venue], None), Requested(req.table), None, None);
  }

  lemma CreateHoldKeeps(s: State, req: HoldRequest, forOffer: bool)
    requires Inv(s)
    ensures Inv(CreateHold(s, req, forOffer).0)
  {
    RefusedHoldChangesNothing(s, req, forOffer);
    if CreateHold(s, req, forOffer).1.MadeHold? {
      var hold, q := HoldIsChecked(s, req, forOffer);
      HoldingKeeps(s, hold, q, CreateHold(s, req, forOffer).0);
    }
  }

  lemma CancelFrees(s: State, id: HoldId)
    ensures OnlyFrees(s, CancelHold(s, id).0)
  {
  }

  lemma HoldStepFrees(s: State, e: HoldEvent)
    requires !e.ECreateHold?
    ensures OnlyFrees(s, StepHold(s, e).0)
  {
    match e {
      case ECancelHold(id) => CancelFrees(s, id);
      case EGetValidHold(id) => assert OnlyFrees(s, GetValidHold(s, id));
      case EListHolds(venue) => assert OnlyFrees(s, ListHolds(s, venue));
      case ESweepBatch(batch) => assert OnlyFrees(s, SweepBatch(s, batch));
    }
  }

  lemma HoldStepKeeps(s: State, e: HoldEvent)
    requires Inv(s)
    ensures Inv(StepHold(s, e).0)
  {
    if e.ECreateHold? {
      CreateHoldKeeps(s, e.request, false);
    } else {
      HoldStepFrees(s, e);
      FreeingKeeps(s, StepHold(s, e).0);
    }
  }

  /** Apart from the hold an offer creates, waitlist steps only cancel holds. */
  lemma WaitlistStepFrees(s: State, e: WaitlistEvent)
    ensures OnlyFrees(s, StepWaitlist(s, e).0)
  {
    match e {
      case EJoinWaitlist(venue, partySize) => assert OnlyFrees(s, JoinWaitlist(s, venue, partySize).0);
      case EExpireEntry(id) => ExpireEntryFrees(s, id);
      case EConvertEntry(id) => assert OnlyFrees(s, ConvertEntry(s, id).0);
      case EResolveOffer(id, code, token) => ResolveOfferFrees(s, id, code, token);
      case EConsumeOffer(id, code, token) => ConsumeOfferFrees(s, id, code, token);
    }
  }

  lemma ExpireEntryFrees(s: State, id: EntryId)
    ensures OnlyFrees(s, ExpireEntry(s, id).0)
  {
  }

  lemma ResolveOfferFrees(s: State, id: EntryId, code: nat, token: nat)
    ensures OnlyFrees(s, ResolveOffer(s, id, code, token).0)
  {
    EntryHoldFrees(s, id);
  }

  lemma ConsumeOfferFrees(s: State, id: EntryId, code: nat, token: nat)
    ensures OnlyFrees(s, ConsumeOffer(s, id, code, token).0)
  {
  }

  lemma EntryHoldFrees(s: State, id: EntryId)
    ensures id in s.entries && s.entries[id].hold.Some? ==> OnlyFrees(s, CancelHold(s, s.entries[id].hold.value).0)
  {
  }

  lemma EndOfferFrees(s: State, offer: nat, hold: HoldId)
    ensures OnlyFrees(s, EndOffer(s, offer, hold))
  {
  }

  ghost predicate SameBookings(s: State, s': State) {
    && s'.reservations == s.reservations && s'.holds == s.holds
    && s'.now == s.now && s'.instant == s.instant && s'.nextId == s.nextId
  }

  lemma SameBookingsKeep(s: State, s': State)
    requires Inv(s) && SameBookings(s, s')
    ensures Inv(s')
  {
  }

  /** What the hold-creating step of an offer books is what creating the hold books. */
  lemma OfferHoldBooks(s: State, offer: nat, table: Option<TableId>, slot: Slot, ttl: Option<int>)
    ensures var t := OfferHold(s, offer, table, slot, ttl).0;
            SameBookings(s, t) || exists req :: SameBookings(CreateHold(s, req, true).0, t)
  {
  }

  lemma OfferHoldKeeps(s: State, offer: nat, table: Option<TableId>, slot: Slot, ttl: Option<int>)
    requires Inv(s)
    ensures Inv(OfferHold(s, offer, table, slot, ttl).0)
  {
    var t := OfferHold(s, offer, table, slot, ttl).0;
    OfferHoldBooks(s, offer, table, slot, ttl);
    if SameBookings(s, t) {
      SameBookingsKeep(s, t);
    } else {
      var req :| SameBookings(CreateHold(s, req, true).0, t);
      CreateHoldKeeps(s, req, true);
      SameBookingsKeep(CreateHold(s, req, true).0, t);
    }
  }

  lemma OfferAssignFrees(s: State, offer: nat, code: nat, token: nat, fault: bool)
    ensures OnlyFrees(s, OfferAssign(s, offer, code, token, fault).0)
  {
    var t := OfferAssign(s, offer, code, token, fault).0;
    OfferAssignEndsOrBooksNothing(s, offer, code, token, fault);
    if SameBookings(s, t) {
      SameBookingsFree(s, t);
    } else {
      EndOfferFrees(s, offer, s.offers[offer].hold);
    }
  }

  lemma OfferAssignEndsOrBooksNothing(s: State, offer: nat, code: nat, token: nat, fault: bool)
    ensures var t := OfferAssign(s, offer, code, token, fault).0;
            SameBookings(s, t)
              || (offer in s.offers && s.offers[offer].Holding? && t == EndOffer(s, offer, s.offers[offer].hold))
  {
  }

  lemma SameBookingsFree(s: State, s': State)
    requires SameBookings(s, s')
    ensures OnlyFrees(s, s')
  {
  }

  lemma OfferFinishFrees(s: State, offer: nat, fault: bool)
    ensures OnlyFrees(s, OfferFinish(s, offer, fault).0)
  {
    if offer in s.offers && s.offers[offer].Assigned? {
      EndOfferFrees(s, offer, s.offers[offer].hold);
    }
  }

  lemma OfferStepKeeps(s: State, e: OfferEvent)
    requires Inv(s)
    ensures Inv(StepOffer(s, e).0)
  {
    match e {
      case EOfferRead(id) => FreeingKeeps(s, OfferRead(s, id).0);
      case EOfferHold(offer, table, slot, ttl) => OfferHoldKeeps(s, offer, table, slot, ttl);
      case EOfferAssign(offer, code, token, fault) =>
        OfferAssignFrees(s, offer, code, token, fault);
        FreeingKeeps(s, OfferAssign(s, offer, code, token, fault).0);
      case EOfferFinish(offer, fault) =>
        OfferFinishFrees(s, offer, fault);
        FreeingKeeps(s, OfferFinish(s, offer, fault).0);
    }
  }

  lemma ReservationStepKeeps(s: State, e: ReservationEvent)
    requires Inv(s)
    ensures Inv(StepReservation(s, e).0)
  {
    match e {
      case ECreate(req) => CreateKeeps(s, req);
      case EUpdate(id, req) => UpdateKeeps(s, id, req);
      case EUpdateStatus(id, status, guest) => UpdateStatusKeeps(s, id, status, guest);
      case EAssignTables(id, raw) => AssignTablesKeeps(s, id, raw);
      case ERemove(id) => RemoveKeeps(s, id);
    }
  }

  lemma StepKeepsInv(s: State, e: Event)
    requires Inv(s)
    ensures Inv(Step(s, e).0)
  {
    match e {
      case Tick(_) => FreeingKeeps(s, Step(s, e).0);
      case OnReservation(r) => ReservationStepKeeps(s, r);
      case OnHold(h) => HoldStepKeeps(s, h);
      case OnWaitlist(w) => WaitlistStepFrees(s, w); FreeingKeeps(s, Step(s, e).0);
      case OnOffer(o) => OfferStepKeeps(s, o);
    }
  }

  /** Whole runs: from an empty ledger, no sequence of requests books a table of a slot twice. */
  lemma {:induction false} RunKeepsInv(s: State, events: seq<Event>)
    requires Inv(s)
    ensures Inv(Run(s, events))
    decreases |events|
  {
    if events != [] {
      StepKeepsInv(s, events[0]);
      RunKeepsInv(Step(s, events[0]).0, events[1..]);
    }
  }

  lemma NoDoubleBooking(s: State, events: seq<Event>)
    requires Initial(s)
    ensures var t := Run(s, events);
            PrimariesExclusive(t) && HoldsExcludeReservations(t) && HoldsExcludeHolds(t) && RowsAgree(t)
  {
    RunKeepsInv(s, events);
  }
}
