/**
 * Joined tables: blocking reservations of one slot share no table at all, as long as nobody moves
 * a reservation of several tables without naming a table. Such a move checks the primary only.
 */
module JoinedTables {
  import opened Common
  import opened SlotTime
  import opened Rows
  import opened Conflicts
  import opened Assignments
  import opened Ledger
  import opened Exclusion

  ghost predicate TablesDisjoint(s: State) {
    forall a, b :: Blocks(s, a) && Blocks(s, b) && a != b && s.reservations[a].slot == s.reservations[b].slot ==>
      s.reservations[a].rows.Keys !! s.reservations[b].rows.Keys
  }

  /** The hold law for every assigned table, not just the primary. */
  ghost predicate HoldsExcludeTables(s: State) {
    forall h, r :: LiveHold(s, h) && Blocks(s, r) && s.holds[h].slot == s.reservations[r].slot
                   && s.holds[h].table.Some? && s.holds[h].table.value in s.reservations[r].rows ==>
      s.holds[h].expiresAt <= s.reservations[r].start
  }

  ghost predicate Strong(s: State) {
    Inv(s) && TablesDisjoint(s) && HoldsExcludeTables(s)
  }

  /** The update carries assignment rows that nobody checked into another slot. */
  predicate MovesUnnamed(r: Reservation, req: UpdateRequest) {
    && req.table.Absent?
    && req.NextSlot(r).Some? && req.NextSlot(r).value != r.slot
    && |r.rows| > 1
  }

  /** ... and the reservation goes on blocking there. */
  predicate UnsafeMove(r: Reservation, req: UpdateRequest) {
    MovesUnnamed(r, req) && Blocking(req.NextStatus(r))
  }

  predicate NamesItsTable(s: State, e: Event) {
    e.OnReservation? && e.reservationEvent.EUpdate? && e.reservationEvent.id in s.reservations ==>
      !UnsafeMove(s.reservations[e.reservationEvent.id], e.reservationEvent.update)
  }

  // ---------- what keeps the tables apart ----------

  lemma FreeingKeepsStrong(s: State, s': State)
    requires Strong(s) && OnlyFrees(s, s')
    ensures Strong(s')
  {
    FreeingKeeps(s, s');
    forall h | LiveHold(s', h) ensures LiveHold(s, h) {
      assert Ages(s.holds[h], s'.holds[h]);
    }
    assert forall r :: Blocks(s', r) ==> Blocks(s, r);
  }

  ghost predicate TakesNoMoreTables(s: State, id: ReservationId, r: Reservation) {
    Blocking(r.status) ==> Blocks(s, id) && s.reservations[id].slot == r.slot && r.rows == s.reservations[id].rows
  }

  lemma WritingKeepsTables(s: State, id: ReservationId, r: Reservation, q: Query, s': State)
    requires Strong(s) && Writes(s, id, r, s')
    requires r.start == StartOf(s, r.slot)
    requires (Cleared(s, id, r, q) && r.rows.Keys <= q.requested) || TakesNoMoreTables(s, id, r)
    ensures TablesDisjoint(s') && HoldsExcludeTables(s')
  {
    forall b | Blocks(s', b) && b != id ensures Blocks(s, b) {}
    forall h | LiveHold(s', h) ensures LiveHold(s, h) {}
    if !TakesNoMoreTables(s, id, r) {
      forall b | Blocks(s', b) && b != id && s'.reservations[b].slot == r.slot
        ensures r.rows.Keys !! s.reservations[b].rows.Keys
      {
        ClearedOfReservations(s, id, r, q, b);
      }
      forall h | LiveHold(s, h) && s.holds[h].slot == r.slot && s.holds[h].table.Some?
        && s.holds[h].table.value in r.rows
        ensures s.holds[h].expiresAt <= r.start
      {
        ClearedOfHolds(s, q, h);
      }
    }
  }

  lemma HoldingKeepsTables(s: State, req: HoldRequest, forOffer: bool)
    requires Strong(s)
    ensures Strong(CreateHold(s, req, forOffer).0)
  {
    CreateHoldKeeps(s, req, forOffer);
    RefusedHoldChangesNothing(s, req, forOffer);
    if CreateHold(s, req, forOffer).1.MadeHold? {
      var hold, q := HoldIsChecked(s, req, forOffer);
      HoldAddedKeepsTables(s, hold, q, CreateHold(s, req, forOffer).0);
    }
  }

  lemma HoldAddedKeepsTables(s: State, hold: Hold, q: Query, s': State)
    requires Strong(s) && Inv(s') && Meaningful(s, q) && SlotIsFree(s, q) && q.excludeReservation == None
    requires s'.reservations == s.reservations && s'.holds == s.holds[s.nextId := hold] && s'.now == s.now
    requires q.slot == hold.slot && q.requested == Requested(hold.table)
    ensures Strong(s')
  {
    forall b | Blocks(s, b) && s.reservations[b].slot == hold.slot && hold.table.Some?
      ensures hold.table.value !in s.reservations[b].rows
    {
      FreeTableIsUnused(s, q, b);
    }
    forall h | LiveHold(s', h) && h != s.nextId ensures LiveHold(s, h) {}
    assert forall b :: Blocks(s', b) ==> Blocks(s, b);
  }

  lemma FreeTableIsUnused(s: State, q: Query, b: ReservationId)
    requires Consistent(s) && Meaningful(s, q) && SlotIsFree(s, q) && q.excludeReservation == None
    requires Blocks(s, b) && s.reservations[b].slot == q.slot
    ensures q.requested !! s.reservations[b].rows.Keys
  {
    FindsExactlyTheBlockers(s, q);
    assert b !in FindSlotConflicts(s, q).reservations;
    NotClashing(q.requested, s.reservations[b].primary, s.reservations[b].rows.Keys);
  }

  lemma OneRow(primary: Option<TableId>, rows: map<TableId, nat>)
    requires Agrees(primary, rows) && |rows| <= 1
    ensures rows.Keys <= Requested(primary)
  {
    if primary.Some? {
      assert rows.Keys - {primary.value} == {} by {
        assert |rows.Keys - {primary.value}| == |rows.Keys| - 1;
      }
    }
  }

  /** An update that names its table, keeps its slot or ends the reservation is checked for every row it leaves. */
  lemma UpdateIsChecked(s: State, id: ReservationId, req: UpdateRequest) returns (r: Reservation, q: Query)
    requires Inv(s) && id in s.reservations && Update(s, id, req).1.Done? && !req.IsEmpty()
    requires !UnsafeMove(s.reservations[id], req)
    ensures Writes(s, id, r, Update(s, id, req).0)
    ensures (Cleared(s, id, r, q) && r.rows.Keys <= q.requested) || TakesNoMoreTables(s, id, r)
  {
    r, q := NextRow(s, id, req), NextQuery(s, id, req);
    UpdateWrites(s, id, req);
    var was := s.reservations[id];
    if !req.table.Absent? {
      SyncOneAgrees(req.NextTable(was));
    } else if !MovesUnnamed(was, req) && |was.rows| <= 1 {
      OneRow(was.primary, was.rows);
    }
  }

  lemma UpdateKeepsTables(s: State, id: ReservationId, req: UpdateRequest)
    requires Strong(s) && id in s.reservations
    requires !UnsafeMove(s.reservations[id], req)
    ensures Strong(Update(s, id, req).0)
  {
    UpdateKeeps(s, id, req);
    if Update(s, id, req).1.Done? && !req.IsEmpty() {
      var r, q := UpdateIsChecked(s, id, req);
      CheckedRowKeepsTables(s, id, r, q, Update(s, id, req).0);
    }
  }

  lemma CheckedRowKeepsTables(s: State, id: ReservationId, r: Reservation, q: Query, s': State)
    requires Strong(s) && Writes(s, id, r, s') && Inv(s')
    requires (Cleared(s, id, r, q) && r.rows.Keys <= q.requested) || TakesNoMoreTables(s, id, r)
    ensures Strong(s')
  {
    assert s'.reservations[id] == r;
    WritingKeepsTables(s, id, r, q, s');
  }

  lemma FromHoldKeepsTables(s: State, h: HoldId, req: CreateRequest)
    requires Strong(s)
    ensures Strong(CreateFromHold(s, h, req).0)
  {
    CreateFromHoldKeeps(s, h, req);
    var (s', outcome) := CreateFromHold(s, h, req);
    if outcome.MadeReservation? {
      var s1, made, q := FromHoldWrites(s, h, req);
      FreeingKeepsStrong(s, s1);
      CheckedRowKeepsTables(s1, s.nextId, made, q, s');
    }
  }

  lemma CreateKeepsTables(s: State, req: CreateRequest)
    requires Strong(s)
    ensures Strong(Create(s, req).0)
  {
    var (s', outcome) := Create(s, req);
    if req.hold.Some? {
      FromHoldKeepsTables(s, req.hold.value, req);
    } else if outcome.MadeReservation? {
      CreateKeeps(s, req);
      var venue := if req.venue.Some? then req.venue.value else DEFAULT_VENUE;
      var slot := BuildSlot(venue, req.date, req.time).value;
      var duration := ResolveDuration(s.venues[venue], req.duration);
      SyncOneAgrees(req.table);
      WritingKeepsTables(s, s.nextId, s'.reservations[s.nextId],
                         Query(slot, StartOf(s, slot), duration, Requested(req.table), None, None), s');
    }
  }

  lemma AssignTablesKeepsTables(s: State, id: ReservationId, raw: seq<RawId>)
    requires Strong(s)
    ensures Strong(AssignTables(s, id, raw).0)
  {
    AssignTablesKeeps(s, id, raw);
    var (s', outcome) := AssignTables(s, id, raw);
    if outcome.Done? {
      var list := NormalizeSorted(raw);
      var r := s.reservations[id];
      var q := SeatingQuery(id, r, set t | t in list);
      var next := r.(primary := Some(list[0]), rows := OrderMap(list));
      assert next.rows.Keys == q.requested;
      assert Cleared(s, id, next, q);
      WritingKeepsTables(s, id, next, q, s');
    }
  }

  lemma UpdateStatusKeepsTables(s: State, id: ReservationId, status: Option<ReservationStatus>, guest: bool)
    requires Strong(s)
    ensures Strong(UpdateStatus(s, id, status, guest).0)
  {
    UpdateStatusKeeps(s, id, status, guest);
    var (s', outcome) := UpdateStatus(s, id, status, guest);
    if outcome.Done? {
      WritingKeepsTables(s, id, s'.reservations[id], SeatingQuery(id, s.reservations[id], {}), s');
    }
  }

  lemma ReservationStepKeepsTables(s: State, e: ReservationEvent)
    requires Strong(s) && NamesItsTable(s, OnReservation(e))
    ensures Strong(StepReservation(s, e).0)
  {
    match e {
      case ECreate(req) => CreateKeepsTables(s, req);
      case EUpdate(id, req) => if id in s.reservations { UpdateKeepsTables(s, id, req); }
      case EUpdateStatus(id, status, guest) => UpdateStatusKeepsTables(s, id, status, guest);
      case EAssignTables(id, raw) => AssignTablesKeepsTables(s, id, raw);
      case ERemove(id) => RemoveKeepsTables(s, id);
    }
  }

  lemma RemoveKeepsTables(s: State, id: ReservationId)
    requires Strong(s)
    ensures Strong(Remove(s, id).0)
  {
    RemoveFrees(s, id);
    FreeingKeepsStrong(s, Remove(s, id).0);
  }

  lemma SameBookingsKeepStrong(s: State, s': State)
    requires Strong(s) && SameBookings(s, s')
    ensures Strong(s')
  {
    FreeingKeepsStrong(s, s');
  }

  lemma OfferStepKeepsTables(s: State, e: OfferEvent)
    requires Strong(s)
    ensures Strong(StepOffer(s, e).0)
  {
    var t := StepOffer(s, e).0;
    match e {
      case EOfferRead(id) => FreeingKeepsStrong(s, t);
      case EOfferHold(offer, table, slot, ttl) =>
        OfferHoldBooks(s, offer, table, slot, ttl);
        if SameBookings(s, t) {
          SameBookingsKeepStrong(s, t);
        } else {
          var req :| SameBookings(CreateHold(s, req, true).0, t);
          HoldingKeepsTables(s, req, true);
          SameBookingsKeepStrong(CreateHold(s, req, true).0, t);
        }
      case EOfferAssign(offer, code, token, fault) =>
        OfferAssignFrees(s, offer, code, token, fault);
        FreeingKeepsStrong(s, t);
      case EOfferFinish(offer, fault) =>
        OfferFinishFrees(s, offer, fault);
        FreeingKeepsStrong(s, t);
    }
  }

  lemma StepKeepsTables(s: State, e: Event)
    requires Strong(s) && NamesItsTable(s, e)
    ensures Strong(Step(s, e).0)
  {
    match e {
      case Tick(_) => FreeingKeepsStrong(s, Step(s, e).0);
      case OnReservation(r) => ReservationStepKeepsTables(s, r);
      case OnHold(h) =>
        if h.ECreateHold? {
          HoldingKeepsTables(s, h.request, false);
        } else {
          HoldStepFrees(s, h);
          FreeingKeepsStrong(s, StepHold(s, h).0);
        }
      case OnWaitlist(w) => WaitlistStepFrees(s, w); FreeingKeepsStrong(s, Step(s, e).0);
      case OnOffer(o) => OfferStepKeepsTables(s, o);
    }
  }

  /** Every move of a reservation of several tables along the run names a table, or ends the reservation. */
  ghost predicate EveryMoveNames(s: State, events: seq<Event>)
    decreases |events|
  {
    events != [] ==> NamesItsTable(s, events[0]) && EveryMoveNames(Step(s, events[0]).0, events[1..])
  }

  lemma {:induction false} RunKeepsTables(s: State, events: seq<Event>)
    requires Strong(s) && EveryMoveNames(s, events)
    ensures Strong(Run(s, events))
    decreases |events|
  {
    if events != [] {
      StepKeepsTables(s, events[0]);
      RunKeepsTables(Step(s, events[0]).0, events[1..]);
    }
  }

  lemma NoTableSharedInRuns(s: State, events: seq<Event>)
    requires Initial(s) && EveryMoveNames(s, events)
    ensures TablesDisjoint(Run(s, events)) && HoldsExcludeTables(Run(s, events))
  {
    RunKeepsTables(s, events);
  }

  // ---------- exactly which updates are safe ----------

  /** Nothing in the request alone makes the service refuse it. */
  ghost predicate Acceptable(r: Reservation, req: UpdateRequest) {
    && !req.IsEmpty()
    && (req.guest ==> !req.GuestForbidden() && r.status != CANCELLED)
    && (req.partySize.Absent? || (req.partySize.Given? && req.partySize.value > 0))
    && TransitionAllowed(r.status, req.NextStatus(r))
    && req.NextSlot(r).Some? && !req.table.Malformed?
  }

  /** Whatever else is booked, an accepted update leaves no table shared. */
  ghost predicate AlwaysSafe(id: ReservationId, r: Reservation, req: UpdateRequest) {
    forall s :: Strong(s) && id in s.reservations && s.reservations[id] == r && Update(s, id, req).1.Done? ==>
      TablesDisjoint(Update(s, id, req).0)
  }

  /** A database in which the second table of `r` is booked in the slot that `r` moves to. */
  ghost function Trap(id: ReservationId, r: Reservation, slot: Slot, second: TableId): State {
    State(
      (d, t) => r.start,
      map[r.slot.venue := Venue(120, 15, 0, 0)],
      map t | t in r.rows :: Table(r.slot.venue, 4, None, t),
      map[id := r, id + 1 :=
        Reservation(slot, r.start, 120, CONFIRMED, Some(second), Synced(OfOption(Some(second))), 2)],
      map[], map[], map[], id + 2, 0)
  }

  lemma AloneIsStrong(s: State)
    requires Consistent(s) && FreshIds(s) && RowsAgree(s) && s.holds == map[]
    requires forall a, b :: Blocks(s, a) && Blocks(s, b) && a != b ==> s.reservations[a].slot != s.reservations[b].slot
    ensures Strong(s)
  {
  }

  lemma TrapRowsAgree(id: ReservationId, r: Reservation, slot: Slot, second: TableId)
    requires r.duration >= 1 && Agrees(r.primary, r.rows)
    ensures var s := Trap(id, r, slot, second); Consistent(s) && FreshIds(s) && RowsAgree(s)
  {
    SyncOneAgrees(Some(second));
  }

  lemma TrapIsStrong(id: ReservationId, r: Reservation, slot: Slot, second: TableId)
    requires r.duration >= 1 && Agrees(r.primary, r.rows) && slot != r.slot
    ensures Strong(Trap(id, r, slot, second))
  {
    TrapRowsAgree(id, r, slot, second);
    AloneIsStrong(Trap(id, r, slot, second));
  }

  lemma TrapLooksFree(id: ReservationId, r: Reservation, slot: Slot, second: TableId, q: Query)
    requires slot != r.slot && q.slot == slot
    requires r.primary.Some? && r.primary != Some(second) && q.requested == {r.primary.value}
    ensures SlotIsFree(Trap(id, r, slot, second), q)
  {
  }

  lemma TrapIsSprung(id: ReservationId, r: Reservation, req: UpdateRequest, second: TableId)
    requires Acceptable(r, req) && UnsafeMove(r, req)
    requires r.duration >= 1 && Agrees(r.primary, r.rows)
    requires second in r.rows && r.primary != Some(second)
    ensures var s := Trap(id, r, req.NextSlot(r).value, second);
            Update(s, id, req).1.Done? && !TablesDisjoint(Update(s, id, req).0)
  {
    var slot := req.NextSlot(r).value;
    var s := Trap(id, r, slot, second);
    var v := s.venues[r.slot.venue];
    TrapLooksFree(id, r, slot, second, UpdateQuery(s, id, r, req, slot, v));
    var s' := Update(s, id, req).0;
    assert s'.reservations[id] == Updated(s, r, req, slot, v);
    SyncOneAgrees(Some(second));
    assert Blocks(s', id) && Blocks(s', id + 1);
    assert second in s'.reservations[id].rows.Keys && second in s'.reservations[id + 1].rows.Keys;
  }

  /**
   * An update can be trusted with joined tables if and only if it does not carry several unnamed
   * tables of a still blocking reservation into another slot.
   */
  lemma SafeUpdates(id: ReservationId, r: Reservation, req: UpdateRequest)
    requires Acceptable(r, req) && r.duration >= 1 && Agrees(r.primary, r.rows)
    ensures AlwaysSafe(id, r, req) <==> !UnsafeMove(r, req)
  {
    if UnsafeMove(r, req) {
      assert r.rows.Keys != {r.primary.value};
      assert r.rows.Keys - {r.primary.value} != {};
      var second :| second in r.rows.Keys - {r.primary.value};
      TrapIsStrong(id, r, req.NextSlot(r).value, second);
      TrapIsSprung(id, r, req, second);
    } else {
      forall s | Strong(s) && id in s.reservations && s.reservations[id] == r && Update(s, id, req).1.Done?
        ensures TablesDisjoint(Update(s, id, req).0)
      {
        UpdateKeepsTables(s, id, req);
      }
    }
  }

  // ---------- a run that shares a table ----------

  const EVENING := LocalDate(2025, 5, 1)
  const SEVEN := LocalTime(19, 0)
  const NINE := LocalTime(21, 0)

  /** One venue with two tables for four that can be joined. */
  ghost predicate TwoTables(s: State) {
    && s.venues == map[0 := Venue(120, 15, 0, 0)]
    && s.tables == map[1 := Table(0, 4, Some(7), 1), 2 := Table(0, 4, Some(7), 2)]
    && s.holds == map[] && s.now == 0
  }

  /** With no hold and no other reservation there, a slot is free for anyone. */
  lemma EmptySlotIsFree(s: State, q: Query)
    requires s.holds == map[]
    requires forall id :: id in s.reservations && s.reservations[id].slot == q.slot ==> q.excludeReservation == Some(id)
    ensures SlotIsFree(s, q)
  {
  }

  function BookingRequest(time: LocalTime, table: TableId, partySize: int): CreateRequest {
    CreateRequest(None, Some(0), Given(EVENING), Given(time), Some(table), None, None, partySize)
  }

  lemma BookingSucceeds(s: State, time: LocalTime, table: TableId, partySize: int) returns (r: Reservation)
    requires TwoTables(s) && table in s.tables && partySize > 0
    requires forall id :: id in s.reservations ==> s.reservations[id].slot != Slot(0, EVENING, time)
    ensures Create(s, BookingRequest(time, table, partySize)).0 == InsertReservation(s, r)
    ensures r.slot == Slot(0, EVENING, time) && r.status == CONFIRMED && r.partySize == partySize
    ensures r.primary == Some(table) && r.rows.Keys == {table}
  {
    var slot := Slot(0, EVENING, time);
    EmptySlotIsFree(s, Query(slot, StartOf(s, slot), 120, {table}, None, None));
    SyncOneAgrees(Some(table));
    r := NewReservation(s, slot, 120, None, Some(table), partySize);
  }

  lemma OneAndTwo(list: seq<TableId>)
    requires Increasing(list)
    requires forall t :: t in list <==> t in {1, 2}
    ensures list == [1, 2]
  {
    SizeOfElements(list);
    assert Elements(list) == {1, 2};
    assert |list| == 2 && list[0] in list && list[1] in list && list[0] < list[1];
    assert list[0] == 1 && list[1] == 2;
  }

  lemma JoiningSucceeds(s: State, list: seq<TableId>) returns (six: Reservation)
    requires TwoTables(s) && s.reservations.Keys == {0}
    requires Increasing(list)
    requires forall t :: t in list <==> t in {1, 2}
    requires s.reservations[0].slot.venue == 0 && s.reservations[0].partySize == 6
    ensures AssignList(s, 0, list).0 == s.(reservations := s.reservations[0 := six])
    ensures six == s.reservations[0].(primary := Some(1), rows := six.rows) && 2 in six.rows
  {
    OneAndTwo(list);
    assert list[1..] == [2] && list[1..][1..] == [];
    assert SumCapacity(s.tables, list[1..]) == 4;
    EmptySlotIsFree(s, SeatingQuery(0, s.reservations[0], set t | t in list));
    assert list[1] == 2;
    six := s.reservations[0].(primary := Some(1), rows := OrderMap(list));
  }

  function GuestMove(): UpdateRequest {
    UpdateRequest(true, Absent, Given(NINE), Absent, Absent, Absent, Absent, false, false)
  }

  lemma GuestMoveIsUnchecked(s: State, six: Reservation, couple: Reservation)
    requires s.reservations == map[0 := six, 1 := couple] && TwoTables(s)
    requires six.primary == Some(1) && couple.primary == Some(2) && couple.rows.Keys == {2} && six.slot.venue == 0
    ensures SlotIsFree(s, UpdateQuery(s, 0, six, GuestMove(), Slot(0, EVENING, NINE), s.venues[0]))
    ensures ReservationIndexFree(s, Some(0), Slot(0, EVENING, NINE), six.primary)
  {
  }

  lemma GuestMoveShares(s: State, six: Reservation, couple: Reservation)
    requires s.reservations == map[0 := six, 1 := couple] && TwoTables(s)
    requires six.slot == Slot(0, EVENING, SEVEN) && six.status == CONFIRMED && six.primary == Some(1) && 2 in six.rows
    requires couple.slot == Slot(0, EVENING, NINE) && couple.status == CONFIRMED
    requires couple.primary == Some(2) && couple.rows.Keys == {2}
    ensures !TablesDisjoint(Update(s, 0, GuestMove()).0)
  {
    GuestMoveIsUnchecked(s, six, couple);
    var moved := Updated(s, six, GuestMove(), Slot(0, EVENING, NINE), s.venues[0]);
    assert Update(s, 0, GuestMove()).0 == s.(reservations := map[0 := moved, 1 := couple]);
    NowShared(s.(reservations := map[0 := moved, 1 := couple]), moved, couple);
  }

  lemma NowShared(t: State, moved: Reservation, couple: Reservation)
    requires t.reservations == map[0 := moved, 1 := couple] && moved.slot == couple.slot
    requires moved.status == couple.status == CONFIRMED && 2 in moved.rows && 2 in couple.rows
    ensures !TablesDisjoint(t)
  {
    assert Blocks(t, 0) && Blocks(t, 1);
    assert 2 in t.reservations[0].rows.Keys && 2 in t.reservations[1].rows.Keys;
  }

  /** A party of six at seven, */
  lemma SixBook() returns (s: State, six: Reservation)
    ensures Reachable(s) && TwoTables(s) && s.reservations == map[0 := six] && s.nextId == 1
    ensures six.slot == Slot(0, EVENING, SEVEN) && six.status == CONFIRMED && six.partySize == 6
  {
    var empty := State((d, t) => 0, map[0 := Venue(120, 15, 0, 0)],
      map[1 := Table(0, 4, Some(7), 1), 2 := Table(0, 4, Some(7), 2)],
                       map[], map[], map[], map[], 0, 0);
    assert Run(empty, []) == empty;
    six := BookingSucceeds(empty, SEVEN, 1, 6);
    s := InsertReservation(empty, six);
    StepReachable(empty, OnReservation(ECreate(BookingRequest(SEVEN, 1, 6))), s);
  }

  /** seated at the two tables together, */
  lemma SixAreJoined(both: seq<RawId>) returns (s: State, six: Reservation)
    requires forall t :: t in both <==> t in {Some(1), Some(2)}
    ensures Reachable(s) && TwoTables(s) && s.reservations == map[0 := six] && s.nextId == 1
    ensures six.slot == Slot(0, EVENING, SEVEN) && six.status == CONFIRMED && six.primary == Some(1) && 2 in six.rows
  {
    var before, party := SixBook();
    s, six := TheyJoin(before, party, both);
    AssigningReaches(before, both, s);
  }

  lemma AssigningReaches(before: State, raw: seq<RawId>, s: State)
    requires Reachable(before) && s == AssignTables(before, 0, raw).0
    ensures Reachable(s)
  {
    StepReachable(before, OnReservation(EAssignTables(0, raw)), s);
  }

  lemma TheyJoin(before: State, party: Reservation, both: seq<RawId>) returns (s: State, six: Reservation)
    requires forall t :: t in both <==> t in {Some(1), Some(2)}
    requires TwoTables(before) && before.reservations == map[0 := party] && party.slot.venue == 0
              && party.partySize == 6
    ensures s == AssignTables(before, 0, both).0 == before.(reservations := map[0 := six])
    ensures six == party.(primary := Some(1), rows := six.rows) && 2 in six.rows
  {
    var list := NormalizeSorted(both);
    forall t ensures t in list <==> t in {1, 2} {
      assert Some(t) in both <==> Some(t) in {Some(1), Some(2)};
    }
    six := JoiningSucceeds(before, list);
    s := AssignList(before, 0, list).0;
  }

  /** a couple at nine at the second one, */
  lemma CoupleBook(both: seq<RawId>) returns (s: State, six: Reservation, couple: Reservation)
    requires forall t :: t in both <==> t in {Some(1), Some(2)}
    ensures Reachable(s) && TwoTables(s) && s.reservations == map[0 := six, 1 := couple]
    ensures six.slot == Slot(0, EVENING, SEVEN) && six.status == CONFIRMED && six.primary == Some(1) && 2 in six.rows
    ensures couple.slot == Slot(0, EVENING, NINE) && couple.status == CONFIRMED
    ensures couple.primary == Some(2) && couple.rows.Keys == {2}
  {
    var before;
    before, six := SixAreJoined(both);
    couple := BookingSucceeds(before, NINE, 2, 2);
    s := InsertReservation(before, couple);
    StepReachable(before, OnReservation(ECreate(BookingRequest(NINE, 2, 2))), s);
  }

  /** and the six, moving themselves to nine, share a table with the couple: disjointness is not an invariant. */
  lemma MovingUnnamedSharesATable()
    ensures exists s :: Reachable(s) && !TablesDisjoint(s)
  {
    var both: seq<RawId> := [Some(1), Some(2)];
    assert both[0] == Some(1) && both[1] == Some(2);
    var s, six, couple := CoupleBook(both);
    GuestMoveShares(s, six, couple);
    StepReachable(s, OnReservation(EUpdate(0, GuestMove())), Update(s, 0, GuestMove()).0);
  }
}
