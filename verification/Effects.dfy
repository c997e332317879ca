/**
 * What each booking request does, said of the rows alone: exactly when it is accepted, and what an
 * accepted one leaves in the database.
 */
module Effects {
  import opened Common
  import opened SlotTime
  import opened Rows
  import opened Conflicts
  import opened Assignments
  import opened Ledger

  // ---------- what stands in the way of a booking ----------

  ghost predicate Active(st: ReservationStatus) {
    st == PENDING || st == CONFIRMED || st == SEATED
  }

  /** The life of a reservation goes forward one stage at a time, and can be cancelled while it is active. */
  ghost predicate MayBecome(a: ReservationStatus, b: ReservationStatus) {
    || a == b
    || (b == CANCELLED && Active(a))
    || (a == PENDING && b == CONFIRMED)
    || (a == CONFIRMED && b == SEATED)
    || (a == SEATED && b == COMPLETED)
  }

  /** Another active reservation has the slot, and one of the two names no table or they share one. */
  ghost predicate Occupied(s: State, slot: Slot, table: Option<TableId>, self: Option<ReservationId>) {
    exists b :: b in s.reservations && Some(b) != self && InTheWay(s.reservations[b], slot, table)
  }

  ghost predicate InTheWay(r: Reservation, slot: Slot, table: Option<TableId>) {
    && r.slot == slot && Active(r.status)
    && (table.None? || r.primary.None? || table == r.primary || table.value in r.rows)
  }

  /** A live hold has the slot and outlasts its start, and one of the two names no table or it is the same. */
  ghost predicate Reserved(s: State, slot: Slot, table: Option<TableId>, except: Option<HoldId>) {
    exists h :: h in s.holds && Some(h) != except && Against(s, s.holds[h], slot, table)
  }

  ghost predicate Against(s: State, hold: Hold, slot: Slot, table: Option<TableId>) {
    && hold.slot == slot && hold.status == HELD && s.now < hold.expiresAt
    && s.instant(slot.date, slot.time) < hold.expiresAt
    && (table.None? || hold.table.None? || table == hold.table)
  }

  /** Some other reservation, of whatever status, has the slot and the primary table. */
  ghost predicate Indexed(s: State, slot: Slot, table: Option<TableId>, self: Option<ReservationId>) {
    table.Some? && exists b :: b in s.reservations && Some(b) != self && SamePlace(s.reservations[b], slot, table)
  }

  ghost predicate SamePlace(r: Reservation, slot: Slot, table: Option<TableId>) {
    r.slot == slot && r.primary == table
  }

  ghost predicate HoldIndexed(s: State, slot: Slot, table: Option<TableId>) {
    table.Some? && exists h :: h in s.holds && SameHeld(s.holds[h], slot, table)
  }

  ghost predicate SameHeld(hold: Hold, slot: Slot, table: Option<TableId>) {
    hold.slot == slot && hold.table == table
  }

  /** The table, if one is named, is one of the venue's. */
  ghost predicate Known(s: State, venue: VenueId, table: Option<TableId>) {
    table.Some? ==> table.value in s.tables && s.tables[table.value].venue == venue
  }

  lemma FreeIsUnopposed(s: State, q: Query, table: Option<TableId>)
    requires Consistent(s) && Meaningful(s, q) && q.requested == (if table.Some? then {table.value} else {})
    ensures SlotIsFree(s, q) <==>
              !Occupied(s, q.slot, table, q.excludeReservation) && !Reserved(s, q.slot, table, q.excludeHold)
  {
    FindsExactlyTheBlockers(s, q);
    var f := FindSlotConflicts(s, q);
    forall b | b in s.reservations
      ensures b in f.reservations <==> Some(b) != q.excludeReservation && InTheWay(s.reservations[b], q.slot, table)
    {
    }
    forall h | h in s.holds
      ensures h in f.holds <==> Some(h) != q.excludeHold && Against(s, s.holds[h], q.slot, table)
    {
    }
    if Occupied(s, q.slot, table, q.excludeReservation) {
      var b :| b in s.reservations && Some(b) != q.excludeReservation && InTheWay(s.reservations[b], q.slot, table);
      assert b in f.reservations;
    }
    if Reserved(s, q.slot, table, q.excludeHold) {
      var h :| h in s.holds && Some(h) != q.excludeHold && Against(s, s.holds[h], q.slot, table);
      assert h in f.holds;
    }
  }

  lemma IndexFreeIsNotIndexed(s: State, self: Option<ReservationId>, slot: Slot, table: Option<TableId>)
    ensures ReservationIndexFree(s, self, slot, table) <==> !Indexed(s, slot, table, self)
  {
    forall b | b in s.reservations && Some(b) != self && s.reservations[b].slot == slot
      && s.reservations[b].primary == table
      ensures SamePlace(s.reservations[b], slot, table)
    {
    }
  }

  lemma HoldIndexFreeIsNotIndexed(s: State, slot: Slot, table: Option<TableId>)
    ensures HoldIndexFree(s, slot, table) <==> !HoldIndexed(s, slot, table)
  {
    forall h | h in s.holds && s.holds[h].slot == slot && s.holds[h].table == table
      ensures SameHeld(s.holds[h], slot, table)
    {
    }
  }

  lemma TransitionsGoForward(a: ReservationStatus, b: ReservationStatus)
    ensures TransitionAllowed(a, b) <==> MayBecome(a, b)
  {
  }

  // ---------- create ----------

  /** The table's single row, of order 0, or none. */
  ghost predicate OneRow(rows: map<TableId, nat>, table: Option<TableId>) {
    rows == if table.Some? then map[table.value := 0] else map[]
  }

  lemma SyncedIsOneRow(table: Option<TableId>)
    ensures OneRow(Synced(OfOption(table)), table)
  {
    SyncOneAgrees(table);
  }

  /** Nothing stands in the way of a new reservation, the index included. */
  ghost predicate FreeSlot(
      s: State, slot: Slot, table: Option<TableId>, self: Option<ReservationId>, except: Option<HoldId>) {
    !Occupied(s, slot, table, self) && !Reserved(s, slot, table, except) && !Indexed(s, slot, table, self)
  }

  ghost predicate CreateMakesSense(s: State, venue: VenueId, req: CreateRequest) {
    venue in s.venues && req.partySize > 0 && req.date.Given? && req.time.Given? && Known(s, venue, req.table)
  }

  /** Accepted when it makes sense and its place is free; otherwise the error says what is missing. */
  lemma CreateAccepts(s: State, req: CreateRequest)
    requires Consistent(s) && req.hold.None?
    ensures var venue := if req.venue.Some? then req.venue.value else 0;
            Create(s, req).1 ==
              if venue !in s.venues then Refused(NotFound)
              else if !CreateMakesSense(s, venue, req) then Refused(BadRequest)
              else if FreeSlot(s, Slot(venue, req.date.value, req.time.value), req.table, None, None)
              then MadeReservation(s.nextId)
              else Refused(Conflict)
  {
    var venue := if req.venue.Some? then req.venue.value else 0;
    if venue in s.venues && req.date.Given? && req.time.Given? {
      var slot := Slot(venue, req.date.value, req.time.value);
      var duration := ResolveDuration(s.venues[venue], req.duration);
      FreeIsUnopposed(s, Query(slot, StartOf(s, slot), duration, Requested(req.table), None, None), req.table);
      IndexFreeIsNotIndexed(s, None, slot, req.table);
    }
  }

  lemma CreateWrites(s: State, req: CreateRequest)
    requires req.hold.None?
    ensures var (t, outcome) := Create(s, req);
            if !outcome.MadeReservation? then outcome.Refused? && t == s
            else
              var venue := if req.venue.Some? then req.venue.value else 0;
              var id := s.nextId;
              && outcome.id == id && id in t.reservations && venue in s.venues && req.date.Given? && req.time.Given?
              && t == s.(reservations := s.reservations[id := t.reservations[id]], nextId := id + 1)
              && var r := t.reservations[id];
                 && r.slot == Slot(venue, req.date.value, req.time.value)
                 && r.start == s.instant(req.date.value, req.time.value)
                 && r.duration == ResolveDuration(s.venues[venue], req.duration)
                 && r.status == (if req.status.Some? then req.status.value else CONFIRMED)
                 && r.primary == req.table && OneRow(r.rows, req.table) && r.partySize == req.partySize
  {
    SyncedIsOneRow(req.table);
  }

  // ---------- create from a hold ----------

  /** A part of the request that must repeat the hold's, if it is there. */
  ghost predicate Repeats<T>(field: Field<T>, value: T) {
    field.Absent? || field.Null? || field == Given(value)
  }

  /** The hold is live, the request repeats it, and some table is named. */
  ghost predicate FromHoldMakesSense(s: State, h: HoldId, req: CreateRequest)
    requires h in s.holds
  {
    var hold := s.holds[h];
    var table := if req.table.Some? then req.table else hold.table;
    && (req.venue.Some? ==> req.venue.value == hold.slot.venue)
    && hold.status == HELD && s.now < hold.expiresAt
    && Repeats(req.date, hold.slot.date) && Repeats(req.time, hold.slot.time)
    && table.Some? && Known(s, hold.slot.venue, table)
  }

  lemma FromHoldAccepts(s: State, h: HoldId, req: CreateRequest)
    requires Consistent(s)
    ensures CreateFromHold(s, h, req).1 ==
              if h !in s.holds then Refused(NotFound)
              else if req.venue.Some? && req.venue.value != s.holds[h].slot.venue then Refused(BadRequest)
              else if s.holds[h].slot.venue !in s.venues then Refused(NotFound)
              else if !FromHoldMakesSense(s, h, req) then Refused(BadRequest)
              else
                var table := if req.table.Some? then req.table else s.holds[h].table;
                if FreeSlot(s, s.holds[h].slot, table, None, Some(h)) then MadeReservation(s.nextId)
                else Refused(Conflict)
  {
    if h in s.holds && s.holds[h].slot.venue in s.venues {
      var hold := s.holds[h];
      var table := if req.table.Some? then req.table else hold.table;
      FreeIsUnopposed(s, FromHoldQuery(s, h, req), table);
      IndexFreeIsNotIndexed(s, None, hold.slot, table);
    }
  }

  /** The entry that the hold was offered to is converted; every other entry stays. */
  ghost predicate Converted(s: State, t: State, h: HoldId) {
    && t.entries.Keys == s.entries.Keys
    && forall e :: e in s.entries ==>
         if s.entries[e].hold == Some(h) then t.entries[e] == s.entries[e].(status := CONVERTED, expiresAt := None)
         else t.entries[e] == s.entries[e]
  }

  lemma FromHoldWrites(s: State, h: HoldId, req: CreateRequest)
    ensures var (t, outcome) := CreateFromHold(s, h, req);
            if !outcome.MadeReservation? then outcome.Refused? && t == s
            else
              var id := s.nextId;
              && outcome.id == id && id in t.reservations && h in s.holds && s.holds[h].slot.venue in s.venues
              && t == s.(reservations := s.reservations[id := t.reservations[id]], nextId := id + 1,
                         holds := s.holds[h := s.holds[h].(status := CONSUMED, reservation := Some(id))],
                         entries := t.entries)
              && Converted(s, t, h)
              && var hold, r := s.holds[h], t.reservations[id];
                 var table := if req.table.Some? then req.table else hold.table;
                 && r.slot == hold.slot && r.start == hold.start && r.partySize == hold.partySize
                 && r.duration == ResolveDuration(s.venues[hold.slot.venue], req.duration)
                 && r.status == (if req.status.Some? then req.status.value else CONFIRMED)
                 && r.primary == table && OneRow(r.rows, table)
  {
    if h in s.holds {
      SyncedIsOneRow(FromHoldTable(s.holds[h], req));
    }
  }

  // ---------- update ----------

  /** The slot a request asks for: what it names, and the rest as it was. */
  ghost function Asked(r: Reservation, req: UpdateRequest): Slot {
    Slot(r.slot.venue,
         if req.date.Given? then req.date.value else r.slot.date,
         if req.time.Given? then req.time.value else r.slot.time)
  }

  ghost function AskedTable(r: Reservation, req: UpdateRequest): Option<TableId> {
    if req.table.Absent? then r.primary else if req.table.Given? then Some(req.table.value) else None
  }

  ghost function AskedStatus(r: Reservation, req: UpdateRequest): ReservationStatus {
    if req.status.Given? then req.status.value else r.status
  }

  /** Each value the request can take, or nothing. */
  ghost predicate WellFormed(r: Reservation, req: UpdateRequest) {
    && (req.partySize.Absent? || (req.partySize.Given? && req.partySize.value > 0))
    && ((req.date.Absent? && req.time.Absent?) || (!req.date.Malformed? && (req.time.Absent? || req.time.Given?)))
    && !req.table.Malformed?
  }

  /** Guests change no status, table, duration or channel, nothing cancelled, and nothing too close to its start. */
  ghost predicate GuestMay(s: State, r: Reservation, v: Venue, req: UpdateRequest) {
    && req.status.Absent? && req.table.Absent? && req.duration.Absent? && !req.channel
    && r.status != CANCELLED
    && (v.guestCanModifyUntilMin > 0 ==> s.now + v.guestCanModifyUntilMin * 60_000 <= r.start)
  }

  ghost predicate AsksNothing(req: UpdateRequest) {
    && req.date.Absent? && req.time.Absent? && req.table.Absent? && req.duration.Absent?
    && req.status.Absent? && req.partySize.Absent? && !req.channel && !req.contact
  }

  ghost predicate AsksNoRoom(req: UpdateRequest) {
    req.date.Absent? && req.time.Absent? && req.table.Absent? && req.duration.Absent?
  }

  /** The place a request asks for, if it asks for one, is free of other bookings and of holds. */
  ghost predicate HasRoom(s: State, id: ReservationId, r: Reservation, req: UpdateRequest) {
    var slot, table := Asked(r, req), AskedTable(r, req);
    AsksNoRoom(req) || (!Occupied(s, slot, table, Some(id)) && !Reserved(s, slot, table, None))
  }

  ghost predicate UpdateMakesSense(s: State, r: Reservation, req: UpdateRequest) {
    WellFormed(r, req) && MayBecome(r.status, AskedStatus(r, req)) && Known(s, r.slot.venue, AskedTable(r, req))
  }

  lemma UpdateAccepts(s: State, id: ReservationId, req: UpdateRequest)
    requires Consistent(s)
    ensures Update(s, id, req).1 ==
              if id !in s.reservations || s.reservations[id].slot.venue !in s.venues then Refused(NotFound)
              else
                var r := s.reservations[id];
                if AsksNothing(req) then Done
                else if req.guest && !GuestMay(s, r, s.venues[r.slot.venue], req) then Refused(Forbidden)
                else if !UpdateMakesSense(s, r, req) then Refused(BadRequest)
                else if !HasRoom(s, id, r, req) then Refused(Conflict)
                else if Indexed(s, Asked(r, req), AskedTable(r, req), Some(id)) then Refused(Failure)
                else Done
  {
    if id in s.reservations && s.reservations[id].slot.venue in s.venues {
      var r := s.reservations[id];
      TransitionsGoForward(r.status, AskedStatus(r, req));
      if WellFormed(r, req) {
        AskedIsNext(r, req);
        var v := s.venues[r.slot.venue];
        FreeIsUnopposed(s, UpdateQuery(s, id, r, req, Asked(r, req), v), AskedTable(r, req));
        IndexFreeIsNotIndexed(s, Some(id), Asked(r, req), AskedTable(r, req));
      }
    }
  }

  lemma AskedIsNext(r: Reservation, req: UpdateRequest)
    requires WellFormed(r, req)
    ensures req.NextSlot(r) == Some(Asked(r, req)) && req.NextTable(r) == AskedTable(r, req)
  {
  }

  /** The row is what the request asks for, and otherwise as it was. */
  ghost predicate MovedTo(s: State, was: Reservation, r: Reservation, req: UpdateRequest)
    requires was.slot.venue in s.venues
  {
    var v := s.venues[was.slot.venue];
    && r.slot == Asked(was, req) && r.primary == AskedTable(was, req) && r.status == AskedStatus(was, req)
    && r.partySize == (if req.partySize.Given? then req.partySize.value else was.partySize)
    && r.start == (if req.date.Absent? && req.time.Absent? then was.start else s.instant(r.slot.date, r.slot.time))
    && r.duration == (if req.duration.Absent? then was.duration
                      else ResolveDuration(v, if req.duration.Given? then Some(req.duration.value) else None))
    && if req.table.Absent? then r.rows == was.rows else OneRow(r.rows, r.primary)
  }

  /** An accepted update moves the row to what it asks for, and touches nothing else. */
  lemma UpdateChanges(s: State, id: ReservationId, req: UpdateRequest)
    ensures var (t, outcome) := Update(s, id, req);
            if !outcome.Done? then outcome.Refused? && t == s
            else
              && id in s.reservations && id in t.reservations && s.reservations[id].slot.venue in s.venues
              && t == s.(reservations := s.reservations[id := t.reservations[id]])
              && MovedTo(s, s.reservations[id], t.reservations[id], req)
  {
    if id in s.reservations && s.reservations[id].slot.venue in s.venues {
      var was := s.reservations[id];
      if WellFormed(was, req) {
        AskedIsNext(was, req);
        UpdatedMoves(s, was, req, s.venues[was.slot.venue]);
      }
      if AsksNothing(req) {
        assert MovedTo(s, was, was, req);
      }
    }
  }

  lemma UpdatedMoves(s: State, was: Reservation, req: UpdateRequest, v: Venue)
    requires was.slot.venue in s.venues && v == s.venues[was.slot.venue] && WellFormed(was, req)
    ensures MovedTo(s, was, Updated(s, was, req, Asked(was, req), v), req)
  {
    SyncedIsOneRow(AskedTable(was, req));
  }

  // ---------- status changes and removals ----------

  /** No check of the slot: only the order of the statuses and, for guests who cancel, the window. */
  lemma UpdateStatusAccepts(s: State, id: ReservationId, status: Option<ReservationStatus>, guest: bool)
    ensures UpdateStatus(s, id, status, guest).1 ==
              if id !in s.reservations || s.reservations[id].slot.venue !in s.venues then Refused(NotFound)
              else
                var r := s.reservations[id];
                var next := if status.Some? then status.value else r.status;
                var window := s.venues[r.slot.venue].cancellationWindowMin;
                if !MayBecome(r.status, next) then Refused(BadRequest)
                else if guest && next == CANCELLED && window > 0 && s.now + window * 60_000 > r.start
                then Refused(Forbidden)
                else Done
  {
    if id in s.reservations {
      var r := s.reservations[id];
      TransitionsGoForward(r.status, if status.Some? then status.value else r.status);
    }
  }

  lemma UpdateStatusChanges(s: State, id: ReservationId, status: Option<ReservationStatus>, guest: bool)
    ensures var (t, outcome) := UpdateStatus(s, id, status, guest);
            if !outcome.Done? then outcome.Refused? && t == s
            else
              && id in s.reservations
              && t == s.(reservations := s.reservations[id := s.reservations[id].(
                           status := if status.Some? then status.value else s.reservations[id].status)])
  {
  }

  lemma RemoveChanges(s: State, id: ReservationId)
    ensures var (t, outcome) := Remove(s, id);
            && outcome == (if id in s.reservations then Done else Refused(NotFound)) && (!outcome.Done? ==> t == s)
            && id !in t.reservations && (forall b :: b in s.reservations && b != id ==>
              b in t.reservations && t.reservations[b] == s.reservations[b])
            && t == s.(reservations := t.reservations, holds := t.holds) && t.reservations.Keys <= s.reservations.Keys
            && t.holds.Keys == s.holds.Keys
            && (outcome.Done? ==> forall h :: h in s.holds ==>
                  t.holds[h] == s.holds[h].(reservation := if s.holds[h].reservation == Some(id)
                    then None else s.holds[h].reservation))
  {
  }

  // ---------- seat assignment ----------

  /** Several tables are free when each of them is. */
  lemma FreeForEach(s: State, q: Query)
    requires Consistent(s) && Meaningful(s, q) && q.requested != {}
    ensures SlotIsFree(s, q) <==>
              forall t :: t in q.requested ==>
                !Occupied(s, q.slot, Some(t), q.excludeReservation) && !Reserved(s, q.slot, Some(t), q.excludeHold)
  {
    forall t | t in q.requested
      ensures SlotIsFree(s, q.(requested := {t})) <==>
                !Occupied(s, q.slot, Some(t), q.excludeReservation) && !Reserved(s, q.slot, Some(t), q.excludeHold)
    {
      FreeIsUnopposed(s, q.(requested := {t}), Some(t));
    }
    if forall t :: t in q.requested ==> SlotIsFree(s, q.(requested := {t})) {
      FreeAltogether(s, q);
    }
    if SlotIsFree(s, q) {
      forall t | t in q.requested ensures SlotIsFree(s, q.(requested := {t})) {
        FreeOnItsOwn(s, q, t);
      }
    }
  }

  lemma FreeAltogether(s: State, q: Query)
    requires q.requested != {} && forall t :: t in q.requested ==> SlotIsFree(s, q.(requested := {t}))
    ensures SlotIsFree(s, q)
  {
    var list := NormalizeSorted(RawOf(q.requested));
    assert Elements(list) == q.requested;
    var some :| some in q.requested;
    assert some in list;
    FreeTogether(s, q, list);
    assert q.(requested := Elements(list)) == q;
  }

  lemma FreeOnItsOwn(s: State, q: Query, t: TableId)
    requires t in q.requested && SlotIsFree(s, q)
    ensures SlotIsFree(s, q.(requested := {t}))
  {
    ChecksDistribute(s, q, {t}, q.requested);
    assert {t} + q.requested == q.requested;
    assert q.(requested := q.requested) == q;
  }

  /** Some way of naming each table of a set. */
  ghost function RawOf(tables: set<TableId>): (raw: seq<RawId>)
    ensures forall t :: Some(t) in raw <==> t in tables
  {
    if tables == {} then [] else var t :| t in tables; [Some(t)] + RawOf(tables - {t})
  }

  /** Any two of the tables can be joined. */
  ghost predicate CanBeJoined(s: State, raw: seq<RawId>) {
    forall u, w :: Some(u) in raw && Some(w) in raw && u != w ==>
      && u in s.tables && w in s.tables
      && s.tables[u].joinGroup.Some? && s.tables[u].joinGroup == s.tables[w].joinGroup
  }

  lemma JoinableIsPairwise(s: State, raw: seq<RawId>, list: seq<TableId>)
    requires Increasing(list) && (forall t :: t in list <==> Some(t) in raw) && forall t :: t in list ==> t in s.tables
    ensures Joinable(s.tables, list) <==> CanBeJoined(s, raw)
  {
    if |list| > 1 {
      assert list[0] in list && list[1] in list && list[0] != list[1];
    } else {
      assert forall u, w :: u in list && w in list ==> u == w;
    }
  }

  /** Each of the tables is free in the slot. */
  ghost predicate RoomFor(s: State, id: ReservationId, slot: Slot, raw: seq<RawId>) {
    forall t :: Some(t) in raw ==> !Occupied(s, slot, Some(t), Some(id)) && !Reserved(s, slot, Some(t), None)
  }

  /** The tables are the venue's, can be joined, and seat the party. */
  ghost predicate AssignMakesSense(s: State, r: Reservation, raw: seq<RawId>) {
    && (forall t :: Some(t) in raw ==> t in s.tables && s.tables[t].venue == r.slot.venue)
    && CanBeJoined(s, raw) && SumCapacity(s.tables, NormalizeSorted(raw)) >= r.partySize
  }

  /** The index is asked for the least table only, and a table it refuses is a failure. */
  lemma AssignAccepts(s: State, id: ReservationId, raw: seq<RawId>)
    requires Consistent(s)
    ensures AssignTables(s, id, raw).1 ==
              if forall t :: Some(t) !in raw then Refused(BadRequest)
              else if id !in s.reservations then Refused(NotFound)
              else if !AssignMakesSense(s, s.reservations[id], raw) then Refused(BadRequest)
              else if !RoomFor(s, id, s.reservations[id].slot, raw) then Refused(Conflict)
              else if LeastIsIndexed(s, id, raw) then Refused(Failure)
              else Done
  {
    var list := NormalizeSorted(raw);
    assert list != [] ==> Some(list[0]) in raw;
    if list != [] && id in s.reservations {
      SeatingRoom(s, id, raw, list);
      AssignSense(s, s.reservations[id], raw, list);
    }
  }

  lemma AssignSense(s: State, r: Reservation, raw: seq<RawId>, list: seq<TableId>)
    requires list == NormalizeSorted(raw)
    ensures AssignMakesSense(s, r, raw) <==>
              && (forall t :: t in list ==> TableInVenue(s, r.slot.venue, t))
              && Joinable(s.tables, list) && SumCapacity(s.tables, list) >= r.partySize
  {
    if forall t :: t in list ==> t in s.tables {
      JoinableIsPairwise(s, raw, list);
    }
  }

  ghost predicate LeastIsIndexed(s: State, id: ReservationId, raw: seq<RawId>)
    requires id in s.reservations
  {
    exists t :: Some(t) in raw && (forall u :: Some(u) in raw ==> t <= u)
                && Indexed(s, s.reservations[id].slot, Some(t), Some(id))
  }

  lemma SeatingRoom(s: State, id: ReservationId, raw: seq<RawId>, list: seq<TableId>)
    requires Consistent(s) && id in s.reservations && list != [] && Increasing(list)
    requires forall t :: t in list <==> Some(t) in raw
    ensures var r := s.reservations[id];
            && (RoomFor(s, id, r.slot, raw) <==> SlotIsFree(s, SeatingQuery(id, r, set t | t in list)))
            && (LeastIsIndexed(s, id, raw) <==> !ReservationIndexFree(s, Some(id), r.slot, Some(list[0])))
  {
    var r := s.reservations[id];
    var q := SeatingQuery(id, r, set t | t in list);
    assert list[0] in q.requested;
    FreeForEach(s, q);
    IndexFreeIsNotIndexed(s, Some(id), r.slot, Some(list[0]));
    assert forall t :: t in list ==> list[0] <= t;
  }

  lemma AssignChanges(s: State, id: ReservationId, raw: seq<RawId>)
    ensures var (t, outcome) := AssignTables(s, id, raw);
            if !outcome.Done? then outcome.Refused? && t == s
            else
              && id in s.reservations && id in t.reservations
              && t == s.(reservations := s.reservations[id := t.reservations[id]])
              && var was, r := s.reservations[id], t.reservations[id];
                 && r == was.(primary := r.primary, rows := r.rows)
                 && (forall u :: u in r.rows <==> Some(u) in raw)
                 && r.primary.Some? && r.primary.value in r.rows
                 && forall u, w :: u in r.rows && w in r.rows ==>
                      r.primary.value <= u && (u < w ==> r.rows[u] < r.rows[w]) && r.rows[u] < |r.rows|
  {
    var (t, outcome) := AssignTables(s, id, raw);
    if outcome.Done? {
      var list := NormalizeSorted(raw);
      SizeOfElements(list);
      var rows := OrderMap(list);
      assert |rows| == |rows.Keys|;
      forall u | u in rows ensures rows[u] < |list| && list[rows[u]] == u {
        var i := IndexOf(list, u);
        assert rows[list[i]] == i;
      }
    }
  }

  /** The tables of an accepted assignment belong to the venue, can be joined, and seat the party. */
  lemma AssignedFit(s: State, id: ReservationId, raw: seq<RawId>)
    requires AssignTables(s, id, raw).1.Done?
    ensures id in s.reservations
    ensures forall u :: Some(u) in raw ==> u in s.tables && s.tables[u].venue == s.reservations[id].slot.venue
    ensures forall u, w :: Some(u) in raw && Some(w) in raw && u != w ==>
              s.tables[u].joinGroup.Some? && s.tables[u].joinGroup == s.tables[w].joinGroup
  {
    var list := NormalizeSorted(raw);
    assert forall u :: Some(u) in raw <==> u in list;
  }

  /** Seats are added up over the tables. */
  lemma {:induction false} SeatsAddUp(tables: map<TableId, Table>, a: seq<TableId>, b: seq<TableId>, t: TableId)
    ensures SumCapacity(tables, []) == 0
    ensures t in tables ==> SumCapacity(tables, [t]) == tables[t].capacity
    ensures SumCapacity(tables, a + b) == SumCapacity(tables, a) + SumCapacity(tables, b)
  {
    assert [t][1..] == [];
    if a == [] {
      assert a + b == b;
    } else {
      SeatsAddUp(tables, a[1..], b, t);
      assert (a + b)[1..] == a[1..] + b;
    }
  }

  // ---------- holds ----------

  ghost predicate HoldMakesSense(s: State, req: HoldRequest) {
    req.date.Given? && req.time.Given? && req.partySize > 0 && Known(s, req.venue, req.table)
  }

  ghost predicate HoldHasRoom(s: State, slot: Slot, table: Option<TableId>) {
    !Occupied(s, slot, table, None) && !Reserved(s, slot, table, None) && !HoldIndexed(s, slot, table)
  }

  /** What a hold lacks is a conflict too, but for a date or a time that cannot be read, which is a failure. */
  lemma CreateHoldAccepts(s: State, req: HoldRequest, forOffer: bool)
    requires Consistent(s)
    ensures CreateHold(s, req, forOffer).1 ==
              if req.venue !in s.venues then Refused(NotFound)
              else if HoldMakesSense(s, req)
                && HoldHasRoom(s, Slot(req.venue, req.date.value, req.time.value), req.table)
              then MadeHold(s.nextId)
              else if req.partySize > 0 && (req.date.Malformed? || req.time.Malformed?)
                && (req.date.Malformed? || req.date.Given?) && (req.time.Malformed? || req.time.Given?)
              then Refused(Failure)
              else Refused(Conflict)
  {
    if req.venue in s.venues && req.date.Given? && req.time.Given? {
      var slot := Slot(req.venue, req.date.value, req.time.value);
      var q := Query(slot, StartOf(s, slot), ResolveDuration(s.venues[req.venue], None), Requested(req.table), None,
        None);
      FreeIsUnopposed(s, q, req.table);
      HoldIndexFreeIsNotIndexed(s, slot, req.table);
    }
  }

  lemma CreateHoldWrites(s: State, req: HoldRequest, forOffer: bool)
    ensures var (t, outcome) := CreateHold(s, req, forOffer);
            if !outcome.MadeHold? then outcome.Refused? && t == s
            else
              var id := s.nextId;
              && outcome.hold == id && id in t.holds && req.venue in s.venues && req.date.Given? && req.time.Given?
              && t == s.(holds := s.holds[id := t.holds[id]], nextId := id + 1)
              && var hold := t.holds[id];
                 && hold.slot == Slot(req.venue, req.date.value, req.time.value)
                 && hold.start == s.instant(req.date.value, req.time.value)
                 && hold.table == req.table && hold.status == HELD && hold.partySize == req.partySize
                 && hold.expiresAt == s.now + 1000 * HoldTtlSeconds(s.venues[req.venue], req.ttl)
                 && hold.reservation == None && hold.forOffer == forOffer
  {
  }

  /** Of the holds, exactly those that are HELD and chosen become EXPIRED; nothing else changes. */
  ghost predicate Expires(s: State, t: State, chosen: set<HoldId>) {
    && t == s.(holds := t.holds) && t.holds.Keys == s.holds.Keys
    && forall h :: h in s.holds ==>
         t.holds[h] == if h in chosen && s.holds[h].status == HELD then s.holds[h].(status := EXPIRED) else s.holds[h]
  }

  lemma CancelEffect(s: State, id: HoldId)
    ensures CancelHold(s, id).1 == if id in s.holds then Done else Refused(NotFound)
    ensures Expires(s, CancelHold(s, id).0, {id})
  {
  }

  lemma GetValidEffect(s: State, id: HoldId)
    ensures Expires(s, GetValidHold(s, id), set h | h in s.holds && h == id && s.holds[h].expiresAt <= s.now)
  {
  }

  lemma ListEffect(s: State, venue: VenueId)
    ensures Expires(s, ListHolds(s, venue),
              set h | h in s.holds && s.holds[h].slot.venue == venue && s.holds[h].expiresAt <= s.now)
  {
  }

  lemma SweepEffect(s: State, batch: set<HoldId>)
    ensures Expires(s, SweepBatch(s, batch), set h | h in s.holds && h in batch && s.holds[h].expiresAt < s.now)
  {
  }

  // ---------- waitlist ----------

  lemma JoinEffect(s: State, venue: VenueId, partySize: int)
    ensures var (t, outcome) := JoinWaitlist(s, venue, partySize);
            && outcome == (if venue !in s.venues then Refused(NotFound)
                           else if partySize > 0 then Done else Refused(BadRequest))
            && (!outcome.Done? ==> t == s)
            && (outcome.Done? ==>
                  t == s.(entries := s.entries[s.nextId := Entry(venue, partySize, WAITING, None, None, None, None)],
                          nextId := s.nextId + 1))
  {
  }

  /** The entry's hold, if it is still held, runs out with it, and the offer's secrets are gone. */
  ghost predicate GivenUp(s: State, t: State, id: EntryId)
    requires id in s.entries
  {
    && t == s.(holds := t.holds, entries := s.entries[id :=
                 s.entries[id].(status := LAPSED, code := None, token := None, hold := None, expiresAt := None)])
    && Expires(s.(entries := t.entries), t, set h | h in s.holds && s.entries[id].hold == Some(h))
  }

  lemma ExpireEffect(s: State, id: EntryId)
    ensures var (t, outcome) := ExpireEntry(s, id);
            && outcome == (if id in s.entries then Done else Refused(NotFound))
            && if id in s.entries then GivenUp(s, t, id) else t == s
  {
    if id in s.entries && s.entries[id].hold.Some? {
      CancelEffect(s, s.entries[id].hold.value);
    }
  }

  lemma ConvertEffect(s: State, id: EntryId)
    ensures var (t, outcome) := ConvertEntry(s, id);
            && outcome == (if id in s.entries then Done else Refused(NotFound))
            && t == (if id in s.entries
                     then s.(entries := s.entries[id :=
                               s.entries[id].(status := CONVERTED, token := None, expiresAt := None)])
                     else s)
  {
  }

  /** The secrets are the entry's, its offer has not run out, and its hold is live. */
  ghost predicate Good(s: State, id: EntryId, code: nat, token: nat) {
    && id in s.entries && s.entries[id].code == Some(code) && s.entries[id].token == Some(token)
    && s.entries[id].status == OFFERED
    && s.entries[id].expiresAt.Some? && s.now < s.entries[id].expiresAt.value
    && s.entries[id].hold.Some? && s.entries[id].hold.value in s.holds
    && s.holds[s.entries[id].hold.value].status == HELD && s.now < s.holds[s.entries[id].hold.value].expiresAt
  }

  lemma ResolveEffect(s: State, id: EntryId, code: nat, token: nat)
    ensures var (t, outcome) := ResolveOffer(s, id, code, token);
            && (outcome == Done <==> Good(s, id, code, token)) && (outcome == Done ==> t == s)
            && (outcome != Done ==> outcome.Refused?)
            && (outcome == Refused(NotFound) <==>
                  !(id in s.entries && s.entries[id].code == Some(code) && s.entries[id].token == Some(token)))
            && (outcome == Refused(NotFound) ==> t == s)
            && (outcome.Refused? && outcome.error != NotFound ==>
                  && outcome.error == Gone
                  && if s.entries[id].hold.Some?
                    && s.entries[id].hold.value in s.holds then GivenUp(s, t, id) else t == s)
  {
    if id in s.entries && s.entries[id].hold.Some? {
      CancelEffect(s, s.entries[id].hold.value);
    }
  }

  lemma ConsumeEffect(s: State, id: EntryId, code: nat, token: nat)
    ensures var (t, outcome) := ConsumeOffer(s, id, code, token);
            if !(id in s.entries && s.entries[id].code == Some(code) && s.entries[id].token == Some(token))
            then outcome == Refused(NotFound) && t == s
            else if s.entries[id].status == OFFERED
            then outcome == Done && t == s.(entries := s.entries[id :=
                   s.entries[id].(status := CONVERTED, token := None, expiresAt := None)])
            else t == s && outcome == if s.entries[id].status == CONVERTED then Done else Refused(Gone)
  {
  }

  // ---------- offers ----------

  lemma OfferReadEffect(s: State, id: EntryId)
    ensures var (t, outcome) := OfferRead(s, id);
            && (outcome.OfferStarted? <==> id in s.entries && s.entries[id].status == WAITING)
            && (outcome.Refused? ==> outcome.error == if id in s.entries then Conflict else NotFound)
            && (!outcome.OfferStarted? ==> outcome.Refused? && t == s)
            && (outcome.OfferStarted? ==>
                  && outcome.offer == s.nextId
                  && t == s.(offers := s.offers[s.nextId := Choosing(id, s.entries[id].venue, s.entries[id].partySize)],
                             nextId := s.nextId + 1))
  {
  }

  /** The offer holds the chosen table for the entry's venue and party, or it ends without a trace. */
  lemma OfferHoldEffect(s: State, offer: nat, table: Option<TableId>, slot: Slot, ttl: Option<int>)
    requires offer in s.offers && s.offers[offer].Choosing?
    ensures var (t, outcome) := OfferHold(s, offer, table, slot, ttl);
            var o := s.offers[offer];
            var req := HoldRequest(o.venue, Given(slot.date), Given(slot.time), o.partySize, table, ttl);
            && (outcome.MadeHold? <==> table.Some? && CreateHold(s, req, true).1.MadeHold?)
            && if outcome.MadeHold?
               then t == CreateHold(s, req, true).0.(offers := s.offers[offer := Holding(o.entry, s.nextId, 0)])
               else && outcome == (if table.None? then Refused(Conflict) else CreateHold(s, req, true).1)
                    && outcome.Refused? && t == s.(offers := s.offers - {offer})
  {
  }

  /** The offer gives its hold back and is over. */
  ghost predicate Abandoned(s: State, t: State, offer: nat, hold: HoldId) {
    t.offers == s.offers - {offer} && Expires(s.(offers := t.offers), t, {hold})
  }

  /**
   * A turn of an offer succeeds when the entry still waits and the code is nobody's: the entry then
   * has this code and this token. A taken code is given up for another until the fifth turn.
   */
  lemma OfferAssignEffect(s: State, offer: nat, code: nat, token: nat, fault: bool)
    requires offer in s.offers && s.offers[offer].Holding?
    ensures var (t, outcome) := OfferAssign(s, offer, code, token, fault);
            var o := s.offers[offer];
            var able := !fault && o.hold in s.holds && o.entry in s.entries && s.entries[o.entry].status == WAITING;
            var taken := exists e :: e in s.entries && s.entries[e].code == Some(code);
            if able && !taken then
              && outcome == Done
              && t == s.(offers := s.offers[offer := Assigned(o.entry, o.hold)],
                         entries := s.entries[o.entry := s.entries[o.entry].(
                           status := OFFERED, code := Some(code), token := Some(token), hold := Some(o.hold),
                           expiresAt := Some(s.holds[o.hold].expiresAt))])
            else
              && outcome == Refused(if fault || o.hold !in s.holds then Failure else Conflict)
              && if able && o.attempts + 1 < 5
                then t == s.(offers := s.offers[offer := Holding(o.entry, o.hold, o.attempts + 1)])
                 else Abandoned(s, t, offer, o.hold)
  {
    CancelEffect(s, s.offers[offer].hold);
  }

  lemma OfferFinishEffect(s: State, offer: nat, fault: bool)
    requires offer in s.offers && s.offers[offer].Assigned?
    ensures var (t, outcome) := OfferFinish(s, offer, fault);
            if fault then outcome == Refused(Failure) && Abandoned(s, t, offer, s.offers[offer].hold)
            else outcome == Done && t == s.(offers := s.offers - {offer})
  {
    CancelEffect(s, s.offers[offer].hold);
  }

  /** What an offer hands out opens it: its code and token, as long as its hold is held and time is left. */
  lemma OfferedCanBeResolved(s: State, offer: nat, code: nat, token: nat, fault: bool, later: int)
    requires offer in s.offers && s.offers[offer].Holding? && OfferAssign(s, offer, code, token, fault).1 == Done
    ensures var t, o := OfferAssign(s, offer, code, token, fault).0, s.offers[offer];
            && o.entry in t.entries && t.entries[o.entry].code == Some(code) && t.entries[o.entry].token == Some(token)
            && (ResolveOffer(t.(now := later), o.entry, code, token).1 == Done <==>
                  s.holds[o.hold].status == HELD && later < s.holds[o.hold].expiresAt)
  {
    OfferAssignEffect(s, offer, code, token, fault);
    ResolveEffect(OfferAssign(s, offer, code, token, fault).0.(now := later), s.offers[offer].entry, code, token);
  }

  // ---------- no two offers share a code ----------

  ghost predicate CodesDiffer(s: State) {
    forall e, f :: e in s.entries && f in s.entries && e != f && s.entries[e].code.Some? ==>
      s.entries[e].code != s.entries[f].code
  }

  /** Every code was there before, on the same entry. */
  ghost predicate NoNewCodes(s: State, t: State) {
    forall e :: e in t.entries && t.entries[e].code.Some? ==> e in s.entries && s.entries[e].code == t.entries[e].code
  }

  lemma NoNewCodesKeep(s: State, t: State)
    requires CodesDiffer(s) && NoNewCodes(s, t)
    ensures CodesDiffer(t)
  {
  }

  lemma OfferAssignKeepsCodes(s: State, offer: nat, code: nat, token: nat, fault: bool)
    requires CodesDiffer(s)
    ensures CodesDiffer(OfferAssign(s, offer, code, token, fault).0)
  {
    if offer in s.offers && s.offers[offer].Holding? {
      OfferAssignEffect(s, offer, code, token, fault);
    }
  }

  lemma OfferStepKeepsCodes(s: State, e: OfferEvent)
    requires CodesDiffer(s)
    ensures CodesDiffer(StepOffer(s, e).0)
  {
    match e {
      case EOfferRead(id) =>
      case EOfferHold(offer, table, slot, ttl) =>
        if offer in s.offers && s.offers[offer].Choosing? {
          OfferHoldAddsNoCodes(s, offer, table, slot, ttl);
        }
      case EOfferAssign(offer, code, token, fault) => OfferAssignKeepsCodes(s, offer, code, token, fault);
      case EOfferFinish(offer, fault) =>
        if offer in s.offers && s.offers[offer].Assigned? {
          OfferFinishEffect(s, offer, fault);
        }
    }
  }

  lemma OfferHoldAddsNoCodes(s: State, offer: nat, table: Option<TableId>, slot: Slot, ttl: Option<int>)
    requires offer in s.offers && s.offers[offer].Choosing? && CodesDiffer(s)
    ensures CodesDiffer(OfferHold(s, offer, table, slot, ttl).0)
  {
    var o := s.offers[offer];
    OfferHoldEffect(s, offer, table, slot, ttl);
    CreateHoldWrites(s, HoldRequest(o.venue, Given(slot.date), Given(slot.time), o.partySize, table, ttl), true);
  }

  lemma ReservationStepAddsNoCodes(s: State, e: ReservationEvent)
    ensures NoNewCodes(s, StepReservation(s, e).0)
  {
    match e {
      case ECreate(req) =>
        if req.hold.Some? { FromHoldWrites(s, req.hold.value, req); } else { CreateWrites(s, req); }
      case EUpdate(id, req) => UpdateChanges(s, id, req);
      case EUpdateStatus(id, status, guest) => UpdateStatusChanges(s, id, status, guest);
      case ERemove(id) => RemoveChanges(s, id);
      case EAssignTables(id, raw) => AssignChanges(s, id, raw);
    }
  }

  lemma HoldStepAddsNoCodes(s: State, e: HoldEvent)
    ensures NoNewCodes(s, StepHold(s, e).0)
  {
    match e {
      case ECreateHold(req) => CreateHoldWrites(s, req, false);
      case ECancelHold(id) => CancelEffect(s, id);
      case EGetValidHold(id) => GetValidEffect(s, id);
      case EListHolds(venue) => ListEffect(s, venue);
      case ESweepBatch(batch) => SweepEffect(s, batch);
    }
  }

  lemma WaitlistStepAddsNoCodes(s: State, e: WaitlistEvent)
    ensures NoNewCodes(s, StepWaitlist(s, e).0)
  {
    match e {
      case EJoinWaitlist(venue, partySize) => JoinEffect(s, venue, partySize);
      case EExpireEntry(id) => ExpireEffect(s, id);
      case EConvertEntry(id) => ConvertEffect(s, id);
      case EResolveOffer(id, code, token) => ResolveEffect(s, id, code, token);
      case EConsumeOffer(id, code, token) => ConsumeEffect(s, id, code, token);
    }
  }

  lemma StepKeepsCodes(s: State, e: Event)
    requires CodesDiffer(s)
    ensures CodesDiffer(Step(s, e).0)
  {
    match e {
      case Tick(_) =>
      case OnReservation(r) => ReservationStepAddsNoCodes(s, r); NoNewCodesKeep(s, StepReservation(s, r).0);
      case OnHold(h) => HoldStepAddsNoCodes(s, h); NoNewCodesKeep(s, StepHold(s, h).0);
      case OnWaitlist(w) => WaitlistStepAddsNoCodes(s, w); NoNewCodesKeep(s, StepWaitlist(s, w).0);
      case OnOffer(o) => OfferStepKeepsCodes(s, o);
    }
  }

  lemma {:induction false} RunKeepsCodes(s: State, events: seq<Event>)
    requires CodesDiffer(s)
    ensures CodesDiffer(Run(s, events))
    decreases |events|
  {
    if events != [] {
      StepKeepsCodes(s, events[0]);
      RunKeepsCodes(Step(s, events[0]).0, events[1..]);
    }
  }

  /** In every run a code belongs to one entry at most. */
  lemma CodesAreUnique(s: State, events: seq<Event>, e: EntryId, f: EntryId)
    requires Initial(s)
    ensures var t := Run(s, events);
            e in t.entries && f in t.entries && t.entries[e].code.Some? && t.entries[e].code == t.entries[f].code ==>
              e == f
  {
    RunKeepsCodes(s, events);
  }
}
