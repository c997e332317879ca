/**
 * The services as they work on the database: rows are written one statement at a time, and every
 * method is proved to end in exactly the state, and with exactly the answer, of its ledger step.
 */
module BookingStore {
  import opened Common
  import opened SlotTime
  import opened Rows
  import opened Conflicts
  import opened Assignments
  import opened Ledger

  const SWEEP_BATCH_SIZE := 50

  class Database {
    const instant: (LocalDate, LocalTime) -> int
    const venues: map<VenueId, Venue>
    const tables: map<TableId, Table>
    var reservations: map<ReservationId, Reservation>
    var holds: map<HoldId, Hold>
    var entries: map<EntryId, Entry>
    var offers: map<nat, Offer>
    var nextId: nat
    var now: int

    constructor (venues: map<VenueId, Venue>, tables: map<TableId, Table>, now: int)
      ensures Initial(View())
      ensures this.venues == venues && this.tables == tables && this.now == now
    {
      this.instant := NaiveUtc;
      this.venues := venues;
      this.tables := tables;
      this.now := now;
      reservations, holds, entries, offers, nextId := map[], map[], map[], map[], 0;
    }

    function View(): State
      reads this
    {
      State(instant, venues, tables, reservations, holds, entries, offers, nextId, now)
    }

    // ---------- sync-table-assignments.ts ----------

    /** Deletes the rows that are no longer wanted, then writes the wanted ones in order. */
    method SyncTableAssignments(id: ReservationId, raw: seq<RawId>)
      requires id in reservations
      modifies this`reservations
      ensures reservations == old(reservations)[id := old(reservations[id]).(rows := Synced(raw))]
    {
      var normalized := Normalize(raw);
      var kept := map t | t in reservations[id].rows && t in normalized :: reservations[id].rows[t];
      reservations := reservations[id := reservations[id].(rows := kept)];
      for index := 0 to |normalized|
        invariant id in reservations
        invariant reservations == old(reservations)[id := old(reservations[id]).(rows := reservations[id].rows)]
        invariant reservations[id].rows.Keys <= Elements(normalized)
        invariant forall i :: 0 <= i < index ==>
                  normalized[i] in reservations[id].rows && reservations[id].rows[normalized[i]] == i
      {
        reservations := reservations[id :=
          reservations[id].(rows := reservations[id].rows[normalized[index] := index])];
      }
      assert reservations[id].rows == OrderMap(normalized) by {
        forall t | t in Elements(normalized)
          ensures t in reservations[id].rows && reservations[id].rows[t] == OrderMap(normalized)[t]
        {
          var i := IndexOf(normalized, t);
          assert normalized[i] == t;
        }
      }
    }

    // ---------- reservations.service.ts ----------

    method Create(req: CreateRequest) returns (outcome: Outcome)
      modifies this
      ensures (View(), outcome) == Ledger.Create(old(View()), req)
    {
      if req.hold.Some? {
        outcome := CreateFromHold(req.hold.value, req);
        return;
      }
      var venue := if req.venue.Some? then req.venue.value else DEFAULT_VENUE;
      if venue !in venues { return Refused(NotFound); }
      if req.partySize <= 0 { return Refused(BadRequest); }
      var slot := BuildSlot(venue, req.date, req.time);
      if slot.None? { return Refused(BadRequest); }
      var duration := ResolveDuration(venues[venue], req.duration);
      if req.table.Some? && !TableInVenue(View(), venue, req.table.value) { return Refused(BadRequest); }
      var start := instant(slot.value.date, slot.value.time);
      var conflicts := FindSlotConflicts(View(), Query(slot.value, start, duration, Requested(req.table), None, None));
      if HasConflicts(conflicts) { return Refused(Conflict); }
      if !ReservationIndexFree(View(), None, slot.value, req.table) { return Refused(Conflict); }
      var status := if req.status.Some? then req.status.value else CONFIRMED;
      var id := InsertRow(Reservation(slot.value, start, duration, status, req.table, map[], req.partySize));
      SyncTableAssignments(id, OfOption(req.table));
      assert reservations == old(reservations)[id :=
                NewReservation(old(View()), slot.value, duration, req.status, req.table, req.partySize)];
      return MadeReservation(id);
    }

    method InsertRow(r: Reservation) returns (id: ReservationId)
      modifies this`reservations, this`nextId
      ensures id == old(nextId) && nextId == old(nextId) + 1
      ensures reservations == old(reservations)[id := r]
    {
      id := nextId;
      reservations := reservations[id := r];
      nextId := nextId + 1;
    }

    method CreateFromHold(holdId: HoldId, req: CreateRequest) returns (outcome: Outcome)
      modifies this
      ensures (View(), outcome) == Ledger.CreateFromHold(old(View()), holdId, req)
    {
      if holdId !in holds { return Refused(NotFound); }
      var hold := holds[holdId];
      var venue := hold.slot.venue;
      if req.venue.Some? && req.venue.value != venue { return Refused(BadRequest); }
      if venue !in venues { return Refused(NotFound); }
      var duration := ResolveDuration(venues[venue], req.duration);
      if hold.status != HELD || hold.expiresAt <= now { return Refused(BadRequest); }
      if req.date.Malformed? || (req.date.Given? && req.date.value != hold.slot.date) { return Refused(BadRequest); }
      if req.time.Malformed? || (req.time.Given? && req.time.value != hold.slot.time) { return Refused(BadRequest); }
      var table := if req.table.Some? then req.table else hold.table;
      if table.None? || !TableInVenue(View(), venue, table.value) { return Refused(BadRequest); }
      var conflicts :=
        FindSlotConflicts(View(), Query(hold.slot, hold.start, duration, Requested(table), None, Some(holdId)));
      if HasConflicts(conflicts) { return Refused(Conflict); }
      if !ReservationIndexFree(View(), None, hold.slot, table) { return Refused(Conflict); }
      outcome := CommitFromHold(holdId, req, table, duration);
    }

    method CommitFromHold(
        holdId: HoldId, req: CreateRequest, table: Option<TableId>, duration: int) returns (outcome: Outcome)
      requires holdId in holds && holds[holdId].slot.venue in venues && table == FromHoldTable(holds[holdId], req)
      requires duration == ResolveDuration(venues[holds[holdId].slot.venue], req.duration)
      modifies this
      ensures View() == var s := old(View());
                MarkConverted(ConsumeHold(InsertReservation(s, FromHoldReservation(s, s.holds[holdId], req)),
                  holdId, s.nextId), holdId)
      ensures outcome == MadeReservation(old(nextId))
    {
      var hold := holds[holdId];
      var status := if req.status.Some? then req.status.value else CONFIRMED;
      var id := InsertRow(Reservation(hold.slot, hold.start, duration, status, table, map[], hold.partySize));
      SyncTableAssignments(id, OfOption(table));
      assert reservations == old(reservations)[id := FromHoldReservation(old(View()), hold, req)];
      Consume(holdId, id);
      return MadeReservation(id);
    }

    /** Marks the hold and every waitlist entry that refers to it. */
    method Consume(holdId: HoldId, id: ReservationId)
      requires holdId in holds
      modifies this`holds, this`entries
      ensures View() == MarkConverted(ConsumeHold(old(View()), holdId, id), holdId)
    {
      holds := holds[holdId := holds[holdId].(status := CONSUMED, reservation := Some(id))];
      entries := map e | e in entries ::
        if entries[e].hold == Some(holdId) then entries[e].(status := CONVERTED, expiresAt := None) else entries[e];
    }

    method Update(id: ReservationId, req: UpdateRequest) returns (outcome: Outcome)
      modifies this
      ensures (View(), outcome) == Ledger.Update(old(View()), id, req)
    {
      if id !in reservations { return Refused(NotFound); }
      var r := reservations[id];
      if r.slot.venue !in venues { return Refused(NotFound); }
      var v := venues[r.slot.venue];
      if req.IsEmpty() { return Done; }
      if req.guest && (req.GuestForbidden() || !InsideGuestWindow(v.guestCanModifyUntilMin, r.start, now)
        || r.status == CANCELLED) {
        return Refused(Forbidden);
      }
      var row := BuildPayload(r, req, v);
      if row.None? { return Refused(BadRequest); }
      var next := req.NextTable(r);
      if next.Some? && !TableInVenue(View(), r.slot.venue, next.value) { return Refused(BadRequest); }
      var q := Query(row.value.slot, row.value.start, req.NextDuration(r, v), Requested(next), Some(id), None);
      assert q == UpdateQuery(View(), id, r, req, row.value.slot, v);
      outcome := CommitUpdate(id, req, row.value, q);
    }

    /** Collects the changed columns; None stands for the BadRequest that ends the request. */
    method BuildPayload(r: Reservation, req: UpdateRequest, v: Venue) returns (row: Option<Reservation>)
      ensures row.Some? <==>
                && (req.partySize.Absent? || (req.partySize.Given? && req.partySize.value > 0))
                && TransitionAllowed(r.status, req.NextStatus(r))
                && !req.table.Malformed? && req.NextSlot(r).Some?
      ensures row.Some? ==> row.value == Updated(View(), r, req, req.NextSlot(r).value, v).(rows := r.rows)
    {
      var payload := r;
      if !req.partySize.Absent? {
        if !req.partySize.Given? || req.partySize.value <= 0 { return None; }
        payload := payload.(partySize := req.partySize.value);
      }
      var status := req.NextStatus(r);
      if status != r.status {
        if !TransitionAllowed(r.status, status) { return None; }
        payload := payload.(status := status);
      }
      if req.table.Malformed? { return None; }
      if !req.table.Absent? {
        payload := payload.(primary := req.NextTable(r));
      }
      if !req.duration.Absent? {
        payload := payload.(duration := req.NextDuration(r, v));
      }
      if req.SlotChanged() {
        var slot := req.NextSlot(r);
        if slot.None? { return None; }
        payload := payload.(slot := slot.value, start := instant(slot.value.date, slot.value.time));
      }
      return Some(payload);
    }

    /** The transaction of an update: check, write the row, and replace the tables if one was named. */
    method CommitUpdate(id: ReservationId, req: UpdateRequest, row: Reservation, q: Query) returns (outcome: Outcome)
      requires id in reservations && row.rows == reservations[id].rows
      modifies this`reservations
      ensures outcome == if req.NeedsConflictCheck() && !SlotIsFree(old(View()), q) then Refused(Conflict)
                         else if ReservationIndexFree(old(View()), Some(id), row.slot, row.primary) then Done
                         else Refused(Failure)
      ensures outcome.Refused? ==> reservations == old(reservations)
      ensures outcome.Done? ==>
                reservations == old(reservations)[id :=
                  if req.table.Absent? then row else row.(rows := Synced(OfOption(req.table.OrNone())))]
    {
      if req.NeedsConflictCheck() {
        var conflicts := FindSlotConflicts(View(), q);
        if HasConflicts(conflicts) { return Refused(Conflict); }
      }
      if !ReservationIndexFree(View(), Some(id), row.slot, row.primary) { return Refused(Failure); }
      reservations := reservations[id := row];
      if !req.table.Absent? {
        SyncTableAssignments(id, OfOption(req.table.OrNone()));
      }
      return Done;
    }

    method UpdateStatus(id: ReservationId, status: Option<ReservationStatus>, guest: bool) returns (outcome: Outcome)
      modifies this`reservations
      ensures (View(), outcome) == Ledger.UpdateStatus(old(View()), id, status, guest)
    {
      if id !in reservations { return Refused(NotFound); }
      var r := reservations[id];
      if r.slot.venue !in venues { return Refused(NotFound); }
      var next := if status.Some? then status.value else r.status;
      if !TransitionAllowed(r.status, next) { return Refused(BadRequest); }
      if guest && next == CANCELLED && !InsideGuestWindow(venues[r.slot.venue].cancellationWindowMin, r.start, now) {
        return Refused(Forbidden);
      }
      reservations := reservations[id := r.(status := next)];
      return Done;
    }

    method Remove(id: ReservationId) returns (outcome: Outcome)
      modifies this`reservations, this`holds
      ensures (View(), outcome) == Ledger.Remove(old(View()), id)
    {
      if id !in reservations { return Refused(NotFound); }
      reservations := reservations - {id};
      holds := map h | h in holds ::
        if holds[h].reservation == Some(id) then holds[h].(reservation := None) else holds[h];
      return Done;
    }

    // ---------- seating.service.ts ----------

    method AssignTables(id: ReservationId, raw: seq<RawId>) returns (outcome: Outcome)
      modifies this`reservations
      ensures (View(), outcome) == Ledger.AssignTables(old(View()), id, raw)
    {
      var normalized := NormalizeSorted(raw);
      if normalized == [] { return Refused(BadRequest); }
      if id !in reservations { return Refused(NotFound); }
      var r := reservations[id];
      if exists t :: t in normalized && !TableInVenue(View(), r.slot.venue, t) { return Refused(BadRequest); }
      if !Joinable(tables, normalized) { return Refused(BadRequest); }
      if SumCapacity(tables, normalized) < r.partySize { return Refused(BadRequest); }
      var conflicts := FindSlotConflicts(View(), SeatingQuery(id, r, set t | t in normalized));
      if HasConflicts(conflicts) { return Refused(Conflict); }
      if !ReservationIndexFree(View(), Some(id), r.slot, Some(normalized[0])) { return Refused(Failure); }
      WriteTables(id, normalized);
      return Done;
    }

    method WriteTables(id: ReservationId, list: seq<TableId>)
      requires id in reservations && list != [] && Distinct(list)
      modifies this`reservations
      ensures reservations == old(reservations)[id :=
                old(reservations[id]).(primary := Some(list[0]), rows := OrderMap(list))]
    {
      reservations := reservations[id := reservations[id].(primary := Some(list[0]))];
      RawOfDistinct(list);
      SyncTableAssignments(id, Raw(list));
    }

    // ---------- holds.service.ts ----------

    method CreateHold(req: HoldRequest, forOffer: bool) returns (outcome: Outcome)
      modifies this`holds, this`nextId
      ensures (View(), outcome) == Ledger.CreateHold(old(View()), req, forOffer)
    {
      if req.venue !in venues { return Refused(NotFound); }
      var venue := venues[req.venue];
      if req.time.Absent? || req.time.Null? { return Refused(Conflict); }
      if req.date.Absent? || req.date.Null? { return Refused(Conflict); }
      if req.partySize <= 0 { return Refused(Conflict); }
      var expiresAt := now + HoldTtlSeconds(venue, req.ttl) * 1000;
      if req.time.Malformed? || req.date.Malformed? { return Refused(Failure); }
      var slot := Slot(req.venue, req.date.value, req.time.value);
      var start := instant(slot.date, slot.time);
      var duration := ResolveDuration(venue, None);
      if req.table.Some? && !TableInVenue(View(), req.venue, req.table.value) { return Refused(Conflict); }
      var conflicts := FindSlotConflicts(View(), Query(slot, start, duration, Requested(req.table), None, None));
      if HasConflicts(conflicts) { return Refused(Conflict); }
      if !HoldIndexFree(View(), slot, req.table) { return Refused(Conflict); }
      var id := nextId;
      holds := holds[id := Hold(slot, start, req.table, HELD, expiresAt, req.partySize, None, forOffer)];
      nextId := nextId + 1;
      return MadeHold(id);
    }

    method CancelHold(id: HoldId) returns (outcome: Outcome)
      modifies this`holds
      ensures (View(), outcome) == Ledger.CancelHold(old(View()), id)
    {
      if id !in holds { return Refused(NotFound); }
      if holds[id].status == HELD {
        holds := holds[id := holds[id].(status := EXPIRED)];
      }
      assert holds == Ledger.CancelHold(old(View()), id).0.holds;
      return Done;
    }

    method GetValidHold(id: HoldId) returns (hold: Option<Hold>)
      modifies this`holds
      ensures View() == Ledger.GetValidHold(old(View()), id)
      ensures hold == if id in old(holds) && Live(old(holds)[id], now) then Some(old(holds)[id]) else None
    {
      if id !in holds { return None; }
      if holds[id].status != HELD { return None; }
      if holds[id].expiresAt <= now {
        holds := holds[id := holds[id].(status := EXPIRED)];
        assert holds == Ledger.GetValidHold(old(View()), id).holds;
        return None;
      }
      return Some(holds[id]);
    }

    /** Lists the live holds of a venue, on one date if it is given, after expiring all that are stale. */
    method ListHolds(venue: VenueId, date: Option<LocalDate>) returns (listed: set<HoldId>)
      modifies this`holds
      ensures View() == Ledger.ListHolds(old(View()), venue)
      ensures forall h :: h in listed <==>
                h in holds && holds[h].slot.venue == venue && holds[h].status == HELD && OnDate(holds[h], date)
      ensures forall h :: h in listed ==> Live(holds[h], now)
    {
      holds := map h | h in holds ::
        if holds[h].slot.venue == venue && holds[h].status == HELD && holds[h].expiresAt <= now
        then holds[h].(status := EXPIRED) else holds[h];
      assert holds == Ledger.ListHolds(old(View()), venue).holds;
      listed := set h | h in holds && holds[h].slot.venue == venue && holds[h].status == HELD
                        && now < holds[h].expiresAt && OnDate(holds[h], date);
    }

    predicate OnDate(hold: Hold, date: Option<LocalDate>) {
      date.Some? ==> hold.slot.date == date.value
    }

    // ---------- holds.cleanup.service.ts ----------

    /** The holds that the clock `time` finds HELD past their time to live. */
    function Stale(time: int): set<HoldId>
      reads this
    {
      StaleIn(holds, time)
    }

    /** The first fifty stale holds in order of expiry. */
    method NextBatch() returns (batch: set<HoldId>)
      ensures batch <= Stale(now) && |batch| == Min(SWEEP_BATCH_SIZE, |Stale(now)|)
      ensures forall b, o :: b in batch && o in Stale(now) - batch ==> holds[b].expiresAt <= holds[o].expiresAt
    {
      batch := {};
      var rest := Stale(now);
      while |batch| < SWEEP_BATCH_SIZE && rest != {}
        invariant batch !! rest && batch + rest == Stale(now) && |batch| <= SWEEP_BATCH_SIZE
        invariant forall b, o :: b in batch && o in rest ==> holds[b].expiresAt <= holds[o].expiresAt
        decreases rest
      {
        ghost var earliest := EarliestExists(holds, rest);
        assert earliest in rest;
        var next: HoldId :| next in rest && forall o :: o in rest ==> holds[next].expiresAt <= holds[o].expiresAt;
        batch, rest := batch + {next}, rest - {next};
      }
      assert Stale(now) - batch == rest;
      assert |Stale(now)| == |batch| + |rest|;
    }

    /** One transaction of the sweep, at some later reading of the clock. */
    method SweepOnce() returns (result: nat, ghost batch: set<HoldId>)
      modifies this`holds, this`now
      ensures old(now) <= now
      ensures batch <= StaleIn(old(holds), now) && result == |batch| <= SWEEP_BATCH_SIZE
      ensures result == 0 ==> StaleIn(old(holds), now) == {}
      ensures holds == Expired(old(holds), batch)
    {
      var elapsed :| elapsed >= 0;
      now := now + elapsed;
      var expired := NextBatch();
      batch := expired;
      holds := map h | h in holds :: if h in expired then holds[h].(status := EXPIRED) else holds[h];
      result := |expired|;
    }

    /**
     * Batches until one is empty, reading the clock anew each time. It ends, and then exactly the
     * holds that were stale at the last reading have left HELD.
     */
    method Sweep() returns (totalExpired: nat, batches: nat)
      modifies this`holds, this`now
      ensures old(now) <= now && Stale(now) == {}
      ensures View() == SweepBatch(old(View()).(now := now), old(holds).Keys)
      ensures totalExpired == |StaleIn(old(holds), now)|
      ensures batches <= totalExpired <= SWEEP_BATCH_SIZE * batches
    {
      totalExpired, batches := SweepBatches();
      StaleAfter(old(holds), StaleIn(old(holds), now), now);
      SweptIsExpired(old(View()).(now := now));
    }

    /** The loop of the sweep. */
    method SweepBatches() returns (totalExpired: nat, batches: nat)
      modifies this`holds, this`now
      ensures old(now) <= now && holds == Expired(old(holds), StaleIn(old(holds), now))
      ensures totalExpired == |StaleIn(old(holds), now)|
      ensures batches <= totalExpired <= SWEEP_BATCH_SIZE * batches
    {
      totalExpired, batches := 0, 0;
      ghost var gone: set<HoldId> := {};
      NothingExpired(holds);
      while true
        invariant old(now) <= now
        invariant gone <= StaleIn(old(holds), now) && totalExpired == |gone|
        invariant holds == Expired(old(holds), gone)
        invariant batches <= totalExpired <= SWEEP_BATCH_SIZE * batches
        decreases |old(holds).Keys| - |gone|
      {
        ghost var before := now;
        var result, batch := SweepOnce();
        OneMoreBatch(old(holds), gone, batch, before, now);
        if result == 0 { break; }
        gone := gone + batch;
        totalExpired := totalExpired + result;
        batches := batches + 1;
      }
    }

    // ---------- waitlist.service.ts ----------

    method JoinWaitlist(venue: VenueId, partySize: int) returns (outcome: Outcome)
      modifies this`entries, this`nextId
      ensures (View(), outcome) == Ledger.JoinWaitlist(old(View()), venue, partySize)
    {
      if venue !in venues { return Refused(NotFound); }
      if partySize <= 0 { return Refused(BadRequest); }
      entries := entries[nextId := Entry(venue, partySize, WAITING, None, None, None, None)];
      nextId := nextId + 1;
      return Done;
    }

    method ConsumeOffer(id: EntryId, code: nat, token: nat) returns (outcome: Outcome)
      modifies this`entries
      ensures (View(), outcome) == Ledger.ConsumeOffer(old(View()), id, code, token)
    {
      if !HoldsSecrets(View(), id, code, token) { return Refused(NotFound); }
      if entries[id].status == CONVERTED { return Done; }
      if entries[id].status != OFFERED { return Refused(Gone); }
      outcome := ConvertEntry(id);
    }

    method ExpireEntry(id: EntryId) returns (outcome: Outcome)
      modifies this`holds, this`entries
      ensures (View(), outcome) == Ledger.ExpireEntry(old(View()), id)
    {
      if id !in entries { return Refused(NotFound); }
      var hold := entries[id].hold;
      if hold.Some? && hold.value in holds && holds[hold.value].status == HELD {
        var _ := CancelHold(hold.value);
      } else if hold.Some? {
        CancellingTwice(View(), hold.value);
      }
      Lapse(id);
      return Done;
    }

    method Lapse(id: EntryId)
      requires id in entries
      modifies this`entries
      ensures View() == LapseEntry(old(View()), id)
    {
      entries := entries[id :=
        entries[id].(status := LAPSED, code := None, token := None, hold := None, expiresAt := None)];
    }

    method ConvertEntry(id: EntryId) returns (outcome: Outcome)
      modifies this`entries
      ensures (View(), outcome) == Ledger.ConvertEntry(old(View()), id)
    {
      if id !in entries { return Refused(NotFound); }
      entries := entries[id := entries[id].(status := CONVERTED, token := None, expiresAt := None)];
      return Done;
    }

    method ResolveOffer(id: EntryId, code: nat, token: nat) returns (outcome: Outcome)
      modifies this`holds, this`entries
      ensures (View(), outcome) == Ledger.ResolveOffer(old(View()), id, code, token)
    {
      if !HoldsSecrets(View(), id, code, token) { return Refused(NotFound); }
      var e := entries[id];
      if e.hold.None? || e.hold.value !in holds { return Refused(Gone); }
      var hold := holds[e.hold.value];
      if e.status != OFFERED || e.expiresAt.None? || e.expiresAt.value <= now || hold.status != HELD
        || hold.expiresAt <= now {
        var _ := CancelHold(e.hold.value);
        Lapse(id);
        return Refused(Gone);
      }
      return Done;
    }

    /**
     * assignOffer: up to five compare-and-sets with fresh secrets. The trace shows it as a run of
     * single turns, between which other requests may come; afterwards the offer keeps no hold.
     */
    method AssignOffer(offer: nat) returns (outcome: Outcome, ghost trace: seq<Event>)
      requires offer in offers && offers[offer].Holding? && offers[offer].attempts == 0
      modifies this
      ensures View() == Run(old(View()), trace) && 1 <= |trace| <= MAX_ATTEMPTS
      ensures forall e :: e in trace ==> e.OnOffer? && e.offerEvent.EOfferAssign? && e.offerEvent.offer == offer
      ensures outcome.Done? <==> offer in offers && offers[offer].Assigned?
      ensures !outcome.Done? ==> offer !in offers
    {
      var o := offers[offer];
      var attempts := 0;
      trace := [];
      while attempts < MAX_ATTEMPTS
        invariant 0 <= attempts <= MAX_ATTEMPTS && |trace| == attempts
        invariant View() == Run(old(View()), trace)
        invariant forall e :: e in trace ==> e.OnOffer? && e.offerEvent.EOfferAssign? && e.offerEvent.offer == offer
        invariant attempts < MAX_ATTEMPTS ==> offer in offers && offers[offer] == o.(attempts := attempts)
        invariant attempts == MAX_ATTEMPTS ==> offer !in offers
      {
        attempts := attempts + 1;
        var code: nat := *;
        var token: nat := *;
        var fault: bool := *;
        ghost var before := View();
        ghost var e := OnOffer(EOfferAssign(offer, code, token, fault));
        RunOneMore(old(View()), trace, e);
        trace := trace + [e];
        if fault || o.hold !in holds {
          AbandonOffer(offer, o.hold);
          assert View() == Step(before, e).0;
          return Refused(Failure), trace;
        }
        if o.entry !in entries || entries[o.entry].status != WAITING {
          AbandonOffer(offer, o.hold);
          assert View() == Step(before, e).0;
          return Refused(Conflict), trace;
        }
        if CodeTaken(View(), code) {
          if attempts < MAX_ATTEMPTS {
            offers := offers[offer := o.(attempts := attempts)];
          } else {
            AbandonOffer(offer, o.hold);
          }
          assert View() == Step(before, e).0;
          continue;
        }
        var expiresAt := Some(holds[o.hold].expiresAt);
        entries := entries[o.entry := entries[o.entry].(
          status := OFFERED, code := Some(code), token := Some(token), hold := Some(o.hold), expiresAt := expiresAt)];
        offers := offers[offer := Assigned(o.entry, o.hold)];
        assert View() == Step(before, e).0;
        return Done, trace;
      }
      return Refused(Conflict), trace;
    }

    method AbandonOffer(offer: nat, hold: HoldId)
      modifies this`holds, this`offers
      ensures View() == EndOffer(old(View()), offer, hold)
    {
      var _ := CancelHold(hold);
      offers := offers - {offer};
    }
  }

  lemma CancellingTwice(s: State, id: HoldId)
    requires id in s.holds ==> s.holds[id].status != HELD
    ensures Ledger.CancelHold(s, id).0 == s
  {
  }

  lemma {:induction false} RawOfDistinct(list: seq<TableId>)
    requires Distinct(list)
    ensures Normalize(Raw(list)) == list
  {
    if list != [] {
      var n := |list| - 1;
      RawOfDistinct(list[..n]);
      assert Raw(list)[..n] == Raw(list[..n]);
      assert list == list[..n] + [list[n]];
    }
  }

  function StaleIn(holds: map<HoldId, Hold>, time: int): set<HoldId> {
    set h | h in holds && holds[h].status == HELD && holds[h].expiresAt < time
  }

  ghost function Expired(holds: map<HoldId, Hold>, gone: set<HoldId>): map<HoldId, Hold> {
    map h | h in holds :: if h in gone then holds[h].(status := EXPIRED) else holds[h]
  }

  lemma NothingExpired(holds: map<HoldId, Hold>)
    ensures Expired(holds, {}) == holds
  {
  }

  lemma ExpiredTwice(holds: map<HoldId, Hold>, a: set<HoldId>, b: set<HoldId>)
    requires b <= holds.Keys
    ensures Expired(Expired(holds, a), b) == Expired(holds, a + b)
  {
  }

  /** A batch taken from what is left adds to what is gone, and an empty rest means that all is gone. */
  lemma OneMoreBatch(holds: map<HoldId, Hold>, gone: set<HoldId>, batch: set<HoldId>, before: int, now: int)
    requires before <= now && gone <= StaleIn(holds, before)
    requires batch <= StaleIn(Expired(holds, gone), now)
    ensures gone + batch <= StaleIn(holds, now) && |gone + batch| == |gone| + |batch| && |gone + batch| <= |holds.Keys|
    ensures Expired(Expired(holds, gone), batch) == Expired(holds, gone + batch)
    ensures StaleIn(Expired(holds, gone), now) == {} ==> gone == StaleIn(holds, now)
  {
    StaleGrows(holds, before, now);
    StaleAfter(holds, gone, now);
    ExpiredTwice(holds, gone, batch);
    assert gone !! batch;
    SubsetSize(gone + batch, holds.Keys);
  }

  lemma SweptIsExpired(s: State)
    ensures SweepBatch(s, s.holds.Keys) == s.(holds := Expired(s.holds, StaleIn(s.holds, s.now)))
  {
  }

  lemma StaleGrows(holds: map<HoldId, Hold>, t: int, u: int)
    requires t <= u
    ensures StaleIn(holds, t) <= StaleIn(holds, u)
  {
  }

  /** Of the holds stale by now, those already expired are no longer HELD. */
  lemma StaleAfter(holds: map<HoldId, Hold>, gone: set<HoldId>, time: int)
    requires gone <= StaleIn(holds, time)
    ensures StaleIn(Expired(holds, gone), time) == StaleIn(holds, time) - gone
  {
  }

  ghost predicate Earliest(holds: map<HoldId, Hold>, ids: set<HoldId>, h: HoldId)
    requires ids <= holds.Keys
  {
    h in ids && forall o :: o in ids ==> holds[h].expiresAt <= holds[o].expiresAt
  }

  lemma {:induction false} EarliestExists(holds: map<HoldId, Hold>, ids: set<HoldId>) returns (h: HoldId)
    requires ids != {} && ids <= holds.Keys
    ensures Earliest(holds, ids, h)
    decreases |ids|
  {
    h :| h in ids;
    var others := ids - {h};
    if others != {} {
      var x := EarliestExists(holds, others);
      assert forall o :: o in ids ==> o == h || o in others;
      if holds[x].expiresAt < holds[h].expiresAt {
        h := x;
      }
    } else {
      assert ids == {h};
    }
  }

  lemma {:induction false} SubsetSize(a: set<HoldId>, b: set<HoldId>)
    requires a <= b
    ensures |a| <= |b|
    decreases |b|
  {
    if b - a != {} {
      var x: HoldId :| x in b - a;
      SubsetSize(a, b - {x});
    } else {
      assert a == b;
    }
  }
}
