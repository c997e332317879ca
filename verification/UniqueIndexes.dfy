/**
 * The unique indexes of the schema over whole runs, and what they cost: a table that was booked and
 * cancelled cannot be booked again in its slot, although nothing stands in its way there.
 */
module UniqueIndexes {
  import opened Common
  import opened SlotTime
  import opened Rows
  import opened Conflicts
  import opened Assignments
  import opened Ledger
  import opened Exclusion
  import opened Seating

  /** No two reservations, of whatever status, share a slot and a primary table. */
  ghost predicate ReservationsUnique(s: State) {
    forall a, b :: a in s.reservations && b in s.reservations && a != b ==>
      || s.reservations[a].slot != s.reservations[b].slot
      || s.reservations[a].primary.None?
      || s.reservations[a].primary != s.reservations[b].primary
  }

  /** No two holds, live or not, share a slot and a table. */
  ghost predicate HoldsUnique(s: State) {
    forall g, h :: g in s.holds && h in s.holds && g != h ==>
      || s.holds[g].slot != s.holds[h].slot
      || s.holds[g].table.None?
      || s.holds[g].table != s.holds[h].table
  }

  ghost predicate Unique(s: State) {
    ReservationsUnique(s) && HoldsUnique(s)
  }

  lemma FreeingKeepsUnique(s: State, s': State)
    requires Unique(s) && OnlyFrees(s, s')
    ensures Unique(s')
  {
    forall h | h in s'.holds ensures Ages(s.holds[h], s'.holds[h]) {}
  }

  lemma WritingKeepsUnique(s: State, id: ReservationId, r: Reservation, s': State)
    requires Unique(s) && s'.reservations == s.reservations[id := r] && s'.holds == s.holds
    requires ReservationIndexFree(s, Some(id), r.slot, r.primary)
    ensures Unique(s')
  {
  }

  lemma CreateKeepsUnique(s: State, req: CreateRequest)
    requires Unique(s) && FreshIds(s)
    ensures Unique(Create(s, req).0)
  {
    var (s', outcome) := Create(s, req);
    if req.hold.Some? {
      FromHoldKeepsUnique(s, req.hold.value, req);
    } else if outcome.MadeReservation? {
      WritingKeepsUnique(s, s.nextId, s'.reservations[s.nextId], s');
    }
  }

  lemma FromHoldKeepsUnique(s: State, h: HoldId, req: CreateRequest)
    requires Unique(s) && FreshIds(s)
    ensures Unique(CreateFromHold(s, h, req).0)
  {
    var (s', outcome) := CreateFromHold(s, h, req);
    if outcome.MadeReservation? {
      var s1 := ConsumeHold(s, h, s.nextId);
      assert HoldsUnique(s1);
      WritingKeepsUnique(s1, s.nextId, s'.reservations[s.nextId], s');
    }
  }

  lemma UpdateKeepsUnique(s: State, id: ReservationId, req: UpdateRequest)
    requires Unique(s)
    ensures Unique(Update(s, id, req).0)
  {
    var (s', outcome) := Update(s, id, req);
    if outcome.Done? && id in s.reservations && !req.IsEmpty() {
      WritingKeepsUnique(s, id, s'.reservations[id], s');
    }
  }

  lemma UpdateStatusKeepsUnique(s: State, id: ReservationId, status: Option<ReservationStatus>, guest: bool)
    requires Unique(s)
    ensures Unique(UpdateStatus(s, id, status, guest).0)
  {
  }

  lemma AssignTablesKeepsUnique(s: State, id: ReservationId, raw: seq<RawId>)
    requires Unique(s)
    ensures Unique(AssignTables(s, id, raw).0)
  {
    var (s', outcome) := AssignTables(s, id, raw);
    if outcome.Done? {
      WritingKeepsUnique(s, id, s'.reservations[id], s');
    }
  }

  lemma CreateHoldKeepsUnique(s: State, req: HoldRequest, forOffer: bool)
    requires Unique(s) && FreshIds(s)
    ensures Unique(CreateHold(s, req, forOffer).0)
  {
  }

  lemma ReservationStepKeepsUnique(s: State, e: ReservationEvent)
    requires Unique(s) && FreshIds(s)
    ensures Unique(StepReservation(s, e).0)
  {
    match e {
      case ECreate(req) => CreateKeepsUnique(s, req);
      case EUpdate(id, req) => UpdateKeepsUnique(s, id, req);
      case EUpdateStatus(id, status, guest) => UpdateStatusKeepsUnique(s, id, status, guest);
      case EAssignTables(id, raw) => AssignTablesKeepsUnique(s, id, raw);
      case ERemove(id) => RemoveFrees(s, id); FreeingKeepsUnique(s, Remove(s, id).0);
    }
  }

  lemma OfferStepKeepsUnique(s: State, e: OfferEvent)
    requires Unique(s) && FreshIds(s)
    ensures Unique(StepOffer(s, e).0)
  {
    var t := StepOffer(s, e).0;
    match e {
      case EOfferRead(id) =>
      case EOfferHold(offer, table, slot, ttl) =>
        OfferHoldBooks(s, offer, table, slot, ttl);
        if !SameBookings(s, t) {
          var req :| SameBookings(CreateHold(s, req, true).0, t);
          CreateHoldKeepsUnique(s, req, true);
        }
      case EOfferAssign(offer, code, token, fault) =>
        OfferAssignFrees(s, offer, code, token, fault);
        FreeingKeepsUnique(s, t);
      case EOfferFinish(offer, fault) =>
        OfferFinishFrees(s, offer, fault);
        FreeingKeepsUnique(s, t);
    }
  }

  lemma StepKeepsUnique(s: State, e: Event)
    requires Unique(s) && FreshIds(s)
    ensures Unique(Step(s, e).0)
  {
    match e {
      case Tick(_) =>
      case OnReservation(r) => ReservationStepKeepsUnique(s, r);
      case OnHold(h) =>
        if h.ECreateHold? {
          CreateHoldKeepsUnique(s, h.request, false);
        } else {
          HoldStepFrees(s, h);
          FreeingKeepsUnique(s, StepHold(s, h).0);
        }
      case OnWaitlist(w) => WaitlistStepFrees(s, w); FreeingKeepsUnique(s, StepWaitlist(s, w).0);
      case OnOffer(o) => OfferStepKeepsUnique(s, o);
    }
  }

  lemma {:induction false} RunKeepsUnique(s: State, events: seq<Event>)
    requires Inv(s) && Unique(s)
    ensures Unique(Run(s, events))
    decreases |events|
  {
    if events != [] {
      StepKeepsUnique(s, events[0]);
      StepKeepsInv(s, events[0]);
      RunKeepsUnique(Step(s, events[0]).0, events[1..]);
    }
  }

  /**
   * In every run the steps that do not look at the indexes keep to them too: a table is the primary
   * of at most one reservation of a slot ever, and is held there at most once ever.
   */
  lemma IndexesHoldInRuns(s: State, events: seq<Event>)
    requires Initial(s)
    ensures Unique(Run(s, events))
  {
    RunKeepsUnique(s, events);
  }

  // ---------- exactly when a free table can be booked ----------

  /** The request names a table of a known venue, a slot and a party. */
  ghost predicate WellMade(s: State, req: CreateRequest, slot: Slot, t: TableId) {
    && req.hold.None? && req.venue == Some(slot.venue) && req.date == Given(slot.date) && req.time == Given(slot.time)
    && req.table == Some(t) && req.partySize > 0 && slot.venue in s.venues && TableInVenue(s, slot.venue, t)
  }

  /**
   * A table that nobody has booked or holds for the slot is nevertheless refused if and only if a
   * completed or cancelled reservation once had it there.
   */
  lemma FreeTableIsBookable(s: State, req: CreateRequest, slot: Slot, t: TableId)
    requires Consistent(s) && WellMade(s, req, slot, t)
    requires SlotIsFree(s,
              Query(slot, StartOf(s, slot), ResolveDuration(s.venues[slot.venue], req.duration), {t}, None, None))
    ensures Create(s, req).1.MadeReservation? <==> forall other :: !FinishedAt(s, other, slot, t)
  {
    var q := Query(slot, StartOf(s, slot), ResolveDuration(s.venues[slot.venue], req.duration), {t}, None, None);
    FindsExactlyTheBlockers(s, q);
    forall other | other in s.reservations && s.reservations[other].slot == slot
      && s.reservations[other].primary == Some(t)
      ensures FinishedAt(s, other, slot, t)
    {
      assert other !in FindSlotConflicts(s, q).reservations;
      assert !BlockedBy(other, s.reservations[other], q);
    }
    assert Requested(req.table) == {t};
  }

  // ---------- a suggestion that is refused ----------

  const EVENING := LocalDate(2025, 5, 1)
  const SEVEN := LocalTime(19, 0)

  /** One venue with one table. */
  ghost predicate OneTable(s: State) {
    s.venues == map[0 := Venue(120, 15, 0, 0)] && s.tables == map[5 := Table(0, 4, None, 5)] && s.holds == map[]
      && s.now == 0
  }

  function Ask(table: Option<TableId>): CreateRequest {
    CreateRequest(None, Some(0), Given(EVENING), Given(SEVEN), table, None, None, 2)
  }

  lemma AskSucceeds(s: State, table: Option<TableId>) returns (r: Reservation)
    requires OneTable(s) && table in {None, Some(5)}
    requires forall id :: id in s.reservations ==> s.reservations[id].status == CANCELLED
    requires table.Some? ==> s.reservations == map[]
    ensures Create(s, Ask(table)).0 == InsertReservation(s, r)
    ensures r.slot == Slot(0, EVENING, SEVEN) && r.status == CONFIRMED && r.partySize == 2 && r.primary == table
  {
    var slot := Slot(0, EVENING, SEVEN);
    assert SlotIsFree(s, Query(slot, StartOf(s, slot), 120, Requested(table), None, None));
    r := NewReservation(s, slot, 120, None, table, 2);
  }

  ghost predicate OnceCancelled(s: State) {
    && OneTable(s) && s.reservations.Keys == {0, 1}
    && s.reservations[0].slot == s.reservations[1].slot == Slot(0, EVENING, SEVEN)
    && s.reservations[0].primary == Some(5) && s.reservations[0].status == CANCELLED
    && s.reservations[1].primary == None && s.reservations[1].partySize == 2
  }

  /** Table 5 is booked for seven and cancelled, and seven is booked again without a table. */
  lemma BookedAgain() returns (s: State)
    ensures Reachable(s) && OnceCancelled(s)
  {
    var empty := State((d, t) => 0, map[0 := Venue(120, 15, 0, 0)], map[5 := Table(0, 4, None, 5)], map[], map[],
      map[], map[], 0, 0);
    assert Run(empty, []) == empty;
    var first := AskSucceeds(empty, Some(5));
    var a := InsertReservation(empty, first);
    StepReachable(empty, OnReservation(ECreate(Ask(Some(5)))), a);
    var b := Cancelled(a, first);
    var again := AskSucceeds(b, None);
    s := InsertReservation(b, again);
    StepReachable(b, OnReservation(ECreate(Ask(None))), s);
  }

  lemma Cancelled(a: State, first: Reservation) returns (b: State)
    requires Reachable(a) && OneTable(a) && a.reservations == map[0 := first] && first.status == CONFIRMED
              && first.slot.venue == 0
    ensures Reachable(b) && b == a.(reservations := map[0 := first.(status := CANCELLED)])
  {
    b := a.(reservations := map[0 := first.(status := CANCELLED)]);
    assert UpdateStatus(a, 0, Some(CANCELLED), false).0 == b;
    StepReachable(a, OnReservation(EUpdateStatus(0, Some(CANCELLED), false)), b);
  }

  /** suggest offers the table again, and assigning it is refused by the index. */
  lemma SuggestedCanBeRefused(collate: seq<TableId> -> int, listing: seq<TableId>, limit: int)
    requires listing == [5]
    ensures exists s, g :: Reachable(s) && 1 in s.reservations && g in Suggest(s, 1, listing, collate, limit)
                           && AssignTables(s, 1, Raw(g.tables)).1 == Refused(Failure)
  {
    var s := BookedAgain();
    var five: seq<RawId> := [Some(5)];
    assert five[0] == Some(5);
    OnlyFive(s, five);
    var g := TheSuggestion(s, listing, collate, limit, five);
  }

  lemma TheSuggestion(
      s: State, listing: seq<TableId>, collate: seq<TableId> -> int, limit: int,
      five: seq<RawId>) returns (g: Suggestion)
    requires OnceCancelled(s) && Lists(s, 0, listing) && PassesChecks(s, 1, five)
    ensures g in Suggest(s, 1, listing, collate, limit) && AssignTables(s, 1, Raw(g.tables)).1 == Refused(Failure)
  {
    SomethingIsSuggested(s, 1, listing, collate, limit, five);
    g := FirstSuggestion(s, 1, listing, collate, limit);
    NamesOnlyFive(s, g.tables);
    OnlyFive(s, Raw(g.tables));
  }

  lemma NamesOnlyFive(s: State, tables: seq<TableId>)
    requires OnceCancelled(s) && Suitable(s, 1, tables)
    ensures forall t :: Some(t) in Raw(tables) <==> t == 5
  {
    RawNames(tables);
    assert tables[0] in tables;
  }

  lemma OnlyFive(s: State, raw: seq<RawId>)
    requires OnceCancelled(s) && forall t :: Some(t) in raw <==> t == 5
    ensures AssignTables(s, 1, raw).1 == Refused(Failure)
  {
    var list := NormalizeSorted(raw);
    assert 5 in list && forall t :: t in list ==> t == 5;
    assert Elements(list) == {5};
    SizeOfElements(list);
    assert SumCapacity(s.tables, list) == 4;
    assert SlotIsFree(s, SeatingQuery(1, s.reservations[1], set t | t in list));
  }
}
