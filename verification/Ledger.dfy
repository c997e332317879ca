/**
 * The booking ledger as a state machine: what each request of reservations.service.ts,
 * holds.service.ts, seating.service.ts and waitlist.service.ts does to the database.
 * A serializable transaction is one step; a refused request of a transaction writes nothing.
 */
module Ledger {
  import opened Common
  import opened SlotTime
  import opened Rows
  import opened Conflicts
  import opened Assignments

  datatype Error = NotFound | BadRequest | Conflict | Forbidden | Gone | Failure

  datatype Outcome =
    | Done
    | MadeReservation(id: ReservationId)
    | MadeHold(hold: HoldId)
    | OfferStarted(offer: nat)
    | Refused(error: Error)

  /** A field of a request body. */
  datatype Field<+T> = Absent | Null | Malformed | Given(value: T)
  {
    function OrNone(): Option<T> {
      if Given? then Some(value) else None
    }
  }

  const DEFAULT_VENUE: VenueId := 0
  const DEFAULT_DURATION := 120
  const MAX_ATTEMPTS := 5

  // ---------- pure helpers ----------

  function ResolveDuration(v: Venue, requested: Option<int>): (minutes: int)
    ensures requested.Some? && requested.value > 0 ==> minutes == requested.value
    ensures (requested.None? || requested.value <= 0) && v.defaultDurationMin > 0 ==> minutes == v.defaultDurationMin
    ensures (requested.None? || requested.value <= 0) && v.defaultDurationMin <= 0 ==> minutes == 120
  {
    if requested.Some? && requested.value > 0 then requested.value
    else if v.defaultDurationMin > 0 then v.defaultDurationMin
    else DEFAULT_DURATION
  }

  function Transitions(current: ReservationStatus): set<ReservationStatus> {
    match current
    case PENDING => {CONFIRMED, CANCELLED}
    case CONFIRMED => {SEATED, CANCELLED}
    case SEATED => {COMPLETED, CANCELLED}
    case COMPLETED => {}
    case CANCELLED => {}
  }

  predicate TransitionAllowed(current: ReservationStatus, next: ReservationStatus) {
    current == next || next in Transitions(current)
  }

  predicate TableInVenue(s: State, venue: VenueId, t: TableId) {
    t in s.tables && s.tables[t].venue == venue
  }

  /** A missing, null or malformed part gives None: buildSlot answers all of them with BadRequest. */
  function BuildSlot(venue: VenueId, date: Field<LocalDate>, time: Field<LocalTime>): Option<Slot> {
    if date.Given? && time.Given? then Some(Slot(venue, date.value, time.value)) else None
  }

  function ClampTtlSeconds(ttl: Option<int>, fallback: int): (seconds: int)
    ensures ttl.None? ==> seconds == fallback
    ensures ttl.Some? && 60 <= ttl.value <= 3600 ==> seconds == ttl.value
    ensures ttl.Some? && ttl.value < 60 ==> seconds == 60
    ensures ttl.Some? && ttl.value > 3600 ==> seconds == 3600
  {
    if ttl.None? then fallback else Max(60, Min(3600, ttl.value))
  }

  /** A guest may act until `windowMinutes` before the slot; 0 or less means no limit. */
  predicate InsideGuestWindow(windowMinutes: int, start: int, now: int) {
    windowMinutes > 0 ==> start - now >= windowMinutes * 60_000
  }

  predicate SlotIsFree(s: State, q: Query) {
    !HasConflicts(FindSlotConflicts(s, q))
  }

  // ---------- the unique indexes of the schema ----------

  /**
   * The index over venue, table, date and time lets no two reservations share a slot and a primary
   * table, whatever their statuses; null tables are never equal. `self` is the row being updated.
   */
  predicate ReservationIndexFree(s: State, self: Option<ReservationId>, slot: Slot, table: Option<TableId>) {
    table.Some? ==> forall id :: id in s.reservations && Some(id) != self ==>
      !(s.reservations[id].slot == slot && s.reservations[id].primary == table)
  }

  /** The same for holds: a hold that has run out still takes its place in the index. */
  predicate HoldIndexFree(s: State, slot: Slot, table: Option<TableId>) {
    table.Some? ==> forall h :: h in s.holds ==> !(s.holds[h].slot == slot && s.holds[h].table == table)
  }

  // ---------- reservations.service.ts ----------

  datatype CreateRequest = CreateRequest(
    hold: Option<HoldId>,
    venue: Option<VenueId>,
    date: Field<LocalDate>,
    time: Field<LocalTime>,
    table: Option<TableId>,
    duration: Option<int>,
    status: Option<ReservationStatus>,
    partySize: int)

  function InsertReservation(s: State, r: Reservation): State {
    s.(reservations := s.reservations[s.nextId := r], nextId := s.nextId + 1)
  }

  function NewReservation(
      s: State, slot: Slot, duration: int, status: Option<ReservationStatus>, table: Option<TableId>,
      partySize: int): Reservation {
    Reservation(slot, StartOf(s, slot), duration, if status.Some? then status.value else CONFIRMED,
                table, Synced(OfOption(table)), partySize)
  }

  function Create(s: State, req: CreateRequest): (State, Outcome) {
    if req.hold.Some? then CreateFromHold(s, req.hold.value, req) else
    var venue := if req.venue.Some? then req.venue.value else DEFAULT_VENUE;
    var slot := BuildSlot(venue, req.date, req.time);
    if venue !in s.venues then (s, Refused(NotFound))
    else if req.partySize <= 0 || slot.None? then (s, Refused(BadRequest))
    else if req.table.Some? && !TableInVenue(s, venue, req.table.value) then (s, Refused(BadRequest))
    else
      var duration := ResolveDuration(s.venues[venue], req.duration);
      var q := Query(slot.value, StartOf(s, slot.value), duration, Requested(req.table), None, None);
      if !SlotIsFree(s, q) || !ReservationIndexFree(s, None, slot.value, req.table) then (s, Refused(Conflict))
      else (InsertReservation(s, NewReservation(s, slot.value, duration, req.status, req.table, req.partySize)),
            MadeReservation(s.nextId))
  }

  function FromHoldTable(hold: Hold, req: CreateRequest): Option<TableId> {
    if req.table.Some? then req.table else hold.table
  }

  function FromHoldReservation(s: State, hold: Hold, req: CreateRequest): Reservation
    requires hold.slot.venue in s.venues
  {
    NewReservation(s, hold.slot, ResolveDuration(s.venues[hold.slot.venue], req.duration), req.status,
                   FromHoldTable(hold, req), hold.partySize).(start := hold.start)
  }

  function FromHoldQuery(s: State, holdId: HoldId, req: CreateRequest): Query
    requires holdId in s.holds && s.holds[holdId].slot.venue in s.venues
  {
    var hold := s.holds[holdId];
    Query(hold.slot, hold.start, ResolveDuration(s.venues[hold.slot.venue], req.duration),
          Requested(FromHoldTable(hold, req)), None, Some(holdId))
  }

  /** An expired hold is refused; the status the code writes before throwing is rolled back. */
  function CreateFromHold(s: State, holdId: HoldId, req: CreateRequest): (State, Outcome) {
    if holdId !in s.holds then (s, Refused(NotFound)) else
    var hold := s.holds[holdId];
    var venue := hold.slot.venue;
    var table := FromHoldTable(hold, req);
    if req.venue.Some? && req.venue.value != venue then (s, Refused(BadRequest))
    else if venue !in s.venues then (s, Refused(NotFound))
    else if hold.status != HELD || hold.expiresAt <= s.now then (s, Refused(BadRequest))
    else if req.date.Malformed? || (req.date.Given? && req.date.value != hold.slot.date) then (s, Refused(BadRequest))
    else if req.time.Malformed? || (req.time.Given? && req.time.value != hold.slot.time) then (s, Refused(BadRequest))
    else if table.None? || !TableInVenue(s, venue, table.value) then (s, Refused(BadRequest))
    else if !SlotIsFree(s, FromHoldQuery(s, holdId, req)) || !ReservationIndexFree(s, None, hold.slot, table)
    then (s, Refused(Conflict))
    else (MarkConverted(ConsumeHold(InsertReservation(s, FromHoldReservation(s, hold, req)), holdId, s.nextId), holdId),
          MadeReservation(s.nextId))
  }

  function ConsumeHold(s: State, holdId: HoldId, id: ReservationId): State
    requires holdId in s.holds
  {
    s.(holds := s.holds[holdId := s.holds[holdId].(status := CONSUMED, reservation := Some(id))])
  }

  /** waitlist.updateMany where holdId is the consumed hold. */
  function MarkConverted(s: State, holdId: HoldId): State {
    s.(entries := map e | e in s.entries ::
      if s.entries[e].hold == Some(holdId) then s.entries[e].(status := CONVERTED, expiresAt := None) else s.entries[e])
  }

  datatype UpdateRequest = UpdateRequest(
    guest: bool,
    date: Field<LocalDate>,
    time: Field<LocalTime>,
    table: Field<TableId>,
    duration: Field<int>,
    status: Field<ReservationStatus>,
    partySize: Field<int>,
    channel: bool,
    contact: bool)
  {
    predicate IsEmpty() {
      date.Absent? && time.Absent? && table.Absent? && duration.Absent? && status.Absent? && partySize.Absent?
      && !channel && !contact
    }

    predicate GuestForbidden() {
      !status.Absent? || !table.Absent? || !duration.Absent? || channel
    }

    predicate SlotChanged() {
      !date.Absent? || !time.Absent?
    }

    predicate NeedsConflictCheck() {
      SlotChanged() || !table.Absent? || !duration.Absent?
    }

    function NextStatus(r: Reservation): ReservationStatus {
      if status.Given? then status.value else r.status
    }

    function NextTable(r: Reservation): Option<TableId> {
      if table.Absent? then r.primary else table.OrNone()
    }

    /** None when the code throws BadRequest while building the slot. */
    function NextSlot(r: Reservation): Option<Slot> {
      if !SlotChanged() then Some(r.slot)
      else
        var d := if date.Absent? || date.Null? then Given(r.slot.date) else date;
        var t := if time.Absent? then Given(r.slot.time) else time;
        BuildSlot(r.slot.venue, d, t)
    }

    function NextDuration(r: Reservation, v: Venue): int {
      if !duration.Absent? then ResolveDuration(v, duration.OrNone())
      else if r.duration != 0 then r.duration
      else ResolveDuration(v, None)
    }
  }

  /** The row an accepted update writes. Without a named table the assignment rows stay. */
  function Updated(s: State, r: Reservation, req: UpdateRequest, slot: Slot, v: Venue): Reservation {
    var next := req.NextTable(r);
    r.(
      slot := slot,
      start := if req.SlotChanged() then StartOf(s, slot) else r.start,
      status := req.NextStatus(r),
      partySize := if req.partySize.Given? then req.partySize.value else r.partySize,
      duration := if req.duration.Absent? then r.duration else req.NextDuration(r, v),
      primary := next,
      rows := if req.table.Absent? then r.rows else Synced(OfOption(next)))
  }

  function UpdateQuery(s: State, id: ReservationId, r: Reservation, req: UpdateRequest, slot: Slot, v: Venue): Query {
    Query(slot, if req.SlotChanged() then StartOf(s, slot) else r.start, req.NextDuration(r, v),
          Requested(req.NextTable(r)), Some(id), None)
  }

  function Update(s: State, id: ReservationId, req: UpdateRequest): (State, Outcome) {
    if id !in s.reservations then (s, Refused(NotFound)) else
    var r := s.reservations[id];
    if r.slot.venue !in s.venues then (s, Refused(NotFound)) else
    var v := s.venues[r.slot.venue];
    var slot := req.NextSlot(r);
    var next := req.NextTable(r);
    if req.IsEmpty() then (s, Done)
    else if req.guest
      && (req.GuestForbidden() || !InsideGuestWindow(v.guestCanModifyUntilMin, r.start, s.now) || r.status == CANCELLED)
    then (s, Refused(Forbidden))
    else if !req.partySize.Absent? && (!req.partySize.Given? || req.partySize.value <= 0) then (s, Refused(BadRequest))
    else if !TransitionAllowed(r.status, req.NextStatus(r)) then (s, Refused(BadRequest))
    else if slot.None? || req.table.Malformed? then (s, Refused(BadRequest))
    else if next.Some? && !TableInVenue(s, r.slot.venue, next.value) then (s, Refused(BadRequest))
    else if req.NeedsConflictCheck()
      && !SlotIsFree(s, UpdateQuery(s, id, r, req, slot.value, v)) then (s, Refused(Conflict))
    else if !ReservationIndexFree(s, Some(id), slot.value, next) then (s, Refused(Failure))
    else (s.(reservations := s.reservations[id := Updated(s, r, req, slot.value, v)]), Done)
  }

  /** No conflict check: only the transition table guards a status change. */
  function UpdateStatus(s: State, id: ReservationId, status: Option<ReservationStatus>, guest: bool): (State, Outcome) {
    if id !in s.reservations then (s, Refused(NotFound)) else
    var r := s.reservations[id];
    var next := if status.Some? then status.value else r.status;
    if r.slot.venue !in s.venues then (s, Refused(NotFound))
    else if !TransitionAllowed(r.status, next) then (s, Refused(BadRequest))
    else if guest && next == CANCELLED
      && !InsideGuestWindow(s.venues[r.slot.venue].cancellationWindowMin, r.start, s.now)
    then (s, Refused(Forbidden))
    else (s.(reservations := s.reservations[id := r.(status := next)]), Done)
  }

  /** The schema clears the link of a hold whose reservation is deleted. */
  function Remove(s: State, id: ReservationId): (State, Outcome) {
    if id !in s.reservations then (s, Refused(NotFound))
    else (s.(
            reservations := s.reservations - {id},
            holds := map h | h in s.holds ::
              if s.holds[h].reservation == Some(id) then s.holds[h].(reservation := None) else s.holds[h]),
          Done)
  }

  // ---------- seating.service.ts: assignTables ----------

  function SumCapacity(tables: map<TableId, Table>, list: seq<TableId>): nat {
    if list == [] then 0
    else (if list[0] in tables then tables[list[0]].capacity else 0) + SumCapacity(tables, list[1..])
  }

  predicate Joinable(tables: map<TableId, Table>, list: seq<TableId>) {
    |list| > 1 ==>
      && (forall t :: t in list ==> t in tables)
      && tables[list[0]].joinGroup.Some?
      && forall t :: t in list ==> tables[t].joinGroup == tables[list[0]].joinGroup
  }

  function SeatingDuration(r: Reservation): int {
    if r.duration > 0 then r.duration else DEFAULT_DURATION
  }

  function SeatingQuery(id: ReservationId, r: Reservation, requested: set<TableId>): Query {
    Query(r.slot, r.start, SeatingDuration(r), requested, Some(id), None)
  }

  function AssignTables(s: State, id: ReservationId, raw: seq<RawId>): (State, Outcome) {
    AssignList(s, id, NormalizeSorted(raw))
  }

  function AssignList(s: State, id: ReservationId, list: seq<TableId>): (State, Outcome)
    requires Increasing(list)
  {
    if list == [] then (s, Refused(BadRequest))
    else if id !in s.reservations then (s, Refused(NotFound)) else
    var r := s.reservations[id];
    if exists t :: t in list && !TableInVenue(s, r.slot.venue, t) then (s, Refused(BadRequest))
    else if !Joinable(s.tables, list) || SumCapacity(s.tables, list) < r.partySize then (s, Refused(BadRequest))
    else if !SlotIsFree(s, SeatingQuery(id, r, set t | t in list)) then (s, Refused(Conflict))
    else if !ReservationIndexFree(s, Some(id), r.slot, Some(list[0])) then (s, Refused(Failure))
    else (s.(reservations := s.reservations[id := r.(primary := Some(list[0]), rows := OrderMap(list))]), Done)
  }

  // ---------- holds.service.ts and holds.cleanup.service.ts ----------

  datatype HoldRequest = HoldRequest(
    venue: VenueId,
    date: Field<LocalDate>,
    time: Field<LocalTime>,
    partySize: int,
    table: Option<TableId>,
    ttl: Option<int>)

  function HoldTtlSeconds(v: Venue, ttl: Option<int>): (seconds: int)
    ensures ttl.None? && v.holdTtlMin > 0 ==> seconds == v.holdTtlMin * 60
    ensures ttl.None? && v.holdTtlMin <= 0 ==> seconds == 600
    ensures ttl.Some? && ttl.value < 60 ==> seconds == 60
    ensures ttl.Some? && 60 <= ttl.value <= 3600 ==> seconds == ttl.value
    ensures ttl.Some? && ttl.value > 3600 ==> seconds == 3600
  {
    ClampTtlSeconds(ttl, if v.holdTtlMin > 0 then v.holdTtlMin * 60 else 600)
  }

  function CreateHold(s: State, req: HoldRequest, forOffer: bool): (State, Outcome) {
    var slot := BuildSlot(req.venue, req.date, req.time);
    if req.venue !in s.venues then (s, Refused(NotFound))
    else if req.time.Absent? || req.time.Null? || req.date.Absent? || req.date.Null? || req.partySize <= 0
    then (s, Refused(Conflict))
    else if slot.None? then (s, Refused(Failure))
    else if req.table.Some? && !TableInVenue(s, req.venue, req.table.value) then (s, Refused(Conflict))
    else
      var v := s.venues[req.venue];
      var q := Query(slot.value, StartOf(s, slot.value), ResolveDuration(v, None), Requested(req.table), None, None);
      if !SlotIsFree(s, q) || !HoldIndexFree(s, slot.value, req.table) then (s, Refused(Conflict))
      else
        var hold := Hold(slot.value, StartOf(s, slot.value), req.table, HELD,
                         s.now + HoldTtlSeconds(v, req.ttl) * 1000, req.partySize, None, forOffer);
        (s.(holds := s.holds[s.nextId := hold], nextId := s.nextId + 1), MadeHold(s.nextId))
  }

  /** Marks every hold that `pick` selects and that is still HELD. */
  function ExpireWhere(s: State, pick: (HoldId, Hold) -> bool): State {
    s.(holds := map h | h in s.holds ::
      if s.holds[h].status == HELD && pick(h, s.holds[h]) then s.holds[h].(status := EXPIRED) else s.holds[h])
  }

  function CancelHold(s: State, id: HoldId): (State, Outcome) {
    if id !in s.holds then (s, Refused(NotFound))
    else (ExpireWhere(s, (h, _) => h == id), Done)
  }

  /** getValid also expires the hold it finds stale. */
  function GetValidHold(s: State, id: HoldId): State {
    ExpireWhere(s, (h, hold: Hold) => h == id && hold.expiresAt <= s.now)
  }

  function ListHolds(s: State, venue: VenueId): State {
    ExpireWhere(s, (_, hold: Hold) => hold.slot.venue == venue && hold.expiresAt <= s.now)
  }

  /** One batch of the sweep: any choice among the holds whose time to live is over. */
  function SweepBatch(s: State, batch: set<HoldId>): State {
    ExpireWhere(s, (h, hold: Hold) => h in batch && hold.expiresAt < s.now)
  }

  // ---------- waitlist.service.ts ----------

  function JoinWaitlist(s: State, venue: VenueId, partySize: int): (State, Outcome) {
    if venue !in s.venues then (s, Refused(NotFound))
    else if partySize <= 0 then (s, Refused(BadRequest))
    else (s.(entries := s.entries[s.nextId := Entry(venue, partySize, WAITING, None, None, None, None)],
             nextId := s.nextId + 1), Done)
  }

  /** The offer's first access: reads the entry. */
  function OfferRead(s: State, id: EntryId): (State, Outcome) {
    if id !in s.entries then (s, Refused(NotFound))
    else if s.entries[id].status != WAITING then (s, Refused(Conflict))
    else (s.(offers := s.offers[s.nextId := Choosing(id, s.entries[id].venue, s.entries[id].partySize)],
             nextId := s.nextId + 1), OfferStarted(s.nextId))
  }

  function OfferRequest(o: Offer, table: Option<TableId>, slot: Slot, ttl: Option<int>): HoldRequest
    requires o.Choosing?
  {
    HoldRequest(o.venue, Given(slot.date), Given(slot.time), o.partySize, table, ttl)
  }

  /** The offer's second access: creates a hold for the table it picked, or ends. */
  function OfferHold(s: State, offer: nat, table: Option<TableId>, slot: Slot, ttl: Option<int>): (State, Outcome) {
    if offer !in s.offers || !s.offers[offer].Choosing? then (s, Refused(Failure)) else
    var o := s.offers[offer];
    var ended := s.(offers := s.offers - {offer});
    if table.None? then (ended, Refused(Conflict)) else
    var (s', outcome) := CreateHold(s, OfferRequest(o, table, slot, ttl), true);
    if outcome.MadeHold? then (s'.(offers := s'.offers[offer := Holding(o.entry, outcome.hold, 0)]), outcome)
    else (ended, outcome)
  }

  predicate CodeTaken(s: State, code: nat) {
    exists e :: e in s.entries && s.entries[e].code == Some(code)
  }

  function EndOffer(s: State, offer: nat, hold: HoldId): State {
    var cancelled := CancelHold(s, hold).0;
    cancelled.(offers := cancelled.offers - {offer})
  }

  /**
   * One turn of assignOffer's retry loop: a compare-and-set on the entry's status. A taken code
   * is tried again with another, up to five times; `fault` is any other database error.
   */
  function OfferAssign(s: State, offer: nat, code: nat, token: nat, fault: bool): (State, Outcome) {
    if offer !in s.offers || !s.offers[offer].Holding? then (s, Refused(Failure)) else
    var o := s.offers[offer];
    if fault || o.hold !in s.holds then (EndOffer(s, offer, o.hold), Refused(Failure))
    else if o.entry !in s.entries
      || s.entries[o.entry].status != WAITING then (EndOffer(s, offer, o.hold), Refused(Conflict))
    else if CodeTaken(s, code) then
      if o.attempts + 1 < MAX_ATTEMPTS
        then (s.(offers := s.offers[offer := o.(attempts := o.attempts + 1)]), Refused(Conflict))
      else (EndOffer(s, offer, o.hold), Refused(Conflict))
    else
      var e := s.entries[o.entry].(status := OFFERED, code := Some(code), token := Some(token),
                                   hold := Some(o.hold), expiresAt := Some(s.holds[o.hold].expiresAt));
      (s.(entries := s.entries[o.entry := e], offers := s.offers[offer := Assigned(o.entry, o.hold)]), Done)
  }

  /** The offer's last access: reads the entry back; an error here cancels the hold. */
  function OfferFinish(s: State, offer: nat, fault: bool): (State, Outcome) {
    if offer !in s.offers || !s.offers[offer].Assigned? then (s, Refused(Failure))
    else if fault then (EndOffer(s, offer, s.offers[offer].hold), Refused(Failure))
    else (s.(offers := s.offers - {offer}), Done)
  }

  function LapseEntry(s: State, id: EntryId): State
    requires id in s.entries
  {
    s.(entries := s.entries[id :=
      s.entries[id].(status := LAPSED, code := None, token := None, hold := None, expiresAt := None)])
  }

  function ExpireEntry(s: State, id: EntryId): (State, Outcome) {
    if id !in s.entries then (s, Refused(NotFound)) else
    var hold := s.entries[id].hold;
    var s' := if hold.Some? then CancelHold(s, hold.value).0 else s;
    (LapseEntry(s', id), Done)
  }

  /** No status is checked: a waiting, offered or lapsed entry becomes CONVERTED alike. */
  function ConvertEntry(s: State, id: EntryId): (State, Outcome) {
    if id !in s.entries then (s, Refused(NotFound))
    else (s.(entries := s.entries[id := s.entries[id].(status := CONVERTED, token := None, expiresAt := None)]), Done)
  }

  predicate HoldsSecrets(s: State, id: EntryId, code: nat, token: nat) {
    id in s.entries && s.entries[id].code == Some(code) && s.entries[id].token == Some(token)
  }

  /** Looking up an offer that is no longer good expires the entry, even one that was converted. */
  function ResolveOffer(s: State, id: EntryId, code: nat, token: nat): (State, Outcome) {
    if !HoldsSecrets(s, id, code, token) then (s, Refused(NotFound)) else
    var e := s.entries[id];
    if e.hold.None? || e.hold.value !in s.holds then (s, Refused(Gone)) else
    var hold := s.holds[e.hold.value];
    if e.status != OFFERED || e.expiresAt.None? || e.expiresAt.value <= s.now || !Live(hold, s.now)
    then (LapseEntry(CancelHold(s, e.hold.value).0, id), Refused(Gone))
    else (s, Done)
  }

  function ConsumeOffer(s: State, id: EntryId, code: nat, token: nat): (State, Outcome) {
    if !HoldsSecrets(s, id, code, token) then (s, Refused(NotFound)) else
    match s.entries[id].status
    case CONVERTED => (s, Done)
    case OFFERED => ConvertEntry(s, id)
    case _ => (s, Refused(Gone))
  }

  // ---------- runs ----------

  datatype ReservationEvent =
    | ECreate(create: CreateRequest)
    | EUpdate(id: ReservationId, update: UpdateRequest)
    | EUpdateStatus(id: ReservationId, status: Option<ReservationStatus>, guest: bool)
    | ERemove(id: ReservationId)
    | EAssignTables(id: ReservationId, raw: seq<RawId>)

  datatype HoldEvent =
    | ECreateHold(request: HoldRequest)
    | ECancelHold(hold: HoldId)
    | EGetValidHold(hold: HoldId)
    | EListHolds(venue: VenueId)
    | ESweepBatch(batch: set<HoldId>)

  datatype WaitlistEvent =
    | EJoinWaitlist(venue: VenueId, partySize: int)
    | EExpireEntry(entry: EntryId)
    | EConvertEntry(entry: EntryId)
    | EResolveOffer(entry: EntryId, code: nat, token: nat)
    | EConsumeOffer(entry: EntryId, code: nat, token: nat)

  datatype OfferEvent =
    | EOfferRead(entry: EntryId)
    | EOfferHold(offer: nat, table: Option<TableId>, slot: Slot, ttl: Option<int>)
    | EOfferAssign(offer: nat, code: nat, token: nat, fault: bool)
    | EOfferFinish(offer: nat, fault: bool)

  datatype Event =
    | Tick(ms: nat)
    | OnReservation(reservationEvent: ReservationEvent)
    | OnHold(holdEvent: HoldEvent)
    | OnWaitlist(waitlistEvent: WaitlistEvent)
    | OnOffer(offerEvent: OfferEvent)

  function StepReservation(s: State, e: ReservationEvent): (State, Outcome) {
    match e
    case ECreate(req) => Create(s, req)
    case EUpdate(id, req) => Update(s, id, req)
    case EUpdateStatus(id, status, guest) => UpdateStatus(s, id, status, guest)
    case ERemove(id) => Remove(s, id)
    case EAssignTables(id, raw) => AssignTables(s, id, raw)
  }

  function StepHold(s: State, e: HoldEvent): (State, Outcome) {
    match e
    case ECreateHold(req) => CreateHold(s, req, false)
    case ECancelHold(id) => CancelHold(s, id)
    case EGetValidHold(id) => (GetValidHold(s, id), Done)
    case EListHolds(venue) => (ListHolds(s, venue), Done)
    case ESweepBatch(batch) => (SweepBatch(s, batch), Done)
  }

  function StepWaitlist(s: State, e: WaitlistEvent): (State, Outcome) {
    match e
    case EJoinWaitlist(venue, partySize) => JoinWaitlist(s, venue, partySize)
    case EExpireEntry(id) => ExpireEntry(s, id)
    case EConvertEntry(id) => ConvertEntry(s, id)
    case EResolveOffer(id, code, token) => ResolveOffer(s, id, code, token)
    case EConsumeOffer(id, code, token) => ConsumeOffer(s, id, code, token)
  }

  function StepOffer(s: State, e: OfferEvent): (State, Outcome) {
    match e
    case EOfferRead(id) => OfferRead(s, id)
    case EOfferHold(offer, table, slot, ttl) => OfferHold(s, offer, table, slot, ttl)
    case EOfferAssign(offer, code, token, fault) => OfferAssign(s, offer, code, token, fault)
    case EOfferFinish(offer, fault) => OfferFinish(s, offer, fault)
  }

  function Step(s: State, e: Event): (State, Outcome) {
    match e
    case Tick(ms) => (s.(now := s.now + ms), Done)
    case OnReservation(r) => StepReservation(s, r)
    case OnHold(h) => StepHold(s, h)
    case OnWaitlist(w) => StepWaitlist(s, w)
    case OnOffer(o) => StepOffer(s, o)
  }

  /** The state after a sequence of steps. */
  function Run(s: State, events: seq<Event>): State
    decreases |events|
  {
    if events == [] then s else Run(Step(s, events[0]).0, events[1..])
  }

  /** A database with venues and tables and nothing booked. */
  ghost predicate Initial(s: State) {
    s.reservations == map[] && s.holds == map[] && s.entries == map[] && s.offers == map[]
  }

  /** Some run from an empty ledger ends here. */
  ghost predicate Reachable(s: State) {
    exists start, events :: Initial(start) && Run(start, events) == s
  }

  lemma {:induction false} RunOneMore(s: State, events: seq<Event>, e: Event)
    ensures Run(s, events + [e]) == Step(Run(s, events), e).0
    decreases |events|
  {
    if events == [] {
      assert ([] + [e])[1..] == [];
    } else {
      assert (events + [e])[1..] == events[1..] + [e];
      RunOneMore(Step(s, events[0]).0, events[1..], e);
    }
  }

  lemma StepReachable(s: State, e: Event, s': State)
    requires Reachable(s) && Step(s, e).0 == s'
    ensures Reachable(s')
  {
    var start, events :| Initial(start) && Run(start, events) == s;
    RunOneMore(start, events, e);
  }
}
