/**
 * The rows of the booking database: what prisma/schema.prisma declares, without the columns
 * no booking decision looks at. Identifiers are numbers because only their equality matters.
 */
module Rows {
  import opened Common
  import opened SlotTime

  type VenueId = nat
  type TableId = nat
  type ReservationId = nat
  type HoldId = nat
  type EntryId = nat

  datatype ReservationStatus = PENDING | CONFIRMED | SEATED | COMPLETED | CANCELLED
  datatype HoldStatus = HELD | CONSUMED | EXPIRED
  datatype WaitlistStatus = WAITING | OFFERED | CONVERTED | LAPSED

  /** What the conflict check compares: rows of one slot have all three parts in common. */
  datatype Slot = Slot(venue: VenueId, date: LocalDate, time: LocalTime)

  /** `rows` is the join table ReservationTableAssignment: each assigned table with its order. */
  datatype Reservation = Reservation(
    slot: Slot,
    start: int,
    duration: int,
    status: ReservationStatus,
    primary: Option<TableId>,
    rows: map<TableId, nat>,
    partySize: int)

  /** `forOffer` says that a waitlist offer created the hold; the source notes this in createdBy. */
  datatype Hold = Hold(
    slot: Slot,
    start: int,
    table: Option<TableId>,
    status: HoldStatus,
    expiresAt: int,
    partySize: int,
    reservation: Option<ReservationId>,
    forOffer: bool)

  /** `code` and `token` are the offer's secrets; LAPSED is the source's status EXPIRED. */
  datatype Entry = Entry(
    venue: VenueId,
    partySize: int,
    status: WaitlistStatus,
    hold: Option<HoldId>,
    code: Option<nat>,
    token: Option<nat>,
    expiresAt: Option<int>)

  datatype Venue = Venue(
    defaultDurationMin: int,
    holdTtlMin: int,
    guestCanModifyUntilMin: int,
    cancellationWindowMin: int)

  /** `labelRank` is the rank of the table's label (or else its id) in the locale's order. */
  datatype Table = Table(venue: VenueId, capacity: nat, joinGroup: Option<nat>, labelRank: int)

  /** A waitlist offer between two of its database accesses. */
  datatype Offer =
    | Choosing(entry: EntryId, venue: VenueId, partySize: int)
    | Holding(entry: EntryId, hold: HoldId, attempts: nat)
    | Assigned(entry: EntryId, hold: HoldId)

  /**
   * The whole database, the offers under way and the clock (milliseconds). `instant` is
   * toUtcInstant: which function of date and time it is makes no difference to the ledger.
   */
  datatype State = State(
    instant: (LocalDate, LocalTime) -> int,
    venues: map<VenueId, Venue>,
    tables: map<TableId, Table>,
    reservations: map<ReservationId, Reservation>,
    holds: map<HoldId, Hold>,
    entries: map<EntryId, Entry>,
    offers: map<nat, Offer>,
    nextId: nat,
    now: int)

  predicate Blocking(st: ReservationStatus) {
    st in {PENDING, CONFIRMED, SEATED}
  }

  function StartOf(s: State, slot: Slot): int {
    s.instant(slot.date, slot.time)
  }

  predicate Live(h: Hold, now: int) {
    h.status == HELD && now < h.expiresAt
  }
}
