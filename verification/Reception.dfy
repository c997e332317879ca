/**
 * Requests as the controllers hand them to the services: whatever comes in, the database keeps to
 * every law that the ledger's runs keep.
 */
module Reception {
  import opened Common
  import opened SlotTime
  import opened Rows
  import opened Ledger
  import opened Exclusion
  import opened UniqueIndexes
  import opened Offers
  import opened BookingStore

  ghost predicate Safe(s: State) {
    Inv(s) && Unique(s) && OfferInv(s)
  }

  lemma InitialIsSafe(s: State)
    requires Initial(s)
    ensures Safe(s)
  {
  }

  lemma StepKeepsSafe(s: State, e: Event)
    requires Safe(s)
    ensures Safe(Step(s, e).0)
  {
    StepKeepsInv(s, e);
    StepKeepsUnique(s, e);
    StepKeepsOwners(s, e);
  }

  lemma {:induction false} RunKeepsSafe(s: State, events: seq<Event>)
    requires Safe(s)
    ensures Safe(Run(s, events))
    decreases |events|
  {
    if events != [] {
      StepKeepsSafe(s, events[0]);
      RunKeepsSafe(Step(s, events[0]).0, events[1..]);
    }
  }

  method OnReservations(db: Database, e: ReservationEvent) returns (outcome: Outcome)
    modifies db
    ensures (db.View(), outcome) == StepReservation(old(db.View()), e)
    ensures Safe(old(db.View())) ==> Safe(db.View())
  {
    ghost var before := db.View();
    match e {
      case ECreate(req) => outcome := db.Create(req);
      case EUpdate(id, req) => outcome := db.Update(id, req);
      case EUpdateStatus(id, status, guest) => outcome := db.UpdateStatus(id, status, guest);
      case ERemove(id) => outcome := db.Remove(id);
      case EAssignTables(id, raw) => outcome := db.AssignTables(id, raw);
    }
    if Safe(before) {
      StepKeepsSafe(before, OnReservation(e));
    }
  }

  /** The sweep is not a request; it runs on a timer. A listing may name a date. */
  method OnHolds(db: Database, e: HoldEvent, date: Option<LocalDate>) returns (outcome: Outcome)
    requires !e.ESweepBatch?
    modifies db
    ensures (db.View(), outcome) == StepHold(old(db.View()), e)
    ensures Safe(old(db.View())) ==> Safe(db.View())
  {
    ghost var before := db.View();
    match e {
      case ECreateHold(req) => outcome := db.CreateHold(req, false);
      case ECancelHold(id) => outcome := db.CancelHold(id);
      case EGetValidHold(id) => var _ := db.GetValidHold(id); outcome := Done;
      case EListHolds(venue) => var _ := db.ListHolds(venue, date); outcome := Done;
    }
    if Safe(before) {
      StepKeepsSafe(before, OnHold(e));
    }
  }

  /** Time passes, and then a batch runs out. */
  lemma SweepingKeepsSafe(s: State, later: int, batch: set<HoldId>)
    requires Safe(s) && s.now <= later
    ensures Safe(SweepBatch(s.(now := later), batch))
  {
    SweepFrees(s, later, batch);
    FreeingKeepsSafe(s, SweepBatch(s.(now := later), batch));
  }

  lemma SweepFrees(s: State, later: int, batch: set<HoldId>)
    requires s.now <= later
    ensures var s' := SweepBatch(s.(now := later), batch); OnlyFrees(s, s') && SameOwners(s, s')
  {
  }

  lemma FreeingKeepsSafe(s: State, s': State)
    requires Safe(s) && OnlyFrees(s, s') && SameOwners(s, s')
    ensures Safe(s')
  {
    FreeingKeeps(s, s');
    FreeingKeepsUnique(s, s');
    SameOwnersKeep(s, s');
  }

  method OnTimer(db: Database) returns (totalExpired: nat, batches: nat)
    modifies db
    ensures Safe(old(db.View())) ==> Safe(db.View())
    ensures db.Stale(db.now) == {}
  {
    ghost var before := db.View();
    totalExpired, batches := db.Sweep();
    if Safe(before) {
      SweepingKeepsSafe(before, db.now, before.holds.Keys);
    }
  }

  /** The rest of an offer, from its hold on; other requests may come before and after it. */
  method OnOffers(db: Database, offer: nat) returns (outcome: Outcome)
    requires offer in db.offers && db.offers[offer].Holding? && db.offers[offer].attempts == 0
    modifies db
    ensures Safe(old(db.View())) ==> Safe(db.View())
    ensures outcome.Done? <==> offer in db.offers && db.offers[offer].Assigned?
  {
    ghost var before := db.View();
    ghost var trace;
    outcome, trace := db.AssignOffer(offer);
    if Safe(before) {
      RunKeepsSafe(before, trace);
    }
  }

  method OnWaitlists(db: Database, e: WaitlistEvent) returns (outcome: Outcome)
    modifies db
    ensures (db.View(), outcome) == StepWaitlist(old(db.View()), e)
    ensures Safe(old(db.View())) ==> Safe(db.View())
  {
    ghost var before := db.View();
    match e {
      case EJoinWaitlist(venue, partySize) => outcome := db.JoinWaitlist(venue, partySize);
      case EExpireEntry(id) => outcome := db.ExpireEntry(id);
      case EConvertEntry(id) => outcome := db.ConvertEntry(id);
      case EResolveOffer(id, code, token) => outcome := db.ResolveOffer(id, code, token);
      case EConsumeOffer(id, code, token) => outcome := db.ConsumeOffer(id, code, token);
    }
    if Safe(before) {
      StepKeepsSafe(before, OnWaitlist(e));
    }
  }
}
