/** The life of a hold over whole runs: it leaves HELD at most once and is converted at most once. */
module HoldLife {
  import opened Common
  import opened Rows
  import opened Ledger
  import opened Exclusion

  /** Every hold is still there and has only aged. */
  ghost predicate AllAge(s: State, s': State) {
    forall h :: h in s.holds ==> h in s'.holds && Ages(s.holds[h], s'.holds[h])
  }

  lemma ReservationStepAges(s: State, e: ReservationEvent)
    ensures AllAge(s, StepReservation(s, e).0)
  {
    match e {
      case ECreate(req) => CreateAges(s, req);
      case EUpdate(id, req) => assert Update(s, id, req).0.holds == s.holds;
      case EUpdateStatus(id, status, guest) =>
      case ERemove(id) => RemoveFrees(s, id);
      case EAssignTables(id, raw) =>
    }
  }

  lemma CreateAges(s: State, req: CreateRequest)
    ensures AllAge(s, Create(s, req).0)
  {
  }

  lemma CreateHoldAges(s: State, req: HoldRequest, forOffer: bool)
    requires FreshIds(s)
    ensures AllAge(s, CreateHold(s, req, forOffer).0)
  {
  }

  lemma OfferStepAges(s: State, e: OfferEvent)
    requires FreshIds(s)
    ensures AllAge(s, StepOffer(s, e).0)
  {
    match e {
      case EOfferRead(_) =>
      case EOfferHold(offer, table, slot, ttl) =>
        OfferHoldBooks(s, offer, table, slot, ttl);
        var t := OfferHold(s, offer, table, slot, ttl).0;
        if !SameBookings(s, t) {
          var req :| SameBookings(CreateHold(s, req, true).0, t);
          CreateHoldAges(s, req, true);
        }
      case EOfferAssign(offer, code, token, fault) => OfferAssignFrees(s, offer, code, token, fault);
      case EOfferFinish(offer, fault) => OfferFinishFrees(s, offer, fault);
    }
  }

  lemma StepAges(s: State, e: Event)
    requires FreshIds(s)
    ensures AllAge(s, Step(s, e).0)
  {
    match e {
      case Tick(_) =>
      case OnReservation(r) => ReservationStepAges(s, r);
      case OnHold(h) =>
        if h.ECreateHold? { CreateHoldAges(s, h.request, false); } else { HoldStepFrees(s, h); }
      case OnWaitlist(w) => WaitlistStepFrees(s, w);
      case OnOffer(o) => OfferStepAges(s, o);
    }
  }

  // ---------- counting along a run ----------

  /** The step takes hold `h` out of HELD. */
  predicate Departs(s: State, e: Event, h: HoldId) {
    var t := Step(s, e).0;
    h in s.holds && s.holds[h].status == HELD && h in t.holds && t.holds[h].status != HELD
  }

  /** The step turns hold `h` into a reservation. */
  predicate Converts(s: State, e: Event, h: HoldId) {
    && e.OnReservation? && e.reservationEvent.ECreate? && e.reservationEvent.create.hold == Some(h)
    && Step(s, e).1.MadeReservation?
  }

  function Departures(s: State, events: seq<Event>, h: HoldId): nat
    decreases |events|
  {
    if events == [] then 0
    else (if Departs(s, events[0], h) then 1 else 0) + Departures(Step(s, events[0]).0, events[1..], h)
  }

  function Conversions(s: State, events: seq<Event>, h: HoldId): nat
    decreases |events|
  {
    if events == [] then 0
    else (if Converts(s, events[0], h) then 1 else 0) + Conversions(Step(s, events[0]).0, events[1..], h)
  }

  lemma {:induction false} HoldLeavesAtMostOnce(s: State, events: seq<Event>, h: HoldId)
    requires Inv(s)
    ensures Departures(s, events, h) <= 1
    ensures h in s.holds && s.holds[h].status != HELD ==>
              Departures(s, events, h) == 0 && h in Run(s, events).holds
              && Run(s, events).holds[h].status == s.holds[h].status
    decreases |events|
  {
    if events != [] {
      StepKeepsInv(s, events[0]);
      StepAges(s, events[0]);
      HoldLeavesAtMostOnce(Step(s, events[0]).0, events[1..], h);
    }
  }

  lemma ConvertingDeparts(s: State, e: Event, h: HoldId)
    requires Converts(s, e, h)
    ensures Departs(s, e, h)
  {
  }

  lemma {:induction false} HoldConvertsAtMostOnce(s: State, events: seq<Event>, h: HoldId)
    requires Inv(s)
    ensures Conversions(s, events, h) <= Departures(s, events, h) <= 1
    decreases |events|
  {
    HoldLeavesAtMostOnce(s, events, h);
    if events != [] {
      if Converts(s, events[0], h) {
        ConvertingDeparts(s, events[0], h);
      }
      StepKeepsInv(s, events[0]);
      HoldConvertsAtMostOnce(Step(s, events[0]).0, events[1..], h);
    }
  }

  /** The reservation has the hold's venue, slot and party; the hold keeps the link, and was live. */
  lemma ConversionCarriesTheHold(s: State, e: Event, h: HoldId)
    requires Converts(s, e, h)
    ensures LiveHold(s, h)
    ensures var t, id := Step(s, e).0, Step(s, e).1.id;
            && id in t.reservations
            && t.reservations[id].slot == s.holds[h].slot && t.reservations[id].start == s.holds[h].start
            && t.reservations[id].partySize == s.holds[h].partySize
            && t.holds[h] == s.holds[h].(status := CONSUMED, reservation := Some(id))
  {
  }
}
