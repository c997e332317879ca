/**
 * Waitlist offers under any interleaving of their database accesses: an entry is offered at most
 * once, and a hold made for an offer always has exactly one owner while it is held.
 */
module Offers {
  import opened Common
  import opened Rows
  import opened Ledger
  import opened Exclusion
  import opened HoldLife

  ghost predicate Refers(s: State, e: EntryId, h: HoldId) {
    e in s.entries && s.entries[e].hold == Some(h)
  }

  ghost predicate Keeps(s: State, o: nat, h: HoldId) {
    o in s.offers && s.offers[o].Holding? && s.offers[o].hold == h
  }

  /** No hold has two owners: two entries, two offers still to assign it, or one of each. */
  ghost predicate AtMostOneOwner(s: State) {
    && (forall e, f, h :: Refers(s, e, h) && Refers(s, f, h) ==> e == f)
    && (forall o, p, h :: Keeps(s, o, h) && Keeps(s, p, h) ==> o == p)
    && (forall e, o, h :: Refers(s, e, h) ==> !Keeps(s, o, h))
  }

  ghost predicate HasOwner(s: State, h: HoldId) {
    (exists e :: Refers(s, e, h)) || (exists o :: Keeps(s, o, h))
  }

  lemma OwnerStays(s: State, s': State, h: HoldId)
    requires HasOwner(s, h)
    requires forall e :: Refers(s, e, h) ==> Refers(s', e, h)
    requires forall o :: Keeps(s, o, h) ==> Keeps(s', o, h)
    ensures HasOwner(s', h)
  {
  }

  /** A held hold that was made for an offer has an owner. */
  ghost predicate Owned(s: State) {
    forall h :: h in s.holds && s.holds[h].forOffer && s.holds[h].status == HELD ==>
      HasOwner(s, h)
  }

  ghost predicate Tidy(s: State) {
    && (forall e :: e in s.entries ==> e < s.nextId)
    && (forall o :: o in s.offers ==> o < s.nextId)
    && (forall e :: e in s.entries && s.entries[e].status == WAITING ==> s.entries[e].hold.None?)
    && (forall e, h :: Refers(s, e, h) ==> h in s.holds)
    && (forall o, h :: Keeps(s, o, h) ==> h in s.holds)
  }

  ghost predicate OfferInv(s: State) {
    FreshIds(s) && Tidy(s) && AtMostOneOwner(s) && Owned(s)
  }

  // ---------- steps that leave ownership alone ----------

  ghost predicate SameOwners(s: State, s': State) {
    && s'.offers == s.offers && s.nextId <= s'.nextId
    && s'.entries.Keys == s.entries.Keys
    && (forall e :: e in s.entries ==>
          && s'.entries[e].hold == s.entries[e].hold
          && (s'.entries[e].status == WAITING ==> s.entries[e].status == WAITING))
    && (forall h :: h in s'.holds && s'.holds[h].forOffer ==> h in s.holds)
  }

  lemma SameOwnersKeep(s: State, s': State)
    requires OfferInv(s) && SameOwners(s, s') && AllAge(s, s') && FreshIds(s')
    ensures OfferInv(s')
  {
    assert forall e, h :: Refers(s', e, h) <==> Refers(s, e, h);
    assert forall o, h :: Keeps(s', o, h) <==> Keeps(s, o, h);
    forall h | h in s'.holds && s'.holds[h].forOffer && s'.holds[h].status == HELD
      ensures HasOwner(s', h)
    {
      assert s.holds[h].status == HELD;
      OwnerStays(s, s', h);
    }
  }

  lemma ReservationStepSameOwners(s: State, e: ReservationEvent)
    ensures SameOwners(s, StepReservation(s, e).0)
  {
    match e {
      case ECreate(req) => CreateSameOwners(s, req);
      case EUpdate(id, req) => UpdateSameOwners(s, id, req);
      case EUpdateStatus(id, status, guest) => assert UpdateStatus(s, id, status, guest).0.entries == s.entries;
      case ERemove(id) => RemoveFrees(s, id);
      case EAssignTables(id, raw) => assert AssignTables(s, id, raw).0.entries == s.entries;
    }
  }

  lemma CreateSameOwners(s: State, req: CreateRequest)
    ensures SameOwners(s, Create(s, req).0)
  {
    if req.hold.Some? {
      FromHoldSameOwners(s, req.hold.value, req);
    }
  }

  lemma FromHoldSameOwners(s: State, h: HoldId, req: CreateRequest)
    ensures SameOwners(s, CreateFromHold(s, h, req).0)
  {
  }

  lemma UpdateSameOwners(s: State, id: ReservationId, req: UpdateRequest)
    ensures SameOwners(s, Update(s, id, req).0)
  {
  }

  lemma HoldStepSameOwners(s: State, e: HoldEvent)
    requires FreshIds(s)
    ensures SameOwners(s, StepHold(s, e).0)
  {
  }

  // ---------- steps that move ownership ----------

  /** Giving up a hold that is no longer held costs nothing. */
  lemma LapseKeeps(s: State, id: EntryId)
    requires OfferInv(s) && id in s.entries
    requires forall h :: Refers(s, id, h) ==> s.holds[h].status != HELD
    ensures OfferInv(LapseEntry(s, id))
  {
    var s' := LapseEntry(s, id);
    assert forall e, h :: Refers(s', e, h) <==> Refers(s, e, h) && e != id;
    assert forall o, h :: Keeps(s', o, h) <==> Keeps(s, o, h);
    forall h | h in s'.holds && s'.holds[h].forOffer && s'.holds[h].status == HELD
      ensures HasOwner(s', h)
    {
      OwnerStays(s, s', h);
    }
  }

  lemma CancelKeeps(s: State, id: HoldId)
    requires OfferInv(s)
    ensures OfferInv(CancelHold(s, id).0)
    ensures id in s.holds ==> id in CancelHold(s, id).0.holds && CancelHold(s, id).0.holds[id].status != HELD
  {
    CancelFrees(s, id);
    CancelSameOwners(s, id);
    SameOwnersKeep(s, CancelHold(s, id).0);
  }

  lemma CancelSameOwners(s: State, id: HoldId)
    ensures SameOwners(s, CancelHold(s, id).0)
  {
  }

  lemma WaitlistStepKeepsOwners(s: State, e: WaitlistEvent)
    requires OfferInv(s)
    ensures OfferInv(StepWaitlist(s, e).0)
  {
    match e {
      case EJoinWaitlist(venue, partySize) => NewEntryKeeps(s, venue, partySize);
      case EExpireEntry(id) => ExpireKeeps(s, id);
      case EConvertEntry(id) => ConvertKeeps(s, id);
      case EResolveOffer(id, code, token) => ResolveKeeps(s, id, code, token);
      case EConsumeOffer(id, code, token) => ConvertKeeps(s, id);
    }
  }

  lemma ExpireKeeps(s: State, id: EntryId)
    requires OfferInv(s)
    ensures OfferInv(ExpireEntry(s, id).0)
  {
    if id in s.entries {
      CancelAndLapseKeeps(s, id);
    }
  }

  lemma ConvertKeeps(s: State, id: EntryId)
    requires OfferInv(s)
    ensures OfferInv(ConvertEntry(s, id).0)
  {
    var s' := ConvertEntry(s, id).0;
    ConvertSameOwners(s, id);
    assert s'.holds == s.holds && s'.reservations == s.reservations;
    SameOwnersKeep(s, s');
  }

  lemma ConvertSameOwners(s: State, id: EntryId)
    ensures SameOwners(s, ConvertEntry(s, id).0)
  {
  }

  lemma ResolveKeeps(s: State, id: EntryId, code: nat, token: nat)
    requires OfferInv(s)
    ensures OfferInv(ResolveOffer(s, id, code, token).0)
  {
    if id in s.entries {
      CancelAndLapseKeeps(s, id);
    }
  }

  lemma NewEntryKeeps(s: State, venue: VenueId, partySize: int)
    requires OfferInv(s)
    ensures OfferInv(JoinWaitlist(s, venue, partySize).0)
  {
    var s' := JoinWaitlist(s, venue, partySize).0;
    assert forall e, h :: Refers(s', e, h) <==> Refers(s, e, h);
    assert forall o, h :: Keeps(s', o, h) <==> Keeps(s, o, h);
  }

  lemma CancelAndLapseKeeps(s: State, id: EntryId)
    requires OfferInv(s) && id in s.entries
    ensures var t := if s.entries[id].hold.Some? then CancelHold(s, s.entries[id].hold.value).0 else s;
            OfferInv(LapseEntry(t, id))
  {
    if s.entries[id].hold.Some? {
      var h := s.entries[id].hold.value;
      assert Refers(s, id, h);
      CancelKeeps(s, h);
      LapseKeeps(CancelHold(s, h).0, id);
    } else {
      LapseKeeps(s, id);
    }
  }

  lemma ReadKeeps(s: State, id: EntryId)
    requires OfferInv(s)
    ensures OfferInv(OfferRead(s, id).0)
  {
    var s' := OfferRead(s, id).0;
    assert forall e, h :: Refers(s', e, h) <==> Refers(s, e, h);
    assert forall o, h :: Keeps(s', o, h) <==> Keeps(s, o, h);
  }

  /** Dropping an offer is harmless once the hold it keeps, if any, is not held. */
  lemma DropKeeps(s: State, offer: nat, s': State)
    requires OfferInv(s) && s' == s.(offers := s.offers - {offer})
    requires forall h :: Keeps(s, offer, h) ==> s.holds[h].status != HELD
    ensures OfferInv(s')
  {
    assert forall e, h :: Refers(s', e, h) <==> Refers(s, e, h);
    assert forall o, h :: Keeps(s', o, h) <==> Keeps(s, o, h) && o != offer;
    forall h | h in s'.holds && s'.holds[h].forOffer && s'.holds[h].status == HELD
      ensures HasOwner(s', h)
    {
      OwnerStays(s, s', h);
    }
  }

  lemma EndOfferKeeps(s: State, offer: nat, hold: HoldId)
    requires OfferInv(s)
    requires forall h :: Keeps(s, offer, h) ==> h == hold
    ensures OfferInv(EndOffer(s, offer, hold))
  {
    CancelKeeps(s, hold);
    var t := CancelHold(s, hold).0;
    assert forall h :: Keeps(t, offer, h) ==> Keeps(s, offer, h);
    DropKeeps(t, offer, EndOffer(s, offer, hold));
  }

  /** The new hold belongs to the offer that made it. */
  lemma MakeHoldKeeps(s: State, offer: nat, hold: Hold, s': State)
    requires OfferInv(s) && offer in s.offers && s.offers[offer].Choosing?
    requires s'.holds == s.holds[s.nextId := hold] && s'.nextId == s.nextId + 1
    requires s'.reservations == s.reservations && s'.entries == s.entries
    requires s'.offers == s.offers[offer := Holding(s.offers[offer].entry, s.nextId, 0)]
    ensures OfferInv(s')
  {
    assert forall e, h :: Refers(s', e, h) <==> Refers(s, e, h);
    assert forall o, h :: Keeps(s', o, h) <==> (Keeps(s, o, h) || (o == offer && h == s.nextId));
    forall h | h in s'.holds && s'.holds[h].forOffer && s'.holds[h].status == HELD
      ensures HasOwner(s', h)
    {
      if h == s.nextId {
        assert Keeps(s', offer, h);
      } else {
        OwnerStays(s, s', h);
      }
    }
  }

  lemma OfferHoldKeepsOwners(s: State, offer: nat, table: Option<TableId>, slot: Slot, ttl: Option<int>)
    requires OfferInv(s)
    ensures OfferInv(OfferHold(s, offer, table, slot, ttl).0)
  {
    var t := OfferHold(s, offer, table, slot, ttl).0;
    if offer in s.offers && s.offers[offer].Choosing? {
      if table.Some? && CreateHold(s, OfferRequest(s.offers[offer], table, slot, ttl), true).1.MadeHold? {
        MakeHoldKeeps(s, offer, t.holds[s.nextId], t);
      } else {
        DropKeeps(s, offer, t);
      }
    }
  }

  /** The compare-and-set hands the hold over from the offer to the entry. */
  lemma HandOverKeeps(s: State, offer: nat, s': State)
    requires OfferInv(s) && offer in s.offers && s.offers[offer].Holding?
    requires var o := s.offers[offer];
             && o.entry in s.entries && s.entries[o.entry].status == WAITING
             && s'.entries.Keys == s.entries.Keys
             && (forall e :: e in s.entries && e != o.entry ==> s'.entries[e] == s.entries[e])
             && s'.entries[o.entry].hold == Some(o.hold) && s'.entries[o.entry].status != WAITING
             && s'.offers == s.offers[offer := Assigned(o.entry, o.hold)]
    requires s'.holds == s.holds && s'.nextId == s.nextId && s'.reservations == s.reservations
    ensures OfferInv(s')
  {
    var o := s.offers[offer];
    assert Keeps(s, offer, o.hold);
    assert forall e, h :: Refers(s', e, h) <==> (Refers(s, e, h) || (e == o.entry && h == o.hold));
    assert forall p, h :: Keeps(s', p, h) <==> (Keeps(s, p, h) && p != offer);
    forall h | h in s'.holds && s'.holds[h].forOffer && s'.holds[h].status == HELD
      ensures HasOwner(s', h)
    {
      if h == o.hold {
        assert Refers(s', o.entry, h);
      } else {
        OwnerStays(s, s', h);
      }
    }
  }

  lemma RetryKeeps(s: State, offer: nat, s': State)
    requires OfferInv(s) && offer in s.offers && s.offers[offer].Holding?
    requires s' == s.(offers := s.offers[offer := s.offers[offer].(attempts := s.offers[offer].attempts + 1)])
    ensures OfferInv(s')
  {
    assert forall e, h :: Refers(s', e, h) <==> Refers(s, e, h);
    assert forall o, h :: Keeps(s', o, h) <==> Keeps(s, o, h);
    forall h | h in s'.holds && s'.holds[h].forOffer && s'.holds[h].status == HELD
      ensures HasOwner(s', h)
    {
      OwnerStays(s, s', h);
    }
  }

  lemma OfferAssignKeepsOwners(s: State, offer: nat, code: nat, token: nat, fault: bool)
    requires OfferInv(s)
    ensures OfferInv(OfferAssign(s, offer, code, token, fault).0)
  {
    if offer in s.offers && s.offers[offer].Holding? {
      var o := s.offers[offer];
      var (t, outcome) := OfferAssign(s, offer, code, token, fault);
      if outcome.Done? {
        HandOverKeeps(s, offer, t);
      } else if t == EndOffer(s, offer, o.hold) {
        EndOfferKeeps(s, offer, o.hold);
      } else {
        RetryKeeps(s, offer, t);
      }
    }
  }

  lemma OfferFinishKeepsOwners(s: State, offer: nat, fault: bool)
    requires OfferInv(s)
    ensures OfferInv(OfferFinish(s, offer, fault).0)
  {
    if offer in s.offers && s.offers[offer].Assigned? {
      if fault {
        EndOfferKeeps(s, offer, s.offers[offer].hold);
      } else {
        DropKeeps(s, offer, OfferFinish(s, offer, fault).0);
      }
    }
  }

  // ---------- every step, every run ----------

  lemma OfferStepKeepsOwners(s: State, e: OfferEvent)
    requires OfferInv(s)
    ensures OfferInv(StepOffer(s, e).0)
  {
    match e {
      case EOfferRead(id) => ReadKeeps(s, id);
      case EOfferHold(offer, table, slot, ttl) => OfferHoldKeepsOwners(s, offer, table, slot, ttl);
      case EOfferAssign(offer, code, token, fault) => OfferAssignKeepsOwners(s, offer, code, token, fault);
      case EOfferFinish(offer, fault) => OfferFinishKeepsOwners(s, offer, fault);
    }
  }

  lemma StepKeepsOwners(s: State, e: Event)
    requires Inv(s) && OfferInv(s)
    ensures Inv(Step(s, e).0) && OfferInv(Step(s, e).0)
  {
    StepKeepsInv(s, e);
    StepAges(s, e);
    match e {
      case Tick(_) => SameOwnersKeep(s, Step(s, e).0);
      case OnReservation(r) =>
        ReservationStepSameOwners(s, r);
        SameOwnersKeep(s, Step(s, e).0);
      case OnHold(h) =>
        HoldStepSameOwners(s, h);
        SameOwnersKeep(s, Step(s, e).0);
      case OnWaitlist(w) => WaitlistStepKeepsOwners(s, w);
      case OnOffer(o) => OfferStepKeepsOwners(s, o);
    }
  }

  ghost function Owners(s: State, h: HoldId): (set<EntryId>, set<nat>) {
    (set e | e in s.entries && Refers(s, e, h), set o | o in s.offers && Keeps(s, o, h))
  }

  lemma ExactlyOneOwner(s: State, h: HoldId)
    requires OfferInv(s) && h in s.holds && s.holds[h].forOffer && s.holds[h].status == HELD
    ensures |Owners(s, h).0| + |Owners(s, h).1| == 1
  {
    var (entries, offers) := Owners(s, h);
    if e: EntryId :| Refers(s, e, h) {
      assert entries == {e} && offers == {};
    } else {
      var o: nat :| Keeps(s, o, h);
      assert entries == {} && offers == {o};
    }
  }

  lemma {:induction false} RunKeepsOwners(s: State, events: seq<Event>)
    requires Inv(s) && OfferInv(s)
    ensures OfferInv(Run(s, events))
    decreases |events|
  {
    if events != [] {
      StepKeepsOwners(s, events[0]);
      RunKeepsOwners(Step(s, events[0]).0, events[1..]);
    }
  }

  /** In every run, a held hold of an offer belongs to one entry, or to one offer about to assign it. */
  lemma EveryOfferHoldHasOneOwner(s: State, events: seq<Event>, h: HoldId)
    requires Initial(s)
    ensures var t := Run(s, events);
            h in t.holds && t.holds[h].forOffer && t.holds[h].status == HELD ==>
              |Owners(t, h).0| + |Owners(t, h).1| == 1
  {
    RunKeepsOwners(s, events);
    var t := Run(s, events);
    if h in t.holds && t.holds[h].forOffer && t.holds[h].status == HELD {
      ExactlyOneOwner(t, h);
    }
  }

  // ---------- an entry is offered at most once ----------

  /** The compare-and-set of some offer succeeds for entry `id`. */
  predicate Offers(s: State, e: Event, id: EntryId) {
    && e.OnOffer? && e.offerEvent.EOfferAssign?
    && e.offerEvent.offer in s.offers && s.offers[e.offerEvent.offer].Holding?
    && s.offers[e.offerEvent.offer].entry == id
    && Step(s, e).1.Done?
  }

  function TimesOffered(s: State, events: seq<Event>, id: EntryId): nat
    decreases |events|
  {
    if events == [] then 0
    else (if Offers(s, events[0], id) then 1 else 0) + TimesOffered(Step(s, events[0]).0, events[1..], id)
  }

  /** Entries stay, and none comes back to WAITING. */
  ghost predicate NoneWaitsAgain(s: State, s': State) {
    forall e :: e in s.entries ==>
      e in s'.entries && (s'.entries[e].status == WAITING ==> s.entries[e].status == WAITING)
  }

  lemma StepNeverWaitsAgain(s: State, e: Event)
    requires Tidy(s)
    ensures NoneWaitsAgain(s, Step(s, e).0)
  {
    match e {
      case Tick(_) =>
      case OnReservation(r) => ReservationStepSameOwners(s, r);
      case OnHold(h) => if !h.ECreateHold? { HoldStepFrees(s, h); } else { assert Step(s, e).0.entries == s.entries; }
      case OnWaitlist(w) => WaitlistNeverWaitsAgain(s, w);
      case OnOffer(o) => OfferNeverWaitsAgain(s, o);
    }
  }

  lemma WaitlistNeverWaitsAgain(s: State, e: WaitlistEvent)
    requires Tidy(s)
    ensures NoneWaitsAgain(s, StepWaitlist(s, e).0)
  {
  }

  lemma OfferNeverWaitsAgain(s: State, e: OfferEvent)
    ensures NoneWaitsAgain(s, StepOffer(s, e).0)
  {
    match e {
      case EOfferRead(id) =>
      case EOfferHold(offer, table, slot, ttl) => OfferHoldNeverWaitsAgain(s, offer, table, slot, ttl);
      case EOfferAssign(offer, code, token, fault) => OfferAssignNeverWaitsAgain(s, offer, code, token, fault);
      case EOfferFinish(offer, fault) =>
    }
  }

  lemma OfferHoldNeverWaitsAgain(s: State, offer: nat, table: Option<TableId>, slot: Slot, ttl: Option<int>)
    ensures NoneWaitsAgain(s, OfferHold(s, offer, table, slot, ttl).0)
  {
  }

  lemma OfferAssignNeverWaitsAgain(s: State, offer: nat, code: nat, token: nat, fault: bool)
    ensures NoneWaitsAgain(s, OfferAssign(s, offer, code, token, fault).0)
  {
  }

  lemma OfferingEndsWaiting(s: State, e: Event, id: EntryId)
    requires Offers(s, e, id)
    ensures id in s.entries && s.entries[id].status == WAITING
    ensures Step(s, e).0.entries[id].status == OFFERED
  {
  }

  lemma {:induction false} OfferedAtMostOnce(s: State, events: seq<Event>, id: EntryId)
    requires Inv(s) && OfferInv(s)
    ensures TimesOffered(s, events, id) <= 1
    ensures id in s.entries && s.entries[id].status != WAITING ==>
              TimesOffered(s, events, id) == 0
              && id in Run(s, events).entries && Run(s, events).entries[id].status != WAITING
    decreases |events|
  {
    if events != [] {
      StepKeepsOwners(s, events[0]);
      StepNeverWaitsAgain(s, events[0]);
      if Offers(s, events[0], id) {
        OfferingEndsWaiting(s, events[0], id);
      }
      OfferedAtMostOnce(Step(s, events[0]).0, events[1..], id);
    }
  }
}
