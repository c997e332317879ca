/** apps/api/src/availability/availability.engine.ts: the pipeline from shifts to offered tables. */
module AvailabilityEngine {
  import opened Common
  import opened Sorting
  import opened Pacing
  import opened Shifts

  datatype Rule = Rule(minPartySize: int, maxPartySize: int, slotLengthMinutes: int, bufferMinutes: int)

  datatype Booking = Booking(tables: seq<nat>, start: int, duration: int, party: int)

  datatype HeldTable = HeldTable(table: Option<nat>, start: int, expiresAt: int)

  /**
   * A time zone: the weekday of a date, the instant of a date and clock minute, the instant one
   * clock day later, and the local date of an instant. Dates are counted in days.
   */
  datatype VenueClock = VenueClock(weekday: int -> int, toUtc: (int, int) -> int, dayLater: int -> int,
    localDate: int -> int)

  /** `lead` is the service buffer's lead time; the clock reads `now` throughout. */
  datatype Input = Input(
    zone: VenueClock,
    turnTime: int,
    startDate: int,
    endDate: int,
    party: int,
    interval: int,
    shifts: seq<Shift>,
    rules: seq<Rule>,
    blackouts: seq<int>,
    pacing: seq<PacingRule>,
    lead: Option<int>,
    tables: seq<Table>,
    bookings: seq<Booking>,
    holds: seq<HeldTable>,
    now: int)

  const MINUTE := 60_000

  // ---------- pickRule ----------

  predicate Applies(rule: Rule, party: int) {
    rule.minPartySize <= party <= rule.maxPartySize
  }

  function Span(rule: Rule): int {
    rule.maxPartySize - rule.minPartySize
  }

  predicate Better(rule: Rule, candidate: Rule) {
    Span(rule) < Span(candidate) || (Span(rule) == Span(candidate) && rule.minPartySize > candidate.minPartySize)
  }

  /** The rule at `i` applies, no other is better, and none before it is as good. */
  ghost predicate FirstBest(rules: seq<Rule>, party: int, i: nat)
    requires i < |rules|
  {
    && Applies(rules[i], party)
    && (forall j :: 0 <= j < |rules| && Applies(rules[j], party) ==> !Better(rules[j], rules[i]))
    && (forall j :: 0 <= j < i && Applies(rules[j], party) ==> Better(rules[i], rules[j]))
  }

  function PickRule(rules: seq<Rule>, party: int): Option<Rule> {
    if rules == [] then None
    else
      var candidate, rule := PickRule(rules[..|rules| - 1], party), rules[|rules| - 1];
      if Applies(rule, party) && (candidate.None? || Better(rule, candidate.value)) then Some(rule) else candidate
  }

  /** Nothing if no rule applies, and otherwise the first of the best. */
  ghost predicate Picked(rules: seq<Rule>, party: int, r: Option<Rule>) {
    if r.None? then forall j :: 0 <= j < |rules| ==> !Applies(rules[j], party)
    else exists i :: 0 <= i < |rules| && FirstBest(rules, party, i) && r.value == rules[i]
  }

  lemma {:induction false} PickIsBest(rules: seq<Rule>, party: int)
    ensures Picked(rules, party, PickRule(rules, party))
  {
    if rules != [] {
      var n := |rules| - 1;
      PickIsBest(rules[..n], party);
      PickOneMore(rules[..n], rules[n], party, PickRule(rules[..n], party));
      assert rules[..n] + [rules[n]] == rules;
    }
  }

  lemma PickOneMore(init: seq<Rule>, rule: Rule, party: int, candidate: Option<Rule>)
    requires Picked(init, party, candidate)
    ensures Picked(init + [rule], party,
              if Applies(rule, party)
                && (candidate.None? || Better(rule, candidate.value)) then Some(rule) else candidate)
  {
    var rules := init + [rule];
    assert forall j :: 0 <= j < |init| ==> rules[j] == init[j];
    if candidate.None? {
      if Applies(rule, party) { assert FirstBest(rules, party, |init|); }
    } else {
      var i :| 0 <= i < |init| && FirstBest(init, party, i) && candidate.value == init[i];
      assert Applies(rules[i], party);
      if Applies(rule, party) && Better(rule, candidate.value) {
        assert FirstBest(rules, party, |init|);
      } else {
        assert FirstBest(rules, party, i);
      }
    }
  }

  /** The rule picked is made for the party, no other such rule is narrower, and of the narrowest it starts highest. */
  lemma PickInPlainTerms(rules: seq<Rule>, party: int)
    ensures PickRule(rules, party).None? ==>
              forall q :: q in rules ==> party < q.minPartySize || party > q.maxPartySize
    ensures PickRule(rules, party).Some? ==>
              var r := PickRule(rules, party).value;
              && r in rules && r.minPartySize <= party <= r.maxPartySize
              && forall q :: q in rules && q.minPartySize <= party <= q.maxPartySize ==>
                   && r.maxPartySize - r.minPartySize <= q.maxPartySize - q.minPartySize
                   && (r.maxPartySize - r.minPartySize == q.maxPartySize - q.minPartySize ==>
                     r.minPartySize >= q.minPartySize)
  {
    PickIsBest(rules, party);
  }

  method FindRule(rules: seq<Rule>, party: int) returns (candidate: Option<Rule>)
    ensures candidate == PickRule(rules, party)
  {
    candidate := None;
    var i := 0;
    while i < |rules|
      invariant 0 <= i <= |rules|
      invariant candidate == PickRule(rules[..i], party)
    {
      var rule := rules[i];
      assert rules[..i + 1][..i] == rules[..i];
      i := i + 1;
      if party < rule.minPartySize || party > rule.maxPartySize {
        continue;
      }
      if candidate.None? {
        candidate := Some(rule);
        continue;
      }
      if Better(rule, candidate.value) {
        candidate := Some(rule);
      }
    }
    assert rules[..i] == rules;
  }

  // ---------- computeOccupiedTables ----------

  datatype Block = Block(start: int, end: int)

  predicate Overlaps(a: Block, b: Block) {
    a.start < b.end && b.start < a.end
  }

  /** The time a booking keeps its tables; a party no rule applies to is given the rule of the query. */
  function BlockOf(rules: seq<Rule>, byDefault: Rule, turnTime: int, b: Booking): Block {
    var rule := PickRule(rules, b.party);
    var buffer := if rule.Some? then rule.value.bufferMinutes else byDefault.bufferMinutes;
    Block(b.start, b.start + (b.duration + turnTime + buffer) * MINUTE)
  }

  /** The time a new booking, or a hold, at `start` takes under the rule of the query. */
  function Stay(rule: Rule, turnTime: int, start: int): Block {
    Block(start, start + (rule.slotLengthMinutes + turnTime + rule.bufferMinutes) * MINUTE)
  }

  predicate TakenByBooking(rules: seq<Rule>, rule: Rule, turnTime: int, stay: Block, b: Booking, t: nat) {
    t in b.tables && Overlaps(BlockOf(rules, rule, turnTime, b), stay)
  }

  predicate TakenByHold(rule: Rule, turnTime: int, stay: Block, h: HeldTable, now: int, t: nat) {
    h.table == Some(t) && now < h.expiresAt && Overlaps(Stay(rule, turnTime, h.start), stay)
  }

  predicate Booked(bookings: seq<Booking>, rules: seq<Rule>, rule: Rule, turnTime: int, stay: Block, t: nat) {
    exists b :: b in bookings && TakenByBooking(rules, rule, turnTime, stay, b, t)
  }

  predicate Held(holds: seq<HeldTable>, rule: Rule, turnTime: int, stay: Block, now: int, t: nat) {
    exists h :: h in holds && TakenByHold(rule, turnTime, stay, h, now, t)
  }

  predicate Occupied(input: Input, rule: Rule, stay: Block, t: nat) {
    || Booked(input.bookings, input.rules, rule, input.turnTime, stay, t)
    || Held(input.holds, rule, input.turnTime, stay, input.now, t)
  }

  method ComputeOccupiedTables(input: Input, rule: Rule, stay: Block) returns (occupied: set<nat>)
    ensures forall t :: t in occupied <==> Occupied(input, rule, stay, t)
  {
    var booked := CheckBookings(input.bookings, input.rules, rule, input.turnTime, stay);
    occupied := CheckHolds(booked, input.holds, rule, input.turnTime, stay, input.now);
  }

  method CheckBookings(
      bookings: seq<Booking>, rules: seq<Rule>, rule: Rule, turnTime: int, stay: Block) returns (occupied: set<nat>)
    ensures forall t :: t in occupied <==> Booked(bookings, rules, rule, turnTime, stay, t)
  {
    occupied := {};
    var i := 0;
    while i < |bookings|
      invariant 0 <= i <= |bookings|
      invariant forall t :: t in occupied <==> Booked(bookings[..i], rules, rule, turnTime, stay, t)
    {
      var b := bookings[i];
      BookedOneMore(bookings, i, rules, rule, turnTime, stay);
      var found := FindRule(rules, b.party);
      var buffer := if found.Some? then found.value.bufferMinutes else rule.bufferMinutes;
      var block := Block(b.start, b.start + (b.duration + turnTime + buffer) * MINUTE);
      assert block == BlockOf(rules, rule, turnTime, b);
      assert forall t :: TakenByBooking(rules, rule, turnTime, stay, b, t) <==> t in b.tables && Overlaps(block, stay);
      if Overlaps(block, stay) {
        occupied := AddAll(occupied, b.tables);
      }
      i := i + 1;
    }
    assert bookings[..i] == bookings;
  }

  lemma BookedOneMore(bookings: seq<Booking>, i: nat, rules: seq<Rule>, rule: Rule, turnTime: int, stay: Block)
    requires i < |bookings|
    ensures forall t :: Booked(bookings[..i + 1], rules, rule, turnTime, stay, t) <==>
                        || Booked(bookings[..i], rules, rule, turnTime, stay, t)
                        || TakenByBooking(rules, rule, turnTime, stay, bookings[i], t)
  {
  }

  method CheckHolds(
      booked: set<nat>, holds: seq<HeldTable>, rule: Rule, turnTime: int, stay: Block,
      now: int) returns (occupied: set<nat>)
    ensures forall t :: t in occupied <==> t in booked || Held(holds, rule, turnTime, stay, now, t)
  {
    occupied := booked;
    var i := 0;
    while i < |holds|
      invariant 0 <= i <= |holds|
      invariant forall t :: t in occupied <==> t in booked || Held(holds[..i], rule, turnTime, stay, now, t)
    {
      var h := holds[i];
      HeldOneMore(holds, i, rule, turnTime, stay, now);
      i := i + 1;
      if h.table.None? {
        continue;
      }
      if h.expiresAt <= now {
        continue;
      }
      if Overlaps(Stay(rule, turnTime, h.start), stay) {
        occupied := occupied + {h.table.value};
      }
    }
    assert holds[..i] == holds;
  }

  lemma HeldOneMore(holds: seq<HeldTable>, i: nat, rule: Rule, turnTime: int, stay: Block, now: int)
    requires i < |holds|
    ensures forall t :: Held(holds[..i + 1], rule, turnTime, stay, now, t) <==>
                        || Held(holds[..i], rule, turnTime, stay, now, t)
                        || TakenByHold(rule, turnTime, stay, holds[i], now, t)
  {
  }

  method AddAll(before: set<nat>, tables: seq<nat>) returns (occupied: set<nat>)
    ensures occupied == before + set t | t in tables
  {
    occupied := before;
    var i := 0;
    while i < |tables|
      invariant 0 <= i <= |tables|
      invariant occupied == before + set t | t in tables[..i]
    {
      assert tables[..i + 1] == tables[..i] + [tables[i]];
      occupied := occupied + {tables[i]};
      i := i + 1;
    }
    assert tables[..i] == tables;
  }

  // ---------- buildBaseTimeline ----------

  /** `from`, and then every `interval` minutes, before `end`. */
  function Every(from: int, end: int, interval: int): seq<int>
    requires interval >= 1
    decreases end - from
  {
    if from >= end then [] else [from] + Every(from + interval * MINUTE, end, interval)
  }

  function ShiftStart(z: VenueClock, day: int, s: Shift): int {
    z.toUtc(day, s.startsAt)
  }

  function ShiftEnd(z: VenueClock, day: int, s: Shift): int {
    var end := z.toUtc(day, s.endsAt);
    if WrapsOvernight(s) then z.dayLater(end) else end
  }

  predicate RunsOn(z: VenueClock, day: int, s: Shift) {
    s.dow == z.weekday(day) && s.isActive
  }

  /** The starts a sequence of shifts gives one day. */
  function DayStarts(z: VenueClock, day: int, interval: int, shifts: seq<Shift>): seq<int>
    requires interval >= 1
  {
    if shifts == [] then []
    else
      var s := shifts[|shifts| - 1];
      DayStarts(z, day, interval, shifts[..|shifts| - 1])
        + Every(ShiftStart(z, day, s), ShiftEnd(z, day, s), interval)
  }

  function Timeline(z: VenueClock, startDate: int, endDate: int, shifts: seq<Shift>, interval: int): seq<int>
    requires interval >= 1
    decreases endDate - startDate
  {
    if startDate > endDate then []
    else
      Timeline(z, startDate, endDate - 1, shifts, interval)
        + DayStarts(z, endDate, interval, Filter(shifts, (s: Shift) => RunsOn(z, endDate, s)))
  }

  method BuildBaseTimeline(
      z: VenueClock, startDate: int, endDate: int, shifts: seq<Shift>, interval: int) returns (slots: seq<int>)
    requires interval >= 1
    ensures slots == Timeline(z, startDate, endDate, shifts, interval)
  {
    slots := [];
    var current := startDate;
    while current <= endDate
      invariant startDate <= current
      invariant current <= endDate + 1 || current == startDate
      invariant slots == Timeline(z, startDate, current - 1, shifts, interval)
    {
      var day := DayTimeline(z, current, Filter(shifts, (s: Shift) => RunsOn(z, current, s)), interval);
      slots := slots + day;
      current := current + 1;
    }
  }

  /** The loop over the shifts of a day. */
  method DayTimeline(z: VenueClock, day: int, shifts: seq<Shift>, interval: int) returns (slots: seq<int>)
    requires interval >= 1
    ensures slots == DayStarts(z, day, interval, shifts)
  {
    slots := [];
    var i := 0;
    while i < |shifts|
      invariant 0 <= i <= |shifts|
      invariant slots == DayStarts(z, day, interval, shifts[..i])
    {
      var s := shifts[i];
      assert shifts[..i + 1][..i] == shifts[..i];
      var starts := ShiftTimeline(ShiftStart(z, day, s), ShiftEnd(z, day, s), interval);
      slots := slots + starts;
      i := i + 1;
    }
    assert shifts[..i] == shifts;
  }

  /** The innermost loop. */
  method ShiftTimeline(start: int, end: int, interval: int) returns (slots: seq<int>)
    requires interval >= 1
    ensures slots == Every(start, end, interval)
  {
    slots := [];
    var slotTime := start;
    while slotTime < end
      invariant slots + Every(slotTime, end, interval) == Every(start, end, interval)
      decreases end - slotTime
    {
      slots := slots + [slotTime];
      slotTime := slotTime + interval * MINUTE;
    }
  }

  lemma {:induction false} EveryIsExact(from: int, end: int, interval: int, t: int)
    requires interval >= 1
    ensures t in Every(from, end, interval) <==> from <= t < end && (t - from) % (interval * MINUTE) == 0
    decreases end - from
  {
    if from < end {
      EveryIsExact(from + interval * MINUTE, end, interval, t);
      ModuloShift(t - from, interval * MINUTE);
      if from < t < from + interval * MINUTE {
        assert (t - from) % (interval * MINUTE) == t - from;
      }
    }
  }

  lemma ModuloShift(x: int, m: int)
    requires m > 0
    ensures (x - m) % m == x % m
  {
    var q := x / m;
    assert x - m == (q - 1) * m + x % m;
    DivMod(x - m, m, q - 1, x % m);
  }

  lemma {:induction false} DayStartsAreExact(z: VenueClock, day: int, interval: int, shifts: seq<Shift>, t: int)
    requires interval >= 1
    ensures t in DayStarts(z, day, interval, shifts)
            <==> exists s :: s in shifts && ShiftStart(z, day, s) <= t < ShiftEnd(z, day, s)
                             && (t - ShiftStart(z, day, s)) % (interval * MINUTE) == 0
  {
    if shifts != [] {
      var init, s := shifts[..|shifts| - 1], shifts[|shifts| - 1];
      DayStartsAreExact(z, day, interval, init, t);
      EveryIsExact(ShiftStart(z, day, s), ShiftEnd(z, day, s), interval, t);
      assert shifts == init + [s];
      assert forall u :: u in shifts <==> u in init || u == s;
    }
  }

  /** A start is on a shift's grid: a whole number of intervals after its start, and before its end. */
  ghost predicate OnGrid(z: VenueClock, day: int, interval: int, s: Shift, t: int)
    requires interval >= 1
  {
    ShiftStart(z, day, s) <= t < ShiftEnd(z, day, s) && (t - ShiftStart(z, day, s)) % (interval * MINUTE) == 0
  }

  /** Some active shift of the day has a start at `t`. */
  ghost predicate StartsOn(z: VenueClock, day: int, shifts: seq<Shift>, interval: int, t: int)
    requires interval >= 1
  {
    exists s :: s in shifts && RunsOn(z, day, s) && OnGrid(z, day, interval, s, t)
  }

  lemma DayIsExact(z: VenueClock, day: int, shifts: seq<Shift>, interval: int, t: int)
    requires interval >= 1
    ensures t in DayStarts(z, day, interval, Filter(shifts, (s: Shift) => RunsOn(z, day, s)))
       <==> StartsOn(z, day, shifts, interval, t)
  {
    var own := Filter(shifts, (s: Shift) => RunsOn(z, day, s));
    DayStartsAreExact(z, day, interval, own, t);
    if s :| s in own && OnGrid(z, day, interval, s, t) {
      assert RunsOn(z, day, s);
    }
  }

  lemma {:induction false} TimelineIsExact(
      z: VenueClock, startDate: int, endDate: int, shifts: seq<Shift>, interval: int, t: int)
    requires interval >= 1
    ensures t in Timeline(z, startDate, endDate, shifts, interval)
       <==> exists day :: startDate <= day <= endDate && StartsOn(z, day, shifts, interval, t)
    decreases endDate - startDate
  {
    if startDate <= endDate {
      TimelineIsExact(z, startDate, endDate - 1, shifts, interval, t);
      DayIsExact(z, endDate, shifts, interval, t);
    }
  }

  /** The shift is on, the start within its hours, and a whole number of intervals after its own start. */
  ghost predicate HasStart(z: VenueClock, day: int, s: Shift, interval: int, t: int)
    requires interval >= 1
  {
    && s.isActive && s.dow == z.weekday(day)
    && z.toUtc(day, s.startsAt) <= t
    && t < (if s.endsAt <= s.startsAt then z.dayLater(z.toUtc(day, s.endsAt)) else z.toUtc(day, s.endsAt))
    && (t - z.toUtc(day, s.startsAt)) % (interval * 60_000) == 0
  }

  lemma TimelineInPlainTerms(
      z: VenueClock, startDate: int, endDate: int, shifts: seq<Shift>, interval: int, t: int)
    requires interval >= 1
    ensures t in Timeline(z, startDate, endDate, shifts, interval)
       <==> exists day, s :: startDate <= day <= endDate && s in shifts && HasStart(z, day, s, interval, t)
  {
    TimelineIsExact(z, startDate, endDate, shifts, interval, t);
    if day :| startDate <= day <= endDate && StartsOn(z, day, shifts, interval, t) {
      var s :| s in shifts && RunsOn(z, day, s) && OnGrid(z, day, interval, s, t);
      assert HasStart(z, day, s, interval, t);
    }
    if day, s :| startDate <= day <= endDate && s in shifts && HasStart(z, day, s, interval, t) {
      assert RunsOn(z, day, s) && OnGrid(z, day, interval, s, t);
      assert StartsOn(z, day, shifts, interval, t);
    }
  }

  /** The same by dates alone: an overnight shift ends on the next date. */
  ghost predicate HasStartByDates(z: VenueClock, day: int, s: Shift, interval: int, t: int)
    requires interval >= 1
  {
    && s.isActive && s.dow == z.weekday(day)
    && z.toUtc(day, s.startsAt) <= t < z.toUtc(if s.endsAt <= s.startsAt then day + 1 else day, s.endsAt)
    && (t - z.toUtc(day, s.startsAt)) % (interval * 60_000) == 0
  }

  /** On a clock whose days later agree with its dates. */
  lemma TimelineByDates(z: VenueClock, startDate: int, endDate: int, shifts: seq<Shift>, interval: int, t: int)
    requires interval >= 1 && forall d, m :: z.dayLater(z.toUtc(d, m)) == z.toUtc(d + 1, m)
    ensures t in Timeline(z, startDate, endDate, shifts, interval)
       <==> exists day, s :: startDate <= day <= endDate && s in shifts && HasStartByDates(z, day, s, interval, t)
  {
    TimelineInPlainTerms(z, startDate, endDate, shifts, interval, t);
    if day, s :| startDate <= day <= endDate && s in shifts && HasStart(z, day, s, interval, t) {
      assert HasStartByDates(z, day, s, interval, t);
    }
    if day, s :| startDate <= day <= endDate && s in shifts && HasStartByDates(z, day, s, interval, t) {
      assert HasStart(z, day, s, interval, t);
    }
  }

  /** The dates, and the shifts by their places, that have a start at `t`. */
  ghost function Starting(
      z: VenueClock, startDate: int, endDate: int, shifts: seq<Shift>, interval: int, t: int): set<(int, nat)>
    requires interval >= 1
  {
    set day: int, i: nat | startDate <= day <= endDate && i < |shifts| && HasStart(z, day, shifts[i], interval, t)
      :: (day, i)
  }

  ghost function StartsAt(z: VenueClock, day: int, interval: int, t: int): Shift -> bool
    requires interval >= 1
  {
    (s: Shift) => HasStart(z, day, s, interval, t)
  }

  ghost function InHours(z: VenueClock, day: int, interval: int, t: int): Shift -> bool
    requires interval >= 1
  {
    (s: Shift) => OnGrid(z, day, interval, s, t)
  }

  lemma {:induction false} EveryOnce(from: int, end: int, interval: int, t: int)
    requires interval >= 1
    ensures multiset(Every(from, end, interval))[t]
         == if from <= t < end && (t - from) % (interval * MINUTE) == 0 then 1 else 0
    decreases end - from
  {
    EveryIsExact(from, end, interval, t);
    if from < end {
      EveryOnce(from + interval * MINUTE, end, interval, t);
      EveryIsExact(from + interval * MINUTE, end, interval, t);
    }
  }

  /** How often the shifts start at `t` on the day. */
  ghost function DayCount(z: VenueClock, day: int, interval: int, shifts: seq<Shift>, t: int): nat
    requires interval >= 1
  {
    multiset(DayStarts(z, day, interval, shifts))[t]
  }

  lemma {:induction false} DayCounts(z: VenueClock, day: int, interval: int, shifts: seq<Shift>, t: int)
    requires interval >= 1
    ensures DayCount(z, day, interval, shifts, t) == |Places(shifts, InHours(z, day, interval, t))|
  {
    if shifts == [] {
      assert Places(shifts, InHours(z, day, interval, t)) == {};
    } else {
      var init, s := shifts[..|shifts| - 1], shifts[|shifts| - 1];
      DayCounts(z, day, interval, init, t);
      OneMoreShiftCounts(z, day, interval, init, s, t);
      PlacesOneMore(init, s, InHours(z, day, interval, t));
      assert shifts == init + [s];
    }
  }

  lemma ShiftCounts(z: VenueClock, day: int, interval: int, s: Shift, t: int)
    requires interval >= 1
    ensures multiset(Every(ShiftStart(z, day, s), ShiftEnd(z, day, s), interval))[t]
         == if InHours(z, day, interval, t)(s) then 1 else 0
  {
    EveryOnce(ShiftStart(z, day, s), ShiftEnd(z, day, s), interval, t);
  }

  lemma DayStartsOneMore(z: VenueClock, day: int, interval: int, init: seq<Shift>, s: Shift)
    requires interval >= 1
    ensures DayStarts(z, day, interval, init + [s])
         == DayStarts(z, day, interval, init) + Every(ShiftStart(z, day, s), ShiftEnd(z, day, s), interval)
  {
    assert (init + [s])[..|init|] == init;
  }

  lemma OneMoreShiftCounts(z: VenueClock, day: int, interval: int, init: seq<Shift>, s: Shift, t: int)
    requires interval >= 1
    ensures DayCount(z, day, interval, init + [s], t)
         == DayCount(z, day, interval, init, t) + if InHours(z, day, interval, t)(s) then 1 else 0
  {
    DayStartsOneMore(z, day, interval, init, s);
    ShiftCounts(z, day, interval, s, t);
    CountAppended(
      DayStarts(z, day, interval, init), Every(ShiftStart(z, day, s), ShiftEnd(z, day, s), interval), t);
  }

  ghost function Running(z: VenueClock, day: int): Shift -> bool {
    (s: Shift) => RunsOn(z, day, s)
  }

  lemma ShiftsOfDayCount(z: VenueClock, day: int, shifts: seq<Shift>, interval: int, t: int)
    requires interval >= 1
    ensures DayCount(z, day, interval, Filter(shifts, Running(z, day)), t)
         == |Places(shifts, StartsAt(z, day, interval, t))|
  {
    var runs, hours, both := Running(z, day), InHours(z, day, interval, t), StartsAt(z, day, interval, t);
    DayCounts(z, day, interval, Filter(shifts, runs), t);
    FilterCount(Filter(shifts, runs), hours);
    forall s: Shift ensures both(s) == (runs(s) && hours(s)) {
    }
    FilterBoth(shifts, runs, hours, both);
    FilterCount(shifts, both);
  }

  /** The dates and places up to `n` that satisfy `p`. */
  ghost function Where(startDate: int, endDate: int, n: nat, p: (int, nat) -> bool): set<(int, nat)> {
    set day: int, i: nat | startDate <= day <= endDate && i < n && p(day, i) :: (day, i)
  }

  ghost function Pairs(day: int, places: set<nat>): set<(int, nat)> {
    set i: nat | i in places :: (day, i)
  }

  lemma {:induction false} PairsCount(day: int, places: set<nat>)
    ensures |Pairs(day, places)| == |places|
  {
    if i :| i in places {
      PairsCount(day, places - {i});
      assert Pairs(day, places) == Pairs(day, places - {i}) + {(day, i)};
    } else {
      assert Pairs(day, places) == {};
    }
  }

  lemma OneMoreDay(startDate: int, endDate: int, n: nat, p: (int, nat) -> bool, places: set<nat>)
    requires startDate <= endDate && forall i: nat :: i in places <==> i < n && p(endDate, i)
    ensures |Where(startDate, endDate, n, p)| == |Where(startDate, endDate - 1, n, p)| + |places|
  {
    PairsCount(endDate, places);
    assert Where(startDate, endDate, n, p) == Where(startDate, endDate - 1, n, p) + Pairs(endDate, places);
  }

  ghost function HasStarts(z: VenueClock, shifts: seq<Shift>, interval: int, t: int): (int, nat) -> bool
    requires interval >= 1
  {
    (day: int, i: nat) => i < |shifts| && HasStart(z, day, shifts[i], interval, t)
  }

  lemma {:induction false} TimelineCountsWhere(
      z: VenueClock, startDate: int, endDate: int, shifts: seq<Shift>, interval: int, t: int)
    requires interval >= 1
    ensures multiset(Timeline(z, startDate, endDate, shifts, interval))[t]
         == |Where(startDate, endDate, |shifts|, HasStarts(z, shifts, interval, t))|
    decreases endDate - startDate
  {
    if startDate > endDate {
      assert Where(startDate, endDate, |shifts|, HasStarts(z, shifts, interval, t)) == {};
    } else {
      TimelineCountsWhere(z, startDate, endDate - 1, shifts, interval, t);
      var own := DayStarts(z, endDate, interval, Filter(shifts, Running(z, endDate)));
      FilterAgrees(shifts, (s: Shift) => RunsOn(z, endDate, s), Running(z, endDate));
      CountAppended(Timeline(z, startDate, endDate - 1, shifts, interval), own, t);
      ShiftsOfDayCount(z, endDate, shifts, interval, t);
      OneMoreDay(startDate, endDate, |shifts|, HasStarts(z, shifts, interval, t),
        Places(shifts, StartsAt(z, endDate, interval, t)));
    }
  }

  /** A start comes as often as there are dates and shifts that have it. */
  lemma TimelineCounts(z: VenueClock, startDate: int, endDate: int, shifts: seq<Shift>, interval: int, t: int)
    requires interval >= 1
    ensures multiset(Timeline(z, startDate, endDate, shifts, interval))[t]
         == |Starting(z, startDate, endDate, shifts, interval, t)|
  {
    TimelineCountsWhere(z, startDate, endDate, shifts, interval, t);
    assert Starting(z, startDate, endDate, shifts, interval, t)
        == Where(startDate, endDate, |shifts|, HasStarts(z, shifts, interval, t));
  }

  // ---------- computeAvailability ----------

  datatype OfferedSlot = OfferedSlot(paced: PacedSlot, end: int, capacityTotal: nat)

  datatype Output = Output(slots: seq<OfferedSlot>, available: nat, blocked: nat)

  function ApplyBlackouts(z: VenueClock, starts: seq<int>, blackouts: seq<int>): seq<int> {
    Filter(starts, (t: int) => z.localDate(t) !in blackouts)
  }

  function ApplyLead(starts: seq<int>, lead: Option<int>, now: int): seq<int> {
    if lead.None? then starts else Filter(starts, (t: int) => t >= now + lead.value * MINUTE)
  }

  function Starts(input: Input): seq<int>
    requires input.interval >= 1
  {
    var timeline := Timeline(input.zone, input.startDate, input.endDate, input.shifts, input.interval);
    ApplyLead(ApplyBlackouts(input.zone, timeline, input.blackouts), input.lead, input.now)
  }

  function Eligible(input: Input): seq<Table> {
    Filter(input.tables, (t: Table) => t.capacity >= input.party)
  }

  function FreeTables(input: Input, rule: Rule, start: int): seq<Table> {
    var stay := Stay(rule, input.turnTime, start);
    Filter(Eligible(input), (t: Table) => !Occupied(input, rule, stay, t.id))
  }

  function Unpaced(input: Input, rule: Rule, starts: seq<int>): (r: seq<Slot>)
    ensures |r| == |starts|
    ensures forall i :: 0 <= i < |r| ==>
              r[i] == Slot(starts[i], rule.slotLengthMinutes, FreeTables(input, rule, starts[i]))
  {
    seq(|starts|, i requires 0 <= i < |starts| => Slot(starts[i], rule.slotLengthMinutes,
      FreeTables(input, rule, starts[i])))
  }

  function BookingStarts(bookings: seq<Booking>): seq<int> {
    seq(|bookings|, i requires 0 <= i < |bookings| => bookings[i].start)
  }

  function HoldStarts(holds: seq<HeldTable>): seq<int> {
    seq(|holds|, i requires 0 <= i < |holds| => holds[i].start)
  }

  function PacedSlots(input: Input, rule: Rule): seq<PacedSlot>
    requires input.interval >= 1
  {
    Paced(Unpaced(input, rule, Starts(input)), RuleLimit(input.pacing), BookingStarts(input.bookings),
      HoldStarts(input.holds))
  }

  function Format(paced: seq<PacedSlot>, capacityTotal: nat): (r: seq<OfferedSlot>)
    ensures |r| == |paced|
    ensures forall i :: 0 <= i < |r| ==>
              r[i] == OfferedSlot(paced[i], paced[i].slot.start + paced[i].slot.duration * MINUTE, capacityTotal)
  {
    seq(|paced|, i requires 0 <= i < |paced| =>
      OfferedSlot(paced[i], paced[i].slot.start + paced[i].slot.duration * MINUTE, capacityTotal))
  }

  function HasTables(): OfferedSlot -> bool {
    (s: OfferedSlot) => s.paced.slot.tables != []
  }

  function Summary(slots: seq<OfferedSlot>): Output {
    var available := |Filter(slots, HasTables())|;
    FilterIsNoLonger(slots, HasTables());
    Output(slots, available, |slots| - available)
  }

  lemma {:induction false} FilterIsNoLonger<T>(xs: seq<T>, keep: T -> bool)
    ensures |Filter(xs, keep)| <= |xs|
  {
    if xs != [] {
      FilterIsNoLonger(xs[1..], keep);
    }
  }

  lemma SummaryCounts(slots: seq<OfferedSlot>)
    ensures var out := Summary(slots);
            && out.slots == slots && out.available + out.blocked == |slots|
            && out.available == |set i: nat | i < |slots| && slots[i].paced.slot.tables != []|
  {
    FilterCount(slots, HasTables());
    assert Places(slots, HasTables()) == set i: nat | i < |slots| && slots[i].paced.slot.tables != [];
  }

  function Availability(input: Input): Output
    requires input.interval >= 1
  {
    var rule := PickRule(input.rules, input.party);
    if rule.None? || Eligible(input) == [] then Output([], 0, 0)
    else Summary(Format(PacedSlots(input, rule.value), |Eligible(input)|))
  }

  method ComputeAvailability(input: Input) returns (output: Output)
    requires input.interval >= 1
    ensures output == Availability(input)
  {
    var baseSlots := BuildBaseTimeline(input.zone, input.startDate, input.endDate, input.shifts, input.interval);
    var afterBlackout := ApplyBlackouts(input.zone, baseSlots, input.blackouts);
    var afterBuffer := ApplyLead(afterBlackout, input.lead, input.now);
    var rule := FindRule(input.rules, input.party);
    if rule.None? {
      return Output([], 0, 0);
    }
    var eligible := Eligible(input);
    if |eligible| == 0 {
      return Output([], 0, 0);
    }
    var slots := WithFreeTables(input, rule.value, eligible, afterBuffer);
    var paced := ApplyPacingRules(slots, input.pacing, BookingStarts(input.bookings), HoldStarts(input.holds));
    output := Summary(Format(paced, |eligible|));
  }

  method WithFreeTables(input: Input, rule: Rule, eligible: seq<Table>, starts: seq<int>) returns (slots: seq<Slot>)
    requires eligible == Eligible(input)
    ensures slots == Unpaced(input, rule, starts)
  {
    slots := [];
    var i := 0;
    while i < |starts|
      invariant 0 <= i <= |starts|
      invariant slots == Unpaced(input, rule, starts[..i])
    {
      var stay := Stay(rule, input.turnTime, starts[i]);
      var occupied := ComputeOccupiedTables(input, rule, stay);
      var free := Filter(eligible, (t: Table) => t.id !in occupied);
      FilterAgrees(eligible, (t: Table) => t.id !in occupied, (t: Table) => !Occupied(input, rule, stay, t.id));
      slots := slots + [Slot(starts[i], rule.slotLengthMinutes, free)];
      i := i + 1;
    }
    assert starts[..i] == starts;
  }

  lemma {:induction false} FilterAgrees<T>(xs: seq<T>, p: T -> bool, q: T -> bool)
    requires forall x :: x in xs ==> p(x) == q(x)
    ensures Filter(xs, p) == Filter(xs, q)
  {
    if xs != [] {
      FilterAgrees(xs[1..], p, q);
    }
  }

  // ---------- soundness and completeness ----------

  /** Table `t` may be offered from `start` on: everything the pipeline checks before pacing. */
  ghost predicate Offerable(input: Input, rule: Rule, start: int, t: Table)
    requires input.interval >= 1
  {
    && t in input.tables && t.capacity >= input.party
    && start in Timeline(input.zone, input.startDate, input.endDate, input.shifts, input.interval)
    && input.zone.localDate(start) !in input.blackouts
    && (input.lead.Some? ==> start >= input.now + input.lead.value * MINUTE)
    && (forall b :: b in input.bookings && t.id in b.tables ==>
          !Overlaps(BlockOf(input.rules, rule, input.turnTime, b), Stay(rule, input.turnTime, start)))
    && (forall h :: h in input.holds && h.table == Some(t.id) && input.now < h.expiresAt ==>
          !Overlaps(Stay(rule, input.turnTime, h.start), Stay(rule, input.turnTime, start)))
  }

  /** Two stays, in milliseconds, do not meet. */
  ghost predicate Clear(aStart: int, aMinutes: int, bStart: int, bMinutes: int) {
    aStart + aMinutes * 60_000 <= bStart || bStart + bMinutes * 60_000 <= aStart
  }

  /** How long a booking keeps its tables: its own minutes, the turn time, and the buffer of its rule. */
  ghost function Kept(input: Input, rule: Rule, b: Booking): int {
    var own := PickRule(input.rules, b.party);
    b.duration + input.turnTime + if own.Some? then own.value.bufferMinutes else rule.bufferMinutes
  }

  /** Offerable, said without blocks. */
  lemma OfferableInPlainTerms(input: Input, rule: Rule, start: int, t: Table)
    requires input.interval >= 1
    ensures var minutes := rule.slotLengthMinutes + input.turnTime + rule.bufferMinutes;
            Offerable(input, rule, start, t) <==>
              && t in input.tables && t.capacity >= input.party
              && (exists day, s :: input.startDate <= day <= input.endDate && s in input.shifts
                                   && HasStart(input.zone, day, s, input.interval, start))
              && input.zone.localDate(start) !in input.blackouts
              && (input.lead.Some? ==> start >= input.now + input.lead.value * 60_000)
              && (forall b :: b in input.bookings && t.id in b.tables ==>
                Clear(b.start, Kept(input, rule, b), start, minutes))
              && (forall h :: h in input.holds && h.table == Some(t.id) && input.now < h.expiresAt ==>
                    Clear(h.start, minutes, start, minutes))
  {
    TimelineInPlainTerms(input.zone, input.startDate, input.endDate, input.shifts, input.interval, start);
    var stay := Stay(rule, input.turnTime, start);
    forall b | b in input.bookings
      ensures Overlaps(BlockOf(input.rules, rule, input.turnTime, b), stay) <==>
                !Clear(b.start, Kept(input, rule, b), start,
                  rule.slotLengthMinutes + input.turnTime + rule.bufferMinutes)
    {
    }
    forall h | h in input.holds
      ensures Overlaps(Stay(rule, input.turnTime, h.start), stay) <==>
                !Clear(h.start, rule.slotLengthMinutes + input.turnTime + rule.bufferMinutes,
                       start, rule.slotLengthMinutes + input.turnTime + rule.bufferMinutes)
    {
    }
  }

  lemma FreeTablesAreOfferable(input: Input, rule: Rule, start: int, t: Table)
    requires input.interval >= 1 && start in Starts(input)
    ensures t in FreeTables(input, rule, start) <==> Offerable(input, rule, start, t)
  {
  }

  lemma StartsAreFiltered(input: Input, start: int)
    requires input.interval >= 1
    ensures start in Starts(input) <==>
              && start in Timeline(input.zone, input.startDate, input.endDate, input.shifts, input.interval)
              && input.zone.localDate(start) !in input.blackouts
              && (input.lead.Some? ==> start >= input.now + input.lead.value * MINUTE)
  {
  }

  /** The offered slots are the unpaced ones, in some order, some of them closed by the pacing limit. */
  lemma PacedFromUnpaced(input: Input, rule: Rule, starts: seq<int>, p: PacedSlot)
    requires p in Paced(Unpaced(input, rule, starts), RuleLimit(input.pacing), BookingStarts(input.bookings),
              HoldStarts(input.holds))
    ensures p.slot.start in starts && p.slot.duration == rule.slotLengthMinutes
    ensures p.slot.tables == FreeTables(input, rule, p.slot.start) || (p.constrained && p.slot.tables == [])
  {
    var slots, limit := Unpaced(input, rule, starts), RuleLimit(input.pacing);
    var bs, hs := BookingStarts(input.bookings), HoldStarts(input.holds);
    PacingConserves(slots, limit, bs, hs);
    var paced := if limit.max.None? then Unlimited(slots)
      else InOrder(slots, limit.windowMinutes, Usage(bs, hs, limit.windowMinutes), limit.max.value);
    assert p in multiset(paced);
    var i :| 0 <= i < |paced| && paced[i] == p;
    assert slots[i].start == starts[i];
  }

  lemma UnpacedIsPaced(input: Input, rule: Rule, starts: seq<int>, start: int) returns (p: PacedSlot)
    requires start in starts
    ensures p in Paced(Unpaced(input, rule, starts), RuleLimit(input.pacing), BookingStarts(input.bookings),
              HoldStarts(input.holds))
    ensures p.slot.start == start
  {
    var slots, limit := Unpaced(input, rule, starts), RuleLimit(input.pacing);
    var bs, hs := BookingStarts(input.bookings), HoldStarts(input.holds);
    PacingConserves(slots, limit, bs, hs);
    var paced := if limit.max.None? then Unlimited(slots)
      else InOrder(slots, limit.windowMinutes, Usage(bs, hs, limit.windowMinutes), limit.max.value);
    var i :| 0 <= i < |starts| && starts[i] == start;
    p := paced[i];
    assert p in multiset(paced);
    assert slots[i].start == start;
  }

  lemma OutputIsPaced(input: Input, o: OfferedSlot)
    requires input.interval >= 1 && o in Availability(input).slots
    ensures PickRule(input.rules, input.party).Some?
              && o.paced in PacedSlots(input, PickRule(input.rules, input.party).value)
    ensures o.end == o.paced.slot.start + o.paced.slot.duration * MINUTE
  {
  }

  /** How many bookings and holds start in a window. */
  ghost function Busy(input: Input, w: int, bucket: int): nat
    requires w != 0
  {
    |set i: nat | i < |input.bookings| && Bucketize(input.bookings[i].start, w) == bucket|
    + |set i: nat | i < |input.holds| && Bucketize(input.holds[i].start, w) == bucket|
  }

  lemma UsageIsBusy(input: Input, w: int, bucket: int)
    requires w != 0
    ensures Usage(BookingStarts(input.bookings), HoldStarts(input.holds), w)(bucket) == Busy(input, w, bucket)
  {
    var bs, hs := BookingStarts(input.bookings), HoldStarts(input.holds);
    InWindowCounts(bs, w, bucket);
    InWindowCounts(hs, w, bucket);
    assert (set i: nat | i < |bs| && Bucketize(bs[i], w) == bucket)
        == set i: nat | i < |input.bookings| && Bucketize(input.bookings[i].start, w) == bucket;
    assert (set i: nat | i < |hs| && Bucketize(hs[i], w) == bucket)
        == set i: nat | i < |input.holds| && Bucketize(input.holds[i].start, w) == bucket;
  }

  /**
   * The numbers of an offered slot: its end, the tables for the party, and what counts against the
   * limit in its window, which is every booking, every hold and every slot with free tables before it.
   */
  lemma OfferInNumbers(input: Input, o: OfferedSlot)
    requires input.interval >= 1 && o in Availability(input).slots
    ensures PickRule(input.rules, input.party).Some?
    ensures o.end == o.paced.slot.start + o.paced.slot.duration * 60_000
    ensures o.paced.slot.duration == PickRule(input.rules, input.party).value.slotLengthMinutes
    ensures o.capacityTotal == |set i: nat | i < |input.tables| && input.tables[i].capacity >= input.party|
    ensures o.paced.limit == RuleLimit(input.pacing).max
    ensures o.paced.limit.None? ==> o.paced.used == 0 && !o.paced.constrained
    ensures o.paced.limit.Some? ==>
              var starts, w := Starts(input), RuleLimit(input.pacing).windowMinutes;
              && o.paced.constrained == (o.paced.used >= o.paced.limit.value)
              && exists i: nat :: i < |starts| && starts[i] == o.paced.slot.start
                   && o.paced.used == Busy(input, w, Bucketize(starts[i], w))
                        + |OpenBefore(Unpaced(input, PickRule(input.rules, input.party).value, starts), w, i)|
  {
    OutputIsPaced(input, o);
    var rule, limit := PickRule(input.rules, input.party).value, RuleLimit(input.pacing);
    PacedFromUnpaced(input, rule, Starts(input), o.paced);
    EligibleCount(input);
    if limit.max.Some? {
      PacedIsCounted(input, Unpaced(input, rule, Starts(input)), limit, o.paced);
    }
  }

  lemma EligibleCount(input: Input)
    ensures |Eligible(input)| == |set i: nat | i < |input.tables| && input.tables[i].capacity >= input.party|
  {
    var seats := (t: Table) => t.capacity >= input.party;
    FilterCount(input.tables, seats);
    assert Places(input.tables, seats) == set i: nat | i < |input.tables| && input.tables[i].capacity >= input.party;
  }

  lemma PacedIsCounted(input: Input, slots: seq<Slot>, limit: Limit, p: PacedSlot)
    requires limit.max.Some? && limit.windowMinutes != 0
    requires p in Paced(slots, limit, BookingStarts(input.bookings), HoldStarts(input.holds))
    ensures p.limit == limit.max && p.constrained == (p.used >= limit.max.value)
    ensures exists i: nat :: i < |slots| && slots[i].start == p.slot.start
              && p.used == Busy(input, limit.windowMinutes, Bucketize(slots[i].start, limit.windowMinutes))
                             + |OpenBefore(slots, limit.windowMinutes, i)|
  {
    var w, usage := limit.windowMinutes, Usage(BookingStarts(input.bookings), HoldStarts(input.holds),
      limit.windowMinutes);
    var inOrder := InOrder(slots, w, usage, limit.max.value);
    SortedElements(inOrder, Start());
    assert p in inOrder;
    var i :| 0 <= i < |inOrder| && inOrder[i] == p;
    PacedInPlainTerms(slots, w, usage, limit.max.value, i);
    UsageIsBusy(input, w, Bucketize(slots[i].start, w));
  }

  /**
   * The engine is sound: an offered table has the seats, is on a shift's grid, not on a blackout
   * date and not sooner than the lead time, and its stay, with turn time and buffer, overlaps no
   * booking of the table and no live hold on it.
   */
  lemma OffersAreSound(input: Input, o: OfferedSlot, t: Table)
    requires input.interval >= 1 && o in Availability(input).slots && t in o.paced.slot.tables
    ensures var rule := PickRule(input.rules, input.party);
            && rule.Some? && o.paced.slot.duration == rule.value.slotLengthMinutes
            && Offerable(input, rule.value, o.paced.slot.start, t)
  {
    OutputIsPaced(input, o);
    var rule := PickRule(input.rules, input.party).value;
    PacedFromUnpaced(input, rule, Starts(input), o.paced);
    FreeTablesAreOfferable(input, rule, o.paced.slot.start, t);
  }

  /** The engine is complete: a table that may be offered is offered, unless pacing closes the slot. */
  lemma OfferableIsOffered(input: Input, rule: Rule, start: int, t: Table)
    requires input.interval >= 1 && PickRule(input.rules, input.party) == Some(rule) && Offerable(input, rule, start, t)
    ensures exists o :: o in Availability(input).slots && o.paced.slot.start == start
              && (t in o.paced.slot.tables || o.paced.constrained)
  {
    StartsAreFiltered(input, start);
    FreeTablesAreOfferable(input, rule, start, t);
    var p := UnpacedIsPaced(input, rule, Starts(input), start);
    PacedFromUnpaced(input, rule, Starts(input), p);
    assert t in Eligible(input);
    var paced := PacedSlots(input, rule);
    var i :| 0 <= i < |paced| && paced[i] == p;
    var o := Format(paced, |Eligible(input)|)[i];
    assert o in Availability(input).slots;
  }

  // ---------- booking what is offered ----------

  /** No two bookings keep table `t` at the same time. */
  ghost predicate Apart(rules: seq<Rule>, byDefault: Rule, turnTime: int, bookings: seq<Booking>, t: nat) {
    forall i, j :: 0 <= i < j < |bookings| && t in bookings[i].tables && t in bookings[j].tables ==>
      !Overlaps(BlockOf(rules, byDefault, turnTime, bookings[i]), BlockOf(rules, byDefault, turnTime, bookings[j]))
  }

  /** Whatever rule stands in for a missing one. */
  ghost predicate AlwaysApart(rules: seq<Rule>, turnTime: int, bookings: seq<Booking>, t: nat) {
    forall byDefault :: Apart(rules, byDefault, turnTime, bookings, t)
  }

  ghost predicate AllCovered(rules: seq<Rule>, bookings: seq<Booking>) {
    forall b :: b in bookings ==> PickRule(rules, b.party).Some?
  }

  /** One visit to the engine, at whatever time and for whatever date and party, and a booking of what it offers. */
  ghost predicate Books(rules: seq<Rule>, turnTime: int, before: seq<Booking>, after: seq<Booking>) {
    exists input, o, t :: BooksOffer(rules, turnTime, before, after, input, o, t)
  }

  ghost predicate BooksOffer(
      rules: seq<Rule>, turnTime: int, before: seq<Booking>, after: seq<Booking>, input: Input, o: OfferedSlot,
      t: Table) {
    && input.interval >= 1 && input.rules == rules && input.turnTime == turnTime && input.bookings == before
    && o in Availability(input).slots && t in o.paced.slot.tables
    && after == before + [Booking([t.id], o.paced.slot.start, o.paced.slot.duration, input.party)]
  }

  lemma BookingKeepsApart(
      rules: seq<Rule>, turnTime: int, before: seq<Booking>, after: seq<Booking>, input: Input, o: OfferedSlot,
      t: Table, u: nat)
    requires BooksOffer(rules, turnTime, before, after, input, o, t)
    requires AllCovered(rules, before) && AlwaysApart(rules, turnTime, before, u)
    ensures AllCovered(rules, after) && AlwaysApart(rules, turnTime, after, u)
  {
    OffersAreSound(input, o, t);
    var rule := PickRule(rules, input.party).value;
    var booking := Booking([t.id], o.paced.slot.start, o.paced.slot.duration, input.party);
    forall byDefault ensures Apart(rules, byDefault, turnTime, after, u) {
      assert Apart(rules, byDefault, turnTime, before, u);
      assert BlockOf(rules, byDefault, turnTime, booking) == Stay(rule, turnTime, o.paced.slot.start);
      forall b | b in before && u in b.tables && u in booking.tables
        ensures !Overlaps(BlockOf(rules, byDefault, turnTime, b), BlockOf(rules, byDefault, turnTime, booking))
      {
        assert BlockOf(rules, byDefault, turnTime, b) == BlockOf(rules, rule, turnTime, b);
      }
      OneMoreApart(rules, byDefault, turnTime, before, booking, u);
    }
  }

  lemma OneMoreApart(rules: seq<Rule>, byDefault: Rule, turnTime: int, before: seq<Booking>, booking: Booking, u: nat)
    requires Apart(rules, byDefault, turnTime, before, u)
    requires forall b :: b in before && u in b.tables && u in booking.tables ==>
               !Overlaps(BlockOf(rules, byDefault, turnTime, b), BlockOf(rules, byDefault, turnTime, booking))
    ensures Apart(rules, byDefault, turnTime, before + [booking], u)
  {
  }

  /** However many offers are booked one after the other, no table is ever promised twice at a time. */
  lemma {:induction false} BookingRunsStayApart(rules: seq<Rule>, turnTime: int, history: seq<seq<Booking>>, u: nat)
    requires history != [] && AllCovered(rules, history[0]) && AlwaysApart(rules, turnTime, history[0], u)
    requires forall i :: 0 <= i < |history| - 1 ==> Books(rules, turnTime, history[i], history[i + 1])
    ensures AllCovered(rules, history[|history| - 1]) && AlwaysApart(rules, turnTime, history[|history| - 1], u)
  {
    var n := |history| - 1;
    if n > 0 {
      BookingRunsStayApart(rules, turnTime, history[..n], u);
      assert Books(rules, turnTime, history[n - 1], history[n - 1 + 1]);
      var input, o, t :| BooksOffer(rules, turnTime, history[n - 1], history[n], input, o, t);
      BookingKeepsApart(rules, turnTime, history[n - 1], history[n], input, o, t, u);
    }
  }

  // ---------- why every party must be covered ----------

  /** Queries under any two of the venue's rules see the booking for the same time. */
  ghost predicate FixedBlock(rules: seq<Rule>, turnTime: int, b: Booking) {
    forall p, q :: p in rules && q in rules ==> BlockOf(rules, p, turnTime, b) == BlockOf(rules, q, turnTime, b)
  }

  ghost predicate OneBuffer(rules: seq<Rule>) {
    forall p, q :: p in rules && q in rules ==> p.bufferMinutes == q.bufferMinutes
  }

  /** The time of a booking does not depend on the query exactly if a rule covers its party, or all buffers agree. */
  lemma BlockIsFixed(rules: seq<Rule>, turnTime: int, b: Booking)
    ensures FixedBlock(rules, turnTime, b) <==> PickRule(rules, b.party).Some? || OneBuffer(rules)
  {
    if FixedBlock(rules, turnTime, b) && PickRule(rules, b.party).None? {
      forall p, q | p in rules && q in rules ensures p.bufferMinutes == q.bufferMinutes {
        assert BlockOf(rules, p, turnTime, b).end == BlockOf(rules, q, turnTime, b).end;
      }
    }
  }

  /**
   * A booking for a party that no rule covers is never safely apart from a later one on its table,
   * however late that is: some rule standing in for the missing one makes them overlap.
   */
  lemma UncoveredIsNeverApart(rules: seq<Rule>, turnTime: int, b: Booking, next: Booking, t: nat)
    requires PickRule(rules, b.party).None? && PickRule(rules, next.party).Some?
    requires t in b.tables && t in next.tables && b.start <= next.start
    requires next.duration + turnTime + PickRule(rules, next.party).value.bufferMinutes > 0
    ensures !AlwaysApart(rules, turnTime, [b, next], t)
  {
    var long := Rule(0, 0, 0, next.start - b.start + 1 - b.duration - turnTime);
    var both := [b, next];
    assert BlockOf(rules, long, turnTime, b).end > next.start;
    assert both[0] == b && both[1] == next;
    assert !Apart(rules, long, turnTime, both, t);
  }

  /**
   * A concrete case: a party that no rule applies to has no time of its own, and two queries of the
   * venue disagree on whether its booking is in the way of the same stay.
   */
  lemma UncoveredPartyDependsOnTheQuery(rules: seq<Rule>, b: Booking, next: Booking)
    requires rules == [Rule(1, 2, 60, 0), Rule(3, 4, 60, 30)]
    requires b == Booking([1], 0, 60, 9) && next == Booking([1], 60 * MINUTE, 60, 2)
    ensures !AllCovered(rules, [b])
    ensures Apart(rules, rules[0], 0, [b, next], 1) && !Apart(rules, rules[1], 0, [b, next], 1)
  {
    assert b in [b];
    PickIsBest(rules, b.party);
    PickIsBest(rules, next.party);
    var bs := [b, next];
    assert BlockOf(rules, rules[0], 0, b) == Block(0, 60 * MINUTE);
    assert BlockOf(rules, rules[1], 0, b) == Block(0, 90 * MINUTE);
    assert 1 in bs[0].tables && 1 in bs[1].tables;
    assert Overlaps(BlockOf(rules, rules[1], 0, bs[0]), BlockOf(rules, rules[1], 0, bs[1])) by {
      assert Applies(rules[0], 2) && !Applies(rules[1], 2);
    }
    assert !Overlaps(BlockOf(rules, rules[0], 0, bs[0]), BlockOf(rules, rules[0], 0, bs[1]));
  }
}
