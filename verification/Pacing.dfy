/** apps/api/src/availability/availability.engine.ts: applyPacingRules and bucketizeTime. */
module Pacing {
  import opened Common
  import opened Sorting
  import opened Grouping

  datatype Table = Table(id: nat, capacity: int)

  /** A start time with the tables that are free for the whole stay. */
  datatype Slot = Slot(start: int, duration: int, tables: seq<Table>)

  /** `limit` is None where the source has infinity. */
  datatype PacedSlot = PacedSlot(slot: Slot, constrained: bool, used: int, limit: Option<int>)

  datatype PacingRule = PacingRule(windowMinutes: int, maxReservations: Option<int>)

  /** Division rounded down, as Math.floor rounds a quotient. */
  function FloorDiv(a: int, b: int): (q: int)
    requires b != 0
    ensures b > 0 ==> q * b <= a < (q + 1) * b
    ensures b < 0 ==> q * b >= a > (q + 1) * b
  {
    if b > 0 then a / b else if a % b == 0 then a / b else a / b - 1
  }

  /** The window of the day (in UTC minutes) an instant falls into; formatting it as HH:mm loses nothing. */
  function Bucketize(instant: int, w: int): (bucket: int)
    requires w != 0
    ensures w > 0 ==> var minute := (instant / 60_000) % 1440; bucket <= minute < bucket + w
    ensures w > 0 ==> bucket % w == 0
  {
    var totalMinutes := (instant / 60_000) % 1440;
    var q := FloorDiv(totalMinutes, w);
    assert (q + 1) * w == q * w + w;
    assert w > 0 ==> (q * w) % w == 0 by { if w > 0 { DivMod(q * w, w, q, 0); } }
    q * w
  }

  // ---------- the most restrictive rule ----------

  datatype Limit = Limit(max: Option<int>, windowMinutes: int)

  /** A rule with no maximum, or a maximum of zero, does not count. */
  predicate Limits(rule: PacingRule) {
    rule.maxReservations.Some? && rule.maxReservations.value != 0
  }

  function WindowOf(rule: PacingRule): (w: int)
    ensures w != 0
  {
    if rule.windowMinutes != 0 then rule.windowMinutes else 15
  }

  /** The least maximum, with the window of the first rule that has it. */
  ghost predicate MostRestrictive(rules: seq<PacingRule>, limit: Limit) {
    if limit.max.None? then limit.windowMinutes == 15 && forall i :: 0 <= i < |rules| ==> !Limits(rules[i])
    else exists i :: 0 <= i < |rules| && First(rules, i) && limit == Limit(rules[i].maxReservations, WindowOf(rules[i]))
  }

  ghost predicate First(rules: seq<PacingRule>, i: nat)
    requires i < |rules|
  {
    && Limits(rules[i])
    && (forall j :: 0 <= j < |rules| && Limits(rules[j]) ==>
      rules[i].maxReservations.value <= rules[j].maxReservations.value)
    && (forall j :: 0 <= j < i && Limits(rules[j]) ==> rules[i].maxReservations.value < rules[j].maxReservations.value)
  }

  function RuleLimit(rules: seq<PacingRule>): (limit: Limit)
    ensures limit.windowMinutes != 0
  {
    if rules == [] then Limit(None, 15)
    else
      Tighter(RuleLimit(rules[..|rules| - 1]), rules[|rules| - 1])
  }

  function Tighter(before: Limit, rule: PacingRule): (limit: Limit)
    ensures before.windowMinutes != 0 ==> limit.windowMinutes != 0
  {
    if Limits(rule) && (before.max.None? || rule.maxReservations.value < before.max.value)
    then Limit(rule.maxReservations, WindowOf(rule)) else before
  }

  method FindLimit(rules: seq<PacingRule>) returns (limit: Limit)
    ensures limit == RuleLimit(rules)
  {
    limit := Limit(None, 15);
    var i := 0;
    while i < |rules|
      invariant 0 <= i <= |rules|
      invariant limit == RuleLimit(rules[..i])
    {
      var rule := rules[i];
      assert rules[..i + 1][..i] == rules[..i];
      if Limits(rule) && (limit.max.None? || rule.maxReservations.value < limit.max.value) {
        limit := Limit(rule.maxReservations, WindowOf(rule));
      }
      i := i + 1;
    }
    assert rules[..i] == rules;
  }

  lemma {:induction false} LimitIsMostRestrictive(rules: seq<PacingRule>)
    ensures MostRestrictive(rules, RuleLimit(rules))
  {
    if rules != [] {
      var n := |rules| - 1;
      var init, rule := rules[..n], rules[n];
      LimitIsMostRestrictive(init);
      assert init + [rule] == rules;
      OneMoreRule(rules, init, rule, RuleLimit(init));
    }
  }

  lemma OneMoreRule(rules: seq<PacingRule>, init: seq<PacingRule>, rule: PacingRule, before: Limit)
    requires rules == init + [rule] && MostRestrictive(init, before)
    ensures MostRestrictive(rules, Tighter(before, rule))
  {
    if before.max.None? {
      assert forall i :: 0 <= i < |init| ==> init[i] == rules[i];
      if Limits(rule) { assert First(rules, |init|); }
    } else {
      var i :| 0 <= i < |init| && First(init, i) && before == Limit(init[i].maxReservations, WindowOf(init[i]));
      assert Limits(rules[i]);
      if Limits(rule) && rule.maxReservations.value < before.max.value {
        assert First(rules, |init|);
      } else {
        assert First(rules, i);
      }
    }
  }

  /** The limit without windows of its own: the least maximum that is set, or none. */
  lemma LimitInPlainTerms(rules: seq<PacingRule>)
    ensures var limit := RuleLimit(rules);
            if forall r :: r in rules ==> r.maxReservations == None || r.maxReservations == Some(0)
            then limit == Limit(None, 15)
            else
              && limit.max.Some?
              && (forall r :: r in rules && r.maxReservations.Some? && r.maxReservations.value != 0 ==>
                    limit.max.value <= r.maxReservations.value)
              && exists i :: && 0 <= i < |rules| && rules[i].maxReservations == limit.max && limit.max.value != 0
                             && limit.windowMinutes == (if rules[i].windowMinutes != 0
                               then rules[i].windowMinutes else 15)
                             && forall j :: 0 <= j < i ==> rules[j].maxReservations != limit.max
  {
    LimitIsMostRestrictive(rules);
    var limit := RuleLimit(rules);
    if limit.max.Some? {
      var i :| 0 <= i < |rules| && First(rules, i) && limit == Limit(rules[i].maxReservations, WindowOf(rules[i]));
      assert rules[i] in rules && Limits(rules[i]);
      forall j | 0 <= j < i ensures rules[j].maxReservations != limit.max {
        assert Limits(rules[j]) ==> limit.max.value < rules[j].maxReservations.value;
      }
    }
  }

  // ---------- usage ----------

  function InWindow(starts: seq<int>, w: int, bucket: int): nat
    requires w != 0
  {
    if starts == [] then 0
    else InWindow(starts[..|starts| - 1], w, bucket) + if Bucketize(starts[|starts| - 1], w) == bucket then 1 else 0
  }

  /** The starts that fall into the window. */
  lemma {:induction false} InWindowCounts(starts: seq<int>, w: int, bucket: int)
    requires w != 0
    ensures InWindow(starts, w, bucket) == |set i: nat | i < |starts| && Bucketize(starts[i], w) == bucket|
  {
    var all := set i: nat | i < |starts| && Bucketize(starts[i], w) == bucket;
    if starts == [] {
      assert all == {};
    } else {
      var n := |starts| - 1;
      var init := starts[..n];
      InWindowCounts(init, w, bucket);
      assert all == (set i: nat | i < |init| && Bucketize(init[i], w) == bucket)
                    + if Bucketize(starts[n], w) == bucket then {n} else {};
    }
  }

  method CountUsage(reservations: seq<int>, holds: seq<int>, w: int) returns (usage: map<int, nat>)
    requires w != 0
    ensures forall k :: Used(usage, k) == InWindow(reservations, w, k) + InWindow(holds, w, k)
  {
    usage := map[];
    usage := AddUsage(usage, reservations, w);
    usage := AddUsage(usage, holds, w);
  }

  function Used(usage: map<int, nat>, bucket: int): nat {
    if bucket in usage then usage[bucket] else 0
  }

  /** One of the two counting loops. */
  method AddUsage(before: map<int, nat>, starts: seq<int>, w: int) returns (usage: map<int, nat>)
    requires w != 0
    ensures forall k :: Used(usage, k) == Used(before, k) + InWindow(starts, w, k)
  {
    usage := before;
    var i := 0;
    while i < |starts|
      invariant 0 <= i <= |starts|
      invariant forall k :: Used(usage, k) == Used(before, k) + InWindow(starts[..i], w, k)
    {
      var key := Bucketize(starts[i], w);
      assert starts[..i + 1][..i] == starts[..i];
      usage := usage[key := Used(usage, key) + 1];
      i := i + 1;
    }
    assert starts[..i] == starts;
  }

  // ---------- the limit applied ----------

  predicate Open(slot: Slot) {
    slot.tables != []
  }

  function OpenSlots(slots: seq<Slot>): seq<Slot> {
    Filter(slots, (s: Slot) => Open(s))
  }

  /** A slot after `included` open slots of its window. */
  function Pace(slot: Slot, included: nat, used: nat, limit: int): PacedSlot {
    var constrained := included >= Max(0, limit - used);
    PacedSlot(if constrained then slot.(tables := []) else slot, constrained, used + included, Some(limit))
  }

  function PaceWindow(slots: seq<Slot>, used: nat, limit: int): (r: seq<PacedSlot>)
    ensures |r| == |slots|
  {
    if slots == [] then []
    else
      var before := slots[..|slots| - 1];
      PaceWindow(before, used, limit) + [Pace(slots[|slots| - 1], |OpenSlots(before)|, used, limit)]
  }

  lemma OpenOneMore(slots: seq<Slot>, i: nat)
    requires i < |slots|
    ensures OpenSlots(slots[..i + 1]) == OpenSlots(slots[..i]) + (if Open(slots[i]) then [slots[i]] else [])
  {
    assert slots[..i + 1] == slots[..i] + [slots[i]];
    FilterOneMore(slots[..i], slots[i], (s: Slot) => Open(s));
  }

  method ApplyToWindow(slots: seq<Slot>, used: nat, limit: int) returns (result: seq<PacedSlot>)
    ensures result == PaceWindow(slots, used, limit)
  {
    result := [];
    var remaining := Max(0, limit - used);
    var included := 0;
    var i := 0;
    while i < |slots|
      invariant 0 <= i <= |slots|
      invariant included == |OpenSlots(slots[..i])|
      invariant result == PaceWindow(slots[..i], used, limit)
    {
      var slot := slots[i];
      assert slots[..i + 1][..i] == slots[..i];
      OpenOneMore(slots, i);
      var constrained := included >= remaining;
      result := result
        + [PacedSlot(if constrained then slot.(tables := []) else slot, constrained, used + included, Some(limit))];
      if |slot.tables| > 0 {
        included := included + 1;
      }
      i := i + 1;
    }
    assert slots[..i] == slots;
  }

  function WindowKey(w: int): Slot -> Option<int>
    requires w != 0
  {
    (s: Slot) => Some(Bucketize(s.start, w))
  }

  function WindowPart(slots: seq<Slot>, w: int, usage: int -> nat, limit: int): int -> seq<PacedSlot>
    requires w != 0
  {
    (k: int) => PaceWindow(Members(slots, WindowKey(w), k), usage(k), limit)
  }

  /** Every slot paced where it stands: after the open slots of its window that come before it. */
  function InOrder(slots: seq<Slot>, w: int, usage: int -> nat, limit: int): (r: seq<PacedSlot>)
    requires w != 0
    ensures |r| == |slots|
  {
    if slots == [] then []
    else
      var before, last := slots[..|slots| - 1], slots[|slots| - 1];
      var k := Bucketize(last.start, w);
      InOrder(before, w, usage, limit) + [Pace(last, |OpenSlots(Members(before, WindowKey(w), k))|, usage(k), limit)]
  }

  function Start(): PacedSlot -> int {
    (p: PacedSlot) => p.slot.start
  }

  function Unlimited(slots: seq<Slot>): (r: seq<PacedSlot>)
    ensures |r| == |slots|
  {
    seq(|slots|, i requires 0 <= i < |slots| => PacedSlot(slots[i], false, 0, None))
  }

  // ---------- applyPacingRules ----------

  function Usage(reservations: seq<int>, holds: seq<int>, w: int): int -> nat
    requires w != 0
  {
    (k: int) => InWindow(reservations, w, k) + InWindow(holds, w, k)
  }

  /** What applyPacingRules returns: the slots paced where they stand, then sorted by their starts. */
  function Paced(slots: seq<Slot>, limit: Limit, reservations: seq<int>, holds: seq<int>): seq<PacedSlot>
    requires limit.windowMinutes != 0
  {
    if limit.max.None? then Unlimited(slots)
    else Sort(InOrder(slots, limit.windowMinutes, Usage(reservations, holds, limit.windowMinutes), limit.max.value),
      Start())
  }

  method ApplyPacingRules(
      slots: seq<Slot>, rules: seq<PacingRule>, reservations: seq<int>,
      holds: seq<int>) returns (sorted: seq<PacedSlot>)
    ensures sorted == Paced(slots, RuleLimit(rules), reservations, holds)
  {
    var limit := FindLimit(rules);
    if limit.max.None? {
      return Unlimited(slots);
    }
    var w := limit.windowMinutes;
    var order, windows := GroupBy(slots, WindowKey(w));
    var usage := CountUsage(reservations, holds, w);
    var result := ApplyAll(slots, w, limit.max.value, order, windows, usage, Usage(reservations, holds, w));
    WindowsSortAlike(slots, w, Usage(reservations, holds, w), limit.max.value);
    sorted := Sort(result, Start());
  }

  /** The loop over the windows. */
  method ApplyAll(
      slots: seq<Slot>, w: int, limit: int, order: seq<int>, windows: map<int, seq<Slot>>, usageMap: map<int, nat>,
                  ghost usage: int -> nat) returns (result: seq<PacedSlot>)
    requires w != 0
    requires forall k :: k in order ==> k in windows && windows[k] == Members(slots, WindowKey(w), k)
    requires forall k :: Used(usageMap, k) == usage(k)
    ensures result == Gather(order, WindowPart(slots, w, usage, limit))
  {
    result := [];
    ghost var part := WindowPart(slots, w, usage, limit);
    var i := 0;
    while i < |order|
      invariant 0 <= i <= |order|
      invariant result == Gather(order[..i], part)
    {
      var k := order[i];
      GatherOneMore(order, part, i);
      var paced := ApplyToWindow(windows[k], Used(usageMap, k), limit);
      result := result + paced;
      i := i + 1;
    }
    assert order[..i] == order;
  }

  // ---------- going through the windows one by one makes no difference ----------

  function InBucket(w: int, k: int): PacedSlot -> bool
    requires w != 0
  {
    (p: PacedSlot) => Bucketize(p.slot.start, w) == k
  }

  lemma {:induction false} PaceWindowKeepsStarts(slots: seq<Slot>, used: nat, limit: int)
    ensures forall p :: p in PaceWindow(slots, used, limit) ==> exists s :: s in slots && p.slot.start == s.start
  {
    if slots != [] {
      var init, last := slots[..|slots| - 1], slots[|slots| - 1];
      PaceWindowKeepsStarts(init, used, limit);
      assert slots == init + [last];
      assert forall s :: s in init ==> s in slots;
      assert last in slots;
    }
  }

  lemma {:induction false} InOrderByWindow(slots: seq<Slot>, w: int, usage: int -> nat, limit: int, k: int)
    requires w != 0
    ensures Filter(InOrder(slots, w, usage, limit), InBucket(w, k)) == PaceWindow(Members(slots, WindowKey(w), k),
              usage(k), limit)
  {
    if slots != [] {
      var n := |slots| - 1;
      var init, last := slots[..n], slots[n];
      InOrderByWindow(init, w, usage, limit, k);
      var b := Bucketize(last.start, w);
      var paced := Pace(last, |OpenSlots(Members(init, WindowKey(w), b))|, usage(b), limit);
      MembersOneMore(slots, w, k);
      WindowOneMore(InOrder(init, w, usage, limit), Members(init, WindowKey(w), k), w, k, usage(k), limit, last, paced);
    }
  }

  lemma WindowOneMore(
      all: seq<PacedSlot>, ms: seq<Slot>, w: int, k: int, used: nat, limit: int, last: Slot, paced: PacedSlot)
    requires w != 0 && Filter(all, InBucket(w, k)) == PaceWindow(ms, used, limit) && paced.slot.start == last.start
    requires Bucketize(last.start, w) == k ==> paced == Pace(last, |OpenSlots(ms)|, used, limit)
    ensures Filter(all + [paced], InBucket(w, k))
         == PaceWindow(ms + if Bucketize(last.start, w) == k then [last] else [], used, limit)
  {
    FilterOneMore(all, paced, InBucket(w, k));
    PaceOneMore(ms, last, used, limit);
    assert ms + [] == ms;
  }

  lemma MembersOneMore(slots: seq<Slot>, w: int, k: int)
    requires w != 0 && slots != []
    ensures var init, last := slots[..|slots| - 1], slots[|slots| - 1];
            Members(slots, WindowKey(w), k) == Members(init, WindowKey(w), k) + if Bucketize(last.start, w) == k
              then [last] else []
  {
    var n := |slots| - 1;
    OneMore(slots, WindowKey(w), n);
    assert slots[..n + 1] == slots;
  }

  lemma PaceOneMore(slots: seq<Slot>, last: Slot, used: nat, limit: int)
    ensures PaceWindow(slots + [last], used, limit) == PaceWindow(slots, used, limit)
              + [Pace(last, |OpenSlots(slots)|, used, limit)]
  {
  }

  /** Of all windows only that of `t` holds slots that start at `t`. */
  lemma {:induction false} GatheredAt(slots: seq<Slot>, w: int, usage: int -> nat, limit: int, keys: seq<int>, t: int)
    requires w != 0 && Distinct(keys)
    ensures var part, b := WindowPart(slots, w, usage, limit), Bucketize(t, w);
            Filter(Gather(keys, part), WithKey(Start(), t)) == if b in keys
              then Filter(part(b), WithKey(Start(), t)) else []
  {
    if keys != [] {
      var part, b := WindowPart(slots, w, usage, limit), Bucketize(t, w);
      var init, k := keys[..|keys| - 1], keys[|keys| - 1];
      GatheredAt(slots, w, usage, limit, init, t);
      FilterAppended(Gather(init, part), part(k), WithKey(Start(), t));
      if k != b {
        PaceWindowKeepsStarts(Members(slots, WindowKey(w), k), usage(k), limit);
        FilterNone(part(k), WithKey(Start(), t));
      }
      assert keys == init + [k];
    }
  }

  lemma WindowsSortAlike(slots: seq<Slot>, w: int, usage: int -> nat, limit: int)
    requires w != 0
    ensures Sort(Gather(Keys(slots, WindowKey(w)), WindowPart(slots, w, usage, limit)), Start())
         == Sort(InOrder(slots, w, usage, limit), Start())
  {
    var keys, part, all :=
      Keys(slots, WindowKey(w)), WindowPart(slots, w, usage, limit), InOrder(slots, w, usage, limit);
    var gathered := Gather(keys, part);
    forall t: int ensures Filter(gathered, WithKey(Start(), t)) == Filter(all, WithKey(Start(), t)) {
      SameAtStart(slots, w, usage, limit, t);
    }
    SortForgetsTheRest(gathered, all, Start());
  }

  lemma SameAtStart(slots: seq<Slot>, w: int, usage: int -> nat, limit: int, t: int)
    requires w != 0
    ensures var keys, part := Keys(slots, WindowKey(w)), WindowPart(slots, w, usage, limit);
            Filter(Gather(keys, part), WithKey(Start(), t)) == Filter(InOrder(slots, w, usage, limit),
              WithKey(Start(), t))
  {
    var b := Bucketize(t, w);
    var keys, part, all :=
      Keys(slots, WindowKey(w)), WindowPart(slots, w, usage, limit), InOrder(slots, w, usage, limit);
    GatheredAt(slots, w, usage, limit, keys, t);
    InOrderByWindow(slots, w, usage, limit, b);
    FilterBoth(all, InBucket(w, b), WithKey(Start(), t), WithKey(Start(), t));
    if b !in keys {
      NoMembers(slots, WindowKey(w), b);
    }
  }

  // ---------- what pacing keeps and what it bounds ----------

  /** The open slots of the same window that come before slot `i`. */
  ghost function Rank(slots: seq<Slot>, w: int, i: nat): nat
    requires w != 0 && i < |slots|
  {
    |OpenSlots(Members(slots[..i], WindowKey(w), Bucketize(slots[i].start, w)))|
  }

  lemma {:induction false} InOrderAt(slots: seq<Slot>, w: int, usage: int -> nat, limit: int, i: nat)
    requires w != 0 && i < |slots|
    ensures InOrder(slots, w, usage, limit)[i] == Pace(slots[i], Rank(slots, w, i),
              usage(Bucketize(slots[i].start, w)), limit)
  {
    var n := |slots| - 1;
    if i < n {
      var init := slots[..n];
      InOrderAt(init, w, usage, limit, i);
      assert init[..i] == slots[..i] && init[i] == slots[i];
    }
  }

  function OpenHere(w: int, k: int): Slot -> bool
    requires w != 0
  {
    (s: Slot) => Open(s) && Bucketize(s.start, w) == k
  }

  lemma {:induction false} OpenMembers(slots: seq<Slot>, w: int, k: int)
    requires w != 0
    ensures OpenSlots(Members(slots, WindowKey(w), k)) == Filter(slots, OpenHere(w, k))
  {
    if slots != [] {
      OpenMembers(slots[1..], w, k);
    }
  }

  lemma RankCounts(slots: seq<Slot>, w: int, i: nat)
    requires w != 0 && i < |slots|
    ensures Rank(slots, w, i) == |OpenBefore(slots, w, i)|
  {
    var k := Bucketize(slots[i].start, w);
    OpenMembers(slots[..i], w, k);
    FilterCount(slots[..i], OpenHere(w, k));
    assert Places(slots[..i], OpenHere(w, k)) == OpenBefore(slots, w, i);
  }

  /** The places of the slots with free tables in the window of slot `i`, before it. */
  ghost function OpenBefore(slots: seq<Slot>, w: int, i: nat): set<nat>
    requires w != 0 && i < |slots|
  {
    set j: nat | j < i && Bucketize(slots[j].start, w) == Bucketize(slots[i].start, w) && slots[j].tables != []
  }

  /** A slot loses its tables exactly when the limit is used up by bookings, holds and open slots before it. */
  lemma PacedInPlainTerms(slots: seq<Slot>, w: int, usage: int -> nat, limit: int, i: nat)
    requires w != 0 && i < |slots|
    ensures var p, k := InOrder(slots, w, usage, limit)[i], Bucketize(slots[i].start, w);
            && p.used == usage(k) + |OpenBefore(slots, w, i)|
            && p.limit == Some(limit) && p.constrained == (p.used >= limit)
            && p.slot.start == slots[i].start && p.slot.duration == slots[i].duration
            && p.slot.tables == if p.constrained then [] else slots[i].tables
  {
    InOrderAt(slots, w, usage, limit, i);
    RankCounts(slots, w, i);
  }

  /** No slot is lost, added or moved in time; a slot keeps all its tables or loses all of them. */
  ghost predicate SlotwiseFrom(slots: seq<Slot>, r: seq<PacedSlot>) {
    && |r| == |slots|
    && forall i :: 0 <= i < |r| ==> r[i].slot == slots[i] || (r[i].constrained && r[i].slot == slots[i].(tables := []))
  }

  lemma PacingConserves(slots: seq<Slot>, limit: Limit, reservations: seq<int>, holds: seq<int>)
    requires limit.windowMinutes != 0
    ensures var r := Paced(slots, limit, reservations, holds);
            && (limit.max.None? ==> SlotwiseFrom(slots, r))
            && (limit.max.Some? ==>
                  var paced := InOrder(slots, limit.windowMinutes, Usage(reservations, holds, limit.windowMinutes),
                    limit.max.value);
                  SortedBy(r, Start()) && multiset(r) == multiset(paced) && SlotwiseFrom(slots, paced))
  {
    if limit.max.Some? {
      var w, usage := limit.windowMinutes, Usage(reservations, holds, limit.windowMinutes);
      forall i | 0 <= i < |slots|
        ensures var p := InOrder(slots, w, usage, limit.max.value)[i];
                p.slot == slots[i] || (p.constrained && p.slot == slots[i].(tables := []))
      {
        InOrderAt(slots, w, usage, limit.max.value, i);
      }
    }
  }

  function SlotsOf(ps: seq<PacedSlot>): (r: seq<Slot>)
    ensures |r| == |ps|
  {
    seq(|ps|, i requires 0 <= i < |ps| => ps[i].slot)
  }

  function IsOpen(): PacedSlot -> bool {
    (p: PacedSlot) => Open(p.slot)
  }

  function OpenIn(w: int, k: int): PacedSlot -> bool
    requires w != 0
  {
    (p: PacedSlot) => InBucket(w, k)(p) && IsOpen()(p)
  }

  lemma {:induction false} WindowKeepsTheFirst(slots: seq<Slot>, used: nat, limit: int)
    ensures SlotsOf(Filter(PaceWindow(slots, used, limit), IsOpen()))
         == OpenSlots(slots)[..Min(Max(0, limit - used), |OpenSlots(slots)|)]
  {
    if slots != [] {
      var n := |slots| - 1;
      WindowKeepsTheFirst(slots[..n], used, limit);
      OpenOneMore(slots, n);
      assert slots[..n + 1] == slots;
      var paced := Pace(slots[n], |OpenSlots(slots[..n])|, used, limit);
      FilterOneMore(PaceWindow(slots[..n], used, limit), paced, IsOpen());
      KeptOneMore(Filter(PaceWindow(slots[..n], used, limit), IsOpen()), OpenSlots(slots[..n]), slots[n], used, limit);
    }
  }

  lemma KeptOneMore(kept: seq<PacedSlot>, open: seq<Slot>, slot: Slot, used: nat, limit: int)
    requires SlotsOf(kept) == open[..Min(Max(0, limit - used), |open|)]
    ensures var paced := Pace(slot, |open|, used, limit);
            var more := open + if Open(slot) then [slot] else [];
            SlotsOf(kept + if Open(paced.slot) then [paced] else []) == more[..Min(Max(0, limit - used), |more|)]
  {
  }

  /**
   * Of the slots of one window, exactly the first `limit - used` open ones in the order of the
   * input keep their tables, or all of them if there are fewer; the output holds no other open slot
   * of the window.
   */
  lemma PacingKeepsTheFirst(slots: seq<Slot>, limit: Limit, reservations: seq<int>, holds: seq<int>, k: int)
    requires limit.windowMinutes != 0 && limit.max.Some?
    ensures var w := limit.windowMinutes;
            var used := InWindow(reservations, w, k) + InWindow(holds, w, k);
            var candidates := OpenSlots(Members(slots, WindowKey(w), k));
            var kept := Filter(InOrder(slots, w, Usage(reservations, holds, w), limit.max.value), OpenIn(w, k));
            && SlotsOf(kept) == candidates[..Min(Max(0, limit.max.value - used), |candidates|)]
            && multiset(Filter(Paced(slots, limit, reservations, holds), OpenIn(w, k))) == multiset(kept)
  {
    var w, usage := limit.windowMinutes, Usage(reservations, holds, limit.windowMinutes);
    var paced := InOrder(slots, w, usage, limit.max.value);
    InOrderByWindow(slots, w, usage, limit.max.value, k);
    WindowKeepsTheFirst(Members(slots, WindowKey(w), k), usage(k), limit.max.value);
    FilterBoth(paced, InBucket(w, k), IsOpen(), OpenIn(w, k));
    FilterPermutes(Sort(paced, Start()), paced, OpenIn(w, k));
  }
}
