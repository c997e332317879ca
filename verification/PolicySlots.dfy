/** apps/api/src/availability/policy.service.ts: the slots a venue's shifts give a calendar day. */
module PolicySlots {
  import opened Common
  import opened Sorting
  import opened Shifts

  /** Days are counted from 1970-01-01, instants in milliseconds. */
  datatype PolicySlot = PolicySlot(shift: nat, start: int, end: int)

  /**
   * A time zone: `at` is the instant of a local date and time (with the disambiguation
   * "compatible"), `wall` the local date and time of an instant.
   */
  datatype TemporalZone = TemporalZone(at: (int, int) -> int, wall: int -> (int, int))

  datatype Occurrence = Occurrence(shift: Shift, startDate: int)

  const MINUTE := 60_000

  function DayStart(z: TemporalZone, day: int): int {
    z.at(day, 0)
  }

  /** One day is added to the local reading of the day's start. */
  function DayEnd(z: TemporalZone, day: int): int {
    var (date, time) := z.wall(DayStart(z, day));
    z.at(date + 1, time)
  }

  // ---------- determineRelevantShifts ----------

  /** 0 is Sunday; day 0 was a Thursday. */
  function Weekday(day: int): int {
    (day + 4) % 7
  }

  function RelevantPart(shift: Shift, day: int): seq<Occurrence> {
    var weekday := Weekday(day);
    var previous := (weekday + 6) % 7;
    if !shift.isActive then []
    else if shift.dow == weekday then [Occurrence(shift, day)]
    else if shift.dow == previous && WrapsOvernight(shift) then [Occurrence(shift, day - 1)]
    else []
  }

  function Relevant(shifts: seq<Shift>, day: int): (r: seq<Occurrence>)
    ensures forall o :: o in r <==> exists s :: s in shifts && o in RelevantPart(s, day)
  {
    if shifts == [] then []
    else
      var last := shifts[|shifts| - 1];
      assert shifts == shifts[..|shifts| - 1] + [last];
      assert forall s :: s in shifts <==> s in shifts[..|shifts| - 1] || s == last;
      Relevant(shifts[..|shifts| - 1], day) + RelevantPart(last, day)
  }

  method DetermineRelevantShifts(shifts: seq<Shift>, day: int) returns (relevant: seq<Occurrence>)
    ensures relevant == Relevant(shifts, day)
  {
    var weekday := Weekday(day);
    var previous := (weekday + 6) % 7;
    relevant := [];
    var i := 0;
    while i < |shifts|
      invariant 0 <= i <= |shifts|
      invariant relevant == Relevant(shifts[..i], day)
    {
      var shift := shifts[i];
      assert shifts[..i + 1][..i] == shifts[..i];
      i := i + 1;
      if !shift.isActive {
        continue;
      }
      if shift.dow == weekday {
        relevant := relevant + [Occurrence(shift, day)];
        continue;
      }
      if shift.dow == previous && WrapsOvernight(shift) {
        relevant := relevant + [Occurrence(shift, day - 1)];
      }
    }
    assert shifts[..i] == shifts;
  }

  /** The clock minutes of an occurrence, counted from 1970-01-01 00:00. */
  function ClockStart(o: Occurrence): int {
    o.startDate * 1440 + o.shift.startsAt
  }

  function ClockEnd(o: Occurrence): int {
    o.startDate * 1440 + o.shift.endsAt + if WrapsOvernight(o.shift) then 1440 else 0
  }

  /**
   * No occurrence of an active shift is missed: whatever date it starts on, if its clock hours
   * reach into the day it is relevant. And whatever is relevant does start on its own weekday,
   * on the day or the day before.
   */
  lemma RelevantIsComplete(shifts: seq<Shift>, day: int, o: Occurrence)
    requires o.shift.startsAt < 1440 && o.shift.endsAt < 1440
    ensures o in Relevant(shifts, day) ==>
              && o.shift in shifts && o.shift.isActive && Weekday(o.startDate) == o.shift.dow
              && (o.startDate == day || (o.startDate == day - 1 && WrapsOvernight(o.shift)))
    ensures o.shift in shifts && o.shift.isActive && Weekday(o.startDate) == o.shift.dow
            && ClockStart(o) < (day + 1) * 1440 && day * 1440 < ClockEnd(o)
            ==> o in Relevant(shifts, day)
  {
  }

  // ---------- generatePolicySlots ----------

  datatype Config = Config(windowMinutes: int, beforeMinutes: int, afterMinutes: int)

  function ShiftStart(z: TemporalZone, o: Occurrence): int {
    z.at(o.startDate, o.shift.startsAt)
  }

  function ShiftEnd(z: TemporalZone, o: Occurrence): int {
    z.at(if WrapsOvernight(o.shift) then o.startDate + 1 else o.startDate, o.shift.endsAt)
  }

  /** The shift clipped to the day, shrunk by the buffers, and kept inside the day. */
  function WindowStart(z: TemporalZone, day: int, c: Config, o: Occurrence): int {
    Max(DayStart(z, day), Max(DayStart(z, day), ShiftStart(z, o)) + c.beforeMinutes * MINUTE)
  }

  function WindowEnd(z: TemporalZone, day: int, c: Config, o: Occurrence): int {
    Min(DayEnd(z, day), Min(DayEnd(z, day), ShiftEnd(z, o)) - c.afterMinutes * MINUTE)
  }

  /** How many whole windows of length `w` fit. */
  function Fitting(from: int, end: int, w: int): nat
    requires w > 0
  {
    if end <= from then 0 else (end - from) / w
  }

  function BackToBack(shift: nat, from: int, w: int, n: nat): (r: seq<PolicySlot>)
    ensures |r| == n
    decreases n
  {
    if n == 0 then [] else BackToBack(shift, from, w, n - 1) + [PolicySlot(shift, from + (n - 1) * w, from + n * w)]
  }

  function ShiftSlots(z: TemporalZone, day: int, c: Config, o: Occurrence): seq<PolicySlot>
    requires c.windowMinutes > 0
  {
    var from, w := WindowStart(z, day, c, o), c.windowMinutes * MINUTE;
    BackToBack(o.shift.id, from, w, Fitting(from, WindowEnd(z, day, c, o), w))
  }

  function AllSlots(z: TemporalZone, day: int, c: Config, os: seq<Occurrence>): seq<PolicySlot>
    requires c.windowMinutes > 0
  {
    if os == [] then [] else AllSlots(z, day, c, os[..|os| - 1]) + ShiftSlots(z, day, c, os[|os| - 1])
  }

  function Slots(z: TemporalZone, day: int, shifts: seq<Shift>, c: Config): seq<PolicySlot> {
    if c.windowMinutes <= 0 then []
    else Sort(AllSlots(z, day, c, Relevant(shifts, day)), (s: PolicySlot) => s.start)
  }

  method GeneratePolicySlots(z: TemporalZone, day: int, shifts: seq<Shift>, c: Config) returns (sorted: seq<PolicySlot>)
    ensures sorted == Slots(z, day, shifts, c)
  {
    if c.windowMinutes <= 0 {
      return [];
    }
    var relevant := DetermineRelevantShifts(shifts, day);
    var slots: seq<PolicySlot> := [];
    var i := 0;
    while i < |relevant|
      invariant 0 <= i <= |relevant|
      invariant slots == AllSlots(z, day, c, relevant[..i])
    {
      assert relevant[..i + 1][..i] == relevant[..i];
      var own := SlotsOf(z, day, c, relevant[i]);
      slots := slots + own;
      i := i + 1;
    }
    assert relevant[..i] == relevant;
    sorted := Sort(slots, (s: PolicySlot) => s.start);
  }

  /** The body of the loop over the relevant shifts. */
  method SlotsOf(z: TemporalZone, day: int, c: Config, o: Occurrence) returns (own: seq<PolicySlot>)
    requires c.windowMinutes > 0
    ensures own == ShiftSlots(z, day, c, o)
  {
    var dayStart, dayEnd := DayStart(z, day), DayEnd(z, day);
    var start, rawEnd := ShiftStart(z, o), ShiftEnd(z, o);
    var clippedStart := if start < dayStart then dayStart else start;
    var clippedEnd := if rawEnd > dayEnd then dayEnd else rawEnd;
    var windowStart := clippedStart + c.beforeMinutes * MINUTE;
    var windowEnd := clippedEnd - c.afterMinutes * MINUTE;
    if windowStart < dayStart {
      windowStart := dayStart;
    }
    if windowEnd < dayStart || windowEnd <= windowStart {
      return [];
    }
    if windowEnd > dayEnd {
      windowEnd := dayEnd;
    }
    own := FillWindow(o.shift.id, windowStart, windowEnd, c.windowMinutes * MINUTE);
  }

  /** The inner loop. */
  method FillWindow(shift: nat, windowStart: int, windowEnd: int, w: int) returns (slots: seq<PolicySlot>)
    requires w > 0
    ensures slots == BackToBack(shift, windowStart, w, Fitting(windowStart, windowEnd, w))
  {
    slots := [];
    var current := windowStart;
    ghost var n: nat := 0;
    while current < windowEnd
      invariant current == windowStart + n * w
      invariant slots == BackToBack(shift, windowStart, w, n)
      invariant n <= Fitting(windowStart, windowEnd, w)
      decreases windowEnd - current
    {
      var next := current + w;
      assert next == windowStart + (n + 1) * w;
      FitsIff(windowStart, windowEnd, w, n + 1);
      if next > windowEnd {
        break;
      }
      slots := slots + [PolicySlot(shift, current, next)];
      current := next;
      n := n + 1;
    }
    FitsIff(windowStart, windowEnd, w, n + 1);
  }

  /** The number of fitting windows is the largest that does not reach beyond the end. */
  lemma FitsIff(from: int, end: int, w: int, n: nat)
    requires w > 0 && n > 0
    ensures n <= Fitting(from, end, w) <==> from + n * w <= end
  {
    var q := Fitting(from, end, w);
    TimesGrows(w, 1, n);
    if end > from {
      Divides(end - from, w, q);
      if n <= q {
        TimesGrows(w, n, q);
      } else {
        TimesGrows(w, q + 1, n);
      }
    }
  }

  lemma Divides(x: int, w: int, q: int)
    requires w > 0 && q == x / w
    ensures q * w <= x < (q + 1) * w
  {
  }

  lemma TimesGrows(w: int, m: int, n: int)
    requires w > 0 && m <= n
    ensures m * w <= n * w
  {
  }

  // ---------- what the slots are ----------

  lemma {:induction false} BackToBackAt(shift: nat, from: int, w: int, n: nat, k: nat)
    requires k < n
    ensures BackToBack(shift, from, w, n)[k] == PolicySlot(shift, from + k * w, from + (k + 1) * w)
    decreases n
  {
    if k < n - 1 {
      BackToBackAt(shift, from, w, n - 1, k);
    }
  }

  /**
   * A relevant shift contributes the whole windows that fit, back to back from the start of its
   * clipped and shrunk hours, and what is left at the end is too short for one more.
   */
  lemma ShiftSlotsAreExact(z: TemporalZone, day: int, c: Config, o: Occurrence)
    requires c.windowMinutes > 0
    ensures var r, from, end, w :=
              ShiftSlots(z, day, c, o), WindowStart(z, day, c, o), WindowEnd(z, day, c, o), c.windowMinutes * MINUTE;
            && |r| == Fitting(from, end, w)
            && (r != [] ==> r[0].start == from && end - w < r[|r| - 1].end <= end)
            && (r == [] ==> end - from < w)
            && (forall k :: 0 <= k < |r| ==>
              r[k].shift == o.shift.id && from <= r[k].start && r[k].end == r[k].start + w <= end)
            && forall k :: 0 <= k < |r| - 1 ==> r[k].end == r[k + 1].start
  {
    var r, from, end, w :=
      ShiftSlots(z, day, c, o), WindowStart(z, day, c, o), WindowEnd(z, day, c, o), c.windowMinutes * MINUTE;
    forall k | 0 <= k < |r|
      ensures r[k] == PolicySlot(o.shift.id, from + k * w, from + (k + 1) * w) && from <= r[k].start
                && r[k].end == r[k].start + w <= end
    {
      BackToBackAt(o.shift.id, from, w, |r|, k);
      FitsIff(from, end, w, k + 1);
      TimesGrows(w, 0, k);
      assert (k + 1) * w == k * w + w;
    }
    FitsIff(from, end, w, |r| + 1);
    assert (|r| + 1) * w == |r| * w + w;
  }

  /** Where the first slot starts: in the day, and the first buffer after the shift, or the day, begins. */
  ghost function Opening(z: TemporalZone, day: int, c: Config, o: Occurrence): int {
    var dayStart, open := z.at(day, 0), z.at(o.startDate, o.shift.startsAt);
    Max(dayStart, Max(dayStart + c.beforeMinutes * 60_000, open + c.beforeMinutes * 60_000))
  }

  /** Where the last slot must have ended: in the day, and the second buffer before the shift, or the day, ends. */
  ghost function Closing(z: TemporalZone, day: int, c: Config, o: Occurrence): int {
    var (date, time) := z.wall(z.at(day, 0));
    var dayEnd := z.at(date + 1, time);
    var close := z.at(if o.shift.endsAt <= o.shift.startsAt then o.startDate + 1 else o.startDate, o.shift.endsAt);
    Min(dayEnd, Min(dayEnd - c.afterMinutes * 60_000, close - c.afterMinutes * 60_000))
  }

  lemma HoursArePlain(z: TemporalZone, day: int, c: Config, o: Occurrence)
    ensures WindowStart(z, day, c, o) == Opening(z, day, c, o) && WindowEnd(z, day, c, o) == Closing(z, day, c, o)
  {
  }

  /** The slots of a shift are all the windows on the grid from its opening that end by its closing. */
  lemma ShiftSlotsInPlainTerms(z: TemporalZone, day: int, c: Config, o: Occurrence, s: PolicySlot)
    requires c.windowMinutes > 0
    ensures var w := c.windowMinutes * 60_000;
            s in ShiftSlots(z, day, c, o) <==>
              && s.shift == o.shift.id && s.end == s.start + w
              && Opening(z, day, c, o) <= s.start && s.end <= Closing(z, day, c, o)
              && (s.start - Opening(z, day, c, o)) % w == 0
  {
    HoursArePlain(z, day, c, o);
    var w := c.windowMinutes * 60_000;
    BackToBackIsTheGrid(o.shift.id, Opening(z, day, c, o), Closing(z, day, c, o), w, ShiftSlots(z, day, c, o), s);
  }

  lemma BackToBackIsTheGrid(
      shift: nat, from: int, end: int, w: int, own: seq<PolicySlot>, s: PolicySlot)
    requires w > 0 && own == BackToBack(shift, from, w, Fitting(from, end, w))
    ensures s in own <==>
              s.shift == shift && s.end == s.start + w && from <= s.start && s.end <= end && (s.start - from) % w == 0
  {
    if s in own {
      var k :| 0 <= k < |own| && own[k] == s;
      OnTheGrid(shift, from, end, w, k, own);
    }
    if s.shift == shift && s.end == s.start + w && from <= s.start && s.end <= end && (s.start - from) % w == 0 {
      var k := WholeSteps(s.start - from, w);
      WindowFits(shift, from, end, w, k, own);
    }
  }

  lemma OnTheGrid(shift: nat, from: int, end: int, w: int, k: nat, own: seq<PolicySlot>)
    requires w > 0 && own == BackToBack(shift, from, w, Fitting(from, end, w)) && k < |own|
    ensures var s := own[k];
            s.shift == shift && s.end == s.start + w && from <= s.start && s.end <= end && (s.start - from) % w == 0
  {
    BackToBackAt(shift, from, w, |own|, k);
    FitsIff(from, end, w, k + 1);
    TimesGrows(w, 0, k);
    assert (k + 1) * w == k * w + w;
    DivMod(k * w, w, k, 0);
  }

  function WholeSteps(x: int, w: int): (k: nat)
    requires w > 0 && x >= 0 && x % w == 0
    ensures x == k * w
  {
    x / w
  }

  /** Both buffers are kept: the first after the shift starts, the second before it ends. */
  lemma BuffersAreKept(z: TemporalZone, day: int, c: Config, o: Occurrence, s: PolicySlot)
    requires c.windowMinutes > 0 && s in ShiftSlots(z, day, c, o)
    ensures z.at(o.startDate, o.shift.startsAt) + c.beforeMinutes * 60_000 <= s.start
    ensures s.end + c.afterMinutes * 60_000
         <= z.at(if o.shift.endsAt <= o.shift.startsAt then o.startDate + 1 else o.startDate, o.shift.endsAt)
  {
    ShiftSlotsInPlainTerms(z, day, c, o, s);
  }

  /** Day 0, 1 January 1970, was a Thursday, and the weekdays follow each other round. */
  lemma WeekdaysGoRound(day: int)
    ensures Weekday(0) == 4
    ensures 0 <= Weekday(day) < 7 && Weekday(day + 1) == if Weekday(day) == 6 then 0 else Weekday(day) + 1
  {
  }

  lemma {:induction false} AllSlotsAreTheShifts(z: TemporalZone, day: int, c: Config, os: seq<Occurrence>)
    requires c.windowMinutes > 0
    ensures forall s :: s in AllSlots(z, day, c, os) <==> exists o :: o in os && s in ShiftSlots(z, day, c, o)
  {
    if os != [] {
      var init, last := os[..|os| - 1], os[|os| - 1];
      AllSlotsAreTheShifts(z, day, c, init);
      assert os == init + [last];
      assert forall o :: o in os <==> o in init || o == last;
    }
  }

  /**
   * The day's slots are those of its relevant shifts, each as often as it is contributed, in the
   * order of their starts, and none leaves the day or the hours of its shift.
   */
  lemma SlotsAreExact(z: TemporalZone, day: int, shifts: seq<Shift>, c: Config)
    requires c.windowMinutes > 0
    ensures var r := Slots(z, day, shifts, c);
            && SortedBy(r, (s: PolicySlot) => s.start)
            && multiset(r) == multiset(AllSlots(z, day, c, Relevant(shifts, day)))
            && (forall s :: s in r <==> exists o :: o in Relevant(shifts, day) && s in ShiftSlots(z, day, c, o))
            && forall s :: s in r ==>
              DayStart(z, day) <= s.start < s.end <= DayEnd(z, day) && s.end - s.start == c.windowMinutes * MINUTE
  {
    var os := Relevant(shifts, day);
    var all := AllSlots(z, day, c, os);
    AllSlotsAreTheShifts(z, day, c, os);
    SortedElements(all, (s: PolicySlot) => s.start);
    forall s | s in all
      ensures DayStart(z, day) <= s.start < s.end <= DayEnd(z, day) && s.end - s.start == c.windowMinutes * MINUTE
    {
      var o :| o in os && s in ShiftSlots(z, day, c, o);
      ShiftSlotInDay(z, day, c, o, s);
    }
  }

  // ---------- each slot once per shift ----------

  /** The shift, on a date it runs on, gives the slot to the day. */
  ghost predicate Contributes(z: TemporalZone, day: int, c: Config, shift: Shift, s: PolicySlot)
    requires c.windowMinutes > 0
  {
    exists date :: RunsInto(shift, day, date) && s in ShiftSlots(z, day, c, Occurrence(shift, date))
  }

  ghost function Contributing(z: TemporalZone, day: int, c: Config, s: PolicySlot): Shift -> bool
    requires c.windowMinutes > 0
  {
    (shift: Shift) => Contributes(z, day, c, shift, s)
  }

  lemma ShiftSlotsDiffer(z: TemporalZone, day: int, c: Config, o: Occurrence)
    requires c.windowMinutes > 0
    ensures Distinct(ShiftSlots(z, day, c, o))
  {
    var r, from, w := ShiftSlots(z, day, c, o), WindowStart(z, day, c, o), c.windowMinutes * MINUTE;
    forall i, j | 0 <= i < j < |r| ensures r[i] != r[j] {
      BackToBackAt(o.shift.id, from, w, |r|, i);
      BackToBackAt(o.shift.id, from, w, |r|, j);
      TimesGrows(w, i + 1, j);
      assert (i + 1) * w == i * w + w;
    }
  }

  lemma OneShiftsSlots(z: TemporalZone, day: int, c: Config, o: Occurrence)
    requires c.windowMinutes > 0
    ensures AllSlots(z, day, c, [o]) == ShiftSlots(z, day, c, o)
  {
    assert [o][..0] == [];
  }

  lemma PartIsOn(shift: Shift, day: int, date: int)
    ensures RelevantPart(shift, day) == [Occurrence(shift, date)] <==> RunsInto(shift, day, date)
    ensures |RelevantPart(shift, day)| <= 1
    ensures RelevantPart(shift, day) != [] ==> RunsInto(shift, day, RelevantPart(shift, day)[0].startDate)
  {
    WeekdaysGoRound(day - 1);
  }

  /** On this date the shift is on, and it is the day, or the day before and the shift ends after midnight. */
  ghost predicate RunsInto(shift: Shift, day: int, date: int) {
    && shift.isActive && Weekday(date) == shift.dow
    && (date == day || (date == day - 1 && shift.endsAt <= shift.startsAt))
  }

  lemma PartGives(z: TemporalZone, day: int, c: Config, shift: Shift, s: PolicySlot)
    requires c.windowMinutes > 0
    ensures multiset(AllSlots(z, day, c, RelevantPart(shift, day)))[s] == if Contributes(z, day, c, shift, s)
              then 1 else 0
  {
    var part := RelevantPart(shift, day);
    PartIsOn(shift, day, day);
    if part != [] {
      var o := part[0];
      assert part == [o] && o.shift == shift;
      OneShiftsSlots(z, day, c, o);
      ShiftSlotsDiffer(z, day, c, o);
      CountedOnce(ShiftSlots(z, day, c, o), s);
    }
    forall date | RunsInto(shift, day, date) ensures part == [Occurrence(shift, date)] {
      PartIsOn(shift, day, date);
    }
  }

  lemma {:induction false} AllSlotsAppended(
      z: TemporalZone, day: int, c: Config, a: seq<Occurrence>, b: seq<Occurrence>)
    requires c.windowMinutes > 0
    ensures AllSlots(z, day, c, a + b) == AllSlots(z, day, c, a) + AllSlots(z, day, c, b)
  {
    if b == [] {
      assert a + b == a;
    } else {
      var init, last := b[..|b| - 1], b[|b| - 1];
      AllSlotsAppended(z, day, c, a, init);
      assert (a + b)[..|a + b| - 1] == a + init && (a + b)[|a + b| - 1] == last;
      Regroup(AllSlots(z, day, c, a), AllSlots(z, day, c, init), ShiftSlots(z, day, c, last));
    }
  }

  /** How often the slot comes out of the relevant shifts. */
  ghost function Count(z: TemporalZone, day: int, shifts: seq<Shift>, c: Config, s: PolicySlot): nat
    requires c.windowMinutes > 0
  {
    multiset(AllSlots(z, day, c, Relevant(shifts, day)))[s]
  }

  lemma {:induction false} RelevantCounts(z: TemporalZone, day: int, shifts: seq<Shift>, c: Config, s: PolicySlot)
    requires c.windowMinutes > 0
    ensures Count(z, day, shifts, c, s) == |Places(shifts, Contributing(z, day, c, s))|
  {
    if shifts == [] {
      NoShiftCounts(z, day, c, s);
    } else {
      var init, last := shifts[..|shifts| - 1], shifts[|shifts| - 1];
      RelevantCounts(z, day, init, c, s);
      OneMoreShift(z, day, init, last, c, s);
      PlacesOneMore(init, last, Contributing(z, day, c, s));
      assert shifts == init + [last];
    }
  }

  lemma NoShiftCounts(z: TemporalZone, day: int, c: Config, s: PolicySlot)
    requires c.windowMinutes > 0
    ensures Count(z, day, [], c, s) == |Places([], Contributing(z, day, c, s))| == 0
  {
    assert Places([], Contributing(z, day, c, s)) == {};
  }

  lemma OneMoreShift(z: TemporalZone, day: int, init: seq<Shift>, last: Shift, c: Config, s: PolicySlot)
    requires c.windowMinutes > 0
    ensures Count(z, day, init + [last], c, s)
         == Count(z, day, init, c, s) + if Contributes(z, day, c, last, s) then 1 else 0
  {
    var before, part := Relevant(init, day), RelevantPart(last, day);
    assert (init + [last])[..|init|] == init;
    assert Relevant(init + [last], day) == before + part;
    AllSlotsAppended(z, day, c, before, part);
    PartGives(z, day, c, last, s);
    CountAppended(AllSlots(z, day, c, before), AllSlots(z, day, c, part), s);
  }

  /** A slot comes as often as there are shifts that give it to the day. */
  lemma SlotsCount(z: TemporalZone, day: int, shifts: seq<Shift>, c: Config, s: PolicySlot)
    requires c.windowMinutes > 0
    ensures multiset(Slots(z, day, shifts, c))[s] == |set i: nat | i < |shifts| && Contributes(z, day, c, shifts[i], s)|
  {
    RelevantCounts(z, day, shifts, c, s);
    assert Places(shifts, Contributing(z, day, c, s)) == set i: nat | i < |shifts|
              && Contributes(z, day, c, shifts[i], s);
  }

  lemma ShiftSlotInDay(z: TemporalZone, day: int, c: Config, o: Occurrence, s: PolicySlot)
    requires c.windowMinutes > 0 && s in ShiftSlots(z, day, c, o)
    ensures DayStart(z, day) <= s.start < s.end <= DayEnd(z, day) && s.end - s.start == c.windowMinutes * MINUTE
  {
    ShiftSlotsAreExact(z, day, c, o);
  }

  predicate Overlap(a: PolicySlot, b: PolicySlot) {
    a.start < b.end && b.start < a.end
  }

  /** Some shifts, with their windows and buffers, give the day the slot. */
  ghost predicate Gives(z: TemporalZone, day: int, shifts: seq<Shift>, c: Config, s: PolicySlot) {
    s in Slots(z, day, shifts, c)
  }

  ghost predicate Possible(z: TemporalZone, day: int, s: PolicySlot) {
    exists shifts, c :: Gives(z, day, shifts, c, s)
  }

  ghost predicate DisjointDays(z: TemporalZone, day: int, next: int) {
    forall a, b :: Possible(z, day, a) && Possible(z, next, b) ==> !Overlap(a, b)
  }

  /** No slot of the day overlaps one of the next day, whatever the shifts, windows and buffers of each. */
  ghost predicate NeverOverlap(z: TemporalZone, day: int) {
    DisjointDays(z, day, day + 1)
  }

  /** The clock reads 23:59 where it should around the end of the day, and is set by whole minutes. */
  ghost predicate PlainClock(z: TemporalZone, day: int) {
    && DayStart(z, day) <= z.at(day, 1439) <= DayStart(z, day + 1)
    && DayEnd(z, day) <= z.at(day + 1, 1439) <= DayEnd(z, day + 1)
    && (DayStart(z, day + 1) - z.at(day, 1439)) % MINUTE == 0
    && (DayEnd(z, day) - DayStart(z, day + 1)) % MINUTE == 0
  }

  /** Slots of consecutive days never overlap if and only if the first day ends by the start of the second. */
  lemma ConsecutiveDaysApart(z: TemporalZone, day: int)
    requires PlainClock(z, day)
    ensures NeverOverlap(z, day) <==> DayEnd(z, day) <= DayStart(z, day + 1)
  {
    if DayEnd(z, day) <= DayStart(z, day + 1) {
      DaysApart(z, day);
    } else {
      SharedSlot(z, day);
    }
  }

  lemma DaysApart(z: TemporalZone, day: int)
    requires DayEnd(z, day) <= DayStart(z, day + 1)
    ensures NeverOverlap(z, day)
  {
    forall a, b | Possible(z, day, a) && Possible(z, day + 1, b) ensures !Overlap(a, b) {
      PossibleInDay(z, day, a);
      PossibleInDay(z, day + 1, b);
    }
  }

  lemma PossibleInDay(z: TemporalZone, day: int, s: PolicySlot)
    requires Possible(z, day, s)
    ensures DayStart(z, day) <= s.start < s.end <= DayEnd(z, day)
  {
    var shifts, c :| Gives(z, day, shifts, c, s);
    InsideDay(z, day, shifts, c, s);
  }

  lemma InsideDay(z: TemporalZone, day: int, shifts: seq<Shift>, c: Config, s: PolicySlot)
    requires s in Slots(z, day, shifts, c)
    ensures DayStart(z, day) <= s.start < s.end <= DayEnd(z, day)
  {
    SlotsAreExact(z, day, shifts, c);
  }

  /** A shift around the clock from 23:59, cut into minutes, gives the first minute of the second day to both. */
  lemma SharedSlot(z: TemporalZone, day: int)
    requires PlainClock(z, day) && DayEnd(z, day) > DayStart(z, day + 1)
    ensures !NeverOverlap(z, day)
  {
    var o := Occurrence(Shift(1, Weekday(day), 1439, 1439, true), day);
    var first := DayStart(z, day + 1);
    RelevantToBoth(o.shift, day, o);
    SharedBy(z, day, [o.shift], Config(1, 0, 0), o, PolicySlot(1, first, first + MINUTE));
  }

  lemma SharedBy(z: TemporalZone, day: int, shifts: seq<Shift>, c: Config, o: Occurrence, s: PolicySlot)
    requires PlainClock(z, day) && DayEnd(z, day) > DayStart(z, day + 1)
    requires o == Occurrence(Shift(1, Weekday(day), 1439, 1439, true), day) && c == Config(1, 0, 0) && o.shift in shifts
    requires o in RelevantPart(o.shift, day) && o in RelevantPart(o.shift, day + 1)
    requires s == PolicySlot(1, DayStart(z, day + 1), DayStart(z, day + 1) + MINUTE)
    ensures !NeverOverlap(z, day)
  {
    SharedToday(z, day, shifts, c, o, s);
    SharedTomorrow(z, day, shifts, c, o, s);
    NotDisjoint(z, day, day + 1, s);
  }

  lemma SharedToday(z: TemporalZone, day: int, shifts: seq<Shift>, c: Config, o: Occurrence, s: PolicySlot)
    requires PlainClock(z, day) && DayEnd(z, day) > DayStart(z, day + 1)
    requires o == Occurrence(Shift(1, Weekday(day), 1439, 1439, true), day) && c == Config(1, 0, 0) && o.shift in shifts
    requires o in RelevantPart(o.shift, day)
    requires s == PolicySlot(1, DayStart(z, day + 1), DayStart(z, day + 1) + MINUTE)
    ensures Possible(z, day, s)
  {
    SharedHours(z, day, c, o);
    MinuteIsPossible(z, day, shifts, c, o, s, z.at(day, 1439), DayEnd(z, day));
  }

  lemma SharedTomorrow(z: TemporalZone, day: int, shifts: seq<Shift>, c: Config, o: Occurrence, s: PolicySlot)
    requires PlainClock(z, day) && DayEnd(z, day) > DayStart(z, day + 1)
    requires o == Occurrence(Shift(1, Weekday(day), 1439, 1439, true), day) && c == Config(1, 0, 0) && o.shift in shifts
    requires o in RelevantPart(o.shift, day + 1)
    requires s == PolicySlot(1, DayStart(z, day + 1), DayStart(z, day + 1) + MINUTE)
    ensures Possible(z, day + 1, s)
  {
    SharedHours(z, day, c, o);
    MinuteIsPossible(z, day + 1, shifts, c, o, s, s.start, z.at(day + 1, 1439));
  }

  lemma NotDisjoint(z: TemporalZone, day: int, next: int, s: PolicySlot)
    requires Possible(z, day, s) && Possible(z, next, s) && s.start < s.end
    ensures !DisjointDays(z, day, next)
  {
    assert Overlap(s, s);
  }

  /** A whole minute within the hours of a relevant shift, on its grid, can be a slot. */
  lemma MinuteIsPossible(
    z: TemporalZone, day: int, shifts: seq<Shift>, c: Config, o: Occurrence, s: PolicySlot, from: int, end: int)
    requires c == Config(1, 0, 0) && o.shift in shifts && o in RelevantPart(o.shift, day) && s.shift == o.shift.id
    requires from == WindowStart(z, day, c, o) && end == WindowEnd(z, day, c, o)
    requires from <= s.start && (s.start - from) % MINUTE == 0 && s.end == s.start + MINUTE <= end
    ensures Possible(z, day, s)
  {
    assert o in Relevant(shifts, day);
    SlotIsPlaced(z, day, shifts, c, o, WholeMinutes(s.start - from), s);
    assert Gives(z, day, shifts, c, s);
  }

  lemma RelevantToBoth(shift: Shift, day: int, o: Occurrence)
    requires shift == Shift(1, Weekday(day), 1439, 1439, true) && o == Occurrence(shift, day)
    ensures o in RelevantPart(shift, day) && o in RelevantPart(shift, day + 1)
  {
  }

  function WholeMinutes(ms: int): (k: nat)
    requires ms >= 0 && ms % MINUTE == 0
    ensures ms == k * MINUTE
  {
    ms / MINUTE
  }

  lemma SharedHours(z: TemporalZone, day: int, c: Config, o: Occurrence)
    requires PlainClock(z, day) && DayEnd(z, day) > DayStart(z, day + 1)
    requires o == Occurrence(Shift(1, Weekday(day), 1439, 1439, true), day) && c == Config(1, 0, 0)
    ensures WindowStart(z, day, c, o) == z.at(day, 1439) && WindowEnd(z, day, c, o) == DayEnd(z, day)
    ensures WindowStart(z, day + 1, c, o) == DayStart(z, day + 1) && WindowEnd(z, day + 1, c, o) == z.at(day + 1, 1439)
    ensures DayStart(z, day + 1) + MINUTE <= DayEnd(z, day)
  {
  }

  /** Where the day has a local midnight, it ends when the next day starts. */
  ghost predicate HasMidnight(z: TemporalZone, day: int) {
    z.wall(z.at(day, 0)) == (day, 0)
  }

  lemma MidnightKeepsApart(z: TemporalZone, day: int)
    requires HasMidnight(z, day)
    ensures NeverOverlap(z, day)
  {
    assert DayEnd(z, day) == DayStart(z, day + 1);
    DaysApart(z, day);
  }

  // ---------- a day without midnight ----------

  /** Clocks that go from 24:00 of day -1 straight to 01:00 of day 0. */
  function SpringForward(): TemporalZone {
    TemporalZone((d, m) => (d * 1440 + m - if d > 0 || (d == 0 && m >= 60) then 60 else 0) * MINUTE,
         t => var m := t / MINUTE; var local := if m < 0 then m else m + 60; (local / 1440, local % 1440))
  }

  /** Day 0 then ends an hour into day 1, and a shift that runs past midnight gives both days the same slot. */
  lemma {:induction false} MissingMidnightOverlaps(shifts: seq<Shift>, c: Config)
    requires shifts == [Shift(1, 4, 1320, 120, true)] && c == Config(60, 0, 0)
    ensures !HasMidnight(SpringForward(), 0) && !NeverOverlap(SpringForward(), 0)
    ensures exists s :: s in Slots(SpringForward(), 0, shifts, c) && s in Slots(SpringForward(), 1, shifts, c)
  {
    var z, o := SpringForward(), Occurrence(shifts[0], 0);
    assert shifts[0] in shifts;
    assert o in RelevantPart(shifts[0], 0) && o in RelevantPart(shifts[0], 1);
    SpringHours(z, o, c);
    var s := PolicySlot(1, 1380 * MINUTE, 1440 * MINUTE);
    SlotIsPlaced(z, 0, shifts, c, o, 2, s);
    SlotIsPlaced(z, 1, shifts, c, o, 0, s);
    assert Gives(z, 0, shifts, c, s) && Gives(z, 1, shifts, c, s);
    NotDisjoint(z, 0, 1, s);
  }

  lemma SpringHours(z: TemporalZone, o: Occurrence, c: Config)
    requires z == SpringForward() && o == Occurrence(Shift(1, 4, 1320, 120, true), 0) && c == Config(60, 0, 0)
    ensures WindowStart(z, 0, c, o) == 1260 * MINUTE && WindowEnd(z, 0, c, o) == 1440 * MINUTE
    ensures WindowStart(z, 1, c, o) == 1380 * MINUTE && WindowEnd(z, 1, c, o) == 1500 * MINUTE
  {
  }

  /** A whole window that lies within the hours of a relevant shift is among the day's slots. */
  lemma SlotIsPlaced(z: TemporalZone, day: int, shifts: seq<Shift>, c: Config, o: Occurrence, k: nat, s: PolicySlot)
    requires c.windowMinutes > 0 && o in Relevant(shifts, day)
    requires s.shift == o.shift.id && s.start == WindowStart(z, day, c, o) + k * (c.windowMinutes * MINUTE)
    requires s.end == s.start + c.windowMinutes * MINUTE <= WindowEnd(z, day, c, o)
    ensures s in Slots(z, day, shifts, c)
  {
    var own := ShiftSlots(z, day, c, o);
    WindowFits(o.shift.id, WindowStart(z, day, c, o), WindowEnd(z, day, c, o), c.windowMinutes * MINUTE, k, own);
    assert own[k] == s;
    SlotsAreExact(z, day, shifts, c);
  }

  lemma WindowFits(shift: nat, from: int, end: int, w: int, k: nat, own: seq<PolicySlot>)
    requires w > 0 && own == BackToBack(shift, from, w, Fitting(from, end, w)) && from + k * w + w <= end
    ensures k < |own| && own[k] == PolicySlot(shift, from + k * w, from + k * w + w)
  {
    assert (k + 1) * w == k * w + w;
    FitsIff(from, end, w, k + 1);
    BackToBackAt(shift, from, w, |own|, k);
  }
}
