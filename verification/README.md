# Reservation platform: a verified model of its booking core

This project models the booking core of a restaurant reservation platform in Dafny and proves what
its services promise: that nobody is booked twice, that the rate limiter admits no more than it
says, that suggested tables pass the checks of the assignment, that offered times are free, that a
repeated request gets the first answer, and that calendar files can be read back.

`dafny verify dfyconfig.toml` checks everything. The files, by component:

| files | component |
|---|---|
| `Common`, `Sorting`, `Grouping` | shared vocabulary, stable sorting, grouping into a map |
| `SlotTime`, `Rows`, `Conflicts`, `Assignments` | slots and instants, database rows, the conflict check, table assignments |
| `Ledger` | every request of the booking services as a step of one state machine; waitlist offers in three interleaved steps |
| `Effects` | what each request is answered and what it changes, said of the rows alone; no two offers share a code |
| `Exclusion`, `JoinedTables`, `HoldLife`, `Offers`, `UniqueIndexes` | laws of all runs of the ledger |
| `BookingStore`, `Reception` | the services as a class that writes rows statement by statement, proved against the ledger, and the requests that reach it |
| `TokenBucket` | both rate-limit stores and the bucket they approximate |
| `Combinations`, `Seating` | the seating search and its agreement with the assignment |
| `Shifts`, `PolicySlots`, `Pacing`, `AvailabilityEngine` | slot generation, pacing and the availability pipeline |
| `Idempotency`, `Canonical` | the idempotency protocol and the form of a body that is hashed |
| `Ics` | iCalendar text escaping and line folding |

## Reading the model

* A serializable transaction is one step; a request that is refused inside one writes nothing. A
  hold found expired while a reservation is made from it is marked EXPIRED and then an error is
  thrown in the same transaction, so the mark is rolled back and the step changes nothing.
* `update`, `updateStatus` and `assignTables` read the row before their transaction; each request
  is nevertheless one step. A waitlist offer is not: its read, its hold and its compare-and-set
  are steps between which anything may happen.
* The unique indexes over venue, table, date and time are part of the steps that write a slot or a
  table: a reservation in any status, and a hold that has run out, keep their place in them. What
  the source turns into a conflict is a conflict here; the refusals of `update` and `assignTables`,
  which it does not expect, are failures.
* Slots are compared by venue, date and time, as the conflict check does. `toUtcInstant` was meant
  to respect the venue's time zone; the code adds back the offset it subtracts, and the model
  follows the code.
* Identifiers, codes, hashes and responses are numbers, since only their equality matters. A blank
  or malformed table id is `None`; a request field is absent, null, malformed or given.
* Holds remember whether an offer made them (the source writes it into `createdBy`).
* Rates, balances and costs are real numbers where the source has floating point.
* The clock never runs backwards. In the idempotency protocol it does not run past the lock of a
  request that is still between lock and release: the assumption that handlers finish in time.
* In that protocol the lookup reads a row and deletes it by key in two database accesses. The
  stronger promise, that a stored row never changes before it expires, is therefore false of the
  code; `Idempotency.FreshRowCanBeLost` reaches a state that shows it and
  `Idempotency.LastsUnlessDeletePending` says exactly when it holds. The path that is compared is
  the route's pattern where there is one.
* The source repeats no lookup once a request holds the lock, so a handler can run twice for a key.
  `Idempotency.RunsUnlessLooking` says for exactly which requests it still can.
* Likewise the disjointness of joined tables fails for one kind of update, and `JoinedTables`
  gives both the exact kind and a run.
* `slotIntervalMinutes` is taken to be at least one; with less the source's loop does not end.

## Model

| member | source | states |
|---|---|---|
| `SlotTime.ToUtcInstant` | apps/api/src/utils/time.ts:23-50 | the stored instant of a slot is the naive UTC reading of its date and time in every time zone, because the offset that is taken away is added back |
| `Conflicts.PrefilterLosesNothing` | apps/api/src/utils/booking-conflicts.ts:86-174 | the database filter on tables drops no row that the in-memory table and interval tests would keep: both collections are exactly the rows of the slot that pass those tests |
| `Conflicts.FindsExactlyTheBlockers` | apps/api/src/utils/booking-conflicts.ts:65-174 | with stored starts that agree with their slots, the check finds exactly the blocking reservations and live holds of the same slot that name a common table (or none), except that a hold ending before the slot starts is spared |
| `Conflicts.TableMatchesIsClash` | apps/api/src/utils/booking-conflicts.ts:45-63 | the table test accepts exactly two sides of which one names no table, or that name a common table |
| `Conflicts.ChecksDistribute` | apps/api/src/utils/booking-conflicts.ts:65-174 | for non-empty sets of tables the conflicts of a union are the union of the conflicts |
| `Conflicts.FreeTogether` | apps/api/src/utils/booking-conflicts.ts:65-174 | tables that are free one by one are free together |
| `Conflicts.LaterFindsFewer` | apps/api/src/utils/booking-conflicts.ts:129-174 | a later clock finds the same reservations and no more holds |
| `SlotTime.SlotsAreOrdered` | apps/api/src/utils/time.ts:23-50 | slots of the calendar start in the order of their dates and times, so no two different ones start together |
| `SlotTime.DaysFollow` | apps/api/src/utils/time.ts:23-50 | 1 January 1970 begins at 0, the next day of the calendar 24 hours later, and times of day count from there in minutes |
| `Ledger.ClampTtlSeconds` | apps/api/src/holds.service.ts:17-22 | no number gives the fallback; a number is kept between 60 and 3600 seconds, and otherwise becomes the nearer bound |
| `Ledger.HoldTtlSeconds` | apps/api/src/holds.service.ts:85-91 | a hold lives for the venue's minutes, or ten of them, unless the request says otherwise, and for 60 to 3600 seconds |
| `Ledger.ResolveDuration` | apps/api/src/reservations.service.ts:1511-1524 | the requested minutes if they are positive, else the venue's, else 120 |
| `Assignments.Normalize` | apps/api/src/utils/sync-table-assignments.ts:3-12 | the list has each named table once, and no other |
| `Assignments.NormalizeKeepsOrder` | apps/api/src/utils/sync-table-assignments.ts:3-12 | tables are listed in the order of their first occurrences: the list of a prefix is a prefix of the list |
| `Assignments.NormalizeSorted` | apps/api/src/seating.service.ts:500-511 | the list is strictly increasing and holds exactly the named tables |
| `Assignments.SyncAgrees` | apps/api/src/utils/sync-table-assignments.ts:14-43 | the rows left for a list have orders exactly 0 to n-1 on distinct tables, and the first table is the one of order 0 |
| `BookingStore.Database.SyncTableAssignments` | apps/api/src/utils/sync-table-assignments.ts:14-43 | deleting stale rows and upserting the others in order leaves the reservation with exactly the rows of the de-duplicated list, and touches no other reservation |
| `BookingStore.Database.Create` | apps/api/src/reservations.service.ts:529-662 | ends in exactly the state, and with the answer, of the ledger's create step, which refuses a taken slot and also a table that the unique index still has in it; refusals write nothing |
| `BookingStore.Database.CreateFromHold` | apps/api/src/reservations.service.ts:272-498 | the same for creating from a hold: reservation, consumed hold and converted waitlist entries together, or nothing |
| `BookingStore.Database.Update` | apps/api/src/reservations.service.ts:664-849 | the same for the update, with the check on the primary table only, assignment rows kept when no table is named, and a failure when the index refuses the row |
| `BookingStore.Database.UpdateStatus` | apps/api/src/reservations.service.ts:851-901 | the same for the status change, which no conflict check guards |
| `BookingStore.Database.Remove` | apps/api/src/reservations.service.ts:903-917 | the same for the removal |
| `BookingStore.Database.AssignTables` | apps/api/src/seating.service.ts:168-284 | the same for the seat assignment, with a failure when the index refuses the least named table |
| `BookingStore.Database.CreateHold` | apps/api/src/holds.service.ts:58-178 | the same for a new hold, refused also when any earlier hold of the slot had the table |
| `BookingStore.Database.CancelHold` | apps/api/src/holds.service.ts:220-234 | the same for a cancelled hold |
| `BookingStore.Database.GetValidHold` | apps/api/src/holds.service.ts:180-195 | returns the hold exactly when it is live, and otherwise expires it if it is still held |
| `BookingStore.Database.ListHolds` | apps/api/src/holds.service.ts:30-56 | expires the venue's stale holds and lists the rest as a set, on one date if one is given |
| `BookingStore.Database.Sweep` | apps/api/src/holds.cleanup.service.ts:64-99 | the batch loop ends; then exactly the holds stale at the last clock reading have left HELD, each counted once, and no held hold is stale |
| `BookingStore.Database.ExpireEntry` | apps/api/src/waitlist/waitlist.service.ts:209-233 | cancels the entry's hold and lapses the entry, as the ledger step does |
| `BookingStore.Database.ConvertEntry` | apps/api/src/waitlist/waitlist.service.ts:235-246 | converts the entry whatever its status, as the ledger step does |
| `BookingStore.Database.JoinWaitlist` | apps/api/src/waitlist/waitlist.service.ts:94-118 | a new entry waits, as in the ledger step |
| `BookingStore.Database.ConsumeOffer` | apps/api/src/waitlist/waitlist.service.ts:313-351 | converts an offered entry, accepts a converted one and refuses any other, as the ledger step does |
| `BookingStore.Database.ResolveOffer` | apps/api/src/waitlist/waitlist.service.ts:248-311 | the same for looking an offer up, which lapses an offer that is no longer good |
| `BookingStore.Database.AssignOffer` | apps/api/src/waitlist/waitlist.service.ts:425-472 | the retry loop is a run of at most five compare-and-set steps; it succeeds exactly when the offer ends as assigned, and otherwise it keeps no hold |
| `Effects.FreeIsUnopposed` | apps/api/src/utils/booking-conflicts.ts:65-174 | a slot is free for a table exactly when no other active reservation of the slot and no live hold that outlasts its start has the table, or no table, or the request names none |
| `Effects.CreateAccepts` | apps/api/src/reservations.service.ts:529-602 | the answer to a request to create: not found for an unknown venue, a bad request if it makes no sense, made if its place is free and not in the index, and a conflict otherwise |
| `Effects.CreateWrites` | apps/api/src/reservations.service.ts:561-602 | the new row is the one asked for, CONFIRMED unless a status is given, with at most one assignment row, and nothing else changes |
| `Effects.FromHoldAccepts` | apps/api/src/reservations.service.ts:272-424 | the same for creating from a hold, which must be live, be repeated by the request and name a table if the request names none |
| `Effects.FromHoldWrites` | apps/api/src/reservations.service.ts:354-424 | the new row is the hold's, the hold is CONSUMED and linked, exactly the entries that were offered it are CONVERTED, and nothing else changes |
| `Effects.UpdateAccepts` | apps/api/src/reservations.service.ts:664-830 | the answer to an update: done if it asks for nothing; forbidden to guests for what they may not change or too late; a bad request if malformed, against the order of statuses or for a foreign table; a conflict if its new place is taken; a failure if only the index refuses it; done otherwise |
| `Effects.UpdateChanges` | apps/api/src/reservations.service.ts:725-830 | an accepted update moves the row to the date, time, table, status, party size and duration it names, keeps each it does not name, and touches no other row |
| `Effects.UpdateStatusAccepts` | apps/api/src/reservations.service.ts:851-901 | the answer to a status change, which looks at the order of statuses and the guest's window only |
| `Effects.AssignAccepts` | apps/api/src/seating.service.ts:168-281 | the answer to an assignment: a bad request for no tables, foreign ones, ones that cannot be joined or too few seats; a conflict if one of them is taken; a failure if the index refuses the least of them; done otherwise |
| `Effects.AssignChanges` | apps/api/src/seating.service.ts:244-281 | the reservation has exactly the named tables, in ascending order, the least one as its primary, and nothing else changes |
| `Effects.CreateHoldAccepts` | apps/api/src/holds.service.ts:58-178 | the answer to a request to hold: not found, made, a failure for an unreadable date or time, and a conflict for everything else |
| `Effects.CreateHoldWrites` | apps/api/src/holds.service.ts:85-149 | the new hold is HELD for the slot, table and party asked for, until its time to live is over, and nothing else changes |
| `Effects.ExpireEffect` | apps/api/src/waitlist/waitlist.service.ts:209-233 | the entry lapses without code, token and hold, and its hold is EXPIRED if it was HELD |
| `Effects.ResolveEffect` | apps/api/src/waitlist/waitlist.service.ts:248-311 | an offer is good exactly when code and token are the entry's, it is OFFERED, its time has not come and its hold is live; otherwise it is not found, or gone and given up with its hold |
| `Effects.ConsumeEffect` | apps/api/src/waitlist/waitlist.service.ts:313-351 | with the right code and token an offered entry is converted, a converted one accepted and any other gone |
| `Effects.OfferHoldEffect` | apps/api/src/waitlist/waitlist.service.ts:166-207 | an offer holds the chosen table for its entry's venue and party, or ends without a trace |
| `Effects.OfferAssignEffect` | apps/api/src/waitlist/waitlist.service.ts:425-472 | a turn succeeds exactly when the entry still waits and the code is nobody's; the entry then has this code and this token and the hold's expiry; a taken code is tried again up to five times, and otherwise the hold is given back |
| `Effects.OfferedCanBeResolved` | apps/api/src/waitlist/waitlist.service.ts:248-311 | the code and token of a successful turn open the offer exactly as long as its hold is held and has not run out |
| `Effects.CodesAreUnique` | prisma/schema.prisma:315 | in every run no two entries share an offer code |
| `Reception.OnReservations` | apps/api/src/reservations.service.ts:529-917 | whatever request comes in, a database that keeps all laws of this model (exclusion, unique indexes, offer ownership) keeps them |
| `Reception.OnHolds` | apps/api/src/holds.service.ts:30-234 | the same for requests about holds |
| `Reception.OnWaitlists` | apps/api/src/waitlist/waitlist.service.ts:94-351 | the same for requests about the waitlist |
| `Reception.OnOffers` | apps/api/src/waitlist/waitlist.service.ts:425-472 | the same for the rest of an offer, from its hold on |
| `Reception.OnTimer` | apps/api/src/holds.cleanup.service.ts:64-99 | the same for the sweep |
| `UniqueIndexes.IndexesHoldInRuns` | prisma/schema.prisma:248 | in every run a table is the primary of at most one reservation of a slot, of whatever status, and is held there at most once ever, although updates of a status or a party do not look at the indexes |
| `UniqueIndexes.FreeTableIsBookable` | apps/api/src/reservations.service.ts:557-662 | for a table that nothing blocks or holds in its slot, a reservation is refused if and only if a completed or cancelled one once had it there |
| `UniqueIndexes.SuggestedCanBeRefused` | apps/api/src/seating.service.ts:91-281 | a reachable state in which a suggested table is refused: it was booked and cancelled, and the slot was booked again without a table |
| `Exclusion.NoDoubleBooking` | apps/api/src/reservations.service.ts:557-602 | in every run: blocking reservations of one slot have different non-null primary tables, a live hold and a matching blocking reservation meet only if the hold ends by the start, of two matching live holds the earlier ends by the start, and every reservation's rows agree with its primary table |
| `Exclusion.StepKeepsInv` | apps/api/src/reservations.service.ts:46-61 | every step of every service, whatever its guard, keeps those laws together |
| `Exclusion.WritingKeeps` | apps/api/src/reservations.service.ts:1419-1455 | a row may be written when its own slot was checked for its primary table, or when it takes no room that the reservation did not already have |
| `Exclusion.UpdateStatusKeeps` | apps/api/src/reservations.service.ts:851-901 | an unguarded status change keeps the laws, since no transition leads back to a blocking status |
| `Exclusion.UpdateKeeps` | apps/api/src/reservations.service.ts:766-830 | an update keeps the laws on primaries although it looks at one table only |
| `Exclusion.AssignTablesKeeps` | apps/api/src/seating.service.ts:244-281 | so does a seat assignment |
| `Exclusion.CreateFromHoldKeeps` | apps/api/src/reservations.service.ts:302-424 | so does a reservation made from a hold that the check excludes |
| `Exclusion.ExcludedHoldIsConsumed` | apps/api/src/utils/booking-conflicts.ts:129-174 | checking without a hold is checking after that hold is consumed |
| `Exclusion.CreateHoldKeeps` | apps/api/src/holds.service.ts:102-149 | a new hold keeps the laws |
| `Exclusion.WaitlistStepFrees` | apps/api/src/waitlist/waitlist.service.ts:209-351 | waitlist steps only let go of holds |
| `JoinedTables.NoTableSharedInRuns` | apps/api/src/reservations.service.ts:725-813 | the whole table sets of blocking reservations in a slot are disjoint in every run in which a move of a reservation of several tables names a table or ends the reservation; no live hold on any of the tables outlasts the start |
| `JoinedTables.SafeUpdates` | apps/api/src/reservations.service.ts:794-813 | an update keeps the table sets disjoint in every database if and only if it does not move several unnamed tables of a reservation that stays blocking |
| `JoinedTables.MovingUnnamedSharesATable` | apps/api/src/reservations.service.ts:725-813 | a concrete run, ending with a guest's move, in which two blocking reservations share a table |
| `JoinedTables.StepKeepsTables` | apps/api/src/utils/booking-conflicts.ts:101-107 | every step except such a move keeps the table sets disjoint |
| `HoldLife.HoldLeavesAtMostOnce` | apps/api/src/holds.service.ts:180-234 | over any run a hold leaves HELD at most once, and its status never changes again |
| `HoldLife.HoldConvertsAtMostOnce` | apps/api/src/reservations.service.ts:302-424 | over any run a hold is turned into a reservation at most once |
| `HoldLife.ConversionCarriesTheHold` | apps/api/src/reservations.service.ts:354-399 | the hold was live, and the reservation has its venue, slot, start and party size; the hold is consumed and linked to it |
| `Offers.OfferedAtMostOnce` | apps/api/src/waitlist/waitlist.service.ts:425-472 | over every interleaving of offers an entry is offered successfully at most once, and once it has left WAITING it never returns |
| `Offers.EveryOfferHoldHasOneOwner` | apps/api/src/waitlist/waitlist.service.ts:166-207 | in every run a held hold made by an offer is referred to by exactly one entry or kept by exactly one offer in flight |
| `Offers.StepKeepsOwners` | apps/api/src/waitlist/waitlist.service.ts:166-233 | every step keeps that ownership, including converting, expiring and cancelling in between |
| `Offers.StepNeverWaitsAgain` | apps/api/src/waitlist/waitlist.service.ts:209-351 | no step brings an entry back to WAITING |
| `TokenBucket.SanitizeRate` | apps/api/src/rate-limit/rate-limit.service.ts:227-230 | no number and rates below one give 0, rates up to 50000 are rounded down, and larger ones give 50000 |
| `TokenBucket.SanitizeBurst` | apps/api/src/rate-limit/rate-limit.service.ts:232-237 | an absent or small burst gives the rate, at least one; a larger one is rounded down |
| `TokenBucket.SpendInPlainTerms` | apps/api/src/rate-limit/rate-limit.service.ts:119-148 | a request is admitted exactly if the balance and what has flowed in since, up to the capacity, pays for it, and then it is paid for |
| `TokenBucket.MemoryTokenBucketStore.TryConsume` | apps/api/src/rate-limit/rate-limit.service.ts:119-148 | the method on the map does one step of the memory store |
| `TokenBucket.MemoryTokenBucketStore.EvictExpired` | apps/api/src/rate-limit/rate-limit.service.ts:150-157 | the loop removes exactly the buckets idle for more than ten minutes |
| `TokenBucket.AdmissionBound` | apps/api/src/rate-limit/rate-limit.service.ts:112-158 | the cost admitted for a key between any two times is at most the burst limit plus the refill of that time, in every run and whatever other keys do, if and only if the burst limit is at most ten times the rate per minute |
| `TokenBucket.RedisAdmissionBound` | apps/api/src/rate-limit/rate-limit.service.ts:161-199 | the same bound holds for the Redis script if and only if the burst limit is at most twice the rate per minute |
| `TokenBucket.BalanceStaysInRange` | apps/api/src/rate-limit/rate-limit.service.ts:119-148 | for every configuration the stored balance of a key is between 0 and its burst limit, whatever other keys do |
| `TokenBucket.MemoryForgetsUnnoticed` | apps/api/src/rate-limit/rate-limit.service.ts:119-157 | the memory store answers every sequence of requests like a bucket that never forgets if and only if the burst limit is at most ten times the rate per minute |
| `TokenBucket.RedisForgetsUnnoticed` | apps/api/src/rate-limit/rate-limit.service.ts:161-199 | the Redis script does if and only if it is at most twice the rate per minute |
| `TokenBucket.MemoryIsIdeal` | apps/api/src/rate-limit/rate-limit.service.ts:119-157 | from any stored state that stands for an ideal bucket, the answers are the ideal ones and the balance stays in range |
| `TokenBucket.RedisIsIdeal` | apps/api/src/rate-limit/rate-limit.service.ts:161-199 | the same for the script with its expiry |
| `Combinations.CombinationsOfSize` | apps/api/src/seating.service.ts:460-474 | the recursive loops return the combinations of a size in order |
| `Combinations.CombinationsAreExact` | apps/api/src/seating.service.ts:460-474 | every choice of k positions yields exactly one of them, at exactly one place, nothing else is among them, and there are n over k |
| `Combinations.FindMinimalCombos` | apps/api/src/seating.service.ts:442-458 | the search loop returns the covering combinations of the first size that has any |
| `Combinations.MinimalIsExact` | apps/api/src/seating.service.ts:442-458 | these are all the covering choices of the least size from two on; there is none only if no choice of two or more covers the party, the whole group included |
| `Grouping.GroupBy` | apps/api/src/seating.service.ts:410-421 | grouping into a map gives each key's elements in their order, and the keys in the order of their first appearance |
| `Seating.BuildJoinGroupCombos` | apps/api/src/seating.service.ts:405-440 | the loops return one suggestion for each minimal combination of each join group of at least two free tables, sorted by capacity and then label |
| `Seating.GroupIsSorted` | apps/api/src/seating.service.ts:425-432 | the tables of a group are in the order of their capacities and, where these are equal, of their labels |
| `Seating.SuggestFor` | apps/api/src/seating.service.ts:91-166 | the method returns the ranked and cut list of candidates |
| `Seating.SuggestsTheBest` | apps/api/src/seating.service.ts:141-150 | the suggestions are in the order of score, number of tables, seats and ids, as many as asked for (at least one), and no candidate left out comes before one returned |
| `Seating.ScoreIsLexicographic` | apps/api/src/seating.service.ts:79-82 | within their weights the score compares the wear of the most used table first, then the total wear, the number of tables and the spare seats |
| `Seating.WearCountsOne` | apps/api/src/seating.service.ts:476-498 | one more reservation adds one to a table's wear if it is active, of the venue and the day, and has the table, and nothing otherwise |
| `Seating.SuggestionNumbers` | apps/api/src/seating.service.ts:329-374 | a suggestion's seats and total wear are sums over its tables, its largest wear is reached and not exceeded, and its spare seats are the seats less the party |
| `Seating.SingleCandidates` | apps/api/src/seating.service.ts:122-137 | a table is a candidate on its own exactly if it is the venue's, seats the party, and nothing stands in its way in the slot |
| `Seating.JoinedCandidates` | apps/api/src/seating.service.ts:405-440 | several tables are a candidate exactly if they are one of the minimal combinations of a join group's free tables |
| `Seating.SuggestionsAreAccepted` | apps/api/src/seating.service.ts:91-281 | every suggestion passes every check of assignTables in the same database at any later time, its tables named in any order, with repetitions and blanks; it is then assigned if and only if the unique index is free for the least table, and otherwise fails |
| `Seating.IndexTakenByFinished` | prisma/schema.prisma:248 | for a table that is free, the index is taken exactly if a completed or cancelled reservation of the slot has it as its primary |
| `Seating.SuggestsIffAssignable` | apps/api/src/seating.service.ts:91-281 | there is a suggestion if and only if some list of tables would pass every check of assignTables; the unique index can still refuse it |
| `PolicySlots.DetermineRelevantShifts` | apps/api/src/availability/policy.service.ts:403-420 | the loop returns the relevant shifts with the dates they start on |
| `PolicySlots.RelevantIsComplete` | apps/api/src/availability/policy.service.ts:403-426 | every occurrence of an active shift whose clock hours reach into the day is relevant, and a relevant one starts on its weekday, on the day or, if it wraps, the day before |
| `PolicySlots.GeneratePolicySlots` | apps/api/src/availability/policy.service.ts:321-401 | the nested loops end with exactly the slots of the specification, sorted by start |
| `PolicySlots.ShiftSlotsAreExact` | apps/api/src/availability/policy.service.ts:336-396 | a shift contributes the whole number of windows that fit its clipped and shrunk hours, back to back, and too little is left for one more |
| `PolicySlots.ShiftSlotsInPlainTerms` | apps/api/src/availability/policy.service.ts:344-396 | a slot belongs to a shift exactly if it is a whole window, lies between the shift's opening and closing, with the buffers and inside the day, and starts a whole number of windows after the opening |
| `PolicySlots.BuffersAreKept` | apps/api/src/availability/policy.service.ts:363-368 | a slot starts no sooner than the first buffer after the shift starts and ends no later than the second buffer before it ends, on the next date if the shift wraps |
| `PolicySlots.SlotsCount` | apps/api/src/availability/policy.service.ts:321-401 | a slot comes as often as there are active shifts that run into the day and contribute it |
| `PolicySlots.SlotsAreExact` | apps/api/src/availability/policy.service.ts:321-401 | the output is a sorted permutation of the shifts' slots, each inside the day and of the length asked for |
| `PolicySlots.ConsecutiveDaysApart` | apps/api/src/availability/policy.service.ts:326-401 | slots of consecutive days never overlap, over all shifts, windows and buffers, if and only if the first day ends by the start of the second, for clocks that are set by whole minutes and read 23:59 in its place |
| `PolicySlots.MidnightKeepsApart` | apps/api/src/availability/policy.service.ts:326-332 | which is so whenever the first day has a local midnight |
| `PolicySlots.MissingMidnightOverlaps` | apps/api/src/availability/policy.service.ts:326-332 | a witness where it has none: a shift past midnight puts the same slot into both days |
| `Pacing.Bucketize` | apps/api/src/availability/availability.engine.ts:524-529 | a positive window key is the multiple of the window length at which the window of the UTC minute of the day starts |
| `Pacing.FindLimit` | apps/api/src/availability/availability.engine.ts:408-417 | the loop finds the rule limit of the specification |
| `Pacing.LimitIsMostRestrictive` | apps/api/src/availability/availability.engine.ts:408-417 | the limit is the least non-zero maximum, with the window of the first rule that has it |
| `Pacing.LimitInPlainTerms` | apps/api/src/availability/availability.engine.ts:408-417 | no limit if no rule sets a non-zero maximum; otherwise the least of them, with the minutes of its first rule, or 15 for none |
| `Pacing.CountUsage` | apps/api/src/availability/availability.engine.ts:438-447 | the counting loops count the reservations and holds of every window |
| `Pacing.InWindowCounts` | apps/api/src/availability/availability.engine.ts:438-447 | what is counted is the number of starts in the window |
| `Pacing.ApplyPacingRules` | apps/api/src/availability/availability.engine.ts:385-477 | going through the windows one after the other and sorting gives the slots paced where they stand, sorted by start |
| `Pacing.PacedInPlainTerms` | apps/api/src/availability/availability.engine.ts:452-472 | a slot counts the usage of its window and the slots with free tables in it that come before; it loses its tables exactly when that reaches the limit |
| `Pacing.PacingConserves` | apps/api/src/availability/availability.engine.ts:385-477 | no slot is lost, added, moved or changed, except that a constrained one loses all its tables; with a limit the output is a permutation sorted by start |
| `Pacing.PacingKeepsTheFirst` | apps/api/src/availability/availability.engine.ts:456-472 | in each window the open slots left are exactly the first limit minus used of the input, or all if there are fewer |
| `AvailabilityEngine.PickIsBest` | apps/api/src/availability/availability.engine.ts:482-510 | nothing is picked exactly when no rule applies; otherwise the first of the rules with the smallest span and, among those, the largest minimum |
| `AvailabilityEngine.PickInPlainTerms` | apps/api/src/availability/availability.engine.ts:482-510 | the rule picked is made for the party, no other such rule is narrower, and none as narrow starts higher |
| `AvailabilityEngine.FindRule` | apps/api/src/availability/availability.engine.ts:482-510 | the loop finds that rule |
| `AvailabilityEngine.ComputeOccupiedTables` | apps/api/src/availability/availability.engine.ts:324-380 | the loops collect exactly the tables with a booking or a live hold that overlaps the stay |
| `AvailabilityEngine.BuildBaseTimeline` | apps/api/src/availability/availability.engine.ts:238-283 | the nested loops end with the timeline of the specification |
| `AvailabilityEngine.TimelineIsExact` | apps/api/src/availability/availability.engine.ts:238-283 | a start is on the timeline exactly when it is a whole number of intervals after the start, and before the end, of an active shift of one of the dates |
| `AvailabilityEngine.TimelineInPlainTerms` | apps/api/src/availability/availability.engine.ts:238-283 | the same without naming hours or grids: the shift is active and of the weekday, the start is not before its opening, before its closing, a day later if the shift ends no later than it starts, and a whole number of intervals after its opening |
| `AvailabilityEngine.TimelineByDates` | apps/api/src/availability/availability.engine.ts:263-275 | for clocks on which a day later is the next date, the closing of such a shift is on the next date |
| `AvailabilityEngine.TimelineCounts` | apps/api/src/availability/availability.engine.ts:238-283 | a start comes as often as there are dates and shifts that have it |
| `AvailabilityEngine.ComputeAvailability` | apps/api/src/availability/availability.engine.ts:103-233 | the pipeline returns what the specification composes |
| `AvailabilityEngine.OffersAreSound` | apps/api/src/availability/availability.engine.ts:103-233 | an offered table has the seats, on a shift's grid, off blackout dates, after the lead time, and its stay with turn time and buffer overlaps no booking of the table and no live hold on it |
| `AvailabilityEngine.OfferableIsOffered` | apps/api/src/availability/availability.engine.ts:103-233 | a table for which all that holds is offered, unless pacing closes the slot |
| `AvailabilityEngine.OfferableInPlainTerms` | apps/api/src/availability/availability.engine.ts:103-233 | those conditions without blocks: seats, a shift's start, no blackout, lead time, and clear of every booking and live hold of the table, each with its minutes, turn time and buffer |
| `AvailabilityEngine.OfferInNumbers` | apps/api/src/availability/availability.engine.ts:198-221 | the end, the number of tables for the party, the limit, and the bookings, holds and earlier open slots of the window that count against it, for every slot of the output |
| `AvailabilityEngine.SummaryCounts` | apps/api/src/availability/availability.engine.ts:223-232 | the available slots are those with tables, and the blocked ones the rest |
| `AvailabilityEngine.BookingRunsStayApart` | apps/api/src/availability/availability.engine.ts:324-380 | however many offers are booked one after the other, by whatever queries, the bookings of a table stay disjoint, turn time and buffer included, when every party is covered by a rule |
| `AvailabilityEngine.BlockIsFixed` | apps/api/src/availability/availability.engine.ts:346-352 | all queries see a booking for the same time if and only if a rule covers its party or all rules have the same buffer |
| `AvailabilityEngine.UncoveredIsNeverApart` | apps/api/src/availability/availability.engine.ts:346-352 | a booking for an uncovered party is not safely apart from any later booking of its table, however late: some stand-in rule makes them overlap |
| `AvailabilityEngine.UncoveredPartyDependsOnTheQuery` | apps/api/src/availability/availability.engine.ts:346-352 | a concrete case with two rules of one venue |
| `Idempotency.OneInsidePerKey` | apps/api/src/idempotency/idempotency.interceptor.ts:91-126 | in every run at most one request per key is between lock and release |
| `Idempotency.LastsUnlessDeletePending` | apps/api/src/idempotency/idempotency.service.ts:61-77 | an unexpired row stays the same until it expires, in every continuation, if and only if no earlier lookup is still about to delete its expired predecessor |
| `Idempotency.FirstStoredWins` | apps/api/src/idempotency/idempotency.interceptor.ts:50-131 | from the moment a response is stored with no such delete pending, until it expires, the row is that response's, all replays give it, only for the same method, path and body hash, and requests that had yet to look up run no handler |
| `Idempotency.RetryNeverRuns` | apps/api/src/idempotency/idempotency.interceptor.ts:50-91 | beside a row with no delete pending, a request that has yet to look up or to arrive is in no continuation between lock and release before the row expires, and gets no answer but the row's |
| `Idempotency.RunsUnlessLooking` | apps/api/src/idempotency/idempotency.interceptor.ts:50-91 | the handlers that can still run beside a live row, with the lock free and no delete pending, are exactly those of unanswered requests past their lookup |
| `Idempotency.LookupAnswers` | apps/api/src/idempotency/idempotency.interceptor.ts:50-91 | a live row answers with a replay to the same method, path and body hash, and with a refusal to any other; without one the request goes on |
| `Idempotency.LockingAnswers` | apps/api/src/idempotency/idempotency.service.ts:126-142 | a request runs, with a lock of 30 seconds, unless a fault or a lock that has not run out keeps it |
| `Idempotency.FinishingAnswers` | apps/api/src/idempotency/idempotency.interceptor.ts:103-126 | what the handler ends with is the answer, is stored unless that fails or the key has a row, and frees the lock unless a fault keeps it |
| `Idempotency.SecondCall` | apps/api/src/idempotency/idempotency.interceptor.ts:37-131 | an uninterrupted second call with the key, within a day, is answered as the first was if it is the same request and refused if not, and runs nothing; after a failure that left no row, or a day later, it runs |
| `Idempotency.FreshRowCanBeLost` | apps/api/src/idempotency/idempotency.service.ts:66-74 | a reachable state in which an unexpired row is about to be deleted in place of its predecessor |
| `Idempotency.HandlerCanRunTwice` | apps/api/src/idempotency/idempotency.interceptor.ts:50-91 | a reachable state in which two such requests of one key were both answered by their own handlers |
| `Idempotency.AloneIsARun` | apps/api/src/idempotency/idempotency.interceptor.ts:37-131 | doing the steps of a request in a row is one of the interleavings, and ends as the uninterrupted request does |
| `Idempotency.IdempotencyService.FindEntry` | apps/api/src/idempotency/idempotency.service.ts:61-77 | returns the live row, and deletes an expired one |
| `Idempotency.IdempotencyService.StoreResponse` | apps/api/src/idempotency/idempotency.service.ts:79-124 | creates the row unless the key has one |
| `Idempotency.IdempotencyService.AcquireLock` | apps/api/src/idempotency/idempotency.service.ts:126-142 | takes the lock if it is free or has expired |
| `Idempotency.IdempotencyService.Intercept` | apps/api/src/idempotency/idempotency.interceptor.ts:37-131 | an uninterrupted request is refused, replayed, turned away or run and stored, with exactly the stated rows and locks afterwards |
| `Idempotency.NormalizePath` | apps/api/src/idempotency/idempotency.service.ts:48-53 | the path is the given one with a slash in front, without the slashes at its end, and a single slash for an empty one |
| `Idempotency.RequestPathIsStable` | apps/api/src/idempotency/idempotency.interceptor.ts:156-158 | stripping and normalizing again changes nothing, so comparing stripped paths is comparing stored ones |
| `Idempotency.RequestPathIgnores` | apps/api/src/idempotency/idempotency.interceptor.ts:243-248 | the query string and a trailing slash make no difference |
| `Canonical.CanonicalIffSame` | apps/api/src/idempotency/idempotency.service.ts:204-231 | two bodies have the same canonical form if and only if they are equal at every depth up to the order of keys, undefined properties counting as absent and dates, buffers and non-finite numbers as their text |
| `Canonical.CanonicalizeIsIdempotent` | apps/api/src/idempotency/idempotency.service.ts:204-231 | a canonical form is its own canonical form |
| `Canonical.KeyOrderIsIrrelevant` | apps/api/src/idempotency/idempotency.service.ts:215-224 | writing the properties of a record in another order changes nothing |
| `Ics.EscapeIsOnePass` | apps/api/src/comms/ics.util.ts:47-53 | the four replacements in a row do what one pass, character by character, does |
| `Ics.UnescapeEscaped` | apps/api/src/comms/ics.util.ts:47-53 | unescaping (section 3.3.11 of RFC 5545) gives the text back with CRLF turned into LF |
| `Ics.EscapedBreaks` | apps/api/src/comms/ics.util.ts:52 | an escaped text has no line feed, and a carriage return exactly if the text has a lone one |
| `Ics.EscapedIsGuarded` | apps/api/src/comms/ics.util.ts:47-53 | commas and semicolons of an escaped text stand behind a backslash |
| `Ics.FoldLine` | apps/api/src/comms/ics.util.ts:55-69 | the index loop returns the line in chunks of 75, each further one behind a line break and a space |
| `Ics.FoldedIsNarrow` | apps/api/src/comms/ics.util.ts:55-69 | a line of at most 75 characters is one chunk; otherwise the first has 75 and every further one is a space and at most 75 |
| `Ics.FoldRoundTrip` | apps/api/src/comms/ics.util.ts:71-73 | for lines without line feeds, unfolding (section 3.1 of RFC 5545) and splitting gives the lines back if and only if there is one and none after the first starts with white space |
| `Ics.ValuesSurvive` | apps/api/src/comms/ics.util.ts:47-73 | names that contain no line feed and start with no white space, with escaped values, survive folding, unfolding, splitting and unescaping, up to CRLF |

## Left out

- Failed transactions other than by a unique index leave the state as it was and are not modelled; an offer's code is arbitrary, and a taken one is retried.
- Crashes and failures between the database accesses of one offer, other than a failing compare-and-set or notification.
- Deleting venues or tables, the unused `HoldsService.consume`, listing, searching, notifications, webhooks, metrics and the availability response cache.
- Names and contacts of guests, their encryption, reservation codes and link tokens.
- Areas and the explanation text of a suggestion; labels are ranks, and ties in the ranking are broken by an arbitrary order of the joined ids, both standing for the locale's order.
- BookingStore.Database.ListHolds: the order of the list.
- Table capacities are not negative: floor plans store at least one seat.
- Conflict details that a refusal reports, and which table `pickTable` chooses for an offer: the offer's hold may name any table.
- `waitlist.offer`: normalizing the time to live and the desired time; the slot and the time to live are given.
- Rate limiting in the floating-point numbers of the source, the monthly quota, and requests with no rate, which are always admitted.
- Cost normalization: costs are positive, as the service makes them before it asks a store.
- The Redis and memory stores of the rate limiter failing; Redis time is taken to be the service's clock.
- Time zones: a zone is a function from local readings to instants and back; the weekday and the clock-day arithmetic of the engine are functions too.
- The engine reads the clock once per slot; here it reads the same time throughout.
- `evaluateDay`: capacities of policy slots, blackout slots and the policy hash.
- `normalizeTimeTo24h`: times arrive as hours and minutes.
- Idempotency with Postgres advisory locks, which belong to a session; cutting keys at 200 characters; response headers.
- Canonical: the locale's comparison is taken as a total order, so keys it calls equal do not occur; a property named `__proto__` and the reordering of integer-like keys are not modelled; hashing is an arbitrary function.
- The limit of 75 octets of section 3.1 of RFC 5545: a continuation line has a space and 75 characters.
