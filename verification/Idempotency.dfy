/**
 * apps/api/src/idempotency: requests with an Idempotency-Key, interleaved step by step. Each
 * database and lock access is a step of its own, and so is deleting a row that was found expired.
 */
module Idempotency {
  import opened Common

  type Key = nat

  /** Hashes are compared only for equality; `path` has no query string and is normalized. */
  datatype Meta = Meta(key: Key, verb: nat, path: string, bodyHash: nat)

  datatype Row = Row(verb: nat, path: string, bodyHash: nat, response: nat, expiresAt: int)

  /** What a handler ends with; only a failure that is no HttpException leaves nothing to store. */
  datatype Outcome = Success(response: nat) | HttpFailure(response: nat) | OtherFailure(response: nat)

  datatype Answer = Own(outcome: Outcome) | Replayed(response: nat) | OtherRoute | OtherPayload | InProgress

  datatype Phase =
    | Looking
    | Deleting
    | Locking
    | Running
    | Storing(outcome: Outcome)
    | Releasing(outcome: Outcome)
    | Answered(answer: Answer)

  datatype Request = Request(meta: Meta, phase: Phase)

  /** `locks` holds when each lock expires; `now` is in milliseconds. */
  datatype State = State(rows: map<Key, Row>, locks: map<Key, int>, requests: map<nat, Request>, now: int)

  const TTL_MS := 24 * 60 * 60 * 1000
  const LOCK_TTL_MS := 30_000

  /** `fault` is an error of the store or of the lock server. */
  datatype Event =
    | Arrive(id: nat, meta: Meta)
    | Read(id: nat)
    | Delete(id: nat, fault: bool)
    | Acquire(id: nat, fault: bool)
    | Finish(id: nat, outcome: Outcome)
    | Store(id: nat, fault: bool)
    | Release(id: nat, fault: bool)
    | Cleanup
    | Tick(ms: nat)

  predicate Matches(row: Row, meta: Meta) {
    row.verb == meta.verb && row.path == meta.path && row.bodyHash == meta.bodyHash
  }

  /** What the lookup answers when it finds a row that has not expired. */
  function AnswerFrom(row: Row, meta: Meta): Answer {
    if row.verb != meta.verb || row.path != meta.path then OtherRoute
    else if row.bodyHash != meta.bodyHash then OtherPayload
    else Replayed(row.response)
  }

  function AfterRead(s: State, meta: Meta): Phase {
    if meta.key !in s.rows then Locking
    else if s.rows[meta.key].expiresAt <= s.now then Deleting
    else Answered(AnswerFrom(s.rows[meta.key], meta))
  }

  predicate LockFree(s: State, k: Key) {
    k !in s.locks || s.locks[k] <= s.now
  }

  /** Between acquiring and releasing the lock. */
  predicate Inside(p: Phase) {
    p.Running? || p.Storing? || p.Releasing?
  }

  function NewRow(meta: Meta, outcome: Outcome, now: int): Row {
    Row(meta.verb, meta.path, meta.bodyHash, outcome.response, now + TTL_MS)
  }

  function SetPhase(s: State, id: nat, p: Phase): State
    requires id in s.requests
  {
    s.(requests := s.requests[id := s.requests[id].(phase := p)])
  }

  predicate At(s: State, id: nat, p: Phase) {
    id in s.requests && s.requests[id].phase == p
  }

  function StepRead(s: State, id: nat): State {
    if At(s, id, Looking) then SetPhase(s, id, AfterRead(s, s.requests[id].meta)) else s
  }

  /** Deletes by key, whatever row is there by now. */
  function StepDelete(s: State, id: nat, fault: bool): State {
    if !At(s, id, Deleting) then s
    else if fault then SetPhase(s, id, Locking)
    else SetPhase(s.(rows := s.rows - {s.requests[id].meta.key}), id, Locking)
  }

  function StepAcquire(s: State, id: nat, fault: bool): State {
    if !At(s, id, Locking) then s else
    var k := s.requests[id].meta.key;
    if fault || !LockFree(s, k) then SetPhase(s, id, Answered(InProgress))
    else SetPhase(s.(locks := s.locks[k := s.now + LOCK_TTL_MS]), id, Running)
  }

  function StepFinish(s: State, id: nat, outcome: Outcome): State {
    if !At(s, id, Running) then s
    else SetPhase(s, id, if outcome.OtherFailure? then Releasing(outcome) else Storing(outcome))
  }

  /**
   * An existing row stays as it is. When storing a success fails the lock is still released; when
   * storing a failure fails nothing more is done.
   */
  function StepStore(s: State, id: nat, fault: bool): State {
    if id !in s.requests || !s.requests[id].phase.Storing? then s else
    var meta, outcome := s.requests[id].meta, s.requests[id].phase.outcome;
    if fault then SetPhase(s, id, if outcome.Success?
      then Releasing(OtherFailure(outcome.response)) else Answered(Own(outcome)))
    else if meta.key in s.rows then SetPhase(s, id, Releasing(outcome))
    else SetPhase(s.(rows := s.rows[meta.key := NewRow(meta, outcome, s.now)]), id, Releasing(outcome))
  }

  /** Removes the lock of the key, whoever holds it. */
  function StepRelease(s: State, id: nat, fault: bool): State {
    if id !in s.requests || !s.requests[id].phase.Releasing? then s else
    var answered := SetPhase(s, id, Answered(Own(s.requests[id].phase.outcome)));
    if fault then answered else answered.(locks := s.locks - {s.requests[id].meta.key})
  }

  /** Time does not run past the lock of a request that is still inside. */
  predicate InTime(s: State, later: int) {
    forall id :: id in s.requests && Inside(s.requests[id].phase) && s.requests[id].meta.key in s.locks ==>
      later < s.locks[s.requests[id].meta.key]
  }

  function Step(s: State, e: Event): State {
    match e
    case Arrive(id, meta) => if id in s.requests then s else s.(requests := s.requests[id := Request(meta, Looking)])
    case Read(id) => StepRead(s, id)
    case Delete(id, fault) => StepDelete(s, id, fault)
    case Acquire(id, fault) => StepAcquire(s, id, fault)
    case Finish(id, outcome) => StepFinish(s, id, outcome)
    case Store(id, fault) => StepStore(s, id, fault)
    case Release(id, fault) => StepRelease(s, id, fault)
    case Cleanup => s.(rows := map k | k in s.rows && s.rows[k].expiresAt >= s.now :: s.rows[k])
    case Tick(ms) => if InTime(s, s.now + ms) then s.(now := s.now + ms) else s
  }

  function Run(s: State, events: seq<Event>): State
    decreases |events|
  {
    if events == [] then s else Run(Step(s, events[0]), events[1..])
  }

  ghost predicate Initial(s: State) {
    s.rows == map[] && s.locks == map[] && s.requests == map[]
  }

  // ---------- at most one request inside ----------

  predicate SameKeyInside(a: Request, b: Request) {
    a.meta.key == b.meta.key && Inside(a.phase) && Inside(b.phase)
  }

  ghost predicate Exclusive(s: State) {
    && (forall id :: id in s.requests && Inside(s.requests[id].phase) ==> !LockFree(s, s.requests[id].meta.key))
    && (forall a, b :: a in s.requests && b in s.requests && SameKeyInside(s.requests[a], s.requests[b]) ==> a == b)
  }

  lemma StepKeepsExclusive(s: State, e: Event)
    requires Exclusive(s)
    ensures Exclusive(Step(s, e))
  {
    match e {
      case Acquire(id, fault) => AcquireKeepsExclusive(s, id, fault);
      case Release(id, fault) => ReleaseKeepsExclusive(s, id, fault);
      case Arrive(_, _) => AsideKeepsExclusive(s, e);
      case Read(_) => AsideKeepsExclusive(s, e);
      case Delete(_, _) => AsideKeepsExclusive(s, e);
      case _ =>
    }
  }

  /** Steps of a request that is not inside. */
  lemma AsideKeepsExclusive(s: State, e: Event)
    requires Exclusive(s) && (e.Arrive? || e.Read? || e.Delete?)
    ensures Exclusive(Step(s, e))
  {
  }

  lemma AcquireKeepsExclusive(s: State, id: nat, fault: bool)
    requires Exclusive(s)
    ensures Exclusive(StepAcquire(s, id, fault))
  {
  }

  lemma ReleaseKeepsExclusive(s: State, id: nat, fault: bool)
    requires Exclusive(s)
    ensures Exclusive(StepRelease(s, id, fault))
  {
  }

  /** In every run at most one request per key is between lock and release. */
  lemma {:induction false} RunKeepsExclusive(s: State, events: seq<Event>)
    requires Exclusive(s)
    ensures Exclusive(Run(s, events))
    decreases |events|
  {
    if events != [] {
      StepKeepsExclusive(s, events[0]);
      RunKeepsExclusive(Step(s, events[0]), events[1..]);
    }
  }

  lemma OneInsidePerKey(s: State, events: seq<Event>, a: nat, b: nat)
    requires Initial(s)
    ensures var r := Run(s, events);
            a in r.requests && b in r.requests && SameKeyInside(r.requests[a], r.requests[b]) ==> a == b
  {
    RunKeepsExclusive(s, events);
  }

  // ---------- a stored row lasts ----------

  /** Some request found the key's row expired and has yet to delete it. */
  ghost predicate DeletePending(s: State, k: Key) {
    exists id :: id in s.requests && s.requests[id].phase == Deleting && s.requests[id].meta.key == k
  }

  lemma StepKeepsRow(s: State, e: Event, k: Key)
    requires k in s.rows && !DeletePending(s, k) && Step(s, e).now < s.rows[k].expiresAt
    ensures var s' := Step(s, e); k in s'.rows && s'.rows[k] == s.rows[k] && !DeletePending(s', k)
  {
  }

  lemma StepForward(s: State, e: Event)
    ensures s.now <= Step(s, e).now
  {
  }

  lemma {:induction false} RunForward(s: State, events: seq<Event>)
    ensures s.now <= Run(s, events).now
    decreases |events|
  {
    if events != [] {
      StepForward(s, events[0]);
      RunForward(Step(s, events[0]), events[1..]);
    }
  }

  lemma {:induction false} RunKeepsRow(s: State, events: seq<Event>, k: Key)
    requires k in s.rows && !DeletePending(s, k) && Run(s, events).now < s.rows[k].expiresAt
    ensures var r := Run(s, events); k in r.rows && r.rows[k] == s.rows[k] && !DeletePending(r, k)
    decreases |events|
  {
    if events != [] {
      RunForward(Step(s, events[0]), events[1..]);
      StepKeepsRow(s, events[0], k);
      RunKeepsRow(Step(s, events[0]), events[1..], k);
    }
  }

  /** The row stays the same until it expires, whatever happens. */
  ghost predicate Lasts(s: State, k: Key)
    requires k in s.rows
  {
    forall events :: Run(s, events).now < s.rows[k].expiresAt ==>
      k in Run(s, events).rows && Run(s, events).rows[k] == s.rows[k]
  }

  /**
   * A row is safe until it expires exactly when no earlier lookup is still about to delete its
   * expired predecessor.
   */
  lemma LastsUnlessDeletePending(s: State, k: Key)
    requires k in s.rows && s.now < s.rows[k].expiresAt
    ensures Lasts(s, k) <==> !DeletePending(s, k)
  {
    if !DeletePending(s, k) {
      forall events | Run(s, events).now < s.rows[k].expiresAt
        ensures k in Run(s, events).rows && Run(s, events).rows[k] == s.rows[k]
      {
        RunKeepsRow(s, events, k);
      }
    } else {
      var id :| id in s.requests && s.requests[id].phase == Deleting && s.requests[id].meta.key == k;
      var events := [Delete(id, false)];
      assert events[1..] == [];
      assert Run(s, events) == Run(Step(s, events[0]), []) == Step(s, events[0]);
      assert k !in Run(s, events).rows;
    }
  }

  // ---------- replays ----------

  /** If the request was answered by a replay, it was the row's, and rightly. */
  predicate ReplayedFrom(row: Row, r: Request) {
    r.phase.Answered? && r.phase.answer.Replayed? ==> r.phase.answer.response == row.response && Matches(row, r.meta)
  }

  /** Every replay of the key, other than those in `earlier`, gave the row's response to a matching request. */
  ghost predicate Faithful(s: State, k: Key, row: Row, earlier: set<nat>) {
    forall id :: id in s.requests && id !in earlier && s.requests[id].meta.key == k ==>
      ReplayedFrom(row, s.requests[id])
  }

  lemma {:induction false} RunKeepsFaithful(s: State, events: seq<Event>, k: Key, row: Row, earlier: set<nat>)
    requires k in s.rows && s.rows[k] == row && !DeletePending(s, k) && Run(s, events).now < row.expiresAt
    requires Faithful(s, k, row, earlier)
    ensures Faithful(Run(s, events), k, row, earlier)
    decreases |events|
  {
    if events != [] {
      RunForward(Step(s, events[0]), events[1..]);
      StepKeepsRow(s, events[0], k);
      StepKeepsFaithful(s, events[0], k, row, earlier);
      RunKeepsFaithful(Step(s, events[0]), events[1..], k, row, earlier);
    }
  }

  lemma StepKeepsFaithful(s: State, e: Event, k: Key, row: Row, earlier: set<nat>)
    requires k in s.rows && s.rows[k] == row && s.now < row.expiresAt
    requires Faithful(s, k, row, earlier)
    ensures Faithful(Step(s, e), k, row, earlier)
  {
  }

  /** What a lookup finds: a replay for the same request, a refusal of any other, and a way on without a live row. */
  lemma LookupAnswers(s: State, id: nat)
    requires At(s, id, Looking)
    ensures var meta, p := s.requests[id].meta, Step(s, Read(id)).requests[id].phase;
            if meta.key in s.rows && s.now < s.rows[meta.key].expiresAt then
              var row := s.rows[meta.key];
              p == Answered(
                if row.verb == meta.verb && row.path == meta.path && row.bodyHash == meta.bodyHash
                then Replayed(row.response)
                else if row.verb == meta.verb && row.path == meta.path then OtherPayload
                else OtherRoute)
            else p == if meta.key in s.rows then Deleting else Locking
  {
  }

  /** A stored row is the request's, with its response, for a day. */
  lemma StoringWrites(s: State, id: nat)
    requires id in s.requests && s.requests[id].phase.Storing? && s.requests[id].meta.key !in s.rows
    ensures var meta, t := s.requests[id].meta, Step(s, Store(id, false));
            && t.rows.Keys == s.rows.Keys + {meta.key} && (forall k :: k in s.rows ==> t.rows[k] == s.rows[k])
            && t.rows[meta.key].verb == meta.verb && t.rows[meta.key].path == meta.path
            && t.rows[meta.key].bodyHash == meta.bodyHash
            && t.rows[meta.key].response == s.requests[id].phase.outcome.response
            && t.rows[meta.key].expiresAt == s.now + 86_400_000
  {
  }

  /** Only a lock that has not run out keeps a request from running, for 30 seconds at most; so does a fault. */
  lemma LockingAnswers(s: State, id: nat, fault: bool)
    requires At(s, id, Locking)
    ensures var k, t := s.requests[id].meta.key, Step(s, Acquire(id, fault));
            && t.rows == s.rows && t.now == s.now && t.requests.Keys == s.requests.Keys
            && (forall other :: other in s.requests && other != id ==> t.requests[other] == s.requests[other])
            && t.requests[id].meta == s.requests[id].meta
            && if fault || (k in s.locks && s.now < s.locks[k])
               then t.locks == s.locks && t.requests[id].phase == Answered(InProgress)
               else t.locks == s.locks[k := s.now + 30_000] && t.requests[id].phase == Running
  {
  }

  /** What a handler ends with is the answer, and frees the lock, unless a fault comes in between. */
  lemma FinishingAnswers(s: State, id: nat, outcome: Outcome, lost: bool, stuck: bool)
    requires At(s, id, Running)
    ensures var k := s.requests[id].meta.key;
            var t := Step(Step(Step(s, Finish(id, outcome)), Store(id, lost)), Release(id, stuck));
            var kept := outcome.HttpFailure? && lost;
            && t.requests[id].phase == Answered(Own(
                 if outcome.Success? && lost then OtherFailure(outcome.response) else outcome))
            && t.locks == (if kept || stuck then s.locks else s.locks - {k})
            && t.rows.Keys == (if outcome.OtherFailure? || lost then s.rows.Keys else s.rows.Keys + {k})
            && forall other :: other in s.rows ==> t.rows[other] == s.rows[other]
  {
  }

  /** The cleanup takes the rows that have expired, and nothing else. */
  lemma CleanupTakesExpired(s: State)
    ensures var t := Step(s, Cleanup);
            && t == s.(rows := t.rows) && (forall k :: k in t.rows ==> k in s.rows && t.rows[k] == s.rows[k])
            && forall k :: k in s.rows ==> (k in t.rows <==> s.now <= s.rows[k].expiresAt)
  {
  }

  // ---------- who can still run a handler ----------

  /** Requests of the key, other than those in `earlier`, wait for their lookup or were answered from the row. */
  ghost predicate Quiet(s: State, k: Key, row: Row, earlier: set<nat>) {
    forall id :: id in s.requests && id !in earlier && s.requests[id].meta.key == k ==>
      s.requests[id].phase.Looking? || s.requests[id].phase == Answered(AnswerFrom(row, s.requests[id].meta))
  }

  lemma StepKeepsQuiet(s: State, e: Event, k: Key, row: Row, earlier: set<nat>)
    requires k in s.rows && s.rows[k] == row && s.now < row.expiresAt
    requires Quiet(s, k, row, earlier)
    ensures Quiet(Step(s, e), k, row, earlier)
  {
  }

  lemma {:induction false} RunKeepsQuiet(s: State, events: seq<Event>, k: Key, row: Row, earlier: set<nat>)
    requires k in s.rows && s.rows[k] == row && !DeletePending(s, k) && Run(s, events).now < row.expiresAt
    requires Quiet(s, k, row, earlier)
    ensures Quiet(Run(s, events), k, row, earlier)
    decreases |events|
  {
    if events != [] {
      RunForward(Step(s, events[0]), events[1..]);
      StepKeepsRow(s, events[0], k);
      StepKeepsQuiet(s, events[0], k, row, earlier);
      RunKeepsQuiet(Step(s, events[0]), events[1..], k, row, earlier);
    }
  }

  ghost function PastLookup(s: State): set<nat> {
    set id | id in s.requests && !s.requests[id].phase.Looking?
  }

  /**
   * A retry never runs its handler: once a row is there and no delete is pending, a request of the
   * key that has yet to look up, or to arrive, is in no continuation between lock and release
   * before the row expires, and the only answer it ever gets is the one the row gives.
   */
  lemma RetryNeverRuns(s: State, events: seq<Event>, k: Key, id: nat)
    requires k in s.rows && !DeletePending(s, k) && Run(s, events).now < s.rows[k].expiresAt
    requires id in s.requests ==> s.requests[id].phase.Looking?
    ensures var r := Run(s, events);
            id in r.requests && r.requests[id].meta.key == k ==>
              && !Inside(r.requests[id].phase)
              && (r.requests[id].phase.Looking?
                || r.requests[id].phase == Answered(AnswerFrom(s.rows[k], r.requests[id].meta)))
  {
    RunForward(s, events);
    RunKeepsQuiet(s, events, k, s.rows[k], PastLookup(s));
  }

  lemma {:induction false} RunKeepsRequests(s: State, events: seq<Event>, id: nat)
    requires id in s.requests
    ensures id in Run(s, events).requests && Run(s, events).requests[id].meta == s.requests[id].meta
    decreases |events|
  {
    if events != [] {
      RunKeepsRequests(Step(s, events[0]), events[1..], id);
    }
  }

  /** In no continuation before the row expires does the request come between lock and release. */
  ghost predicate NeverInside(s: State, k: Key, id: nat)
    requires k in s.rows
  {
    forall events :: Run(s, events).now < s.rows[k].expiresAt && id in Run(s, events).requests ==>
      !Inside(Run(s, events).requests[id].phase)
  }

  /**
   * Exactly which handlers can still run beside a live row: with the lock free and no delete
   * pending, those of the requests whose lookup came before the row.
   */
  lemma RunsUnlessLooking(s: State, k: Key, id: nat)
    requires Exclusive(s) && k in s.rows && s.now < s.rows[k].expiresAt && !DeletePending(s, k) && LockFree(s, k)
    requires id in s.requests && s.requests[id].meta.key == k && !s.requests[id].phase.Answered?
    ensures NeverInside(s, k, id) <==> s.requests[id].phase.Looking?
  {
    if s.requests[id].phase.Looking? {
      forall events | Run(s, events).now < s.rows[k].expiresAt && id in Run(s, events).requests
        ensures !Inside(Run(s, events).requests[id].phase)
      {
        RunKeepsRequests(s, events, id);
        RetryNeverRuns(s, events, k, id);
      }
    } else {
      assert At(s, id, Locking);
      var events := [Acquire(id, false)];
      assert events[1..] == [];
      assert Run(s, events) == Run(Step(s, events[0]), []) == Step(s, events[0]);
      assert Inside(Run(s, events).requests[id].phase);
    }
  }

  /**
   * The response stored first is the one that counts. When a request stores its response and no
   * delete is pending for the key, then in every continuation until the row expires the row is that
   * request's, and whoever is given a replay is given that response, for the same method, path and
   * body hash. A request that had yet to look up by then, or to arrive, runs no handler and gets no
   * other answer.
   */
  lemma FirstStoredWins(s: State, storer: nat, events: seq<Event>)
    requires storer in s.requests && s.requests[storer].phase.Storing?
    requires s.requests[storer].meta.key !in s.rows && !DeletePending(s, s.requests[storer].meta.key)
    requires Run(s, [Store(storer, false)] + events).now < s.now + TTL_MS
    ensures var k, r := s.requests[storer].meta.key, Run(s, [Store(storer, false)] + events);
            var row := NewRow(s.requests[storer].meta, s.requests[storer].phase.outcome, s.now);
            && k in r.rows && r.rows[k] == row
            && Faithful(r, k, row, set id | id in s.requests && s.requests[id].phase.Answered?)
            && Quiet(r, k, row, PastLookup(s))
  {
    var k, after := s.requests[storer].meta.key, Step(s, Store(storer, false));
    var row := NewRow(s.requests[storer].meta, s.requests[storer].phase.outcome, s.now);
    var all := [Store(storer, false)] + events;
    assert all[1..] == events;
    assert !DeletePending(after, k) by {
      forall id | id in after.requests && after.requests[id].meta.key == k
        ensures after.requests[id].phase != Deleting
      {
        assert id in s.requests && (id != storer ==> s.requests[id] == after.requests[id]);
      }
    }
    RunKeepsRow(after, events, k);
    RunKeepsFaithful(after, events, k, row, set id | id in s.requests && s.requests[id].phase.Answered?);
    RunForward(after, events);
    RunKeepsQuiet(after, events, k, row, PastLookup(s));
  }

  // ---------- what the protocol does not promise ----------

  ghost predicate Reachable(s: State) {
    exists start, events :: Initial(start) && Run(start, events) == s
  }

  lemma {:induction false} RunOneMore(s: State, events: seq<Event>, e: Event)
    ensures Run(s, events + [e]) == Step(Run(s, events), e)
    decreases |events|
  {
    if events == [] {
      assert ([] + [e])[1..] == [];
    } else {
      assert (events + [e])[1..] == events[1..] + [e];
      RunOneMore(Step(s, events[0]), events[1..], e);
    }
  }

  lemma Next(s: State, e: Event) returns (s': State)
    requires Reachable(s)
    ensures s' == Step(s, e) && Reachable(s')
  {
    var start, events :| Initial(start) && Run(start, events) == s;
    RunOneMore(start, events, e);
    s' := Step(s, e);
  }

  lemma Arrives(s: State, id: nat, meta: Meta) returns (s': State)
    requires Reachable(s) && id !in s.requests
    ensures Reachable(s') && s' == s.(requests := s.requests[id := Request(meta, AfterRead(s, meta))])
  {
    var a := Next(s, Arrive(id, meta));
    s' := Next(a, Read(id));
  }

  /** A request that holds no lock yet can be served to its end, whatever row has come up meanwhile. */
  lemma ServedFromLocking(s: State, id: nat, response: nat) returns (s': State)
    requires Reachable(s) && At(s, id, Locking) && LockFree(s, s.requests[id].meta.key)
    ensures Reachable(s') && s'.now == s.now
    ensures var meta := s.requests[id].meta;
            && s'.rows == (if meta.key in s.rows
              then s.rows else s.rows[meta.key := NewRow(meta, Success(response), s.now)])
            && s'.requests == s.requests[id := Request(meta, Answered(Own(Success(response))))]
            && meta.key !in s'.locks
  {
    var a := Next(s, Acquire(id, false));
    var b := Next(a, Finish(id, Success(response)));
    var c := Next(b, Store(id, false));
    s' := Next(c, Release(id, false));
    LockedSteps(s, id, Success(response));
  }

  /** A handler can run twice for one key: the lookup is not repeated once the lock is held. */
  lemma HandlerCanRunTwice(meta: Meta)
    ensures exists s :: Reachable(s) && At(s, 0, Answered(Own(Success(10)))) && At(s, 1, Answered(Own(Success(11))))
                        && s.requests[0].meta == meta == s.requests[1].meta
  {
    var s0 := State(map[], map[], map[], 0);
    assert Run(s0, []) == s0;
    var a := Arrives(s0, 0, meta);
    var b := Arrives(a, 1, meta);
    BothAreServed(b, meta);
  }

  lemma BothAreServed(b: State, meta: Meta)
    requires Reachable(b) && At(b, 0, Locking) && At(b, 1, Locking) && LockFree(b, meta.key)
    requires b.requests[0].meta == meta == b.requests[1].meta
    ensures exists s :: Reachable(s) && At(s, 0, Answered(Own(Success(10)))) && At(s, 1, Answered(Own(Success(11))))
                        && s.requests[0].meta == meta == s.requests[1].meta
  {
    var c := ServedFromLocking(b, 0, 10);
    var d := ServedFromLocking(c, 1, 11);
  }

  /** A fresh row can be deleted in place of its expired predecessor. */
  lemma FreshRowCanBeLost(meta: Meta)
    ensures exists s :: Reachable(s) && meta.key in s.rows && s.now < s.rows[meta.key].expiresAt && !Lasts(s, meta.key)
  {
    var k := meta.key;
    var c := OneExpiredRow(meta);
    var d := Arrives(c, 1, meta);
    var e := Arrives(d, 2, meta);
    var f := Next(e, Delete(2, false));
    var g := ServedFromLocking(f, 2, 12);
    assert At(g, 1, Deleting) && g.requests[1].meta.key == k;
    LastsUnlessDeletePending(g, k);
  }

  lemma OneExpiredRow(meta: Meta) returns (c: State)
    ensures Reachable(c) && meta.key in c.rows && c.rows[meta.key].expiresAt == c.now
    ensures c.requests.Keys == {0} && meta.key !in c.locks
  {
    var s0 := State(map[], map[], map[], 0);
    assert Run(s0, []) == s0;
    var a := Arrives(s0, 0, meta);
    var b := ServedFromLocking(a, 0, 10);
    c := Next(b, Tick(TTL_MS));
  }

  // ---------- one request on its own ----------

  datatype Served = Served(rows: map<Key, Row>, locks: map<Key, int>, answer: Answer)

  /** A request that nothing interrupts and nothing fails for. */
  function Alone(rows: map<Key, Row>, locks: map<Key, int>, now: int, meta: Meta, outcome: Outcome): Served {
    var k := meta.key;
    if k in rows && now < rows[k].expiresAt then Served(rows, locks, AnswerFrom(rows[k], meta))
    else if k in locks && now < locks[k] then Served(rows - {k}, locks, InProgress)
    else Served(if outcome.OtherFailure?
      then rows - {k} else rows[k := NewRow(meta, outcome, now)], locks - {k}, Own(outcome))
  }

  function Whole(id: nat, meta: Meta, outcome: Outcome): seq<Event> {
    [Arrive(id, meta), Read(id), Delete(id, false), Acquire(id, false), Finish(id, outcome), Store(id, false),
      Release(id, false)]
  }

  lemma {:induction false} RunWhole(s: State, e: seq<Event>)
    requires |e| == 7
    ensures Run(s, e) == LastFour(Step(Step(Step(s, e[0]), e[1]), e[2]), e[3], e[4], e[5], e[6])
  {
    var rest := e[3..];
    assert e[1..][1..] == e[2..] && e[2..][1..] == rest;
    assert rest[1..][1..][1..][1..] == [];
    var c := Step(Step(Step(s, e[0]), e[1]), e[2]);
    assert Run(s, e) == Run(Step(s, e[0]), e[1..]) == Run(Step(Step(s, e[0]), e[1]), e[2..]) == Run(c, rest);
    RunFour(c, rest);
  }

  lemma {:induction false} RunFour(s: State, e: seq<Event>)
    requires |e| == 4
    ensures Run(s, e) == LastFour(s, e[0], e[1], e[2], e[3])
  {
    var e1, e2, e3 := e[1..], e[2..], e[3..];
    assert e1[1..] == e2 && e2[1..] == e3 && e3[1..] == [];
    var a := Step(s, e[0]);
    var b := Step(a, e[1]);
    var c := Step(b, e[2]);
    assert Run(s, e) == Run(a, e1);
    assert Run(a, e1) == Run(b, e2);
    assert Run(b, e2) == Run(c, e3);
    assert Run(c, e3) == Run(Step(c, e[3]), []);
  }

  function LastFour(s: State, e0: Event, e1: Event, e2: Event, e3: Event): State {
    Step(Step(Step(Step(s, e0), e1), e2), e3)
  }

  lemma LockedSteps(s: State, id: nat, outcome: Outcome)
    requires At(s, id, Locking) && LockFree(s, s.requests[id].meta.key)
    ensures var r, meta := LastFour(s, Acquire(id, false), Finish(id, outcome), Store(id, false),
              Release(id, false)), s.requests[id].meta;
            && r.rows == (if outcome.OtherFailure?
              || meta.key in s.rows then s.rows else s.rows[meta.key := NewRow(meta, outcome, s.now)])
            && r.locks == s.locks - {meta.key} && r.now == s.now
            && r.requests == s.requests[id := Request(meta, Answered(Own(outcome)))]
  {
  }

  lemma RefusedSteps(s: State, id: nat, outcome: Outcome)
    requires id in s.requests
              && (s.requests[id].phase.Answered? || (At(s, id, Locking) && !LockFree(s, s.requests[id].meta.key)))
    ensures LastFour(s, Acquire(id, false), Finish(id, outcome), Store(id, false), Release(id, false))
         == if s.requests[id].phase.Answered? then s else SetPhase(s, id, Answered(InProgress))
  {
  }

  /** Doing the interceptor's steps in a row is one of the interleavings. */
  lemma AloneIsARun(s: State, id: nat, meta: Meta, outcome: Outcome)
    requires id !in s.requests
    ensures var r, alone := Run(s, Whole(id, meta, outcome)), Alone(s.rows, s.locks, s.now, meta, outcome);
            && r.rows == alone.rows && r.locks == alone.locks && r.now == s.now
            && r.requests == s.requests[id := Request(meta, Answered(alone.answer))]
  {
    RunWhole(s, Whole(id, meta, outcome));
    var c := LookedUp(s, id, meta);
    if c.requests[id].phase.Answered? || !LockFree(c, meta.key) {
      RefusedSteps(c, id, outcome);
    } else {
      LockedSteps(c, id, outcome);
    }
  }

  lemma LookedUp(s: State, id: nat, meta: Meta) returns (c: State)
    requires id !in s.requests
    ensures c == Step(Step(Step(s, Arrive(id, meta)), Read(id)), Delete(id, false))
    ensures var live := meta.key in s.rows && s.now < s.rows[meta.key].expiresAt;
            c == s.(rows := if live then s.rows else s.rows - {meta.key},
                    requests := s.requests[id :=
                      Request(meta, if live then Answered(AnswerFrom(s.rows[meta.key], meta)) else Locking)])
  {
    var a := Step(Step(s, Arrive(id, meta)), Read(id));
    assert a == s.(requests := s.requests[id := Request(meta, AfterRead(s, meta))]);
    c := Step(a, Delete(id, false));
  }

  /**
   * A second call with the key, within a day of the first, that nothing interrupts: the same request
   * is answered as the first one was, another one is refused, and both run nothing. After a failure
   * that left nothing to store, or a day later, the handler runs again.
   */
  lemma SecondCall(
      rows: map<Key, Row>, locks: map<Key, int>, now: int, meta: Meta, outcome: Outcome,
      later: int, meta2: Meta, outcome2: Outcome)
    requires Alone(rows, locks, now, meta, outcome).answer == Own(outcome)
    requires now <= later && meta2.key == meta.key
    ensures var first := Alone(rows, locks, now, meta, outcome);
            var second := Alone(first.rows, first.locks, later, meta2, outcome2);
            && (meta.key in rows ==> rows[meta.key].expiresAt <= now)
            && if outcome.OtherFailure? || now + 86_400_000 <= later then second.answer == Own(outcome2)
               else
                 && second.rows == first.rows && second.locks == first.locks
                 && second.answer ==
                      if meta2 == meta then Replayed(outcome.response)
                      else if meta2.verb == meta.verb && meta2.path == meta.path then OtherPayload
                      else OtherRoute
  {
  }

  class IdempotencyService {
    var rows: map<Key, Row>
    var locks: map<Key, int>

    constructor ()
      ensures rows == map[] && locks == map[]
    {
      rows, locks := map[], map[];
    }

    /** The live row, if there is one; an expired one is deleted. */
    method FindEntry(k: Key, now: int) returns (found: Option<Row>)
      modifies this`rows
      ensures found == if k in old(rows) && now < old(rows)[k].expiresAt then Some(old(rows)[k]) else None
      ensures rows == if found.Some? then old(rows) else old(rows) - {k}
    {
      if k !in rows {
        return None;
      }
      if rows[k].expiresAt <= now {
        rows := rows - {k};
        return None;
      }
      return Some(rows[k]);
    }

    /** Creates the row; the key's row, if there is one, wins. */
    method StoreResponse(meta: Meta, outcome: Outcome, now: int)
      modifies this`rows
      ensures rows == if meta.key in old(rows) then old(rows) else old(rows)[meta.key := NewRow(meta, outcome, now)]
    {
      if meta.key !in rows {
        rows := rows[meta.key := NewRow(meta, outcome, now)];
      }
    }

    method AcquireLock(k: Key, now: int) returns (acquired: bool)
      modifies this`locks
      ensures acquired == (k !in old(locks) || old(locks)[k] <= now)
      ensures locks == if acquired then old(locks)[k := now + LOCK_TTL_MS] else old(locks)
    {
      acquired := k !in locks || locks[k] <= now;
      if acquired {
        locks := locks[k := now + LOCK_TTL_MS];
      }
    }

    method ReleaseLock(k: Key)
      modifies this`locks
      ensures locks == old(locks) - {k}
    {
      locks := locks - {k};
    }

    method Intercept(meta: Meta, now: int, outcome: Outcome) returns (answer: Answer)
      modifies this
      ensures Served(rows, locks, answer) == Alone(old(rows), old(locks), now, meta, outcome)
    {
      var existing := FindEntry(meta.key, now);
      if existing.Some? {
        var row := existing.value;
        if row.verb != meta.verb || row.path != meta.path {
          return OtherRoute;
        }
        if row.bodyHash != meta.bodyHash {
          return OtherPayload;
        }
        return Replayed(row.response);
      }
      var acquired := AcquireLock(meta.key, now);
      if !acquired {
        return InProgress;
      }
      if !outcome.OtherFailure? {
        StoreResponse(meta, outcome, now);
      }
      ReleaseLock(meta.key);
      answer := Own(outcome);
    }
  }

  // ---------- paths ----------

  function StripQuery(path: string): (r: string)
    ensures '?' !in r && r <= path
    ensures r != path ==> |r| < |path| && path[|r|] == '?'
  {
    if path == "" || path[0] == '?' then ""
    else [path[0]] + StripQuery(path[1..])
  }

  function TrimSlashes(path: string): (r: string)
    ensures r <= path && (r != "" ==> r[|r| - 1] != '/')
    ensures forall i :: |r| <= i < |path| ==> path[i] == '/'
  {
    if path != "" && path[|path| - 1] == '/' then TrimSlashes(path[..|path| - 1]) else path
  }

  function NormalizePath(raw: string): (r: string)
    ensures r != "" && r[0] == '/'
    ensures |r| > 1 ==> r[|r| - 1] != '/'
    ensures raw == "" ==> r == "/"
    ensures raw != "" ==>
              var prefixed := if raw[0] == '/' then raw else "/" + raw;
              r <= prefixed && forall i :: |r| <= i < |prefixed| ==> prefixed[i] == '/'
  {
    if raw == "" then "/" else
    var prefixed := if raw[0] == '/' then raw else "/" + raw;
    if |prefixed| == 1 then prefixed else
    var trimmed := TrimSlashes(prefixed);
    if trimmed == "" then "/" else trimmed
  }

  function RequestPath(raw: string): string {
    NormalizePath(StripQuery(raw))
  }

  /** Comparing stored paths after stripping their queries again is comparing them as they are. */
  lemma RequestPathIsStable(raw: string)
    ensures StripQuery(RequestPath(raw)) == RequestPath(raw)
    ensures NormalizePath(RequestPath(raw)) == RequestPath(raw)
    ensures RequestPath(RequestPath(raw)) == RequestPath(raw)
  {
  }

  /** The query string and trailing slashes make no difference. */
  lemma RequestPathIgnores(raw: string, query: string)
    ensures RequestPath(raw + "?" + query) == RequestPath(raw)
    ensures raw != "" && '?' !in raw ==> RequestPath(raw + "/") == RequestPath(raw)
  {
    StripAppended(raw, query);
    if raw != "" && '?' !in raw {
      StripNothing(raw);
      StripNothing(raw + "/");
      NormalizeSlash(raw);
    }
  }

  lemma NormalizeSlash(raw: string)
    requires raw != ""
    ensures NormalizePath(raw + "/") == NormalizePath(raw)
  {
    var prefixed := if raw[0] == '/' then raw else "/" + raw;
    assert (if (raw + "/")[0] == '/' then raw + "/" else "/" + (raw + "/")) == prefixed + "/";
    TrimOneMore(prefixed);
  }

  lemma TrimOneMore(path: string)
    ensures TrimSlashes(path + "/") == TrimSlashes(path)
  {
    assert (path + "/")[..|path|] == path;
  }

  lemma {:induction false} StripNothing(path: string)
    requires '?' !in path
    ensures StripQuery(path) == path
  {
  }

  lemma {:induction false} StripAppended(raw: string, query: string)
    ensures StripQuery(raw + "?" + query) == StripQuery(raw)
  {
    if raw != "" && raw[0] != '?' {
      assert (raw + "?" + query)[1..] == raw[1..] + "?" + query;
      StripAppended(raw[1..], query);
    }
  }
}