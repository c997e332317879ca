/**
 * apps/api/src/rate-limit/rate-limit.service.ts: the token buckets, over the reals, and the
 * bucket they are meant to be, which never forgets.
 */
module TokenBucket {
  import opened Common

  type Key = nat

  /** Balance at a time in milliseconds. */
  datatype Bucket = Bucket(tokens: real, updatedAt: int)

  datatype Request = Request(key: Key, capacity: real, refillPerMs: real, cost: real, now: int)

  datatype Answer = Answer(allowed: bool, remaining: real)

  const MEMORY_TTL_MS := 600_000
  const REDIS_TTL_MS := 120_000
  const MAX_RATE := 50_000

  // ---------- configuration ----------

  /** sanitizeRate; None stands for NaN and the infinities. */
  function SanitizeRate(rate: Option<real>): (perMinute: int)
    ensures 0 <= perMinute <= MAX_RATE
    ensures perMinute == 0 <==> rate.None? || rate.value < 1.0
    ensures rate.Some? && 1.0 <= rate.value <= 50_000.0 ==> perMinute as real <= rate.value < (perMinute + 1) as real
    ensures rate.Some? && rate.value >= 50_000.0 ==> perMinute == MAX_RATE
  {
    if rate.None? || rate.value <= 0.0 then 0 else Min(rate.value.Floor, MAX_RATE)
  }

  function SanitizeBurst(burst: Option<real>, rate: int): (limit: int)
    ensures burst.None? || burst.value < (Max(rate, 1) + 1) as real ==> limit == Max(rate, 1)
    ensures burst.Some? && burst.value >= Max(rate, 1) as real ==> limit as real <= burst.value < (limit + 1) as real
  {
    if burst.None? || burst.value <= 0.0 then Max(rate, 1) else Max(burst.value.Floor, Max(rate, 1))
  }

  // ---------- one bucket ----------

  function MinReal(a: real, b: real): real {
    if a < b then a else b
  }

  function Inflow(ms: int, refillPerMs: real): real {
    ms as real * refillPerMs
  }

  function Full(q: Request): Bucket {
    Bucket(q.capacity, q.now)
  }

  function Refill(b: Bucket, q: Request): Bucket {
    if q.now > b.updatedAt
    then Bucket(MinReal(q.capacity, b.tokens + Inflow(q.now - b.updatedAt, q.refillPerMs)), q.now)
    else b
  }

  /** What is left after the request, and the answer to it. */
  function Spend(b: Bucket, q: Request): (Bucket, Answer) {
    var r := Refill(b, q);
    if r.tokens < q.cost then (r, Answer(false, r.tokens))
    else (r.(tokens := r.tokens - q.cost), Answer(true, r.tokens - q.cost))
  }

  /**
   * A request is admitted exactly if what is left, and what has flowed in since, up to the capacity,
   * pays for it; and then it is paid for.
   */
  lemma SpendInPlainTerms(b: Bucket, q: Request)
    requires b.updatedAt <= q.now && 0.0 <= b.tokens <= q.capacity && q.refillPerMs >= 0.0
    ensures var (next, answer) := Spend(b, q);
            var grown := b.tokens + (q.now - b.updatedAt) as real * q.refillPerMs;
            var available := if grown < q.capacity then grown else q.capacity;
            && answer.allowed == (q.cost <= available)
            && next == Bucket(if answer.allowed then available - q.cost else available, q.now)
            && answer.remaining == next.tokens
  {
    if q.now == b.updatedAt {
      assert (q.now - b.updatedAt) as real * q.refillPerMs == 0.0;
    }
  }

  // ---------- the memory store ----------

  type Buckets = map<Key, Bucket>

  function Evict(buckets: Buckets, now: int): Buckets {
    map k | k in buckets && now - buckets[k].updatedAt <= MEMORY_TTL_MS :: buckets[k]
  }

  function MemoryConsume(buckets: Buckets, q: Request): (Buckets, Answer) {
    var known := q.key in buckets;
    var (b, answer) := Spend(if known then buckets[q.key] else Full(q), q);
    var written := if answer.allowed || known then buckets[q.key := Bucket(b.tokens, q.now)] else buckets;
    (Evict(written, q.now), Answer(answer.allowed, if answer.remaining < 0.0 then 0.0 else answer.remaining))
  }

  class MemoryTokenBucketStore {
    var buckets: Buckets

    constructor ()
      ensures buckets == map[]
    {
      buckets := map[];
    }

    method TryConsume(q: Request) returns (answer: Answer)
      modifies this
      ensures (buckets, answer) == MemoryConsume(old(buckets), q)
    {
      var known := q.key in buckets;
      var tokens := if known then buckets[q.key].tokens else q.capacity;
      var updatedAt := if known then buckets[q.key].updatedAt else q.now;
      if q.now > updatedAt {
        var delta := q.now - updatedAt;
        tokens := MinReal(q.capacity, tokens + Inflow(delta, q.refillPerMs));
        updatedAt := q.now;
      }
      var allowed := true;
      if tokens < q.cost {
        allowed := false;
      } else {
        tokens := tokens - q.cost;
      }
      assert tokens == Spend(if known then old(buckets)[q.key] else Full(q), q).0.tokens;
      if allowed || known {
        buckets := buckets[q.key := Bucket(tokens, q.now)];
      }
      EvictExpired(q.now);
      answer := Answer(allowed, if tokens < 0.0 then 0.0 else tokens);
    }

    method EvictExpired(now: int)
      modifies this
      ensures buckets == Evict(old(buckets), now)
    {
      var keys := buckets.Keys;
      while keys != {}
        invariant keys <= buckets.Keys <= old(buckets).Keys
        invariant forall k :: k in buckets ==> buckets[k] == old(buckets)[k]
        invariant forall k :: k in old(buckets) && k !in keys ==>
                    (k in buckets <==> now - old(buckets)[k].updatedAt <= MEMORY_TTL_MS)
        decreases keys
      {
        var key :| key in keys;
        keys := keys - {key};
        if now - buckets[key].updatedAt > MEMORY_TTL_MS {
          buckets := buckets - {key};
        }
      }
    }
  }

  // ---------- the Redis script ----------

  /** A hash with the time from which it is gone. */
  datatype Stored = Stored(bucket: Bucket, goneAfter: int)

  type RedisBuckets = map<Key, Stored>

  function RedisConsume(db: RedisBuckets, q: Request): (RedisBuckets, Answer) {
    var known := q.key in db && q.now <= db[q.key].goneAfter;
    var (b, answer) := Spend(if known then db[q.key].bucket else Full(q), q);
    (db[q.key := Stored(b, q.now + REDIS_TTL_MS)], answer)
  }

  // ---------- runs ----------

  /** The clock does not run backwards, costs are positive, and key `k` is always asked with one configuration. */
  ghost predicate ValidRun(reqs: seq<Request>, k: Key, capacity: real, refillPerMs: real) {
    && (forall i, j :: 0 <= i < j < |reqs| ==> reqs[i].now <= reqs[j].now)
    && (forall q :: q in reqs ==>
      q.cost > 0.0 && (q.key == k ==> q.capacity == capacity && q.refillPerMs == refillPerMs))
  }

  /** The answers key `k` gets. */
  function MemoryAnswers(buckets: Buckets, reqs: seq<Request>, k: Key): seq<Answer>
    decreases |reqs|
  {
    if reqs == [] then []
    else
      var (next, answer) := MemoryConsume(buckets, reqs[0]);
      (if reqs[0].key == k then [answer] else []) + MemoryAnswers(next, reqs[1..], k)
  }

  function RedisAnswers(db: RedisBuckets, reqs: seq<Request>, k: Key): seq<Answer>
    decreases |reqs|
  {
    if reqs == [] then []
    else
      var (next, answer) := RedisConsume(db, reqs[0]);
      (if reqs[0].key == k then [answer] else []) + RedisAnswers(next, reqs[1..], k)
  }

  function IdealAnswers(b: Bucket, reqs: seq<Request>, k: Key): seq<Answer>
    decreases |reqs|
  {
    if reqs == [] then []
    else if reqs[0].key != k then IdealAnswers(b, reqs[1..], k)
    else
      var (next, answer) := Spend(b, reqs[0]);
      [answer] + IdealAnswers(next, reqs[1..], k)
  }

  function MemoryAfter(buckets: Buckets, reqs: seq<Request>): Buckets
    decreases |reqs|
  {
    if reqs == [] then buckets else MemoryAfter(MemoryConsume(buckets, reqs[0]).0, reqs[1..])
  }

  /** A bucket that is full when the first request comes. */
  function FreshFor(reqs: seq<Request>, capacity: real): Bucket {
    Bucket(capacity, if reqs == [] then 0 else reqs[0].now)
  }

  // ---------- forgetting ----------

  ghost predicate InRange(b: Bucket, capacity: real) {
    0.0 <= b.tokens <= capacity
  }

  /** From `now` on, the bucket is as good as a full one. */
  ghost predicate FullBy(b: Bucket, now: int, capacity: real, refillPerMs: real) {
    b.updatedAt <= now && capacity <= b.tokens + Inflow(now - b.updatedAt, refillPerMs)
  }

  lemma Scale(a: int, b: int, r: real)
    requires a <= b && r >= 0.0
    ensures Inflow(a, r) <= Inflow(b, r) && Inflow(0, r) == 0.0
  {
  }

  lemma StaysFull(b: Bucket, now: int, later: int, capacity: real, refillPerMs: real)
    requires FullBy(b, now, capacity, refillPerMs) && now <= later && refillPerMs >= 0.0
    ensures FullBy(b, later, capacity, refillPerMs)
  {
    Scale(now - b.updatedAt, later - b.updatedAt, refillPerMs);
  }

  /** After an idle time that refills a whole bucket, any balance in range is full. */
  lemma IdleIsFull(b: Bucket, ttl: int, now: int, capacity: real, refillPerMs: real)
    requires InRange(b, capacity) && refillPerMs >= 0.0 && Inflow(ttl, refillPerMs) >= capacity
    requires ttl <= now - b.updatedAt && 0 <= ttl
    ensures FullBy(b, now, capacity, refillPerMs)
  {
    Scale(ttl, now - b.updatedAt, refillPerMs);
  }

  /** Spending from a bucket that is full by now is spending from a fresh one. */
  lemma SpendFull(b: Bucket, q: Request)
    requires FullBy(b, q.now, q.capacity, q.refillPerMs) && InRange(b, q.capacity)
    ensures Spend(b, q) == Spend(Full(q), q)
  {
    if q.now == b.updatedAt {
      assert Inflow(q.now - b.updatedAt, q.refillPerMs) == 0.0;
      assert b == Full(q);
    } else {
      assert Refill(b, q) == Full(q);
    }
  }

  lemma SpendStaysInRange(b: Bucket, q: Request)
    requires InRange(b, q.capacity) && q.refillPerMs >= 0.0 && q.cost > 0.0
    ensures InRange(Spend(b, q).0, q.capacity)
    ensures b.updatedAt <= q.now ==> Spend(b, q).0.updatedAt == q.now
    ensures 0.0 <= Spend(b, q).1.remaining
  {
    if q.now > b.updatedAt {
      Scale(0, q.now - b.updatedAt, q.refillPerMs);
    }
  }

  /** The store's view of key `k` stands for bucket `b`: it has it, or has forgotten one that is full. */
  ghost predicate Stands(view: Option<Bucket>, b: Bucket, now: int, capacity: real, refillPerMs: real) {
    && InRange(b, capacity) && b.updatedAt <= now
    && (view.Some? ==> view.value == b)
    && (view.None? ==> FullBy(b, now, capacity, refillPerMs))
  }

  function View(buckets: Buckets, k: Key): Option<Bucket> {
    if k in buckets then Some(buckets[k]) else None
  }

  /** One request of `k` itself: same answer, and the views agree again. */
  lemma OwnRequest(buckets: Buckets, b: Bucket, q: Request, before: int)
    requires Stands(View(buckets, q.key), b, before, q.capacity, q.refillPerMs) && before <= q.now
    requires q.refillPerMs >= 0.0 && q.cost > 0.0
    ensures MemoryConsume(buckets, q).1 == Spend(b, q).1
    ensures Stands(View(MemoryConsume(buckets, q).0, q.key), Spend(b, q).0, q.now, q.capacity, q.refillPerMs)
  {
    SpendStaysInRange(b, q);
    if q.key !in buckets {
      StaysFull(b, before, q.now, q.capacity, q.refillPerMs);
      SpendFull(b, q);
      assert Inflow(q.now - q.now, q.refillPerMs) == 0.0;
    }
  }

  /** A request of another key can only evict the bucket, and only when that is not noticed. */
  lemma OtherRequest(buckets: Buckets, b: Bucket, q: Request, k: Key, before: int, capacity: real, refillPerMs: real)
    requires Stands(View(buckets, k), b, before, capacity, refillPerMs) && before <= q.now && q.key != k
    requires refillPerMs >= 0.0 && Inflow(MEMORY_TTL_MS, refillPerMs) >= capacity
    ensures Stands(View(MemoryConsume(buckets, q).0, k), b, q.now, capacity, refillPerMs)
  {
    if k in buckets {
      if q.now - b.updatedAt > MEMORY_TTL_MS {
        IdleIsFull(b, MEMORY_TTL_MS, q.now, capacity, refillPerMs);
      }
    } else {
      StaysFull(b, before, q.now, capacity, refillPerMs);
    }
  }

  lemma ValidTail(reqs: seq<Request>, k: Key, capacity: real, refillPerMs: real)
    requires ValidRun(reqs, k, capacity, refillPerMs) && reqs != []
    ensures ValidRun(reqs[1..], k, capacity, refillPerMs)
    ensures forall q :: q in reqs[1..] ==> reqs[0].now <= q.now
    ensures reqs[0].cost > 0.0 && (reqs[0].key == k ==>
              reqs[0].capacity == capacity && reqs[0].refillPerMs == refillPerMs)
  {
    assert reqs[0] in reqs;
    forall q | q in reqs[1..] ensures reqs[0].now <= q.now {
      var i :| 0 <= i < |reqs[1..]| && reqs[1..][i] == q;
      assert reqs[i + 1] == q;
    }
    forall i, j | 0 <= i < j < |reqs[1..]| ensures reqs[1..][i].now <= reqs[1..][j].now {
      assert reqs[i + 1].now <= reqs[j + 1].now;
    }
  }

  lemma {:induction false} MemoryIsIdeal(
      buckets: Buckets, b: Bucket, reqs: seq<Request>, k: Key, before: int, capacity: real, refillPerMs: real)
    requires ValidRun(reqs, k, capacity, refillPerMs) && forall q :: q in reqs ==> before <= q.now
    requires Stands(View(buckets, k), b, before, capacity, refillPerMs)
    requires refillPerMs >= 0.0 && Inflow(MEMORY_TTL_MS, refillPerMs) >= capacity
    ensures MemoryAnswers(buckets, reqs, k) == IdealAnswers(b, reqs, k)
    ensures k in MemoryAfter(buckets, reqs) ==> InRange(MemoryAfter(buckets, reqs)[k], capacity)
    decreases |reqs|
  {
    if reqs != [] {
      var q := reqs[0];
      ValidTail(reqs, k, capacity, refillPerMs);
      assert q in reqs;
      var next := MemoryConsume(buckets, q).0;
      if q.key == k {
        OwnRequest(buckets, b, q, before);
        MemoryIsIdeal(next, Spend(b, q).0, reqs[1..], k, q.now, capacity, refillPerMs);
      } else {
        OtherRequest(buckets, b, q, k, before, capacity, refillPerMs);
        MemoryIsIdeal(next, b, reqs[1..], k, q.now, capacity, refillPerMs);
      }
    }
  }

  function RedisView(db: RedisBuckets, k: Key, now: int): Option<Bucket> {
    if k in db && now <= db[k].goneAfter then Some(db[k].bucket) else None
  }

  /** The Redis hash of `k` stands for `b`, with its time to live counted from the last request. */
  ghost predicate RedisStands(db: RedisBuckets, k: Key, b: Bucket, now: int, capacity: real, refillPerMs: real) {
    && Stands(if k in db then Some(db[k].bucket) else None, b, now, capacity, refillPerMs)
    && (k in db ==> db[k].goneAfter == b.updatedAt + REDIS_TTL_MS)
  }

  lemma OwnRedisRequest(db: RedisBuckets, b: Bucket, q: Request, before: int)
    requires RedisStands(db, q.key, b, before, q.capacity, q.refillPerMs) && before <= q.now
    requires q.refillPerMs >= 0.0 && q.cost > 0.0 && Inflow(REDIS_TTL_MS, q.refillPerMs) >= q.capacity
    ensures RedisConsume(db, q).1 == Spend(b, q).1
    ensures RedisStands(RedisConsume(db, q).0, q.key, Spend(b, q).0, q.now, q.capacity, q.refillPerMs)
  {
    SpendStaysInRange(b, q);
    if RedisView(db, q.key, q.now).None? {
      if q.key in db {
        IdleIsFull(b, REDIS_TTL_MS, q.now, q.capacity, q.refillPerMs);
      } else {
        StaysFull(b, before, q.now, q.capacity, q.refillPerMs);
      }
      SpendFull(b, q);
    }
  }

  lemma {:induction false} RedisIsIdeal(
      db: RedisBuckets, b: Bucket, reqs: seq<Request>, k: Key, before: int, capacity: real, refillPerMs: real)
    requires ValidRun(reqs, k, capacity, refillPerMs) && forall q :: q in reqs ==> before <= q.now
    requires RedisStands(db, k, b, before, capacity, refillPerMs)
    requires refillPerMs >= 0.0 && Inflow(REDIS_TTL_MS, refillPerMs) >= capacity
    ensures RedisAnswers(db, reqs, k) == IdealAnswers(b, reqs, k)
    decreases |reqs|
  {
    if reqs != [] {
      var q := reqs[0];
      ValidTail(reqs, k, capacity, refillPerMs);
      assert q in reqs;
      var next := RedisConsume(db, q).0;
      if q.key == k {
        OwnRedisRequest(db, b, q, before);
        RedisIsIdeal(next, Spend(b, q).0, reqs[1..], k, q.now, capacity, refillPerMs);
      } else {
        if k !in db {
          StaysFull(b, before, q.now, capacity, refillPerMs);
        }
        RedisIsIdeal(next, b, reqs[1..], k, q.now, capacity, refillPerMs);
      }
    }
  }

  // ---------- exactly when forgetting is unobservable ----------

  function PerMs(requestsPerMinute: int): real {
    requestsPerMinute as real / 60_000.0
  }

  ghost predicate MemoryUnobservable(k: Key, capacity: real, refillPerMs: real) {
    forall reqs :: ValidRun(reqs, k, capacity, refillPerMs) ==>
      MemoryAnswers(map[], reqs, k) == IdealAnswers(FreshFor(reqs, capacity), reqs, k)
  }

  ghost predicate RedisUnobservable(k: Key, capacity: real, refillPerMs: real) {
    forall reqs :: ValidRun(reqs, k, capacity, refillPerMs) ==>
      RedisAnswers(map[], reqs, k) == IdealAnswers(FreshFor(reqs, capacity), reqs, k)
  }

  /** Emptied at time 0; a stranger's request triggers the eviction; emptied again. */
  function EvictionRun(k: Key, capacity: real, refillPerMs: real): seq<Request> {
    [ Request(k, capacity, refillPerMs, capacity, 0),
      Request(k + 1, 1.0, 1.0, 1.0, MEMORY_TTL_MS + 1),
      Request(k, capacity, refillPerMs, capacity, MEMORY_TTL_MS + 1) ]
  }

  function ExpiryRun(k: Key, capacity: real, refillPerMs: real): seq<Request> {
    [ Request(k, capacity, refillPerMs, capacity, 0),
      Request(k, capacity, refillPerMs, capacity, REDIS_TTL_MS + 1) ]
  }

  lemma EvictionIsNoticed(k: Key, capacity: real, refillPerMs: real)
    requires capacity > 0.0 && Inflow(MEMORY_TTL_MS + 1, refillPerMs) < capacity
    ensures ValidRun(EvictionRun(k, capacity, refillPerMs), k, capacity, refillPerMs)
    ensures var reqs := EvictionRun(k, capacity, refillPerMs);
            MemoryAnswers(map[], reqs, k) != IdealAnswers(FreshFor(reqs, capacity), reqs, k)
  {
    var reqs := EvictionRun(k, capacity, refillPerMs);
    var b0 := FreshFor(reqs, capacity);
    var b1 := Spend(b0, reqs[0]).0;
    assert b1 == Bucket(0.0, 0);
    var s1 := MemoryConsume(map[], reqs[0]).0;
    assert s1 == map[k := Bucket(0.0, 0)];
    var s2 := MemoryConsume(s1, reqs[1]).0;
    assert k !in s2;
    assert reqs[1..][1..] == [reqs[2]] && [reqs[2]][1..] == [];
    assert MemoryAnswers(map[], reqs, k) == [Answer(true, 0.0)] + MemoryAnswers(s1, reqs[1..], k);
    assert MemoryAnswers(s1, reqs[1..], k) == MemoryAnswers(s2, [reqs[2]], k);
    assert MemoryAnswers(s2, [reqs[2]], k)[0].allowed;
    assert IdealAnswers(b0, reqs, k) == [Answer(true, 0.0)] + IdealAnswers(b1, reqs[1..], k);
    assert IdealAnswers(b1, reqs[1..], k) == IdealAnswers(b1, [reqs[2]], k);
    assert !IdealAnswers(b1, [reqs[2]], k)[0].allowed;
    assert MemoryAnswers(map[], reqs, k)[1].allowed;
    assert !IdealAnswers(b0, reqs, k)[1].allowed;
  }

  lemma ExpiryIsNoticed(k: Key, capacity: real, refillPerMs: real)
    requires capacity > 0.0 && Inflow(REDIS_TTL_MS + 1, refillPerMs) < capacity
    ensures ValidRun(ExpiryRun(k, capacity, refillPerMs), k, capacity, refillPerMs)
    ensures var reqs := ExpiryRun(k, capacity, refillPerMs);
            RedisAnswers(map[], reqs, k) != IdealAnswers(FreshFor(reqs, capacity), reqs, k)
  {
    var reqs := ExpiryRun(k, capacity, refillPerMs);
    var b0 := FreshFor(reqs, capacity);
    var b1 := Spend(b0, reqs[0]).0;
    assert b1 == Bucket(0.0, 0);
    var s1 := RedisConsume(map[], reqs[0]).0;
    assert reqs[1..] == [reqs[1]] && [reqs[1]][1..] == [];
    assert RedisAnswers(s1, [reqs[1]], k)[0].allowed;
    assert !IdealAnswers(b1, [reqs[1]], k)[0].allowed;
    assert RedisAnswers(map[], reqs, k)[1].allowed;
    assert !IdealAnswers(b0, reqs, k)[1].allowed;
  }

  /**
   * For every configuration the service resolves, dropping idle buckets after ten minutes goes
   * unnoticed if and only if the burst limit is at most ten times the rate per minute.
   */
  lemma MemoryForgetsUnnoticed(k: Key, requestsPerMinute: int, burstLimit: int)
    requires 1 <= requestsPerMinute <= MAX_RATE && burstLimit >= 1
    ensures MemoryUnobservable(k, burstLimit as real, PerMs(requestsPerMinute)) <==>
              burstLimit <= 10 * requestsPerMinute
  {
    var capacity, rate := burstLimit as real, PerMs(requestsPerMinute);
    assert Inflow(MEMORY_TTL_MS, rate) == 10.0 * requestsPerMinute as real;
    if burstLimit <= 10 * requestsPerMinute {
      forall reqs | ValidRun(reqs, k, capacity, rate)
        ensures MemoryAnswers(map[], reqs, k) == IdealAnswers(FreshFor(reqs, capacity), reqs, k)
      {
        StartIsFull(reqs, capacity, rate, k);
        MemoryIsIdeal(map[], FreshFor(reqs, capacity), reqs, k, FreshFor(reqs, capacity).updatedAt, capacity, rate);
      }
    } else {
      assert Inflow(MEMORY_TTL_MS + 1, rate) == 10.0 * requestsPerMinute as real + rate;
      assert rate < 1.0;
      EvictionIsNoticed(k, capacity, rate);
    }
  }

  /** The same for the Redis script, which keeps a bucket for two minutes. */
  lemma RedisForgetsUnnoticed(k: Key, requestsPerMinute: int, burstLimit: int)
    requires 1 <= requestsPerMinute <= MAX_RATE && burstLimit >= 1
    ensures RedisUnobservable(k, burstLimit as real, PerMs(requestsPerMinute)) <==> burstLimit <= 2 * requestsPerMinute
  {
    var capacity, rate := burstLimit as real, PerMs(requestsPerMinute);
    assert Inflow(REDIS_TTL_MS, rate) == 2.0 * requestsPerMinute as real;
    if burstLimit <= 2 * requestsPerMinute {
      forall reqs | ValidRun(reqs, k, capacity, rate)
        ensures RedisAnswers(map[], reqs, k) == IdealAnswers(FreshFor(reqs, capacity), reqs, k)
      {
        StartIsFull(reqs, capacity, rate, k);
        RedisIsIdeal(map[], FreshFor(reqs, capacity), reqs, k, FreshFor(reqs, capacity).updatedAt, capacity, rate);
      }
    } else {
      assert Inflow(REDIS_TTL_MS + 1, rate) == 2.0 * requestsPerMinute as real + rate;
      assert rate < 1.0;
      ExpiryIsNoticed(k, capacity, rate);
    }
  }

  lemma StartIsFull(reqs: seq<Request>, capacity: real, refillPerMs: real, k: Key)
    requires ValidRun(reqs, k, capacity, refillPerMs) && capacity >= 0.0
    ensures var b := FreshFor(reqs, capacity);
            && (forall q :: q in reqs ==> b.updatedAt <= q.now)
            && Stands(None, b, b.updatedAt, capacity, refillPerMs)
  {
    var b := FreshFor(reqs, capacity);
    assert Inflow(b.updatedAt - b.updatedAt, refillPerMs) == 0.0;
    if reqs != [] {
      ValidTail(reqs, k, capacity, refillPerMs);
      forall q | q in reqs ensures b.updatedAt <= q.now {
        assert q == reqs[0] || q in reqs[1..];
      }
    }
  }

  // ---------- the whole-run bound ----------

  /** The cost of the requests of `k` admitted between `from` and `until`. */
  function IdealAdmitted(b: Bucket, reqs: seq<Request>, k: Key, from: int, until: int): real
    decreases |reqs|
  {
    if reqs == [] then 0.0
    else if reqs[0].key != k then IdealAdmitted(b, reqs[1..], k, from, until)
    else
      var (next, answer) := Spend(b, reqs[0]);
      (if answer.allowed && from <= reqs[0].now <= until then reqs[0].cost else 0.0)
        + IdealAdmitted(next, reqs[1..], k, from, until)
  }

  /** The same, read off the answers `k` got. */
  function Admitted(reqs: seq<Request>, answers: seq<Answer>, k: Key, from: int, until: int): real
    decreases |reqs|
  {
    if reqs == [] then 0.0
    else if reqs[0].key != k then Admitted(reqs[1..], answers, k, from, until)
    else if answers == [] then 0.0
    else
      (if answers[0].allowed && from <= reqs[0].now <= until then reqs[0].cost else 0.0)
        + Admitted(reqs[1..], answers[1..], k, from, until)
  }

  function MemoryAdmitted(reqs: seq<Request>, k: Key, from: int, until: int): real {
    Admitted(reqs, MemoryAnswers(map[], reqs, k), k, from, until)
  }

  function RedisAdmitted(reqs: seq<Request>, k: Key, from: int, until: int): real {
    Admitted(reqs, RedisAnswers(map[], reqs, k), k, from, until)
  }

  lemma {:induction false} IdealAdmits(b: Bucket, reqs: seq<Request>, k: Key, from: int, until: int)
    ensures Admitted(reqs, IdealAnswers(b, reqs, k), k, from, until) == IdealAdmitted(b, reqs, k, from, until)
    decreases |reqs|
  {
    if reqs != [] {
      if reqs[0].key == k {
        var next := Spend(b, reqs[0]).0;
        IdealAdmits(next, reqs[1..], k, from, until);
        assert IdealAnswers(b, reqs, k)[1..] == IdealAnswers(next, reqs[1..], k);
      } else {
        IdealAdmits(b, reqs[1..], k, from, until);
      }
    }
  }

  lemma {:induction false} NothingAfter(b: Bucket, reqs: seq<Request>, k: Key, from: int, until: int)
    requires forall q :: q in reqs ==> until < q.now
    ensures IdealAdmitted(b, reqs, k, from, until) == 0.0
    decreases |reqs|
  {
    if reqs != [] {
      assert reqs[0] in reqs;
      NothingAfter(if reqs[0].key == k then Spend(b, reqs[0]).0 else b, reqs[1..], k, from, until);
    }
  }

  function Paid(q: Request, answer: Answer): real {
    if answer.allowed then q.cost else 0.0
  }

  /** Balance plus what still flows in until `until` never grows, and pays for the request. */
  lemma Flow(b: Bucket, q: Request, until: int, inflow: real, rest: real)
    requires b.updatedAt <= q.now <= until
    requires inflow == Inflow(until - b.updatedAt, q.refillPerMs) && rest == Inflow(until - q.now, q.refillPerMs)
    ensures var (next, answer) := Spend(b, q); Paid(q, answer) + next.tokens + rest <= b.tokens + inflow
  {
    assert inflow == rest + Inflow(q.now - b.updatedAt, q.refillPerMs);
  }

  /** Once the window has opened, what is admitted comes out of the balance and what flows in. */
  lemma {:induction false} AdmittedFromBalance(
      b: Bucket, reqs: seq<Request>, k: Key, from: int, until: int, capacity: real, refillPerMs: real, inflow: real)
    requires ValidRun(reqs, k, capacity, refillPerMs) && forall q :: q in reqs ==> b.updatedAt <= q.now
    requires InRange(b, capacity) && refillPerMs >= 0.0
    requires b.updatedAt <= until && inflow == Inflow(until - b.updatedAt, refillPerMs) && inflow >= 0.0
    ensures IdealAdmitted(b, reqs, k, from, until) <= b.tokens + inflow
    decreases |reqs|
  {
    if reqs != [] {
      var q := reqs[0];
      ValidTail(reqs, k, capacity, refillPerMs);
      assert q in reqs;
      if q.now > until {
        LateIsNothing(b, reqs, k, from, until);
      } else if q.key != k {
        AdmittedFromBalance(b, reqs[1..], k, from, until, capacity, refillPerMs, inflow);
      } else {
        SpendStaysInRange(b, q);
        var rest := Inflow(until - q.now, refillPerMs);
        assert rest >= 0.0 by { Scale(0, until - q.now, refillPerMs); }
        AdmittedFromBalance(Spend(b, q).0, reqs[1..], k, from, until, capacity, refillPerMs, rest);
        Flow(b, q, until, inflow, rest);
      }
    }
  }

  lemma LateIsNothing(b: Bucket, reqs: seq<Request>, k: Key, from: int, until: int)
    requires reqs != [] && until < reqs[0].now && forall i, j :: 0 <= i < j < |reqs| ==> reqs[i].now <= reqs[j].now
    ensures IdealAdmitted(b, reqs, k, from, until) == 0.0
  {
    forall r | r in reqs ensures until < r.now {
      var i :| 0 <= i < |reqs| && reqs[i] == r;
      assert i == 0 || reqs[0].now <= reqs[i].now;
    }
    NothingAfter(b, reqs, k, from, until);
  }

  lemma SpendWithinCapacity(b: Bucket, q: Request)
    requires InRange(b, q.capacity)
    ensures var (next, answer) := Spend(b, q); Paid(q, answer) + next.tokens <= q.capacity
  {
  }

  lemma {:induction false} AdmittedInWindow(
      b: Bucket, reqs: seq<Request>, k: Key, from: int, until: int, capacity: real, refillPerMs: real, inflow: real)
    requires ValidRun(reqs, k, capacity, refillPerMs) && forall q :: q in reqs ==> b.updatedAt <= q.now
    requires InRange(b, capacity) && refillPerMs >= 0.0
    requires from <= until && inflow == Inflow(until - from, refillPerMs) && inflow >= 0.0
    ensures IdealAdmitted(b, reqs, k, from, until) <= capacity + inflow
    decreases |reqs|
  {
    if reqs != [] {
      var q := reqs[0];
      ValidTail(reqs, k, capacity, refillPerMs);
      assert q in reqs;
      if q.now > until {
        LateIsNothing(b, reqs, k, from, until);
      } else if q.key != k {
        AdmittedInWindow(b, reqs[1..], k, from, until, capacity, refillPerMs, inflow);
      } else {
        SpendStaysInRange(b, q);
        var next := Spend(b, q).0;
        if q.now < from {
          AdmittedInWindow(next, reqs[1..], k, from, until, capacity, refillPerMs, inflow);
        } else {
          var rest := Inflow(until - q.now, refillPerMs);
          assert 0.0 <= rest <= inflow by {
            Scale(0, until - q.now, refillPerMs);
            Scale(until - q.now, until - from, refillPerMs);
          }
          AdmittedFromBalance(next, reqs[1..], k, from, until, capacity, refillPerMs, rest);
          SpendWithinCapacity(b, q);
        }
      }
    }
  }

  /** Between any two times the store admits no more than a full bucket and what flows in. */
  ghost predicate MemoryBounded(k: Key, capacity: real, refillPerMs: real) {
    forall reqs, from, until :: from <= until && ValidRun(reqs, k, capacity, refillPerMs) ==>
      MemoryAdmitted(reqs, k, from, until) <= capacity + Inflow(until - from, refillPerMs)
  }

  ghost predicate RedisBounded(k: Key, capacity: real, refillPerMs: real) {
    forall reqs, from, until :: from <= until && ValidRun(reqs, k, capacity, refillPerMs) ==>
      RedisAdmitted(reqs, k, from, until) <= capacity + Inflow(until - from, refillPerMs)
  }

  lemma IdealBound(reqs: seq<Request>, k: Key, from: int, until: int, capacity: real, refillPerMs: real)
    requires from <= until && ValidRun(reqs, k, capacity, refillPerMs) && capacity >= 0.0 && refillPerMs >= 0.0
    ensures var b := FreshFor(reqs, capacity);
            Admitted(reqs, IdealAnswers(b, reqs, k), k, from, until) <= capacity + Inflow(until - from, refillPerMs)
  {
    var b := FreshFor(reqs, capacity);
    StartIsFull(reqs, capacity, refillPerMs, k);
    Scale(0, until - from, refillPerMs);
    AdmittedInWindow(b, reqs, k, from, until, capacity, refillPerMs, Inflow(until - from, refillPerMs));
    IdealAdmits(b, reqs, k, from, until);
  }

  /** The run that empties the bucket twice admits two full buckets. */
  lemma EvictionRunAdmits(k: Key, capacity: real, refillPerMs: real)
    requires capacity > 0.0
    ensures MemoryAdmitted(EvictionRun(k, capacity, refillPerMs), k, 0, MEMORY_TTL_MS + 1) == capacity + capacity
  {
    var reqs := EvictionRun(k, capacity, refillPerMs);
    var answers := [Answer(true, 0.0), Answer(true, 0.0)];
    EvictionRunAnswers(k, capacity, refillPerMs);
    var last, answer := [reqs[2]], [answers[1]];
    assert reqs[1..][1..] == last && last[1..] == [] && answers[1..] == answer;
    assert Admitted(last, answer, k, 0, MEMORY_TTL_MS + 1) == capacity
              + Admitted(last[1..], answer[1..], k, 0, MEMORY_TTL_MS + 1);
    assert Admitted(reqs[1..], answer, k, 0, MEMORY_TTL_MS + 1) == Admitted(last, answer, k, 0, MEMORY_TTL_MS + 1);
  }

  lemma EvictionRunAnswers(k: Key, capacity: real, refillPerMs: real)
    requires capacity > 0.0
    ensures MemoryAnswers(map[], EvictionRun(k, capacity, refillPerMs), k) == [Answer(true, 0.0), Answer(true, 0.0)]
  {
    var reqs := EvictionRun(k, capacity, refillPerMs);
    var s1 := MemoryConsume(map[], reqs[0]).0;
    assert s1 == map[k := Bucket(0.0, 0)];
    var s2 := MemoryConsume(s1, reqs[1]).0;
    assert k !in s2;
    assert reqs[1..][1..] == [reqs[2]] && [reqs[2]][1..] == [];
    assert MemoryAnswers(map[], reqs, k) == [Answer(true, 0.0)] + MemoryAnswers(s1, reqs[1..], k);
    assert MemoryAnswers(s1, reqs[1..], k) == MemoryAnswers(s2, [reqs[2]], k);
    assert MemoryAnswers(s2, [reqs[2]], k) == [Answer(true, 0.0)];
  }

  lemma ExpiryRunAdmits(k: Key, capacity: real, refillPerMs: real)
    requires capacity > 0.0
    ensures RedisAdmitted(ExpiryRun(k, capacity, refillPerMs), k, 0, REDIS_TTL_MS + 1) == capacity + capacity
  {
    var reqs := ExpiryRun(k, capacity, refillPerMs);
    var answers := [Answer(true, 0.0), Answer(true, 0.0)];
    var s1 := RedisConsume(map[], reqs[0]).0;
    assert reqs[1..] == [reqs[1]] && [reqs[1]][1..] == [] && answers[1..] == [answers[1]];
    assert RedisAnswers(s1, [reqs[1]], k) == [Answer(true, 0.0)];
    assert RedisAnswers(map[], reqs, k) == answers;
    assert Admitted([reqs[1]], answers[1..], k, 0, REDIS_TTL_MS + 1) == capacity;
  }

  /**
   * Whatever other keys do in between, a key with a fixed configuration is admitted between any two
   * times no more than its burst limit plus the refill, if and only if that limit is at most ten
   * times the rate per minute.
   */
  lemma AdmissionBound(k: Key, requestsPerMinute: int, burstLimit: int)
    requires 1 <= requestsPerMinute <= MAX_RATE && burstLimit >= 1
    ensures MemoryBounded(k, burstLimit as real, PerMs(requestsPerMinute)) <==> burstLimit <= 10 * requestsPerMinute
  {
    var capacity, rate := burstLimit as real, PerMs(requestsPerMinute);
    if burstLimit <= 10 * requestsPerMinute {
      MemoryForgetsUnnoticed(k, requestsPerMinute, burstLimit);
      forall reqs, from, until | from <= until && ValidRun(reqs, k, capacity, rate)
        ensures MemoryAdmitted(reqs, k, from, until) <= capacity + Inflow(until - from, rate)
      {
        IdealBound(reqs, k, from, until, capacity, rate);
      }
    } else {
      assert Inflow(MEMORY_TTL_MS + 1, rate) == 10.0 * requestsPerMinute as real + rate;
      assert rate < 1.0;
      EvictionIsNoticed(k, capacity, rate);
      EvictionRunAdmits(k, capacity, rate);
    }
  }

  /** The same for the Redis script and twice the rate. */
  lemma RedisAdmissionBound(k: Key, requestsPerMinute: int, burstLimit: int)
    requires 1 <= requestsPerMinute <= MAX_RATE && burstLimit >= 1
    ensures RedisBounded(k, burstLimit as real, PerMs(requestsPerMinute)) <==> burstLimit <= 2 * requestsPerMinute
  {
    var capacity, rate := burstLimit as real, PerMs(requestsPerMinute);
    if burstLimit <= 2 * requestsPerMinute {
      RedisForgetsUnnoticed(k, requestsPerMinute, burstLimit);
      forall reqs, from, until | from <= until && ValidRun(reqs, k, capacity, rate)
        ensures RedisAdmitted(reqs, k, from, until) <= capacity + Inflow(until - from, rate)
      {
        IdealBound(reqs, k, from, until, capacity, rate);
      }
    } else {
      assert Inflow(REDIS_TTL_MS + 1, rate) == 2.0 * requestsPerMinute as real + rate;
      assert rate < 1.0;
      ExpiryIsNoticed(k, capacity, rate);
      ExpiryRunAdmits(k, capacity, rate);
    }
  }

  /** For every configuration, and whatever other keys do, the stored balance of a key stays in range. */
  lemma {:induction false} BalanceStaysInRange(
      buckets: Buckets, reqs: seq<Request>, k: Key, capacity: real, refillPerMs: real)
    requires ValidRun(reqs, k, capacity, refillPerMs) && capacity >= 0.0 && refillPerMs >= 0.0
    requires k in buckets ==> InRange(buckets[k], capacity)
    ensures k in MemoryAfter(buckets, reqs) ==> InRange(MemoryAfter(buckets, reqs)[k], capacity)
    decreases |reqs|
  {
    if reqs != [] {
      var q := reqs[0];
      ValidTail(reqs, k, capacity, refillPerMs);
      assert q in reqs;
      if q.key == k {
        SpendStaysInRange(if k in buckets then buckets[k] else Full(q), q);
      }
      BalanceStaysInRange(MemoryConsume(buckets, q).0, reqs[1..], k, capacity, refillPerMs);
    }
  }
}
