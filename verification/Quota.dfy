/** internal/pipeline/quota_store_local.go as functions of the bucket map: one admission by
    the evicting, bounded store, and one by a store that keeps every bucket for ever. */
module Quota {

  import opened Messages

  datatype Key = Key(policyName: string, keyScope: string, keyValue: string)

  datatype BucketConfig = BucketConfig(capacity: int, refillTokens: int, refillInterval: Duration)

  datatype Request = Request(key: Key, config: BucketConfig)

  datatype Bucket = Bucket(tokens: real, lastRefill: Time, lastSeen: Time)

  datatype Decision = Allowed | RateLimited | Overloaded | Unavailable

  type Buckets = map<Key, Bucket>

  predicate ValidRequest(r: Request) {
    && r.key.policyName != "" && r.key.keyScope != "" && r.key.keyValue != ""
    && r.config.capacity > 0 && r.config.refillTokens > 0 && r.config.refillInterval > 0
  }

  // ---- One admission ---------------------------------------------------------------------

  function RefillAmount(c: BucketConfig, elapsed: Duration): real
    requires c.refillInterval > 0
  {
    (elapsed as real) / (c.refillInterval as real) * (c.refillTokens as real)
  }

  function MinReal(a: real, b: real): real { if a < b then a else b }

  function Refilled(b: Bucket, c: BucketConfig, now: Time): Bucket
    requires c.refillInterval > 0
  {
    var elapsed := now - b.lastRefill;
    if elapsed <= 0 then b
    else Bucket(MinReal(c.capacity as real, b.tokens + RefillAmount(c, elapsed)), now, b.lastSeen)
  }

  /** The bucket the request draws from: refilled, or full if there is none. */
  function Ready(buckets: Buckets, r: Request, now: Time): Bucket
    requires r.config.refillInterval > 0
  {
    if r.key in buckets then Refilled(buckets[r.key], r.config, now).(lastSeen := now)
    else Bucket(r.config.capacity as real, now, now)
  }

  function Draw(b: Bucket): (Bucket, Decision) {
    if b.tokens < 1.0 then (b, RateLimited) else (b.(tokens := b.tokens - 1.0), Allowed)
  }

  /** The buckets that have been seen within the idle TTL. */
  function Live(buckets: Buckets, idleTTL: Duration, now: Time): Buckets {
    map k | k in buckets && now - buckets[k].lastSeen < idleTTL :: buckets[k]
  }

  function Admit(buckets: Buckets, maxKeys: int, idleTTL: Duration, r: Request, now: Time): (Buckets, Decision)
    requires r.config.refillInterval > 0
  {
    var live := Live(buckets, idleTTL, now);
    if r.key !in live && |live| >= maxKeys then (live, Overloaded)
    else
      var (after, decision) := Draw(Ready(live, r, now));
      (live[r.key := after], decision)
  }

  /** The reference: no eviction, no limit on keys. */
  function AdmitForever(buckets: Buckets, r: Request, now: Time): (Buckets, Decision)
    requires r.config.refillInterval > 0
  {
    var (after, decision) := Draw(Ready(buckets, r, now));
    (buckets[r.key := after], decision)
  }

  // ---- Runs ------------------------------------------------------------------------------

  /** The idle time after which a bucket is dropped is long enough to fill it. */
  predicate FillsWhileIdle(c: BucketConfig, idleTTL: Duration) {
    idleTTL * c.refillTokens >= c.capacity * c.refillInterval
  }

  datatype Store = Store(maxKeys: int, idleTTL: Duration)

  ghost predicate WellTimed(requests: seq<Request>, times: seq<Time>) {
    && |requests| == |times|
    && (forall i :: 0 <= i < |requests| ==> ValidRequest(requests[i]))
    && (forall i, j :: 0 <= i <= j < |times| ==> times[i] <= times[j])
  }

  /** The store's buckets after the first `n` requests. */
  ghost function After(s: Store, requests: seq<Request>, times: seq<Time>, n: nat): Buckets
    requires WellTimed(requests, times) && n <= |requests|
  {
    if n == 0 then map[]
    else Admit(After(s, requests, times, n - 1), s.maxKeys, s.idleTTL, requests[n - 1], times[n - 1]).0
  }

  ghost function DecisionAt(s: Store, requests: seq<Request>, times: seq<Time>, i: nat): Decision
    requires WellTimed(requests, times) && i < |requests|
  {
    Admit(After(s, requests, times, i), s.maxKeys, s.idleTTL, requests[i], times[i]).1
  }

  /** The reference's buckets after those of the first `n` requests that were not turned away
      for lack of room. */
  ghost function ForeverAfter(s: Store, requests: seq<Request>, times: seq<Time>, n: nat): Buckets
    requires WellTimed(requests, times) && n <= |requests|
  {
    if n == 0 then map[]
    else
      var before := ForeverAfter(s, requests, times, n - 1);
      if DecisionAt(s, requests, times, n - 1).Overloaded? then before
      else AdmitForever(before, requests[n - 1], times[n - 1]).0
  }

  ghost function ForeverDecisionAt(s: Store, requests: seq<Request>, times: seq<Time>, i: nat): Decision
    requires WellTimed(requests, times) && i < |requests|
  {
    AdmitForever(ForeverAfter(s, requests, times, i), requests[i], times[i]).1
  }

  // ---- Eviction cannot be observed -------------------------------------------------------

  /** Buckets hold no debt and, the clock never having run backwards, were refilled when last seen. */
  predicate Sane(b: Bucket, now: Time) {
    b.tokens >= 0.0 && b.lastRefill == b.lastSeen <= now
  }

  /** Of one key: what the evicting store holds is what the reference holds; if it has dropped
      the bucket, that has been idle for the TTL. */
  predicate AgreeAt(kept: Buckets, forever: Buckets, key: Key, idleTTL: Duration, now: Time) {
    && (key in kept ==> key in forever && kept[key] == forever[key])
    && (key in forever ==> Sane(forever[key], now))
    && (key in forever && key !in kept ==> now - forever[key].lastSeen >= idleTTL)
  }

  lemma RefillFills(c: BucketConfig, idleTTL: Duration, elapsed: Duration)
    requires c.refillTokens > 0 && c.refillInterval > 0 && FillsWhileIdle(c, idleTTL) && elapsed >= idleTTL
    ensures RefillAmount(c, elapsed) >= c.capacity as real
  {
    var t, i, cap, e := c.refillTokens, c.refillInterval, c.capacity, elapsed;
    assert e * t >= cap * i by {
      assert (e - idleTTL) * t >= 0;
    }
    RatioAtLeast(e, i, t, cap);
  }

  lemma RatioAtLeast(e: int, i: int, t: int, cap: int)
    requires i > 0 && e * t >= cap * i
    ensures (e as real) / (i as real) * (t as real) >= cap as real
  {
    var x := (e as real) / (i as real) * (t as real);
    assert x * (i as real) == (e as real) * (t as real) by {
      CancelDivision(e as real, i as real, t as real);
    }
    assert (e as real) * (t as real) == (e * t) as real;
    assert (cap as real) * (i as real) == (cap * i) as real;
    if x < cap as real {
      assert (cap as real - x) * (i as real) > 0.0;
    }
  }

  lemma CancelDivision(e: real, i: real, t: real)
    requires i != 0.0
    ensures e / i * t * i == e * t
  {
    assert e / i * i == e;
    assert e / i * t * i == (e / i * i) * t;
  }

  /** A bucket the store dropped has filled up by the time it is asked for again. */
  lemma ReadyAgrees(kept: Buckets, forever: Buckets, idleTTL: Duration, r: Request, now: Time)
    requires ValidRequest(r) && FillsWhileIdle(r.config, idleTTL) && idleTTL > 0
             && AgreeAt(kept, forever, r.key, idleTTL, now)
    ensures Ready(kept, r, now) == Ready(forever, r, now)
    ensures Sane(Ready(forever, r, now), now)
  {
    if r.key in forever {
      var b := forever[r.key];
      if r.key !in kept {
        RefillFills(r.config, idleTTL, now - b.lastRefill);
      } else if now > b.lastRefill {
        RefillPositive(r.config, now - b.lastRefill);
      }
    }
  }

  lemma RefillPositive(c: BucketConfig, elapsed: Duration)
    requires c.refillTokens > 0 && c.refillInterval > 0 && elapsed >= 0
    ensures RefillAmount(c, elapsed) >= 0.0
  {
    assert (elapsed as real) / (c.refillInterval as real) >= 0.0;
  }

  lemma EvictAgrees(kept: Buckets, forever: Buckets, key: Key, idleTTL: Duration, was: Time, now: Time)
    requires AgreeAt(kept, forever, key, idleTTL, was) && was <= now
    ensures AgreeAt(Live(kept, idleTTL, now), forever, key, idleTTL, now)
  {
  }

  /** A request of the key itself: the two stores answer alike and stay in agreement on it,
      unless there is no room. */
  lemma AdmitAgrees(s: Store, kept: Buckets, forever: Buckets, r: Request, was: Time, now: Time)
    requires ValidRequest(r) && FillsWhileIdle(r.config, s.idleTTL) && s.idleTTL > 0
    requires AgreeAt(kept, forever, r.key, s.idleTTL, was) && was <= now
    ensures var (kept', decision) := Admit(kept, s.maxKeys, s.idleTTL, r, now);
            var (forever', reference) := AdmitForever(forever, r, now);
            if decision.Overloaded? then AgreeAt(kept', forever, r.key, s.idleTTL, now)
            else decision == reference && AgreeAt(kept', forever', r.key, s.idleTTL, now)
  {
    EvictAgrees(kept, forever, r.key, s.idleTTL, was, now);
    ReadyAgrees(Live(kept, s.idleTTL, now), forever, s.idleTTL, r, now);
  }

  /** A request of another key, whatever its limits, leaves the agreement on this one. */
  lemma OtherAgrees(s: Store, kept: Buckets, forever: Buckets, r: Request, key: Key, was: Time, now: Time)
    requires ValidRequest(r) && r.key != key && AgreeAt(kept, forever, key, s.idleTTL, was) && was <= now
    ensures var kept' := Admit(kept, s.maxKeys, s.idleTTL, r, now).0;
            && AgreeAt(kept', forever, key, s.idleTTL, now)
            && AgreeAt(kept', AdmitForever(forever, r, now).0, key, s.idleTTL, now)
  {
    EvictAgrees(kept, forever, key, s.idleTTL, was, now);
  }

  /** Time before the n-th request. */
  function Since(times: seq<Time>, n: nat): Time
    requires n <= |times| && times != []
  {
    if n == 0 then times[0] else times[n - 1]
  }

  /** Whenever the key asks, its bucket would fill within the idle TTL. */
  ghost predicate KeyFills(requests: seq<Request>, key: Key, idleTTL: Duration) {
    forall j :: 0 <= j < |requests| && requests[j].key == key ==> FillsWhileIdle(requests[j].config, idleTTL)
  }

  lemma {:induction false} RunsAgree(s: Store, requests: seq<Request>, times: seq<Time>, key: Key, n: nat)
    requires WellTimed(requests, times) && s.idleTTL > 0 && n <= |requests| && requests != []
    requires KeyFills(requests, key, s.idleTTL)
    ensures AgreeAt(After(s, requests, times, n), ForeverAfter(s, requests, times, n), key, s.idleTTL, Since(times, n))
  {
    if n > 0 {
      RunsAgree(s, requests, times, key, n - 1);
      AgreeStep(s, requests, times, key, n);
    }
  }

  lemma AgreeStep(s: Store, requests: seq<Request>, times: seq<Time>, key: Key, n: nat)
    requires WellTimed(requests, times) && s.idleTTL > 0 && 0 < n <= |requests| && KeyFills(requests, key, s.idleTTL)
    requires AgreeAt(After(s, requests, times, n - 1), ForeverAfter(s, requests, times, n - 1), key, s.idleTTL,
                     Since(times, n - 1))
    ensures AgreeAt(After(s, requests, times, n), ForeverAfter(s, requests, times, n), key, s.idleTTL, Since(times, n))
  {
    var kept, forever := After(s, requests, times, n - 1), ForeverAfter(s, requests, times, n - 1);
    if requests[n - 1].key == key {
      AdmitAgrees(s, kept, forever, requests[n - 1], Since(times, n - 1), times[n - 1]);
    } else {
      OtherAgrees(s, kept, forever, requests[n - 1], key, Since(times, n - 1), times[n - 1]);
    }
  }

  /** As long as a key's idle bucket fills up before it is dropped, every decision on the key
      other than Overloaded is the one a store that never evicts would make, whatever the limits
      of the other keys. */
  lemma EvictionUnobservable(s: Store, requests: seq<Request>, times: seq<Time>, i: nat)
    requires WellTimed(requests, times) && s.idleTTL > 0 && i < |requests|
    requires KeyFills(requests, requests[i].key, s.idleTTL)
    requires !DecisionAt(s, requests, times, i).Overloaded?
    ensures DecisionAt(s, requests, times, i) == ForeverDecisionAt(s, requests, times, i)
  {
    RunsAgree(s, requests, times, requests[i].key, i);
    AdmitAgrees(s, After(s, requests, times, i), ForeverAfter(s, requests, times, i), requests[i], Since(times, i),
                times[i]);
  }

  // ---- And the condition is exact --------------------------------------------------------

  function ProbeTime(r: Request, idleTTL: Duration, t: Time, i: nat): Time {
    if i < r.config.capacity then t else t + idleTTL
  }

  /** Drain a bucket, wait just the idle TTL, and drain it again. */
  predicate IsProbe(requests: seq<Request>, times: seq<Time>, r: Request, idleTTL: Duration, t: Time) {
    && |requests| == |times| == 2 * r.config.capacity
    && (forall i :: 0 <= i < |requests| ==> requests[i] == r)
    && (forall i :: 0 <= i < |times| ==> times[i] == ProbeTime(r, idleTTL, t, i))
  }

  lemma ProbeTimed(requests: seq<Request>, times: seq<Time>, r: Request, idleTTL: Duration, t: Time)
    requires ValidRequest(r) && idleTTL > 0 && IsProbe(requests, times, r, idleTTL, t)
    ensures WellTimed(requests, times)
  {
  }

  /** What the evicting store holds after `n` requests of the probe: every time the bucket is
      about to be empty, it is replaced by a full one. */
  function Granting(s: Store, r: Request, t: Time, n: nat): Buckets {
    var cap := r.config.capacity;
    if n == 0 then map[]
    else if n <= cap then map[r.key := Bucket((cap - n) as real, t, t)]
    else map[r.key := Bucket((2 * cap - n) as real, t + s.idleTTL, t + s.idleTTL)]
  }

  lemma GrantingStep(s: Store, r: Request, t: Time, n: nat)
    requires ValidRequest(r) && s.idleTTL > 0 && s.maxKeys > 0 && n < 2 * r.config.capacity
    ensures Admit(Granting(s, r, t, n), s.maxKeys, s.idleTTL, r, ProbeTime(r, s.idleTTL, t, n))
            == (Granting(s, r, t, n + 1), Allowed)
  {
    var cap, before, now := r.config.capacity, Granting(s, r, t, n), ProbeTime(r, s.idleTTL, t, n);
    var live := Live(before, s.idleTTL, now);
    if n == 0 || n == cap {
      assert live == map[];
      assert |live| == 0;
    } else {
      assert live == before;
    }
    assert live[r.key := Granting(s, r, t, n + 1)[r.key]] == Granting(s, r, t, n + 1);
  }

  lemma {:induction false} ProbeGranted(s: Store, requests: seq<Request>, times: seq<Time>, r: Request, t: Time, n: nat)
    requires ValidRequest(r) && s.idleTTL > 0 && s.maxKeys > 0 && n <= |requests|
    requires IsProbe(requests, times, r, s.idleTTL, t) && WellTimed(requests, times)
    ensures After(s, requests, times, n) == Granting(s, r, t, n)
  {
    if n > 0 {
      ProbeGranted(s, requests, times, r, t, n - 1);
      GrantingStep(s, r, t, n - 1);
    }
  }

  /** The evicting store grants the whole capacity twice. */
  lemma ProbeAllowed(s: Store, requests: seq<Request>, times: seq<Time>, r: Request, t: Time, i: nat)
    requires ValidRequest(r) && s.idleTTL > 0 && s.maxKeys > 0 && i < |requests|
    requires IsProbe(requests, times, r, s.idleTTL, t) && WellTimed(requests, times)
    ensures DecisionAt(s, requests, times, i).Allowed?
  {
    ProbeGranted(s, requests, times, r, t, i);
    GrantingStep(s, r, t, i);
  }

  /** What the reference holds: `x` is the refill of one idle TTL. */
  predicate Draining(b: Buckets, r: Request, t: Time, idleTTL: Duration, x: real, n: nat) {
    var cap := r.config.capacity;
    if n == 0 then b == map[]
    else
      && r.key in b
      && if n <= cap then b[r.key] == Bucket((cap - n) as real, t, t)
         else b[r.key].lastRefill == t + idleTTL && (b[r.key].tokens < 1.0 || b[r.key].tokens <= x - (n - cap) as real)
  }

  lemma DrainingStep(b: Buckets, r: Request, t: Time, idleTTL: Duration, n: nat)
    requires ValidRequest(r) && idleTTL > 0 && n < 2 * r.config.capacity
    requires Draining(b, r, t, idleTTL, RefillAmount(r.config, idleTTL), n)
    ensures Draining(AdmitForever(b, r, ProbeTime(r, idleTTL, t, n)).0, r, t, idleTTL, RefillAmount(r.config, idleTTL),
                     n + 1)
  {
    RefillPositive(r.config, idleTTL);
  }

  lemma ForeverStep(s: Store, requests: seq<Request>, times: seq<Time>, n: nat)
    requires WellTimed(requests, times) && n < |requests| && !DecisionAt(s, requests, times, n).Overloaded?
    ensures ForeverAfter(s, requests, times, n + 1)
            == AdmitForever(ForeverAfter(s, requests, times, n), requests[n], times[n]).0
  {
  }

  lemma {:induction false} ProbeDrains(s: Store, requests: seq<Request>, times: seq<Time>, r: Request, t: Time, n: nat)
    requires ValidRequest(r) && s.idleTTL > 0 && s.maxKeys > 0 && n <= |requests|
    requires IsProbe(requests, times, r, s.idleTTL, t) && WellTimed(requests, times)
    ensures Draining(ForeverAfter(s, requests, times, n), r, t, s.idleTTL, RefillAmount(r.config, s.idleTTL), n)
  {
    if n > 0 {
      ProbeDrains(s, requests, times, r, t, n - 1);
      ProbeDrainsOnce(s, requests, times, r, t, n);
    }
  }

  lemma ProbeDrainsOnce(s: Store, requests: seq<Request>, times: seq<Time>, r: Request, t: Time, n: nat)
    requires ValidRequest(r) && s.idleTTL > 0 && s.maxKeys > 0 && 0 < n <= |requests|
    requires IsProbe(requests, times, r, s.idleTTL, t) && WellTimed(requests, times)
    requires Draining(ForeverAfter(s, requests, times, n - 1), r, t, s.idleTTL, RefillAmount(r.config, s.idleTTL),
                      n - 1)
    ensures Draining(ForeverAfter(s, requests, times, n), r, t, s.idleTTL, RefillAmount(r.config, s.idleTTL), n)
  {
    ProbeAllowed(s, requests, times, r, t, n - 1);
    ForeverStep(s, requests, times, n - 1);
    DrainingStep(ForeverAfter(s, requests, times, n - 1), r, t, s.idleTTL, n - 1);
  }

  lemma RatioBelow(e: int, i: int, t: int, cap: int)
    requires i > 0 && e * t < cap * i
    ensures (e as real) / (i as real) * (t as real) < cap as real
  {
    var x := (e as real) / (i as real) * (t as real);
    assert x * (i as real) == (e as real) * (t as real) by {
      CancelDivision(e as real, i as real, t as real);
    }
    assert (e as real) * (t as real) == (e * t) as real;
    assert (cap as real) * (i as real) == (cap * i) as real;
    assert x >= cap as real ==> x * (i as real) >= (cap as real) * (i as real);
  }

  /** For every configuration that does not fill up while idle, this run shows the eviction:
      at its end the store allows a request that the reference refuses. */
  lemma EvictionObservable(s: Store, requests: seq<Request>, times: seq<Time>, r: Request, t: Time)
    requires ValidRequest(r) && s.idleTTL > 0 && s.maxKeys > 0 && !FillsWhileIdle(r.config, s.idleTTL)
    requires IsProbe(requests, times, r, s.idleTTL, t)
    ensures WellTimed(requests, times) && requests != []
    ensures DecisionAt(s, requests, times, |requests| - 1).Allowed?
    ensures ForeverDecisionAt(s, requests, times, |requests| - 1).RateLimited?
  {
    ProbeTimed(requests, times, r, s.idleTTL, t);
    ProbeAllowed(s, requests, times, r, t, |requests| - 1);
    Unfilled(r.config, s.idleTTL);
    ProbeRefused(s, requests, times, r, t);
  }

  lemma Unfilled(c: BucketConfig, idleTTL: Duration)
    requires c.refillInterval > 0 && !FillsWhileIdle(c, idleTTL)
    ensures RefillAmount(c, idleTTL) < c.capacity as real
  {
    RatioBelow(idleTTL, c.refillInterval, c.refillTokens, c.capacity);
  }

  lemma ProbeRefused(s: Store, requests: seq<Request>, times: seq<Time>, r: Request, t: Time)
    requires ValidRequest(r) && s.idleTTL > 0 && s.maxKeys > 0
             && RefillAmount(r.config, s.idleTTL) < r.config.capacity as real
    requires IsProbe(requests, times, r, s.idleTTL, t) && WellTimed(requests, times)
    ensures requests != [] && ForeverDecisionAt(s, requests, times, |requests| - 1).RateLimited?
  {
    var last := |requests| - 1;
    ProbeDrains(s, requests, times, r, t, last);
    RunsDry(ForeverAfter(s, requests, times, last), r, t, s.idleTTL);
  }

  /** The probe exists for every request and starting time. */
  lemma ProbeExists(r: Request, idleTTL: Duration, t: Time) returns (requests: seq<Request>, times: seq<Time>)
    requires ValidRequest(r)
    ensures IsProbe(requests, times, r, idleTTL, t)
  {
    requests := seq(2 * r.config.capacity, _ => r);
    times := seq(2 * r.config.capacity, i => if i < r.config.capacity then t else t + idleTTL);
  }

  lemma RunsDry(b: Buckets, r: Request, t: Time, idleTTL: Duration)
    requires ValidRequest(r) && idleTTL > 0 && RefillAmount(r.config, idleTTL) < r.config.capacity as real
    requires Draining(b, r, t, idleTTL, RefillAmount(r.config, idleTTL), 2 * r.config.capacity - 1)
    ensures AdmitForever(b, r, t + idleTTL).1.RateLimited?
  {
  }

  // ---- The rate bound --------------------------------------------------------------------

  /** Requests of one key that the store allowed among those numbered from `i` to `n`. */
  ghost function AllowedBetween(s: Store, requests: seq<Request>, times: seq<Time>, key: Key, i: nat, n: nat): nat
    requires WellTimed(requests, times) && i <= n <= |requests|
    decreases n - i
  {
    if n == i then 0
    else
      var granted := if requests[n - 1].key == key && DecisionAt(s, requests, times, n - 1).Allowed? then 1 else 0;
      AllowedBetween(s, requests, times, key, i, n - 1) + granted
  }

  /** A key served since `start` has spent, together with what its bucket still holds, no
      more than the capacity and the refill since then. */
  predicate Budget(b: Buckets, key: Key, c: BucketConfig, start: Time, spent: nat)
    requires c.refillInterval > 0
  {
    if key in b && b[key].lastRefill >= start then
      spent as real + b[key].tokens <= c.capacity as real + RefillAmount(c, b[key].lastRefill - start)
    else spent == 0
  }

  predicate SaneAt(b: Buckets, key: Key, now: Time) { key in b ==> Sane(b[key], now) }

  /** Serving the key once keeps the budget. */
  lemma ServeBudget(b: Buckets, r: Request, start: Time, spent: nat, was: Time, now: Time)
    requires ValidRequest(r) && SaneAt(b, r.key, was) && was <= now && start <= now
    requires Budget(b, r.key, r.config, start, spent)
    ensures var (b', decision) := AdmitForever(b, r, now);
            Budget(b', r.key, r.config, start, spent + if decision.Allowed? then 1 else 0)
  {
    var c := r.config;
    RefillPositive(c, now - start);
    if r.key in b && b[r.key].lastRefill >= start {
      RefillAdds(c, b[r.key].lastRefill - start, now - b[r.key].lastRefill);
    }
  }

  lemma RefillAdds(c: BucketConfig, x: Duration, y: Duration)
    requires c.refillInterval > 0
    ensures RefillAmount(c, x) + RefillAmount(c, y) == RefillAmount(c, x + y)
  {
    var i, t := c.refillInterval as real, c.refillTokens as real;
    assert (x as real) / i + (y as real) / i == ((x + y) as real) / i;
    assert (x as real) / i * t + (y as real) / i * t == ((x as real) / i + (y as real) / i) * t;
  }

  /** The key is always limited alike. */
  ghost predicate SteadyLimits(requests: seq<Request>, key: Key, c: BucketConfig) {
    forall j :: 0 <= j < |requests| && requests[j].key == key ==> requests[j].config == c
  }

  /** The key is always limited alike, by a bucket that fills within the idle TTL. */
  ghost predicate FillingLimits(s: Store, requests: seq<Request>, key: Key, c: BucketConfig) {
    s.idleTTL > 0 && c.refillInterval > 0 && FillsWhileIdle(c, s.idleTTL) && SteadyLimits(requests, key, c)
  }

  ghost predicate Budgeted(s: Store, requests: seq<Request>, times: seq<Time>, key: Key, c: BucketConfig, i: nat,
                           n: nat)
    requires WellTimed(requests, times) && i <= n <= |requests| && i < |requests| && c.refillInterval > 0
  {
    Budget(ForeverAfter(s, requests, times, n), key, c, times[i], AllowedBetween(s, requests, times, key, i, n))
  }

  lemma ServedAlike(s: Store, requests: seq<Request>, times: seq<Time>, n: nat)
    requires WellTimed(requests, times) && n < |requests| && s.idleTTL > 0
    requires KeyFills(requests, requests[n].key, s.idleTTL) && !DecisionAt(s, requests, times, n).Overloaded?
    ensures SaneAt(ForeverAfter(s, requests, times, n), requests[n].key, Since(times, n))
    ensures DecisionAt(s, requests, times, n) == ForeverDecisionAt(s, requests, times, n)
  {
    RunsAgree(s, requests, times, requests[n].key, n);
    EvictionUnobservable(s, requests, times, n);
  }

  lemma BudgetStep(s: Store, requests: seq<Request>, times: seq<Time>, key: Key, c: BucketConfig, i: nat, n: nat)
    requires WellTimed(requests, times) && i < n <= |requests| && FillingLimits(s, requests, key, c)
    requires Budgeted(s, requests, times, key, c, i, n - 1)
    ensures Budgeted(s, requests, times, key, c, i, n)
  {
    if requests[n - 1].key == key && !DecisionAt(s, requests, times, n - 1).Overloaded? {
      ServedAlike(s, requests, times, n - 1);
      BudgetServed(s, requests, times, i, n);
    } else {
      BudgetUntouched(s, requests, times, key, c, i, n);
    }
  }

  lemma {:induction false} RunBudgeted(s: Store, requests: seq<Request>, times: seq<Time>, key: Key, c: BucketConfig,
                                       i: nat, n: nat)
    requires WellTimed(requests, times) && i <= n <= |requests| && i < |requests| && FillingLimits(s, requests, key, c)
    ensures Budgeted(s, requests, times, key, c, i, n)
    decreases n
  {
    if n == i {
      BudgetStart(s, requests, times, key, c, i);
    } else {
      RunBudgeted(s, requests, times, key, c, i, n - 1);
      BudgetStep(s, requests, times, key, c, i, n);
    }
  }

  lemma BudgetServed(s: Store, requests: seq<Request>, times: seq<Time>, i: nat, n: nat)
    requires WellTimed(requests, times) && i < n <= |requests| && !DecisionAt(s, requests, times, n - 1).Overloaded?
    requires SaneAt(ForeverAfter(s, requests, times, n - 1), requests[n - 1].key, Since(times, n - 1))
    requires DecisionAt(s, requests, times, n - 1) == ForeverDecisionAt(s, requests, times, n - 1)
    requires Budgeted(s, requests, times, requests[n - 1].key, requests[n - 1].config, i, n - 1)
    ensures Budgeted(s, requests, times, requests[n - 1].key, requests[n - 1].config, i, n)
  {
    var r := requests[n - 1];
    ForeverStep(s, requests, times, n - 1);
    BudgetMoves(ForeverAfter(s, requests, times, n - 1), ForeverAfter(s, requests, times, n), r, times[i],
                AllowedBetween(s, requests, times, r.key, i, n - 1), AllowedBetween(s, requests, times, r.key, i, n),
                Since(times, n - 1), times[n - 1]);
  }

  lemma BudgetMoves(b: Buckets, b': Buckets, r: Request, start: Time, spent: nat, spent': nat, was: Time, now: Time)
    requires ValidRequest(r) && SaneAt(b, r.key, was) && was <= now && start <= now
             && Budget(b, r.key, r.config, start, spent)
    requires b' == AdmitForever(b, r, now).0 && spent' == spent + if AdmitForever(b, r, now).1.Allowed? then 1 else 0
    ensures Budget(b', r.key, r.config, start, spent')
  {
    ServeBudget(b, r, start, spent, was, now);
  }

  lemma BudgetUntouched(s: Store, requests: seq<Request>, times: seq<Time>, key: Key, c: BucketConfig, i: nat, n: nat)
    requires WellTimed(requests, times) && i < n <= |requests| && c.refillInterval > 0
    requires requests[n - 1].key != key || DecisionAt(s, requests, times, n - 1).Overloaded?
    requires Budgeted(s, requests, times, key, c, i, n - 1)
    ensures Budgeted(s, requests, times, key, c, i, n)
  {
    KeyUntouched(s, requests, times, key, n - 1);
    UntouchedCount(s, requests, times, key, i, n);
    SameBudget(ForeverAfter(s, requests, times, n - 1), ForeverAfter(s, requests, times, n), key, c, times[i],
               AllowedBetween(s, requests, times, key, i, n - 1));
  }

  lemma UntouchedCount(s: Store, requests: seq<Request>, times: seq<Time>, key: Key, i: nat, n: nat)
    requires WellTimed(requests, times) && i < n <= |requests|
    requires requests[n - 1].key != key || DecisionAt(s, requests, times, n - 1).Overloaded?
    ensures AllowedBetween(s, requests, times, key, i, n) == AllowedBetween(s, requests, times, key, i, n - 1)
  {
  }

  lemma SameBudget(b: Buckets, b': Buckets, key: Key, c: BucketConfig, start: Time, spent: nat)
    requires c.refillInterval > 0 && (key in b <==> key in b') && (key in b ==> b'[key] == b[key])
    requires Budget(b, key, c, start, spent)
    ensures Budget(b', key, c, start, spent)
  {
  }

  lemma KeyUntouched(s: Store, requests: seq<Request>, times: seq<Time>, key: Key, n: nat)
    requires WellTimed(requests, times) && n < |requests|
    requires requests[n].key != key || DecisionAt(s, requests, times, n).Overloaded?
    ensures var b, b' := ForeverAfter(s, requests, times, n), ForeverAfter(s, requests, times, n + 1);
            (key in b <==> key in b') && (key in b ==> b'[key] == b[key])
  {
  }

  /** At the start of the window nothing is spent; a bucket refilled at that very instant
      holds at most the capacity. */
  lemma NothingSpent(s: Store, requests: seq<Request>, times: seq<Time>, key: Key, c: BucketConfig, i: nat)
    requires WellTimed(requests, times) && i < |requests| && FillingLimits(s, requests, key, c)
    ensures Budget(ForeverAfter(s, requests, times, i), key, c, times[i], 0)
  {
    WithinCapacity(s, requests, times, key, c, i);
    var b := ForeverAfter(s, requests, times, i);
    if key in b && b[key].lastRefill >= times[i] {
      RefillPositive(c, b[key].lastRefill - times[i]);
    }
  }

  lemma BudgetStart(s: Store, requests: seq<Request>, times: seq<Time>, key: Key, c: BucketConfig, i: nat)
    requires WellTimed(requests, times) && i < |requests| && FillingLimits(s, requests, key, c)
    ensures Budgeted(s, requests, times, key, c, i, i)
  {
    NothingSpent(s, requests, times, key, c, i);
  }

  lemma {:induction false} WithinCapacity(s: Store, requests: seq<Request>, times: seq<Time>, key: Key,
                                          c: BucketConfig, n: nat)
    requires WellTimed(requests, times) && n <= |requests| && c.refillInterval > 0
    requires SteadyLimits(requests, key, c)
    ensures var b := ForeverAfter(s, requests, times, n);
            key in b ==> b[key].tokens <= c.capacity as real && c.capacity > 0 && c.refillTokens > 0
  {
    if n > 0 {
      WithinCapacity(s, requests, times, key, c, n - 1);
    }
  }

  /** At every point of a run the store's bucket of a key holds between none and its capacity. */
  lemma {:induction false} TokensWithinCapacity(s: Store, requests: seq<Request>, times: seq<Time>, key: Key,
                                                c: BucketConfig, n: nat)
    requires WellTimed(requests, times) && n <= |requests| && SteadyLimits(requests, key, c)
    ensures var b := After(s, requests, times, n);
            key in b ==> 0.0 <= b[key].tokens <= c.capacity as real
  {
    if n > 0 {
      TokensWithinCapacity(s, requests, times, key, c, n - 1);
      AdmitWithin(After(s, requests, times, n - 1), s, requests[n - 1], key, times[n - 1], c);
    }
  }

  lemma AdmitWithin(b: Buckets, s: Store, r: Request, key: Key, now: Time, c: BucketConfig)
    requires ValidRequest(r) && (r.key == key ==> r.config == c)
    requires key in b ==> 0.0 <= b[key].tokens <= c.capacity as real
    ensures var b' := Admit(b, s.maxKeys, s.idleTTL, r, now).0;
            key in b' ==> 0.0 <= b'[key].tokens <= c.capacity as real
  {
    if r.key == key && key in b && now > b[key].lastRefill {
      RefillPositive(c, now - b[key].lastRefill);
    }
  }

  /** In every window of every run a key whose bucket fills within the idle TTL is allowed at
      most its capacity plus the refill of the elapsed time, whatever the other keys do. */
  lemma RateBound(s: Store, requests: seq<Request>, times: seq<Time>, key: Key, c: BucketConfig, i: nat, n: nat)
    requires WellTimed(requests, times) && i < n <= |requests| && FillingLimits(s, requests, key, c)
    requires c.refillTokens > 0 && c.capacity > 0
    ensures AllowedBetween(s, requests, times, key, i, n) as real
              <= c.capacity as real + RefillAmount(c, times[n - 1] - times[i])
  {
    RunBudgeted(s, requests, times, key, c, i, n);
    RunsAgree(s, requests, times, key, n);
    BudgetBounds(ForeverAfter(s, requests, times, n), key, c, times[i], times[n - 1],
                 AllowedBetween(s, requests, times, key, i, n));
  }

  lemma BudgetBounds(b: Buckets, key: Key, c: BucketConfig, start: Time, end: Time, spent: nat)
    requires c.refillInterval > 0 && c.refillTokens > 0 && c.capacity > 0 && start <= end
    requires Budget(b, key, c, start, spent) && SaneAt(b, key, end)
    ensures spent as real <= c.capacity as real + RefillAmount(c, end - start)
  {
    RefillPositive(c, end - start);
    if key in b && b[key].lastRefill >= start {
      RefillAdds(c, b[key].lastRefill - start, end - b[key].lastRefill);
      RefillPositive(c, end - b[key].lastRefill);
    }
  }

  lemma {:induction false} ProbeCount(s: Store, requests: seq<Request>, times: seq<Time>, r: Request, t: Time, n: nat)
    requires ValidRequest(r) && s.idleTTL > 0 && s.maxKeys > 0 && n <= |requests|
    requires IsProbe(requests, times, r, s.idleTTL, t) && WellTimed(requests, times)
    ensures AllowedBetween(s, requests, times, r.key, 0, n) == n
  {
    if n > 0 {
      ProbeCount(s, requests, times, r, t, n - 1);
      ProbeAllowed(s, requests, times, r, t, n - 1);
    }
  }

  /** Where idle buckets are dropped before they fill, the same run breaks the bound. */
  lemma RateBoundExceeded(s: Store, requests: seq<Request>, times: seq<Time>, r: Request, t: Time)
    requires ValidRequest(r) && s.idleTTL > 0 && s.maxKeys > 0 && !FillsWhileIdle(r.config, s.idleTTL)
    requires IsProbe(requests, times, r, s.idleTTL, t)
    ensures WellTimed(requests, times) && requests != []
    ensures AllowedBetween(s, requests, times, r.key, 0, |requests|) as real
              > r.config.capacity as real + RefillAmount(r.config, times[|times| - 1] - times[0])
  {
    ProbeTimed(requests, times, r, s.idleTTL, t);
    ProbeCount(s, requests, times, r, t, |requests|);
    TwiceTooMany(r.config, s.idleTTL);
    assert times[|times| - 1] - times[0] == s.idleTTL;
  }

  lemma TwiceTooMany(c: BucketConfig, idleTTL: Duration)
    requires c.capacity > 0 && c.refillInterval > 0 && !FillsWhileIdle(c, idleTTL)
    ensures (2 * c.capacity) as real > c.capacity as real + RefillAmount(c, idleTTL)
  {
    Unfilled(c, idleTTL);
  }
}
