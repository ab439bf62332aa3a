/** internal/pipeline/quota_store_redis.go: the admission script on one key, for every
    sequence of clock readings, backward ones included. */
module RedisQuota {

  import opened Messages
  import Quota

  /** The script's whole-number arguments; the clock counts microseconds. */
  datatype Limits = Limits(capacity: int, refillTokens: int, intervalMicros: int, ttlMillis: int)

  /** The two fields of the key's hash, each present or not. */
  datatype Fields = Fields(tokens: Option<real>, lastRefill: Option<int>)

  datatype Reply = Refused | Granted | Invalid

  const ABSENT := Fields(None, None)

  predicate ValidLimits(l: Limits) {
    l.capacity > 0 && l.refillTokens > 0 && l.intervalMicros > 0 && l.ttlMillis > 0
  }

  function Refill(l: Limits, elapsed: int): real
    requires l.intervalMicros > 0
  {
    ((elapsed * l.refillTokens) as real) / (l.intervalMicros as real)
  }

  function Script(f: Fields, l: Limits, reading: int): (Fields, Reply) {
    if !ValidLimits(l) || f.tokens.Some? != f.lastRefill.Some? then (f, Invalid)
    else
      var stored := if f.tokens.Some? then f.tokens.value else l.capacity as real;
      var last := if f.lastRefill.Some? then f.lastRefill.value else reading;
      var now := if reading < last then last else reading;
      var capped := Quota.MinReal(l.capacity as real, stored);
      var tokens := if now > last then Quota.MinReal(l.capacity as real, capped + Refill(l, now - last)) else capped;
      if tokens >= 1.0 then (Fields(Some(tokens - 1.0), Some(now)), Granted)
      else (Fields(Some(tokens), Some(now)), Refused)
  }

  // ---- Runs over arbitrary readings ------------------------------------------------------

  function After(l: Limits, readings: seq<int>): Fields {
    if readings == [] then ABSENT
    else Script(After(l, readings[..|readings| - 1]), l, readings[|readings| - 1]).0
  }

  function GrantedIn(l: Limits, readings: seq<int>): nat {
    if readings == [] then 0
    else
      var before := readings[..|readings| - 1];
      GrantedIn(l, before) + if Script(After(l, before), l, readings[|readings| - 1]).1.Granted? then 1 else 0
  }

  /** The latest clock reading so far. */
  function Latest(readings: seq<int>): int
    requires readings != []
    ensures Latest(readings) in readings && forall r :: r in readings ==> r <= Latest(readings)
  {
    var last := readings[|readings| - 1];
    if |readings| == 1 then last
    else
      var before := readings[..|readings| - 1];
      assert readings == before + [last];
      if Latest(before) > last then Latest(before) else last
  }

  /** What a key keeps: a token count between zero and the capacity, the latest reading as its
      refill time, and grants paid for by the capacity and the refill since the first call. */
  predicate Paid(f: Fields, l: Limits, first: int, latest: int, granted: nat)
    requires ValidLimits(l)
  {
    && f.tokens.Some? && f.lastRefill == Some(latest) && first <= latest
    && 0.0 <= f.tokens.value <= l.capacity as real
    && granted as real + f.tokens.value <= l.capacity as real + Refill(l, latest - first)
  }

  lemma RefillAdds(l: Limits, x: int, y: int)
    requires ValidLimits(l)
    ensures Refill(l, x) + Refill(l, y) == Refill(l, x + y)
  {
    assert (x + y) * l.refillTokens == x * l.refillTokens + y * l.refillTokens;
    assert ((x * l.refillTokens) as real) + ((y * l.refillTokens) as real) == ((x + y) * l.refillTokens) as real;
    Divides((x * l.refillTokens) as real, (y * l.refillTokens) as real, l.intervalMicros as real);
  }

  lemma Divides(a: real, b: real, c: real)
    requires c > 0.0
    ensures a / c + b / c == (a + b) / c
  {
  }

  lemma RefillPositive(l: Limits, x: int)
    requires ValidLimits(l) && x >= 0
    ensures Refill(l, x) >= 0.0
  {
    assert x * l.refillTokens >= 0;
  }

  lemma ScriptPays(f: Fields, l: Limits, first: int, latest: int, granted: nat, reading: int)
    requires ValidLimits(l) && Paid(f, l, first, latest, granted)
    ensures var (f', reply) := Script(f, l, reading);
            && !reply.Invalid?
            && Paid(f', l, first, if reading < latest then latest else reading,
                    granted + if reply.Granted? then 1 else 0)
  {
    if reading > latest {
      RefillAdds(l, latest - first, reading - latest);
      RefillPositive(l, reading - latest);
    }
  }

  /** The tokens a key holds after any calls. */
  predicate InRange(f: Fields, l: Limits) {
    && f.tokens.Some? == f.lastRefill.Some?
    && (f.tokens.Some? ==> 0.0 <= f.tokens.value <= l.capacity as real)
  }

  /** For every sequence of clock readings, forward or backward, the token count stays between
      zero and the capacity, and the refill time is the latest reading. */
  lemma {:induction false} TokensInRange(l: Limits, readings: seq<int>)
    requires ValidLimits(l)
    ensures InRange(After(l, readings), l)
    ensures readings != [] ==> After(l, readings).lastRefill == Some(Latest(readings))
  {
    if readings != [] {
      var last := |readings| - 1;
      TokensInRange(l, readings[..last]);
      ScriptInRange(After(l, readings[..last]), l, readings[last]);
      assert last == 0 ==> readings[..last] == [];
    }
  }

  lemma ScriptInRange(f: Fields, l: Limits, reading: int)
    requires ValidLimits(l) && InRange(f, l)
    ensures var f' := Script(f, l, reading).0;
            && InRange(f', l)
            && f'.lastRefill == Some(if f.lastRefill.Some? && reading < f.lastRefill.value then f.lastRefill.value
                                     else reading)
  {
    if f.lastRefill.Some? && reading > f.lastRefill.value {
      RefillPositive(l, reading - f.lastRefill.value);
    }
  }

  /** The grants of the calls from number `i` on. */
  function GrantedSince(l: Limits, readings: seq<int>, i: nat): int
    requires i <= |readings|
  {
    GrantedIn(l, readings) - GrantedIn(l, readings[..i])
  }

  /** The window from call `i` on is paid for, counted from the latest reading at that call. */
  ghost predicate WindowPaid(l: Limits, readings: seq<int>, i: nat)
    requires ValidLimits(l) && i < |readings|
  {
    && GrantedSince(l, readings, i) >= 0
    && Paid(After(l, readings), l, Latest(readings[..i + 1]), Latest(readings), GrantedSince(l, readings, i))
  }

  lemma WindowOpens(l: Limits, readings: seq<int>, i: nat)
    requires ValidLimits(l) && i + 1 == |readings|
    ensures WindowPaid(l, readings, i)
  {
    assert readings[..i + 1] == readings;
    TokensInRange(l, readings[..i]);
    TokensInRange(l, readings);
    FirstPays(After(l, readings[..i]), l, readings[i]);
  }

  lemma NextCall(l: Limits, readings: seq<int>)
    requires |readings| > 1
    ensures var before, reading := readings[..|readings| - 1], readings[|readings| - 1];
            var (f, reply) := Script(After(l, before), l, reading);
            && After(l, readings) == f
            && GrantedIn(l, readings) == GrantedIn(l, before) + (if reply.Granted? then 1 else 0)
            && Latest(readings) == if reading < Latest(before) then Latest(before) else reading
  {
  }

  lemma WindowGrows(l: Limits, readings: seq<int>, i: nat)
    requires ValidLimits(l) && i + 1 < |readings| && WindowPaid(l, readings[..|readings| - 1], i)
    ensures WindowPaid(l, readings, i)
  {
    var last := |readings| - 1;
    var before := readings[..last];
    assert before[..i + 1] == readings[..i + 1] && before[..i] == readings[..i];
    NextCall(l, readings);
    var first, granted := Latest(readings[..i + 1]), GrantedSince(l, before, i);
    PaidNext(After(l, before), l, first, Latest(before), granted, readings[last],
             After(l, readings), Latest(readings), GrantedSince(l, readings, i));
  }

  lemma PaidNext(f: Fields, l: Limits, first: int, latest: int, granted: nat, reading: int, f': Fields, latest': int,
                 granted': int)
    requires ValidLimits(l) && Paid(f, l, first, latest, granted)
    requires latest' == if reading < latest then latest else reading
    requires var (g, reply) := Script(f, l, reading); f' == g && granted' == granted + if reply.Granted? then 1 else 0
    ensures granted' >= 0 && Paid(f', l, first, latest', granted')
  {
    ScriptPays(f, l, first, latest, granted, reading);
  }

  lemma {:induction false} WindowsPaid(l: Limits, readings: seq<int>, i: nat)
    requires ValidLimits(l) && i < |readings|
    ensures WindowPaid(l, readings, i)
  {
    if i + 1 < |readings| {
      WindowsPaid(l, readings[..|readings| - 1], i);
      WindowGrows(l, readings, i);
    } else {
      WindowOpens(l, readings, i);
    }
  }

  /** In every window, from the call numbered `i` on and for every sequence of clock readings,
      forward or backward, the grants never exceed the capacity plus the refill between the
      latest reading at the first call of the window and the latest reading at its end. */
  lemma GrantsBounded(l: Limits, readings: seq<int>, i: nat)
    requires ValidLimits(l) && i < |readings|
    ensures GrantedSince(l, readings, i) as real
            <= l.capacity as real + Refill(l, Latest(readings) - Latest(readings[..i + 1]))
  {
    WindowsPaid(l, readings, i);
  }

  /** The first call of a window spends no more than the capacity. */
  lemma FirstPays(f: Fields, l: Limits, reading: int)
    requires ValidLimits(l) && InRange(f, l)
    ensures var (f', reply) := Script(f, l, reading);
            && f'.lastRefill.Some?
            && Paid(f', l, f'.lastRefill.value, f'.lastRefill.value, if reply.Granted? then 1 else 0)
  {
    ScriptInRange(f, l, reading);
    assert Refill(l, 0) == 0.0;
  }

  // ---- Agreement with the local store ----------------------------------------------------

  predicate Same(f: Fields, b: Quota.Buckets, key: Quota.Key) {
    if key in b then f == Fields(Some(b[key].tokens), Some(b[key].lastRefill)) else f == ABSENT
  }

  function AsRequest(l: Limits, key: Quota.Key): Quota.Request {
    Quota.Request(key, Quota.BucketConfig(l.capacity, l.refillTokens, l.intervalMicros))
  }

  lemma SameRefill(l: Limits, elapsed: int)
    requires ValidLimits(l)
    ensures Refill(l, elapsed)
            == Quota.RefillAmount(Quota.BucketConfig(l.capacity, l.refillTokens, l.intervalMicros), elapsed)
  {
    var e, t, i := elapsed as real, l.refillTokens as real, l.intervalMicros as real;
    assert ((elapsed * l.refillTokens) as real) == e * t;
    assert (e * t) / i == e / i * t;
  }

  lemma SameStep(f: Fields, b: Quota.Buckets, key: Quota.Key, l: Limits, reading: int)
    requires ValidLimits(l) && Same(f, b, key)
    requires key in b ==> b[key].tokens <= l.capacity as real && b[key].lastRefill <= reading
    ensures var (f', reply) := Script(f, l, reading);
            var (b', decision) := Quota.AdmitForever(b, AsRequest(l, key), reading);
            && Same(f', b', key) && b'[key].tokens <= l.capacity as real && b'[key].lastRefill == reading
            && (reply.Granted? <==> decision.Allowed?) && (reply.Refused? <==> decision.RateLimited?)
  {
    if key in b {
      SameRefill(l, reading - b[key].lastRefill);
    }
  }

  function ForeverAfter(l: Limits, key: Quota.Key, readings: seq<int>): Quota.Buckets
    requires ValidLimits(l)
  {
    if readings == [] then map[]
    else Quota.AdmitForever(ForeverAfter(l, key, readings[..|readings| - 1]), AsRequest(l, key),
                            readings[|readings| - 1]).0
  }

  ghost predicate Forward(readings: seq<int>) {
    forall i, j :: 0 <= i <= j < |readings| ==> readings[i] <= readings[j]
  }

  /** On a clock that does not go back, the script decides every call as the local token
      bucket that is never dropped does. */
  lemma {:induction false} DecidesAsLocal(l: Limits, key: Quota.Key, readings: seq<int>, next: int)
    requires ValidLimits(l) && Forward(readings + [next])
    ensures var b := ForeverAfter(l, key, readings);
            && Same(After(l, readings), b, key)
            && (key in b ==> b[key].tokens <= l.capacity as real && b[key].lastRefill <= next)
    ensures Script(After(l, readings), l, next).1.Granted? <==>
              Quota.AdmitForever(ForeverAfter(l, key, readings), AsRequest(l, key), next).1.Allowed?
  {
    var last := |readings| - 1;
    if readings != [] {
      forall i, j | 0 <= i <= j < |readings| ensures readings[i] <= readings[j] {
        assert (readings + [next])[i] <= (readings + [next])[j];
      }
      assert readings[..last] + [readings[last]] == readings;
      DecidesAsLocal(l, key, readings[..last], readings[last]);
      SameStep(After(l, readings[..last]), ForeverAfter(l, key, readings[..last]), key, l, readings[last]);
      assert (readings + [next])[last] <= (readings + [next])[last + 1];
    }
    SameStep(After(l, readings), ForeverAfter(l, key, readings), key, l, next);
  }

  // ---- Arguments of the call -------------------------------------------------------------

  /** Whole units in a duration, rounded up and at least one: the fewest whose length covers
      the duration. */
  function CeilDuration(duration: Duration, unit: Duration): (n: int)
    requires duration > 0 && unit > 0
    ensures n >= 1 && n * unit >= duration
    ensures forall m :: 0 <= m < n ==> m * unit < duration
  {
    var whole := duration / unit;
    var value := if duration % unit != 0 then whole + 1 else whole;
    var n := if value > 1 then value else 1;
    RoundsUp(duration, unit, value);
    n
  }

  lemma RoundsUp(duration: int, unit: int, n: int)
    requires duration > 0 && unit > 0
    requires n == duration / unit + if duration % unit != 0 then 1 else 0
    ensures n >= 1 && n * unit >= duration
    ensures forall m :: 0 <= m < n ==> m * unit < duration
  {
    RoundsQuotientUp(duration / unit, duration % unit, unit, n);
  }

  lemma RoundsQuotientUp(whole: int, rest: int, unit: int, n: int)
    requires 0 <= rest < unit && whole * unit + rest > 0 && n == whole + if rest != 0 then 1 else 0
    ensures n >= 1 && n * unit >= whole * unit + rest
    ensures forall m :: 0 <= m < n ==> m * unit < whole * unit + rest
  {
    PositiveFactor(whole + 1, unit);
    if rest == 0 {
      PositiveFactor(whole, unit);
    }
    forall m | 0 <= m < n ensures m * unit < whole * unit + rest {
      Multiples(m, n, unit);
    }
  }

  lemma PositiveFactor(a: int, unit: int)
    requires unit > 0 && a * unit > 0
    ensures a >= 1
  {
  }

  lemma Multiples(m: int, n: int, unit: int)
    requires unit > 0 && m < n
    ensures m * unit <= n * unit - unit
  {
    assert (n - 1 - m) * unit >= 0;
  }

  const MICROSECOND: Duration := 1000
  const MILLISECOND: Duration := 1000000
  const MAX_EXACT: int := 9007199254740991

  datatype Call = Unavailable | Run(limits: Limits)

  /** The arguments an admission passes to the script, or the refusal to make the call. */
  function Prepare(r: Quota.Request, idleTTL: Duration): Call
    requires idleTTL > 0
  {
    if !Quota.ValidRequest(r) || r.config.capacity > MAX_EXACT || r.config.refillTokens > MAX_EXACT then Unavailable
    else Run(Limits(r.config.capacity, r.config.refillTokens, CeilDuration(r.config.refillInterval, MICROSECOND),
                    CeilDuration(idleTTL, MILLISECOND)))
  }

  lemma SlowerOver(elapsed: int, tokens: int, interval: int, micros: int)
    requires elapsed >= 0 && tokens > 0 && interval > 0 && micros > 0 && micros * MICROSECOND >= interval
    ensures ((elapsed * tokens) as real) / (micros as real)
            <= ((elapsed * MICROSECOND * tokens) as real) / (interval as real)
  {
    var a, i, m := (elapsed * tokens) as real, interval as real, micros as real;
    var k := MICROSECOND as real;
    assert (elapsed * MICROSECOND * tokens) as real == a * k by {
      assert elapsed * MICROSECOND * tokens == elapsed * tokens * MICROSECOND;
    }
    assert elapsed * tokens >= 0;
    assert m * k >= i by { assert (micros * MICROSECOND) as real == m * k; }
    Cross(a, i, m, k);
  }

  lemma Cross(a: real, i: real, m: real, k: real)
    requires a >= 0.0 && i > 0.0 && m > 0.0 && m * k >= i
    ensures a / m <= (a * k) / i
  {
    var x := a / m;
    assert x * m == a && x >= 0.0;
    assert a * k == x * (m * k);
    assert x * (m * k) >= x * i;
    var y := (a * k) / i;
    assert y * i == a * k;
    assert (y - x) * i >= 0.0;
  }

  /** Rounding the interval up to microseconds never grants more than the configured rate: in
      any number of microseconds the script refills no more tokens than the configuration. */
  lemma RoundingNeverFaster(r: Quota.Request, idleTTL: Duration, elapsed: int)
    requires idleTTL > 0 && elapsed >= 0 && Prepare(r, idleTTL).Run?
    ensures var l := Prepare(r, idleTTL).limits;
            ValidLimits(l) && Refill(l, elapsed) <= Quota.RefillAmount(r.config, elapsed * MICROSECOND)
  {
    var l, c := Prepare(r, idleTTL).limits, r.config;
    SlowerOver(elapsed, c.refillTokens, c.refillInterval, l.intervalMicros);
    var e, t, i := (elapsed * MICROSECOND) as real, c.refillTokens as real, c.refillInterval as real;
    assert ((elapsed * MICROSECOND * c.refillTokens) as real) == e * t;
    assert (e * t) / i == e / i * t;
  }
}
