/** internal/cluster/memory_registry.go: which gateway a device is connected to.  Expired routes
    are dropped only when they are come across; the reference drops them the instant they
    expire. */
module RouteRegistry {
  import opened Messages
  import opened Ordering

  datatype RouteKey = RouteKey(clientId: string, deviceId: string)

  datatype RouteEntry = RouteEntry(clientId: string, deviceId: string, sessionId: string, gatewayNode: string,
                                   internalAddr: string, tokenId: string, updatedAt: Time, expiresAt: Time)
  {
    function Key(): RouteKey { RouteKey(clientId, deviceId) }

    predicate Expired(now: Time) { expiresAt != 0 && now >= expiresAt }
  }

  type Routes = map<RouteKey, RouteEntry>

  datatype Filter = Filter(sessionId: string, clientId: string, deviceId: string, limit: int)

  datatype Listed = Listed(total: nat, uniqueClients: nat, routes: seq<RouteEntry>)

  datatype Error = InvalidKey | InvalidEntry | Closed | RouteNotFound | SessionMismatch

  datatype Reply = Ok | Found(entry: RouteEntry) | NotFound | Routing(listed: Listed) | Refused(error: Error)

  datatype Registry = Registry(entries: Routes, closed: bool)

  /** One call with the clock readings it makes; a touch reads the clock twice. */
  datatype Call =
    | Bind(entry: RouteEntry)
    | Unbind(key: RouteKey, sessionId: string)
    | Lookup(key: RouteKey)
    | List(filter: Filter)
    | Touch(entry: RouteEntry, later: Time)
    | Close

  datatype Event = Event(call: Call, now: Time)

  predicate ValidKey(key: RouteKey) { key.clientId != "" && key.deviceId != "" }

  predicate ValidEntry(e: RouteEntry) { ValidKey(e.Key()) && e.sessionId != "" && e.gatewayNode != "" }

  function EntryError(e: RouteEntry): Error { if !ValidKey(e.Key()) then InvalidKey else InvalidEntry }

  function Normalise(e: RouteEntry, ttl: Duration, now: Time): RouteEntry {
    e.(updatedAt := if e.updatedAt == 0 then now else e.updatedAt,
       expiresAt := if ttl > 0 then now + ttl else e.expiresAt)
  }

  // ---- Listing ---------------------------------------------------------------------------

  predicate MatchesFilter(e: RouteEntry, f: Filter) {
    && (f.sessionId != "" ==> e.sessionId == f.sessionId)
    && (f.clientId != "" ==> e.clientId == f.clientId)
    && (f.deviceId != "" ==> e.deviceId == f.deviceId)
  }

  predicate Precedes(a: RouteEntry, b: RouteEntry) {
    if a.clientId != b.clientId then StrLess(a.clientId, b.clientId)
    else if a.deviceId != b.deviceId then StrLess(a.deviceId, b.deviceId)
    else if a.gatewayNode != b.gatewayNode then StrLess(a.gatewayNode, b.gatewayNode)
    else StrLess(a.sessionId, b.sessionId)
  }

  lemma PrecedesIsOrder()
    ensures StrictOrder(Precedes)
  {
    forall a, b | Precedes(a, b) ensures !Precedes(b, a) {
      StrLessTotal(a.clientId, b.clientId);
      StrLessTotal(a.deviceId, b.deviceId);
      StrLessTotal(a.gatewayNode, b.gatewayNode);
      StrLessTotal(a.sessionId, b.sessionId);
    }
    forall a, b, c | Precedes(a, b) && Precedes(b, c) ensures Precedes(a, c) {
      PrecedesTransitive(a, b, c);
    }
  }

  lemma PrecedesTransitive(a: RouteEntry, b: RouteEntry, c: RouteEntry)
    requires Precedes(a, b) && Precedes(b, c)
    ensures Precedes(a, c)
  {
    Compose(a.clientId, b.clientId, c.clientId);
    Compose(a.deviceId, b.deviceId, c.deviceId);
    Compose(a.gatewayNode, b.gatewayNode, c.gatewayNode);
    Compose(a.sessionId, b.sessionId, c.sessionId);
  }

  lemma Compose(a: string, b: string, c: string)
    ensures StrLess(a, b) && StrLess(b, c) ==> StrLess(a, c) && a != c
  {
    if StrLess(a, b) && StrLess(b, c) {
      StrLessTransitive(a, b, c);
      StrLessTotal(a, c);
    }
  }

  ghost predicate Keyed(routes: Routes) {
    forall k :: k in routes ==> routes[k].Key() == k
  }

  function Matching(routes: Routes, f: Filter): set<RouteEntry> {
    set k | k in routes && MatchesFilter(routes[k], f) :: routes[k]
  }

  lemma MatchingSeparated(routes: Routes, f: Filter)
    requires Keyed(routes)
    ensures StrictOrder(Precedes) && Separates(Precedes, Matching(routes, f))
  {
    PrecedesIsOrder();
    forall a, b | a in Matching(routes, f) && b in Matching(routes, f) && a != b
      ensures Precedes(a, b) || Precedes(b, a)
    {
      assert a.Key() != b.Key();
      StrLessTotal(a.clientId, b.clientId);
      StrLessTotal(a.deviceId, b.deviceId);
    }
  }

  ghost function ListOf(routes: Routes, f: Filter): Listed
    requires Keyed(routes)
  {
    MatchingSeparated(routes, f);
    var all, matching := Listing(Matching(routes, f), Precedes), Matching(routes, f);
    Listed(|all|, |set e | e in matching && e.clientId != "" :: e.clientId|,
           if f.limit > 0 then Take(all, f.limit) else all)
  }

  // ---- The reference: every operation sees only live routes ------------------------------

  function Live(routes: Routes, now: Time): Routes {
    map k | k in routes && !routes[k].Expired(now) :: routes[k]
  }

  /** The reply to a call and the routes after it, when the routes before it are all live. */
  ghost function Answer(routes: Routes, ttl: Duration, call: Call, now: Time): (Routes, Reply)
    requires Keyed(routes) && !call.Close?
  {
    match call
    case Bind(e) =>
      if !ValidEntry(e) then (routes, Refused(EntryError(e))) else (routes[e.Key() := Normalise(e, ttl, now)], Ok)
    case Unbind(key, sessionId) =>
      if !ValidKey(key) then (routes, Refused(InvalidKey))
      else if sessionId == "" then (routes, Refused(InvalidEntry))
      else if key in routes && routes[key].sessionId == sessionId then (routes - {key}, Ok)
      else (routes, Ok)
    case Lookup(key) =>
      if !ValidKey(key) then (routes, Refused(InvalidKey))
      else if key in routes then (routes, Found(routes[key])) else (routes, NotFound)
    case List(f) => (routes, Routing(ListOf(routes, f)))
    case Touch(e, later) =>
      if !ValidEntry(e) then (routes, Refused(EntryError(e)))
      else if e.Key() !in routes then (routes, Refused(RouteNotFound))
      else if routes[e.Key()].sessionId != e.sessionId then (routes, Refused(SessionMismatch))
      else (routes[e.Key() := Normalise(e, ttl, later)], Ok)
  }

  /** Whether a call is refused before the registry is looked at. */
  predicate Malformed(call: Call) {
    match call
    case Bind(e) => !ValidEntry(e)
    case Touch(e, _) => !ValidEntry(e)
    case Unbind(key, sessionId) => !ValidKey(key) || sessionId == ""
    case Lookup(key) => !ValidKey(key)
    case _ => false
  }

  /** The reference drops every expired route as soon as the clock has reached it. */
  ghost function EagerStep(r: Registry, ttl: Duration, ev: Event): (Registry, Reply)
    requires Keyed(r.entries)
  {
    if ev.call.Close? then (Registry(map[], true), Ok)
    else if r.closed && !Malformed(ev.call) then (r, Refused(Closed))
    else
      var (routes, reply) := Answer(Live(r.entries, ev.now), ttl, ev.call, ev.now);
      (Registry(routes, r.closed), reply)
  }

  // ---- The registry as it is: expiry on contact ------------------------------------------

  /** The routes a call drops: the one it comes across, or all it passes when listing. */
  function Dropped(routes: Routes, call: Call, now: Time): Routes {
    match call
    case Unbind(key, _) => DropAt(routes, key, now)
    case Lookup(key) => DropAt(routes, key, now)
    case Touch(e, _) => DropAt(routes, e.Key(), now)
    case List(_) => Live(routes, now)
    case _ => routes
  }

  function DropAt(routes: Routes, key: RouteKey, now: Time): Routes {
    if key in routes && routes[key].Expired(now) then routes - {key} else routes
  }

  ghost function LazyStep(r: Registry, ttl: Duration, ev: Event): (Registry, Reply)
    requires Keyed(r.entries)
  {
    if ev.call.Close? then (Registry(map[], true), Ok)
    else if r.closed && !Malformed(ev.call) then (r, Refused(Closed))
    else if Malformed(ev.call) then (r, Answer(r.entries, ttl, ev.call, ev.now).1)
    else
      var (routes, reply) := Answer(Dropped(r.entries, ev.call, ev.now), ttl, ev.call, ev.now);
      (Registry(routes, r.closed), reply)
  }

  lemma StepKeyed(r: Registry, ttl: Duration, ev: Event)
    requires Keyed(r.entries)
    ensures Keyed(LazyStep(r, ttl, ev).0.entries) && Keyed(EagerStep(r, ttl, ev).0.entries)
  {
  }

  // ---- Refinement ------------------------------------------------------------------------

  /** Nobody can tell the two apart from this time on. */
  ghost predicate SameFrom(lazy: Registry, eager: Registry, t: Time) {
    && lazy.closed == eager.closed && Keyed(lazy.entries) && Keyed(eager.entries)
    && Live(lazy.entries, t) == Live(eager.entries, t)
  }

  lemma LiveLater(a: Routes, b: Routes, t: Time, u: Time)
    requires Live(a, t) == Live(b, t) && t <= u
    ensures Live(a, u) == Live(b, u)
  {
    forall k ensures (k in Live(a, u) <==> k in Live(b, u)) && (k in Live(a, u) ==> Live(a, u)[k] == Live(b, u)[k]) {
      assert k in Live(a, t) <==> k in Live(b, t);
      assert k in Live(a, u) ==> k in Live(a, t);
      assert k in Live(b, u) ==> k in Live(b, t);
    }
  }

  lemma LiveTwice(a: Routes, t: Time)
    ensures Live(Live(a, t), t) == Live(a, t)
  {
  }

  /** What a call drops was dead already. */
  lemma DroppedIsDead(routes: Routes, call: Call, now: Time)
    ensures Live(Dropped(routes, call, now), now) == Live(routes, now)
  {
  }

  function End(ev: Event): Time {
    if ev.call.Touch? then ev.call.later else ev.now
  }

  /** A call answers alike on any routes with the same live part, once it has dropped what it
      comes across. */
  lemma AnswerLive(routes: Routes, ttl: Duration, call: Call, now: Time)
    requires Keyed(routes) && !call.Close? && !Malformed(call)
    ensures var d, l := Answer(Dropped(routes, call, now), ttl, call, now), Answer(Live(routes, now), ttl, call, now);
            d.1 == l.1 && Live(d.0, now) == Live(l.0, now)
  {
    LiveTwice(routes, now);
    DroppedIsDead(routes, call, now);
  }

  lemma StepRefines(lazy: Registry, eager: Registry, ttl: Duration, ev: Event, t: Time)
    requires SameFrom(lazy, eager, t) && t <= ev.now <= End(ev)
    ensures var (l, x) := LazyStep(lazy, ttl, ev);
            var (e, y) := EagerStep(eager, ttl, ev);
            x == y && SameFrom(l, e, End(ev))
  {
    LiveLater(lazy.entries, eager.entries, t, ev.now);
    StepKeyed(lazy, ttl, ev);
    StepKeyed(eager, ttl, ev);
    LiveTwice(eager.entries, ev.now);
    if !ev.call.Close? && !Malformed(ev.call) && !lazy.closed {
      AnswerLive(lazy.entries, ttl, ev.call, ev.now);
    }
    LiveLater(LazyStep(lazy, ttl, ev).0.entries, EagerStep(eager, ttl, ev).0.entries, ev.now, End(ev));
  }

  const EMPTY := Registry(map[], false)

  ghost predicate Forward(events: seq<Event>) {
    && (forall i :: 0 <= i < |events| ==> events[i].now <= End(events[i]))
    && (forall i :: 0 < i < |events| ==> End(events[i - 1]) <= events[i].now)
  }

  ghost function LazyRun(r: Registry, ttl: Duration, events: seq<Event>): (after: Registry)
    requires Keyed(r.entries)
    ensures Keyed(after.entries)
  {
    if events == [] then r
    else
      var before := LazyRun(r, ttl, events[..|events| - 1]);
      StepKeyed(before, ttl, events[|events| - 1]);
      LazyStep(before, ttl, events[|events| - 1]).0
  }

  ghost function EagerRun(r: Registry, ttl: Duration, events: seq<Event>): (after: Registry)
    requires Keyed(r.entries)
    ensures Keyed(after.entries)
  {
    if events == [] then r
    else
      var before := EagerRun(r, ttl, events[..|events| - 1]);
      StepKeyed(before, ttl, events[|events| - 1]);
      EagerStep(before, ttl, events[|events| - 1]).0
  }

  lemma {:induction false} RunsSame(ttl: Duration, events: seq<Event>)
    requires Forward(events) && events != []
    ensures SameFrom(LazyRun(EMPTY, ttl, events), EagerRun(EMPTY, ttl, events), End(events[|events| - 1]))
  {
    var last, earlier := events[|events| - 1], events[..|events| - 1];
    var lazy, eager := LazyRun(EMPTY, ttl, earlier), EagerRun(EMPTY, ttl, earlier);
    if earlier != [] {
      RunsSame(ttl, earlier);
      StepRefines(lazy, eager, ttl, last, End(earlier[|earlier| - 1]));
    } else {
      assert lazy == EMPTY && eager == EMPTY;
      StepRefines(lazy, eager, ttl, last, last.now);
    }
  }

  /** On a clock that does not go back, every call after every run is answered as if expired
      routes had vanished the instant they expired. */
  lemma LazyExpiryUnobservable(ttl: Duration, events: seq<Event>, next: Event)
    requires Forward(events + [next])
    ensures LazyStep(LazyRun(EMPTY, ttl, events), ttl, next).1 == EagerStep(EagerRun(EMPTY, ttl, events), ttl, next).1
  {
    assert (events + [next])[|events|] == next;
    var lazy, eager := LazyRun(EMPTY, ttl, events), EagerRun(EMPTY, ttl, events);
    if events != [] {
      var last := |events| - 1;
      assert Forward(events) by {
        forall i | 0 <= i < |events| ensures events[i] == (events + [next])[i] {}
      }
      RunsSame(ttl, events);
      assert (events + [next])[last] == events[last];
      StepRefines(lazy, eager, ttl, next, End(events[last]));
    } else {
      assert lazy == EMPTY && eager == EMPTY;
      StepRefines(lazy, eager, ttl, next, next.now);
    }
  }

  // ---- Fencing by session ----------------------------------------------------------------

  /** Cleaning up after a session removes the key's route if and only if the route that is live
      at that moment belongs to that session; no other route is ever touched. */
  lemma CleanupExact(r: Registry, ttl: Duration, key: RouteKey, sessionId: string, now: Time, t: Time)
    requires Keyed(r.entries) && !r.closed && ValidKey(key) && sessionId != "" && now <= t
    ensures var after := LazyStep(r, ttl, Event(Unbind(key, sessionId), now)).0;
            var hit := key in Live(r.entries, now) && r.entries[key].sessionId == sessionId;
            Live(after.entries, t) == if hit then Live(r.entries, t) - {key} else Live(r.entries, t)
  {
  }

  /** One end of a route is no earlier than another; zero means that it never ends. */
  predicate Outlasts(expiresAt: Time, end: Time) {
    expiresAt == 0 || (end != 0 && expiresAt >= end)
  }

  predicate BeforeEnd(now: Time, end: Time) { end != 0 ==> now < end }

  /** The key's route belongs to the session and lasts at least until `end`. */
  predicate Bound(r: Registry, key: RouteKey, sessionId: string, end: Time) {
    !r.closed && key in r.entries && r.entries[key].sessionId == sessionId && Outlasts(r.entries[key].expiresAt, end)
  }

  /** The event does not rebind the key, does not unbind it in the name of this session, does
      not shorten the binding, and comes before its end. */
  predicate Undisturbed(ev: Event, key: RouteKey, sessionId: string, ttl: Duration, end: Time) {
    && BeforeEnd(ev.now, end)
    && match ev.call
       case Bind(e) => e.Key() != key
       case Unbind(k, s) => k != key || s != sessionId
       case Touch(e, later) => e.Key() != key || e.sessionId != sessionId
         || Outlasts(Normalise(e, ttl, later).expiresAt, end)
       case Close => false
       case _ => true
  }

  lemma UndisturbedStep(r: Registry, ttl: Duration, ev: Event, key: RouteKey, sessionId: string, end: Time)
    requires Keyed(r.entries) && Bound(r, key, sessionId, end) && Undisturbed(ev, key, sessionId, ttl, end)
    ensures Bound(LazyStep(r, ttl, ev).0, key, sessionId, end)
  {
  }

  /** A binding outlives every cleanup in the name of another session, however many there are
      and whatever else happens to other keys, until the end it was given: that of the registry's
      TTL, or its own where there is none. */
  lemma {:induction false} BindingSurvives(r: Registry, ttl: Duration, e: RouteEntry, at: Time, events: seq<Event>)
    requires Keyed(r.entries) && !r.closed && ValidEntry(e)
    requires forall i :: 0 <= i < |events| ==>
               Undisturbed(events[i], e.Key(), e.sessionId, ttl, Normalise(e, ttl, at).expiresAt)
    ensures var bound := LazyStep(r, ttl, Event(Bind(e), at)).0;
            && Keyed(bound.entries)
            && Bound(LazyRun(bound, ttl, events), e.Key(), e.sessionId, Normalise(e, ttl, at).expiresAt)
  {
    var bound, end := LazyStep(r, ttl, Event(Bind(e), at)).0, Normalise(e, ttl, at).expiresAt;
    StepKeyed(r, ttl, Event(Bind(e), at));
    if events != [] {
      var last := |events| - 1;
      BindingSurvives(r, ttl, e, at, events[..last]);
      UndisturbedStep(LazyRun(bound, ttl, events[..last]), ttl, events[last], e.Key(), e.sessionId, end);
    }
  }

  /** So a lookup before that end still finds that session. */
  lemma FencedLookup(r: Registry, ttl: Duration, e: RouteEntry, at: Time, events: seq<Event>, t: Time)
    requires Keyed(r.entries) && !r.closed && ValidEntry(e)
    requires forall i :: 0 <= i < |events| ==>
               Undisturbed(events[i], e.Key(), e.sessionId, ttl, Normalise(e, ttl, at).expiresAt)
    requires BeforeEnd(t, Normalise(e, ttl, at).expiresAt)
    ensures var bound := LazyStep(r, ttl, Event(Bind(e), at)).0;
            && Keyed(bound.entries)
            && var reply := LazyStep(LazyRun(bound, ttl, events), ttl, Event(Lookup(e.Key()), t)).1;
               reply.Found? && reply.entry.sessionId == e.sessionId
  {
    BindingSurvives(r, ttl, e, at, events);
    BoundIsFound(LazyRun(LazyStep(r, ttl, Event(Bind(e), at)).0, ttl, events), ttl, e.Key(), e.sessionId,
                 Normalise(e, ttl, at).expiresAt, t);
  }

  lemma BoundIsFound(r: Registry, ttl: Duration, key: RouteKey, sessionId: string, end: Time, t: Time)
    requires Keyed(r.entries) && ValidKey(key) && Bound(r, key, sessionId, end) && BeforeEnd(t, end)
    ensures var reply := LazyStep(r, ttl, Event(Lookup(key), t)).1; reply.Found? && reply.entry.sessionId == sessionId
  {
  }

  /** The fence is the session ID and nothing else: a later binding that reuses the ID is removed
      by a cleanup that was meant for the earlier one. */
  lemma ReusedSessionRemoved(r: Registry, ttl: Duration, e: RouteEntry, at: Time, now: Time)
    requires Keyed(r.entries) && !r.closed && ValidEntry(e)
    ensures var bound := LazyStep(r, ttl, Event(Bind(e), at)).0;
            && Keyed(bound.entries)
            && var cleaned := LazyStep(bound, ttl, Event(Unbind(e.Key(), e.sessionId), now)).0;
               e.Key() !in cleaned.entries
  {
    StepKeyed(r, ttl, Event(Bind(e), at));
  }
}
