/** The cluster push of internal/downlink/service.go: it looks a route up, lets the peer gateway try,
    and unbinds the route it found if that turns out stale.  Between the two calls anything may
    happen to the registry, other pushes included. */
module ClusterPush {
  import opened Messages
  import opened RouteRegistry

  /** What the peer gateway answers. */
  datatype PeerAnswer = Accepted | StaleRoute | OtherFailure

  /** The gateway a push runs on. */
  datatype Gateway = Gateway(node: string, hasPeer: bool)

  /** The route is not worth keeping: it leads back here, leads nowhere, or the peer says so. */
  predicate Stale(g: Gateway, entry: RouteEntry, answer: PeerAnswer) {
    entry.gatewayNode == g.node || entry.internalAddr == "" || (g.hasPeer && answer.StaleRoute?)
  }

  /** A push between its lookup and its end. */
  datatype Flight = Flight(key: RouteKey, entry: RouteEntry)

  datatype State = State(registry: Registry, flights: map<nat, Flight>)

  datatype Happening =
    | Elsewhere(event: Event)
    | Start(worker: nat, key: RouteKey, now: Time)
    | Finish(worker: nat, answer: PeerAnswer, now: Time)

  /** Settings of the cluster: the registry's TTL and the gateway each push runs on. */
  datatype Cluster = Cluster(ttl: Duration, gateway: nat -> Gateway)

  ghost predicate Valid(s: State) { Keyed(s.registry.entries) }

  /** The unbinding a push ends with, if any. */
  function Cleanup(c: Cluster, s: State, h: Happening): Option<Event>
    requires h.Finish?
  {
    if h.worker in s.flights && Stale(c.gateway(h.worker), s.flights[h.worker].entry, h.answer) then
      Some(Event(Unbind(s.flights[h.worker].key, s.flights[h.worker].entry.sessionId), h.now))
    else None
  }

  ghost function Step(c: Cluster, s: State, h: Happening): (s': State)
    requires Valid(s)
    ensures Valid(s')
  {
    match h
    case Elsewhere(ev) =>
      StepKeyed(s.registry, c.ttl, ev);
      s.(registry := LazyStep(s.registry, c.ttl, ev).0)
    case Start(worker, key, now) =>
      StepKeyed(s.registry, c.ttl, Event(Lookup(key), now));
      var (registry, reply) := LazyStep(s.registry, c.ttl, Event(Lookup(key), now));
      State(registry, if reply.Found? then s.flights[worker := Flight(key, reply.entry)] else s.flights - {worker})
    case Finish(worker, _, _) =>
      var flights := s.flights - {worker};
      match Cleanup(c, s, h)
      case None => State(s.registry, flights)
      case Some(ev) =>
        StepKeyed(s.registry, c.ttl, ev);
        State(LazyStep(s.registry, c.ttl, ev).0, flights)
  }

  /** The end of a push removes a live route if and only if the push judged the route it had
      found stale and the live route still belongs to that session; every other live route
      stays, now and later. */
  lemma PushRemovesExactly(c: Cluster, s: State, h: Happening, t: Time)
    requires Valid(s) && !s.registry.closed && h.Finish? && h.worker in s.flights && h.now <= t
    requires ValidKey(s.flights[h.worker].key) && s.flights[h.worker].entry.sessionId != ""
    ensures var f, live := s.flights[h.worker], Live(s.registry.entries, t);
            var hit := && Stale(c.gateway(h.worker), f.entry, h.answer)
                       && f.key in Live(s.registry.entries, h.now)
                          && s.registry.entries[f.key].sessionId == f.entry.sessionId;
            Live(Step(c, s, h).registry.entries, t) == if hit then live - {f.key} else live
  {
    var f := s.flights[h.worker];
    CleanupExact(s.registry, c.ttl, f.key, f.entry.sessionId, h.now, t);
  }

  ghost function Run(c: Cluster, s: State, hs: seq<Happening>): (s': State)
    requires Valid(s)
    ensures Valid(s')
    decreases |hs|
  {
    if hs == [] then s else Step(c, Run(c, s, hs[..|hs| - 1]), hs[|hs| - 1])
  }

  /** The happening ends a push that had found this session's route and judged it stale. */
  predicate GivesUp(c: Cluster, s: State, h: Happening, key: RouteKey, sessionId: string) {
    && h.Finish? && h.worker in s.flights
    && s.flights[h.worker].key == key && s.flights[h.worker].entry.sessionId == sessionId
    && Stale(c.gateway(h.worker), s.flights[h.worker].entry, h.answer)
  }

  predicate BeforeItsEnd(h: Happening, end: Time) {
    match h
    case Elsewhere(ev) => BeforeEnd(ev.now, end)
    case Start(_, _, now) => BeforeEnd(now, end)
    case Finish(_, _, now) => BeforeEnd(now, end)
  }

  /** The next happening leaves the session's binding alone: it comes before the end, it is no push
      that gives up this session's route, and elsewhere nobody unbinds, rebinds or shortens it. */
  predicate Harmless(c: Cluster, s: State, h: Happening, key: RouteKey, sessionId: string, end: Time) {
    && BeforeItsEnd(h, end) && !GivesUp(c, s, h, key, sessionId)
    && (h.Elsewhere? ==> Undisturbed(h.event, key, sessionId, c.ttl, end))
  }

  /** Before the end of a binding, the start or end of a push unbinds it if and only if the push
      had found that session's route and gives it up as stale. */
  lemma PushUnbindsExactly(c: Cluster, s: State, h: Happening, key: RouteKey, sessionId: string, end: Time)
    requires Valid(s) && Bound(s.registry, key, sessionId, end) && ValidKey(key) && sessionId != ""
    requires !h.Elsewhere? && BeforeItsEnd(h, end)
    ensures Bound(Step(c, s, h).registry, key, sessionId, end) <==> !GivesUp(c, s, h, key, sessionId)
  {
    if h.Start? {
      UndisturbedStep(s.registry, c.ttl, Event(Lookup(h.key), h.now), key, sessionId, end);
    } else if Cleanup(c, s, h).Some? && !GivesUp(c, s, h, key, sessionId) {
      UndisturbedStep(s.registry, c.ttl, Cleanup(c, s, h).value, key, sessionId, end);
    }
  }

  lemma HarmlessStep(c: Cluster, s: State, h: Happening, key: RouteKey, sessionId: string, end: Time)
    requires Valid(s) && Bound(s.registry, key, sessionId, end) && ValidKey(key) && sessionId != ""
    requires Harmless(c, s, h, key, sessionId, end)
    ensures Bound(Step(c, s, h).registry, key, sessionId, end)
  {
    if h.Elsewhere? {
      UndisturbedStep(s.registry, c.ttl, h.event, key, sessionId, end);
    } else {
      PushUnbindsExactly(c, s, h, key, sessionId, end);
    }
  }

  /** Every happening is harmless in the state it comes upon. */
  ghost predicate AllHarmless(c: Cluster, s: State, hs: seq<Happening>, key: RouteKey, sessionId: string, end: Time)
    requires Valid(s)
  {
    forall i :: 0 <= i < |hs| ==> Harmless(c, Run(c, s, hs[..i]), hs[i], key, sessionId, end)
  }

  lemma HarmlessBefore(c: Cluster, s: State, hs: seq<Happening>, n: nat, key: RouteKey, sessionId: string, end: Time)
    requires Valid(s) && n <= |hs| && AllHarmless(c, s, hs, key, sessionId, end)
    ensures AllHarmless(c, s, hs[..n], key, sessionId, end)
  {
    forall i | 0 <= i < n
      ensures Harmless(c, Run(c, s, hs[..n][..i]), hs[..n][i], key, sessionId, end)
    {
      assert hs[..n][..i] == hs[..i];
    }
  }

  lemma {:induction false} HarmlessRun(c: Cluster, s: State, hs: seq<Happening>, key: RouteKey, sessionId: string,
                                       end: Time)
    requires Valid(s) && Bound(s.registry, key, sessionId, end) && ValidKey(key) && sessionId != ""
    requires AllHarmless(c, s, hs, key, sessionId, end)
    ensures Bound(Run(c, s, hs).registry, key, sessionId, end)
    decreases |hs|
  {
    if hs != [] {
      var n := |hs| - 1;
      HarmlessBefore(c, s, hs, n, key, sessionId, end);
      HarmlessRun(c, s, hs[..n], key, sessionId, end);
      HarmlessStep(c, Run(c, s, hs[..n]), hs[n], key, sessionId, end);
    }
  }

  /** A device reconnects while pushes to it are under way on any gateways, and more are started.
      As long as none of them finds the new route and gives it up as stale, whatever they make of
      the old one and in whatever order they end, the new route is found until its end. */
  lemma ReconnectSurvivesPushes(c: Cluster, s: State, e: RouteEntry, at: Time, hs: seq<Happening>, t: Time)
    requires Valid(s) && !s.registry.closed && ValidEntry(e)
    requires var bound := Step(c, s, Elsewhere(Event(Bind(e), at)));
             AllHarmless(c, bound, hs, e.Key(), e.sessionId, Normalise(e, c.ttl, at).expiresAt)
    requires BeforeEnd(t, Normalise(e, c.ttl, at).expiresAt)
    ensures var last := Run(c, Step(c, s, Elsewhere(Event(Bind(e), at))), hs);
            var reply := LazyStep(last.registry, c.ttl, Event(Lookup(e.Key()), t)).1;
            reply.Found? && reply.entry.sessionId == e.sessionId
  {
    var bound, end := Step(c, s, Elsewhere(Event(Bind(e), at))), Normalise(e, c.ttl, at).expiresAt;
    HarmlessRun(c, bound, hs, e.Key(), e.sessionId, end);
    BoundIsFound(Run(c, bound, hs).registry, c.ttl, e.Key(), e.sessionId, end, t);
  }
}
