/** internal/cluster/memory_registry.go: the registry with its table updated in place, every
    method proved against the step of `RouteRegistry` it stands for. */
module MemoryRegistries {
  import opened Messages
  import opened Ordering
  import opened RouteRegistry

  lemma MatchingStep(past: Routes, key: RouteKey, e: RouteEntry, f: Filter)
    requires Keyed(past) && key !in past && e.Key() == key
    ensures e !in Matching(past, f)
    ensures Matching(past[key := e], f) == Matching(past, f) + if MatchesFilter(e, f) then {e} else {}
  {
    var now := past[key := e];
    forall x ensures x in Matching(now, f) <==> x in Matching(past, f) || (MatchesFilter(e, f) && x == e) {
      assert x in Matching(past, f) <==> x.Key() in past && past[x.Key()] == x && MatchesFilter(x, f);
      assert x in Matching(now, f) <==> x.Key() in now && now[x.Key()] == x && MatchesFilter(x, f);
    }
  }

  /** The routes passed over and still live. */
  function Swept(table: Routes, rest: set<RouteKey>, now: Time): Routes {
    map k | k in table && k !in rest && !table[k].Expired(now) :: table[k]
  }

  /** Those, and the ones still to be passed over. */
  function Unswept(table: Routes, rest: set<RouteKey>, now: Time): Routes {
    map k | k in table && (k in rest || !table[k].Expired(now)) :: table[k]
  }

  lemma SweepStep(table: Routes, rest: set<RouteKey>, key: RouteKey, now: Time)
    requires key in rest && rest <= table.Keys && Keyed(table)
    ensures key in Unswept(table, rest, now) && Unswept(table, rest, now)[key] == table[key]
    ensures Keyed(Swept(table, rest, now)) && key !in Swept(table, rest, now) && table[key].Key() == key
    ensures Unswept(table, rest - {key}, now)
            == if table[key].Expired(now) then Unswept(table, rest, now) - {key} else Unswept(table, rest, now)
    ensures Swept(table, rest - {key}, now)
            == if table[key].Expired(now) then Swept(table, rest, now) else Swept(table, rest, now)[key := table[key]]
  {
  }

  lemma SweptAll(table: Routes, now: Time)
    ensures Unswept(table, {}, now) == Live(table, now) == Swept(table, {}, now)
  {
  }

  lemma ListStepIs(r: Registry, ttl: Duration, filter: Filter, now: Time)
    requires Keyed(r.entries)
    ensures var live := Live(r.entries, now);
            && Keyed(live)
            && LazyStep(r, ttl, Event(Call.List(filter), now)) ==
                 if r.closed then (r, Refused(Closed)) else (Registry(live, r.closed), Routing(ListOf(live, filter)))
  {
  }

  /** The distinct client IDs among the routes, blank ones aside. */
  method UniqueClientCount(routes: seq<RouteEntry>) returns (count: nat)
    ensures count == |set e | e in routes && e.clientId != "" :: e.clientId|
  {
    var seen: set<string> := {};
    for i := 0 to |routes|
      invariant seen == set e | e in routes[..i] && e.clientId != "" :: e.clientId
    {
      assert routes[..i + 1] == routes[..i] + [routes[i]];
      if routes[i].clientId != "" {
        seen := seen + {routes[i].clientId};
      }
    }
    assert routes[..|routes|] == routes;
    count := |seen|;
  }

  class MemoryRegistry {
    const ttl: Duration
    var entries: Routes
    var closed: bool

    ghost function State(): Registry
      reads this
    {
      Registry(entries, closed)
    }

    ghost predicate Valid()
      reads this
    {
      Keyed(entries)
    }

    constructor (ttl: Duration)
      ensures Valid() && State() == EMPTY && this.ttl == ttl
    {
      this.ttl, entries, closed := ttl, map[], false;
    }

    method Bind(entry: RouteEntry, now: Time) returns (reply: Reply)
      requires Valid()
      modifies `entries
      ensures Valid() && (State(), reply) == LazyStep(old(State()), ttl, Event(Call.Bind(entry), now))
    {
      if !ValidEntry(entry) {
        return Refused(EntryError(entry));
      }
      if closed {
        return Refused(Closed);
      }
      entries := entries[entry.Key() := Normalise(entry, ttl, now)];
      return Ok;
    }

    method Unbind(key: RouteKey, sessionId: string, now: Time) returns (reply: Reply)
      requires Valid()
      modifies `entries
      ensures Valid() && (State(), reply) == LazyStep(old(State()), ttl, Event(Call.Unbind(key, sessionId), now))
    {
      if !ValidKey(key) {
        return Refused(InvalidKey);
      }
      if sessionId == "" {
        return Refused(InvalidEntry);
      }
      if closed {
        return Refused(Closed);
      }
      if key !in entries {
        return Ok;
      }
      if entries[key].Expired(now) {
        entries := entries - {key};
        return Ok;
      }
      if entries[key].sessionId != sessionId {
        return Ok;
      }
      entries := entries - {key};
      return Ok;
    }

    method Lookup(key: RouteKey, now: Time) returns (reply: Reply)
      requires Valid()
      modifies `entries
      ensures Valid() && (State(), reply) == LazyStep(old(State()), ttl, Event(Call.Lookup(key), now))
    {
      if !ValidKey(key) {
        return Refused(InvalidKey);
      }
      if closed {
        return Refused(Closed);
      }
      if key !in entries {
        return NotFound;
      }
      if entries[key].Expired(now) {
        entries := entries - {key};
        return NotFound;
      }
      return Found(entries[key]);
    }

    method Touch(entry: RouteEntry, now: Time, later: Time) returns (reply: Reply)
      requires Valid()
      modifies `entries
      ensures Valid() && (State(), reply) == LazyStep(old(State()), ttl, Event(Call.Touch(entry, later), now))
    {
      if !ValidEntry(entry) {
        return Refused(EntryError(entry));
      }
      if closed {
        return Refused(Closed);
      }
      var key := entry.Key();
      if key !in entries {
        return Refused(RouteNotFound);
      }
      if entries[key].Expired(now) {
        entries := entries - {key};
        return Refused(RouteNotFound);
      }
      if entries[key].sessionId != entry.sessionId {
        return Refused(SessionMismatch);
      }
      entries := entries[key := Normalise(entry, ttl, later)];
      return Ok;
    }

    method Close()
      modifies `entries, `closed
      ensures Valid() && entries == map[] && closed
    {
      entries, closed := map[], true;
    }

    /** Drops the expired routes and gathers the matching others, in one pass over the table. */
    method Sweep(filter: Filter, now: Time) returns (routes: seq<RouteEntry>)
      requires Valid()
      modifies `entries
      ensures Valid() && entries == Live(old(entries), now) && Gathered(routes, Matching(entries, filter))
    {
      routes := [];
      var rest := entries.Keys;
      ghost var table := entries;
      while rest != {}
        invariant rest <= table.Keys && entries == Unswept(table, rest, now)
        invariant Gathered(routes, Matching(Swept(table, rest, now), filter))
        decreases |rest|
      {
        var key :| key in rest;
        SweepStep(table, rest, key, now);
        var entry := entries[key];
        if entry.Expired(now) {
          entries := entries - {key};
        } else {
          MatchingStep(Swept(table, rest, now), key, entry, filter);
          if MatchesFilter(entry, filter) {
            GatheredMore(routes, Matching(Swept(table, rest, now), filter), entry);
            routes := routes + [entry];
          }
        }
        rest := rest - {key};
      }
      SweptAll(table, now);
    }

    method List(filter: Filter, now: Time) returns (reply: Reply)
      requires Valid()
      modifies `entries
      ensures Valid() && (State(), reply) == LazyStep(old(State()), ttl, Event(Call.List(filter), now))
    {
      ListStepIs(State(), ttl, filter, now);
      if closed {
        return Refused(Closed);
      }
      var routes := Sweep(filter, now);
      SortedRoutes(entries, filter, routes);
      routes := SortBy(routes, Precedes);
      var total := |routes|;
      var clients := UniqueClientCount(routes);
      if filter.limit > 0 && |routes| > filter.limit {
        routes := routes[..filter.limit];
      }
      return Routing(Listed(total, clients, routes));
    }
  }

  lemma SortedRoutes(entries: Routes, filter: Filter, routes: seq<RouteEntry>)
    requires Keyed(entries) && Gathered(routes, Matching(entries, filter))
    ensures var sorted := SortBy(routes, Precedes);
            ListOf(entries, filter) == Listed(|sorted|, |set e | e in sorted && e.clientId != "" :: e.clientId|,
                                              if filter.limit > 0 && |sorted| > filter.limit
                                                then sorted[..filter.limit] else sorted)
  {
    MatchingSeparated(entries, filter);
    SortByIsListing(routes, Matching(entries, filter), Precedes);
    SameClients(SortBy(routes, Precedes), Matching(entries, filter));
  }

  lemma SameClients(routes: seq<RouteEntry>, elems: set<RouteEntry>)
    requires forall x :: x in routes <==> x in elems
    ensures (set e | e in routes && e.clientId != "" :: e.clientId)
            == (set e | e in elems && e.clientId != "" :: e.clientId)
  {
  }
}
