/** internal/config/traffic_policy.go and internal/pipeline/traffic_policy.go: the check that
    no packet is claimed by two policies of one priority, and the selection it protects. */
module TrafficPolicies {

  import opened Messages
  import opened Ordering
  import Quota

  const U32_MAX: nat := 0xffff_ffff

  datatype Route = Route(name: string, msgIdMin: nat, msgIdMax: nat)

  datatype Match = Match(clientIds: seq<string>, msgIdMin: nat, msgIdMax: nat, routes: seq<string>)

  datatype Policy = Policy(name: string, priority: int, only: Match, key: string, bucket: Quota.BucketConfig)

  datatype Selection = Selection(name: string, key: string, bucket: Quota.BucketConfig)

  datatype Interval = Interval(min: nat, max: nat)

  // ---- Which packets a policy matches ----------------------------------------------------

  /** An upper end of zero stands for a single message ID. */
  predicate InRange(min: nat, max: nat, m: nat) {
    min <= m <= if max == 0 then min else max
  }

  predicate Hits(r: Route, m: nat) { InRange(r.msgIdMin, r.msgIdMax, m) }

  /** The name of the first route the message ID falls into. */
  function RouteOf(routes: seq<Route>, m: nat): Option<string> {
    if routes == [] then None
    else if Hits(routes[0], m) then Some(routes[0].name)
    else RouteOf(routes[1..], m)
  }

  predicate Selects(clientIds: seq<string>, clientId: string) {
    clientIds == [] || clientId in clientIds
  }

  predicate IdMatches(only: Match, m: nat) {
    only.msgIdMin != 0 ==> InRange(only.msgIdMin, only.msgIdMax, m)
  }

  predicate RouteMatches(only: Match, route: Option<string>) {
    only.routes != [] ==> route.Some? && route.value in only.routes
  }

  predicate Matches(p: Policy, clientId: string, m: nat, route: Option<string>) {
    Selects(p.only.clientIds, clientId) && IdMatches(p.only, m) && RouteMatches(p.only, route)
  }

  /** What the parser of the configuration has established of every selector. */
  predicate ValidMatch(only: Match) {
    && only.msgIdMin <= U32_MAX && only.msgIdMax <= U32_MAX
    && (only.msgIdMin == 0 ==> only.msgIdMax == 0)
    && (only.msgIdMax == 0 || only.msgIdMax >= only.msgIdMin)
    && "" !in only.routes
  }

  ghost predicate ValidPolicies(policies: seq<Policy>) {
    forall p :: p in policies ==> ValidMatch(p.only)
  }

  method ResolveRoute(routes: seq<Route>, m: nat) returns (route: Option<string>)
    ensures route == RouteOf(routes, m)
  {
    var i := 0;
    while i < |routes|
      invariant 0 <= i <= |routes| && RouteOf(routes, m) == RouteOf(routes[i..], m)
    {
      var max := if routes[i].msgIdMax == 0 then routes[i].msgIdMin else routes[i].msgIdMax;
      if routes[i].msgIdMin <= m && m <= max {
        return Some(routes[i].name);
      }
      i := i + 1;
    }
    route := None;
  }

  // ---- The routes by name ----------------------------------------------------------------

  /** No two routes share a name other than the blank one. */
  ghost predicate UniqueNames(routes: seq<Route>) {
    forall i, j :: 0 <= i < j < |routes| && routes[i].name == routes[j].name ==> routes[i].name == ""
  }

  /** No message ID falls into two routes. */
  ghost predicate DisjointRoutes(routes: seq<Route>) {
    forall i, j, m: nat :: 0 <= i < j < |routes| && Hits(routes[i], m) ==> !Hits(routes[j], m)
  }

  ghost predicate IsIndex(byName: map<string, Route>, routes: seq<Route>) {
    && (forall name :: name in byName ==> name != "" && byName[name].name == name && byName[name] in routes)
    && (forall r :: r in routes && r.name != "" ==> r.name in byName)
  }

  ghost predicate LastNamed(routes: seq<Route>, i: nat)
    requires i < |routes|
  {
    forall j :: i < j < |routes| ==> routes[j].name != routes[i].name
  }

  /** Of several routes with one name the last is found. */
  ghost predicate LastWins(byName: map<string, Route>, routes: seq<Route>) {
    forall i :: 0 <= i < |routes| && routes[i].name in byName && LastNamed(routes, i) ==>
      byName[routes[i].name] == routes[i]
  }

  lemma LastWinsNext(byName: map<string, Route>, routes: seq<Route>, r: Route)
    requires LastWins(byName, routes) && "" !in byName
    ensures LastWins(if r.name != "" then byName[r.name := r] else byName, routes + [r])
  {
    var more, all := if r.name != "" then byName[r.name := r] else byName, routes + [r];
    forall i | 0 <= i < |all| && all[i].name in more && LastNamed(all, i)
      ensures more[all[i].name] == all[i]
    {
      if i < |routes| {
        assert all[|routes|] == r;
        forall j | i < j < |routes| ensures routes[j].name != routes[i].name {
          assert all[j] == routes[j];
        }
      }
    }
  }

  method IndexRoutes(routes: seq<Route>) returns (byName: map<string, Route>)
    ensures IsIndex(byName, routes) && LastWins(byName, routes)
  {
    byName := map[];
    for i := 0 to |routes|
      invariant IsIndex(byName, routes[..i]) && LastWins(byName, routes[..i])
    {
      assert routes[..i + 1] == routes[..i] + [routes[i]];
      LastWinsNext(byName, routes[..i], routes[i]);
      if routes[i].name != "" {
        byName := byName[routes[i].name := routes[i]];
      }
    }
    assert routes[..|routes|] == routes;
  }

  lemma {:induction false} ResolvedHits(routes: seq<Route>, m: nat)
    ensures var route := RouteOf(routes, m);
            if route.Some? then exists i :: 0 <= i < |routes| && routes[i].name == route.value && Hits(routes[i], m)
            else forall i :: 0 <= i < |routes| ==> !Hits(routes[i], m)
  {
    if routes != [] && !Hits(routes[0], m) {
      ResolvedHits(routes[1..], m);
      if RouteOf(routes[1..], m).Some? {
        var i :| 0 <= i < |routes| - 1 && routes[1..][i].name == RouteOf(routes, m).value && Hits(routes[1..][i], m);
        assert routes[i + 1].name == RouteOf(routes, m).value && Hits(routes[i + 1], m);
      } else {
        forall i | 0 <= i < |routes| ensures !Hits(routes[i], m) {
          assert i > 0 ==> routes[i] == routes[1..][i - 1];
        }
      }
    } else if routes != [] {
      assert Hits(routes[0], m);
    }
  }

  /** With unique names, the route a message resolves to is the one of that name. */
  lemma ResolvedByName(routes: seq<Route>, byName: map<string, Route>, m: nat)
    requires UniqueNames(routes) && IsIndex(byName, routes)
    ensures var route := RouteOf(routes, m);
            route.Some? && route.value != "" ==> route.value in byName && Hits(byName[route.value], m)
  {
    ResolvedHits(routes, m);
    var route := RouteOf(routes, m);
    if route.Some? && route.value != "" {
      var i :| 0 <= i < |routes| && routes[i].name == route.value && Hits(routes[i], m);
      assert routes[i] in routes;
      var j :| 0 <= j < |routes| && routes[j] == byName[route.value];
    }
  }

  /** With disjoint routes, a message in a route's range resolves to that route. */
  lemma NamedResolves(routes: seq<Route>, byName: map<string, Route>, m: nat, name: string)
    requires DisjointRoutes(routes) && IsIndex(byName, routes) && name in byName && Hits(byName[name], m)
    ensures RouteOf(routes, m) == Some(name)
  {
    ResolvedHits(routes, m);
    var j :| 0 <= j < |routes| && routes[j] == byName[name];
    assert Hits(routes[j], m);
    var i :| 0 <= i < |routes| && routes[i].name == RouteOf(routes, m).value && Hits(routes[i], m);
    assert i == j;
  }

  // ---- Message IDs as intervals ----------------------------------------------------------

  /** The message IDs a policy claims, looking its routes up by name. */
  ghost predicate Covers(only: Match, byName: map<string, Route>, m: nat) {
    && IdMatches(only, m)
    && (only.routes == [] || exists name :: name in only.routes && name in byName && Hits(byName[name], m))
  }

  predicate In(iv: Interval, m: nat) { iv.min <= m <= iv.max }

  ghost predicate InSome(ivs: seq<Interval>, m: nat) {
    exists i :: 0 <= i < |ivs| && In(ivs[i], m)
  }

  ghost predicate NonEmpty(ivs: seq<Interval>) {
    forall i :: 0 <= i < |ivs| ==> ivs[i].min <= ivs[i].max <= U32_MAX
  }

  /** The route names of a policy seen so far. */
  ghost predicate CoversVia(names: seq<string>, byName: map<string, Route>, m: nat) {
    exists name :: name in names && name in byName && Hits(byName[name], m)
  }

  function OwnInterval(only: Match): Interval {
    if only.msgIdMin == 0 then Interval(0, U32_MAX)
    else Interval(only.msgIdMin, if only.msgIdMax == 0 then only.msgIdMin else only.msgIdMax)
  }

  function Intersection(a: Interval, r: Route): Interval {
    var max := if r.msgIdMax == 0 then r.msgIdMin else r.msgIdMax;
    Interval(if a.min > r.msgIdMin then a.min else r.msgIdMin, if a.max < max then a.max else max)
  }

  lemma Extended(ivs: seq<Interval>, iv: Interval, names: seq<string>, name: string, byName: map<string, Route>,
                 own: Interval)
    requires forall m: nat :: InSome(ivs, m) <==> In(own, m) && CoversVia(names, byName, m)
    requires name in byName
    requires iv == Intersection(own, byName[name])
    ensures forall m: nat :: InSome(if iv.min <= iv.max then ivs + [iv] else ivs, m) <==>
              In(own, m) && CoversVia(names + [name], byName, m)
  {
    var ivs' := if iv.min <= iv.max then ivs + [iv] else ivs;
    forall m: nat ensures InSome(ivs', m) <==> In(own, m) && CoversVia(names + [name], byName, m) {
      assert In(iv, m) <==> In(own, m) && Hits(byName[name], m);
      assert CoversVia(names + [name], byName, m) <==> CoversVia(names, byName, m) || Hits(byName[name], m) by {
        assert name in names + [name];
      }
      AppendedIn(ivs, iv, m);
    }
  }

  lemma AppendedIn(ivs: seq<Interval>, iv: Interval, m: nat)
    ensures InSome(ivs + [iv], m) <==> InSome(ivs, m) || In(iv, m)
  {
    if InSome(ivs, m) {
      var i :| 0 <= i < |ivs| && In(ivs[i], m);
      assert In((ivs + [iv])[i], m);
    }
    assert (ivs + [iv])[|ivs|] == iv;
  }

  lemma Unknown(names: seq<string>, name: string, byName: map<string, Route>, m: nat)
    requires name !in byName
    ensures CoversVia(names + [name], byName, m) <==> CoversVia(names, byName, m)
  {
  }

  /** The intervals hold exactly the message IDs the policy claims. */
  method Intervals(only: Match, byName: map<string, Route>) returns (ivs: seq<Interval>)
    requires ValidMatch(only)
    ensures NonEmpty(ivs)
    ensures forall m: nat :: m <= U32_MAX ==> (InSome(ivs, m) <==> Covers(only, byName, m))
  {
    var own := OwnInterval(only);
    if only.routes == [] {
      forall m: nat | m <= U32_MAX ensures InSome([own], m) <==> Covers(only, byName, m) {
        assert InSome([own], m) <==> In([own][0], m);
      }
      return [own];
    }
    ivs := [];
    for i := 0 to |only.routes|
      invariant NonEmpty(ivs)
      invariant forall m: nat :: InSome(ivs, m) <==> In(own, m) && CoversVia(only.routes[..i], byName, m)
    {
      var name := only.routes[i];
      assert only.routes[..i + 1] == only.routes[..i] + [name];
      if name in byName {
        var iv := Intersection(own, byName[name]);
        Extended(ivs, iv, only.routes[..i], name, byName, own);
        if iv.min <= iv.max {
          ivs := ivs + [iv];
        }
      } else {
        forall m: nat { Unknown(only.routes[..i], name, byName, m); }
      }
    }
    assert only.routes[..|only.routes|] == only.routes;
  }

  /** Some message ID lies in an interval of each. */
  method IntervalsOverlap(left: seq<Interval>, right: seq<Interval>) returns (overlap: bool)
    requires NonEmpty(left) && NonEmpty(right)
    ensures overlap <==> exists m: nat :: m <= U32_MAX && InSome(left, m) && InSome(right, m)
  {
    for i := 0 to |left|
      invariant forall k, l :: 0 <= k < i && 0 <= l < |right| ==> Apart(left[k], right[l])
    {
      for j := 0 to |right|
        invariant forall l :: 0 <= l < j ==> Apart(left[i], right[l])
      {
        if left[i].min <= right[j].max && right[j].min <= left[i].max {
          ghost var m := if left[i].min > right[j].min then left[i].min else right[j].min;
          assert In(left[i], m) && In(right[j], m);
          assert InSome(left, m) && InSome(right, m);
          return true;
        }
      }
    }
    overlap := false;
  }

  predicate Apart(a: Interval, b: Interval) {
    a.max < b.min || b.max < a.min
  }

  /** Some client is selected by both. */
  method ClientSelectorsOverlap(left: seq<string>, right: seq<string>) returns (overlap: bool)
    ensures overlap <==> exists c :: Selects(left, c) && Selects(right, c)
  {
    if left == [] || right == [] {
      ghost var c := if left != [] then left[0] else if right != [] then right[0] else "";
      assert Selects(left, c) && Selects(right, c);
      return true;
    }
    for i := 0 to |left|
      invariant forall k :: 0 <= k < i ==> left[k] !in right
    {
      if left[i] in right {
        assert Selects(left, left[i]) && Selects(right, left[i]);
        return true;
      }
    }
    overlap := false;
  }

  // ---- The check -------------------------------------------------------------------------

  /** Both policies match this client's packet. */
  predicate BothMatch(p: Policy, q: Policy, routes: seq<Route>, clientId: string, m: nat) {
    Matches(p, clientId, m, RouteOf(routes, m)) && Matches(q, clientId, m, RouteOf(routes, m))
  }

  ghost predicate Conflict(p: Policy, q: Policy, routes: seq<Route>) {
    p.priority == q.priority && exists clientId, m: nat :: m <= U32_MAX && BothMatch(p, q, routes, clientId, m)
  }

  /** No packet is matched by two policies of equal priority. */
  ghost predicate Unambiguous(policies: seq<Policy>, routes: seq<Route>) {
    forall i, j :: 0 <= i < j < |policies| ==> !Conflict(policies[i], policies[j], routes)
  }

  /** What the check compares: the client selectors and the intervals. */
  ghost predicate Clash(p: Policy, q: Policy, byName: map<string, Route>) {
    && p.priority == q.priority
    && (exists c :: Selects(p.only.clientIds, c) && Selects(q.only.clientIds, c))
    && (exists m: nat :: m <= U32_MAX && Covers(p.only, byName, m) && Covers(q.only, byName, m))
  }

  /** A message that resolves to a named route is in the range the index has under that name. */
  ghost predicate Indexed(routes: seq<Route>, byName: map<string, Route>) {
    forall m: nat, name: string :: m <= U32_MAX && name != "" && RouteOf(routes, m) == Some(name) ==>
      name in byName && Hits(byName[name], m)
  }

  /** A message in the range the index has under a name resolves to the route of that name. */
  ghost predicate Resolves(routes: seq<Route>, byName: map<string, Route>) {
    forall m: nat, name: string :: m <= U32_MAX && name != "" && name in byName && Hits(byName[name], m) ==>
      RouteOf(routes, m) == Some(name)
  }

  lemma MatchCovers(only: Match, routes: seq<Route>, byName: map<string, Route>, m: nat)
    requires ValidMatch(only) && Indexed(routes, byName) && m <= U32_MAX
    ensures IdMatches(only, m) && RouteMatches(only, RouteOf(routes, m)) ==> Covers(only, byName, m)
  {
    var route := RouteOf(routes, m);
    if only.routes != [] && route.Some? && route.value in only.routes {
      assert route.value != "";
    }
  }

  lemma CoversMatch(only: Match, routes: seq<Route>, byName: map<string, Route>, m: nat)
    requires ValidMatch(only) && Resolves(routes, byName) && m <= U32_MAX && Covers(only, byName, m)
    ensures IdMatches(only, m) && RouteMatches(only, RouteOf(routes, m))
  {
    if only.routes != [] {
      var name :| name in only.routes && name in byName && Hits(byName[name], m);
      assert name != "";
    }
  }

  lemma ConflictClashes(p: Policy, q: Policy, routes: seq<Route>, byName: map<string, Route>)
    requires ValidMatch(p.only) && ValidMatch(q.only) && Indexed(routes, byName)
    requires Conflict(p, q, routes)
    ensures Clash(p, q, byName)
  {
    var clientId, m: nat :| m <= U32_MAX && BothMatch(p, q, routes, clientId, m);
    MatchCovers(p.only, routes, byName, m);
    MatchCovers(q.only, routes, byName, m);
    assert Selects(p.only.clientIds, clientId) && Selects(q.only.clientIds, clientId);
  }

  lemma ClashConflicts(p: Policy, q: Policy, routes: seq<Route>, byName: map<string, Route>)
    requires ValidMatch(p.only) && ValidMatch(q.only) && Resolves(routes, byName)
    requires Clash(p, q, byName)
    ensures Conflict(p, q, routes)
  {
    var clientId :| Selects(p.only.clientIds, clientId) && Selects(q.only.clientIds, clientId);
    var m: nat :| m <= U32_MAX && Covers(p.only, byName, m) && Covers(q.only, byName, m);
    CoversMatch(p.only, routes, byName, m);
    CoversMatch(q.only, routes, byName, m);
    assert BothMatch(p, q, routes, clientId, m);
  }

  lemma UniqueNamesIndexed(routes: seq<Route>, byName: map<string, Route>)
    requires UniqueNames(routes) && IsIndex(byName, routes)
    ensures Indexed(routes, byName)
  {
    forall m: nat, name: string | m <= U32_MAX && name != "" && RouteOf(routes, m) == Some(name)
      ensures name in byName && Hits(byName[name], m)
    {
      ResolvedByName(routes, byName, m);
    }
  }

  lemma DisjointResolves(routes: seq<Route>, byName: map<string, Route>)
    requires DisjointRoutes(routes) && IsIndex(byName, routes)
    ensures Resolves(routes, byName)
  {
    forall m: nat, name: string | m <= U32_MAX && name != "" && name in byName && Hits(byName[name], m)
      ensures RouteOf(routes, m) == Some(name)
    {
      NamedResolves(routes, byName, m, name);
    }
  }

  // ---- When the check is exact -----------------------------------------------------------

  ghost predicate PositiveRoutes(routes: seq<Route>) {
    forall r :: r in routes ==> r.msgIdMin > 0
  }

  /** Whatever the policies, the check misses no conflict. */
  ghost predicate MissesNothing(routes: seq<Route>, byName: map<string, Route>) {
    forall p: Policy, q: Policy :: ValidMatch(p.only) && ValidMatch(q.only) && Conflict(p, q, routes) ==>
        Clash(p, q, byName)
  }

  /** Whatever the policies, the check rejects nothing but conflicts. */
  ghost predicate InventsNothing(routes: seq<Route>, byName: map<string, Route>) {
    forall p: Policy, q: Policy :: ValidMatch(p.only) && ValidMatch(q.only) && Clash(p, q, byName) ==>
        Conflict(p, q, routes)
  }

  /** A policy for one message ID, on these routes or on all. */
  function Plain(name: string, id: nat, routes: seq<string>): Policy {
    Policy(name, 1, Match([], id, 0, routes), "client_id", Quota.BucketConfig(1, 1, 1))
  }

  /** For all policies the check misses nothing if and only if every message that resolves to a
      named route is in the range the index has under that name. */
  lemma MissesNothingExactly(routes: seq<Route>, byName: map<string, Route>)
    requires PositiveRoutes(routes)
    ensures MissesNothing(routes, byName) <==> Indexed(routes, byName)
  {
    if Indexed(routes, byName) {
      forall p: Policy, q: Policy | ValidMatch(p.only) && ValidMatch(q.only) && Conflict(p, q, routes)
        ensures Clash(p, q, byName)
      {
        ConflictClashes(p, q, routes, byName);
      }
    }
    if MissesNothing(routes, byName) {
      forall m: nat, name: string | m <= U32_MAX && name != "" && RouteOf(routes, m) == Some(name)
        ensures name in byName && Hits(byName[name], m)
      {
        ResolvedHits(routes, m);
        WitnessesTell(routes, byName, m, name);
      }
    }
  }

  /** And it rejects nothing but conflicts if and only if every message in such a range resolves to
      the route of that name. */
  lemma InventsNothingExactly(routes: seq<Route>, byName: map<string, Route>)
    requires PositiveRoutes(routes) && IsIndex(byName, routes)
    ensures InventsNothing(routes, byName) <==> Resolves(routes, byName)
  {
    if Resolves(routes, byName) {
      forall p: Policy, q: Policy | ValidMatch(p.only) && ValidMatch(q.only) && Clash(p, q, byName)
        ensures Conflict(p, q, routes)
      {
        ClashConflicts(p, q, routes, byName);
      }
    }
    if InventsNothing(routes, byName) {
      forall m: nat, name: string | m <= U32_MAX && name != "" && name in byName && Hits(byName[name], m)
        ensures RouteOf(routes, m) == Some(name)
      {
        assert byName[name] in routes;
        WitnessesTell(routes, byName, m, name);
      }
    }
  }

  /** Two policies of which the check and the selection each say what the two sides say of `m`. */
  lemma WitnessesTell(routes: seq<Route>, byName: map<string, Route>, m: nat, name: string)
    requires 0 < m <= U32_MAX && name != ""
    ensures var p, q := Plain("p", m, [name]), Plain("q", m, []);
            && ValidMatch(p.only) && ValidMatch(q.only)
            && (Clash(p, q, byName) <==> name in byName && Hits(byName[name], m))
            && (Conflict(p, q, routes) <==> RouteOf(routes, m) == Some(name))
  {
    var p, q := Plain("p", m, [name]), Plain("q", m, []);
    assert Selects(p.only.clientIds, "") && Selects(q.only.clientIds, "");
    assert name in p.only.routes;
    if name in byName && Hits(byName[name], m) {
      assert Covers(p.only, byName, m) && Covers(q.only, byName, m);
    }
    if RouteOf(routes, m) == Some(name) {
      assert BothMatch(p, q, routes, "", m);
    }
    if Conflict(p, q, routes) {
      var clientId, x: nat :| x <= U32_MAX && BothMatch(p, q, routes, clientId, x);
      assert x == m;
    }
    if Clash(p, q, byName) {
      var x: nat :| x <= U32_MAX && Covers(p.only, byName, x) && Covers(q.only, byName, x);
      assert x == m;
    }
  }

  // ---- The loop over pairs ---------------------------------------------------------------

  method Overlap(p: Policy, q: Policy, leftIntervals: seq<Interval>, byName: map<string, Route>) returns (clash: bool)
    requires ValidMatch(p.only) && ValidMatch(q.only) && NonEmpty(leftIntervals)
    requires forall m: nat :: m <= U32_MAX ==> (InSome(leftIntervals, m) <==> Covers(p.only, byName, m))
    ensures clash <==> Clash(p, q, byName)
  {
    if p.priority != q.priority {
      return false;
    }
    var clients := ClientSelectorsOverlap(p.only.clientIds, q.only.clientIds);
    if !clients {
      return false;
    }
    var rightIntervals := Intervals(q.only, byName);
    clash := IntervalsOverlap(leftIntervals, rightIntervals);
    if clash {
      ghost var m: nat :| m <= U32_MAX && InSome(leftIntervals, m) && InSome(rightIntervals, m);
      assert Covers(p.only, byName, m) && Covers(q.only, byName, m);
    }
  }

  ghost predicate NoClash(policies: seq<Policy>, byName: map<string, Route>) {
    forall i, j :: 0 <= i < j < |policies| ==> !Clash(policies[i], policies[j], byName)
  }

  lemma NoClashUnambiguous(policies: seq<Policy>, routes: seq<Route>, byName: map<string, Route>)
    requires ValidPolicies(policies) && Indexed(routes, byName) && NoClash(policies, byName)
    ensures Unambiguous(policies, routes)
  {
    forall i, j | 0 <= i < j < |policies|
      ensures !Conflict(policies[i], policies[j], routes)
    {
      assert policies[i] in policies && policies[j] in policies;
      if Conflict(policies[i], policies[j], routes) {
        ConflictClashes(policies[i], policies[j], routes, byName);
      }
    }
  }

  /** The pairwise check accepts exactly when no two policies clash.  Where what resolves is indexed,
      acceptance means that no packet is matched by two policies of equal priority; where what is
      indexed resolves, the reported pair is one that conflicts. */
  method ValidateAmbiguity(policies: seq<Policy>, byName: map<string, Route>, ghost routes: seq<Route>)
    returns (pair: Option<(Policy, Policy)>)
    requires ValidPolicies(policies)
    ensures pair.None? <==> NoClash(policies, byName)
    ensures Indexed(routes, byName) && pair.None? ==> Unambiguous(policies, routes)
    ensures Resolves(routes, byName) && pair.Some? ==> Conflict(pair.value.0, pair.value.1, routes)
    ensures Resolves(routes, byName) && pair.Some? ==> !Unambiguous(policies, routes)
  {
    for i := 0 to |policies|
      invariant forall k, j :: 0 <= k < i && k < j < |policies| ==> !Clash(policies[k], policies[j], byName)
    {
      var left := policies[i];
      assert left in policies;
      var leftIntervals := Intervals(left.only, byName);
      for j := i + 1 to |policies|
        invariant forall l :: i < l < j ==> !Clash(left, policies[l], byName)
      {
        var right := policies[j];
        assert right in policies;
        var clash := Overlap(left, right, leftIntervals, byName);
        if clash {
          if Resolves(routes, byName) {
            ClashConflicts(left, right, routes, byName);
          }
          return Some((left, right));
        }
      }
    }
    pair := None;
    if Indexed(routes, byName) {
      NoClashUnambiguous(policies, routes, byName);
    }
  }

  // ---- Selection -------------------------------------------------------------------------

  function SelectionOf(p: Policy): Selection { Selection(p.name, p.key, p.bucket) }

  /** Higher priority first, then by name. */
  predicate Before(p: Policy, q: Policy) {
    p.priority > q.priority || (p.priority == q.priority && StrLess(p.name, q.name))
  }

  datatype Selector = Selector(policies: seq<Policy>, routes: seq<Route>, defaultPolicy: Option<Selection>)

  ghost predicate UniquePolicyNames(policies: seq<Policy>) {
    forall i, j :: 0 <= i < j < |policies| ==> policies[i].name != policies[j].name
  }

  lemma BeforeIsOrder()
    ensures StrictOrder(Before)
  {
    forall x, y | Before(x, y) ensures !Before(y, x) {
      StrLessTotal(x.name, y.name);
    }
    forall x, y, z | Before(x, y) && Before(y, z) ensures Before(x, z) {
      if x.priority == y.priority == z.priority {
        StrLessTransitive(x.name, y.name, z.name);
      }
    }
  }

  lemma BeforeSeparates(policies: seq<Policy>)
    requires UniquePolicyNames(policies)
    ensures Distinguishable(policies, Before)
  {
    forall i, j | 0 <= i < j < |policies| ensures Before(policies[i], policies[j]) || Before(policies[j], policies[i]) {
      StrLessTotal(policies[i].name, policies[j].name);
    }
  }

  /** The default is the policy of that name, wherever it stands. */
  ghost predicate IsDefault(policies: seq<Policy>, name: string, chosen: Option<Selection>) {
    if chosen.Some? then exists p :: p in policies && p.name == name && chosen.value == SelectionOf(p)
    else forall p :: p in policies ==> p.name != name
  }

  /** The selector of a configuration: its policies in order, its routes and its default. */
  ghost predicate IsSelector(s: Selector, policies: seq<Policy>, routes: seq<Route>, defaultName: string) {
    && Ordered(s.policies, Before) && (forall p :: p in s.policies <==> p in policies)
    && s.routes == routes && IsDefault(policies, defaultName, s.defaultPolicy)
  }

  method NewTrafficPolicySelector(policies: seq<Policy>, routes: seq<Route>, defaultName: string) returns (s: Selector)
    requires UniquePolicyNames(policies)
    ensures IsSelector(s, policies, routes, defaultName)
  {
    BeforeIsOrder();
    BeforeSeparates(policies);
    SortByOrdered(policies, Before);
    var sorted := SortBy(policies, Before);
    var chosen := None;
    for i := 0 to |sorted|
      invariant chosen.None? && forall k :: 0 <= k < i ==> sorted[k].name != defaultName
    {
      if sorted[i].name == defaultName {
        chosen := Some(SelectionOf(sorted[i]));
        assert sorted[i] in policies;
        break;
      }
    }
    s := Selector(sorted, routes, chosen);
  }

  /** A matching policy of the highest priority that matches, or the default. */
  ghost predicate IsSelection(policies: seq<Policy>, routes: seq<Route>, fallback: Option<Selection>,
                              clientId: string, m: nat, chosen: Option<Selection>) {
    var route := RouteOf(routes, m);
    if exists p :: p in policies && Matches(p, clientId, m, route) then
      exists p :: && p in policies && Matches(p, clientId, m, route) && chosen == Some(SelectionOf(p))
                  && forall q :: q in policies && Matches(q, clientId, m, route) ==> q.priority <= p.priority
    else chosen == fallback
  }

  method Select(s: Selector, clientId: string, m: nat) returns (chosen: Option<Selection>)
    requires Ordered(s.policies, Before)
    ensures IsSelection(s.policies, s.routes, s.defaultPolicy, clientId, m, chosen)
  {
    var route := ResolveRoute(s.routes, m);
    for i := 0 to |s.policies|
      invariant forall k :: 0 <= k < i ==> !Matches(s.policies[k], clientId, m, route)
    {
      if Matches(s.policies[i], clientId, m, route) {
        forall q | q in s.policies && Matches(q, clientId, m, route) ensures q.priority <= s.policies[i].priority {
          var j :| 0 <= j < |s.policies| && s.policies[j] == q;
          assert j > i ==> Before(s.policies[i], s.policies[j]);
        }
        return Some(SelectionOf(s.policies[i]));
      }
    }
    chosen := s.defaultPolicy;
  }

  /** Of accepted policies every packet selects the same, in whatever order they are tried. */
  lemma SameSelection(accepted: seq<Policy>, policies: seq<Policy>, others: seq<Policy>, routes: seq<Route>,
                      fallback: Option<Selection>,
                      clientId: string, m: nat, chosen: Option<Selection>, again: Option<Selection>)
    requires Unambiguous(accepted, routes) && m <= U32_MAX
    requires forall p :: (p in policies <==> p in accepted) && (p in others <==> p in accepted)
    requires IsSelection(policies, routes, fallback, clientId, m, chosen)
    requires IsSelection(others, routes, fallback, clientId, m, again)
    ensures chosen == again
  {
    var route := RouteOf(routes, m);
    if exists p :: p in policies && Matches(p, clientId, m, route) {
      var p :| && p in policies && Matches(p, clientId, m, route) && chosen == Some(SelectionOf(p))
               && forall q :: q in policies && Matches(q, clientId, m, route) ==> q.priority <= p.priority;
      assert exists x :: x in others && Matches(x, clientId, m, route);
      var q :| && q in others && Matches(q, clientId, m, route) && again == Some(SelectionOf(q))
               && forall x :: x in others && Matches(x, clientId, m, route) ==> x.priority <= q.priority;
      if p != q {
        var i :| 0 <= i < |accepted| && accepted[i] == p;
        var j :| 0 <= j < |accepted| && accepted[j] == q;
        assert BothMatch(p, q, routes, clientId, m) && BothMatch(q, p, routes, clientId, m);
        assert Conflict(p, q, routes) && Conflict(q, p, routes);
      }
    }
  }

  /** The default does not depend on the order either. */
  lemma DefaultDetermined(policies: seq<Policy>, others: seq<Policy>, name: string, chosen: Option<Selection>,
                          again: Option<Selection>)
    requires UniquePolicyNames(policies) && forall p :: p in policies <==> p in others
    requires IsDefault(policies, name, chosen) && IsDefault(others, name, again)
    ensures chosen == again
  {
    if chosen.Some? && again.Some? {
      var p :| p in policies && p.name == name && chosen.value == SelectionOf(p);
      var q :| q in others && q.name == name && again.value == SelectionOf(q);
      var i :| 0 <= i < |policies| && policies[i] == p;
      var j :| 0 <= j < |policies| && policies[j] == q;
      assert i == j;
    }
  }

  /** Once the check has accepted, what a selector answers depends neither on the order in which
      the policies are written nor on the order of their names. */
  lemma SelectionDetermined(policies: seq<Policy>, others: seq<Policy>, routes: seq<Route>, defaultName: string,
                            s: Selector, t: Selector,
                            clientId: string, m: nat, chosen: Option<Selection>, again: Option<Selection>)
    requires UniquePolicyNames(policies) && Unambiguous(policies, routes) && m <= U32_MAX
    requires forall p :: p in policies <==> p in others
    requires IsSelector(s, policies, routes, defaultName) && IsSelector(t, others, routes, defaultName)
    requires IsSelection(s.policies, s.routes, s.defaultPolicy, clientId, m, chosen)
    requires IsSelection(t.policies, t.routes, t.defaultPolicy, clientId, m, again)
    ensures s.defaultPolicy == t.defaultPolicy && chosen == again
  {
    DefaultDetermined(policies, others, defaultName, s.defaultPolicy, t.defaultPolicy);
    SameSelection(policies, s.policies, t.policies, routes, s.defaultPolicy, clientId, m, chosen, again);
  }
}
