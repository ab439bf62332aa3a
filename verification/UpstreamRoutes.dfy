/** internal/config/validation.go and the routes it lets through: what `ToServerConfig` and the
    route reload accept, so that the traffic-policy check is exact for every configuration that
    loads. */
module UpstreamRoutes {
  import opened Messages
  import opened Ordering
  import opened Text
  import opened TrafficPolicies

  const MAX_SPAN: nat := 10000
  const RESERVED: seq<nat> := [1, 2, 1000]

  /** A route as written: whether it is enabled, its name and range, and its in-flight limit. */
  datatype RawRoute = RawRoute(name: string, enabled: bool, msgIdMin: nat, msgIdMax: nat, maxInFlight: int)

  datatype Problem =
    | DuplicateName(index: nat, previous: nat)
    | TooLarge(index: nat)
    | UsesReserved(index: nat, msgId: nat)
    | Overlaps(index: nat, previous: nat)

  /** The range of the route at `index`. */
  datatype Span = Span(index: nat, min: nat, max: nat)

  predicate ValidRange(r: RawRoute) {
    r.msgIdMin != 0 && (r.msgIdMax != 0 ==> r.msgIdMax >= r.msgIdMin) && r.maxInFlight >= 0
  }

  function Top(r: RawRoute): nat { if r.msgIdMax == 0 then r.msgIdMin else r.msgIdMax }

  // ---- What the check is for -------------------------------------------------------------

  /** The name a route goes by; blank if it has none or is not enabled. */
  function KeyOf(r: RawRoute): string {
    if r.enabled then TrimSpace(r.name) else ""
  }

  function KeysOf(raw: seq<RawRoute>): seq<string> {
    seq(|raw|, i requires 0 <= i < |raw| => KeyOf(raw[i]))
  }

  /** No key but the blank one twice. */
  ghost predicate DistinctKeys(keys: seq<string>) {
    forall i, j :: 0 <= i < j < |keys| && keys[i] == keys[j] ==> keys[i] == ""
  }

  /** The route's range counts: it is enabled and its range is one. */
  predicate Ranged(r: RawRoute) { r.enabled && ValidRange(r) }

  predicate HitsReserved(r: RawRoute, id: nat) { r.msgIdMin <= id <= Top(r) }

  predicate Modest(r: RawRoute) {
    Top(r) - r.msgIdMin <= MAX_SPAN && forall k :: 0 <= k < |RESERVED| ==> !HitsReserved(r, RESERVED[k])
  }

  predicate Meet(a: RawRoute, b: RawRoute) {
    a.msgIdMin <= Top(b) && b.msgIdMin <= Top(a)
  }

  ghost predicate AllModest(raw: seq<RawRoute>) {
    forall i :: 0 <= i < |raw| && Ranged(raw[i]) ==> Modest(raw[i])
  }

  ghost predicate NoneMeet(raw: seq<RawRoute>) {
    forall i, j :: 0 <= i < j < |raw| && Ranged(raw[i]) && Ranged(raw[j]) ==> !Meet(raw[i], raw[j])
  }

  /** No name twice, no range too large or reserved, no message ID in two ranges. */
  ghost predicate ConflictFree(raw: seq<RawRoute>) {
    DistinctKeys(KeysOf(raw)) && AllModest(raw) && NoneMeet(raw)
  }

  ghost predicate AllValid(raw: seq<RawRoute>) {
    forall i :: 0 <= i < |raw| && raw[i].enabled ==> ValidRange(raw[i])
  }

  // ---- The ranges, sorted ----------------------------------------------------------------

  predicate SpanBefore(a: Span, b: Span) {
    a.min < b.min || (a.min == b.min && a.max < b.max)
  }

  /** The ranges that are compared with their neighbours: those not found too large already. */
  function Spans(raw: seq<RawRoute>): seq<Span> {
    if raw == [] then [] else Spans(raw[..|raw| - 1]) + SpanOf(raw[|raw| - 1], |raw| - 1)
  }

  function SpanOf(r: RawRoute, index: nat): seq<Span> {
    if Ranged(r) && Top(r) - r.msgIdMin <= MAX_SPAN then [Span(index, r.msgIdMin, Top(r))] else []
  }

  ghost predicate IsSpan(s: Span, raw: seq<RawRoute>) {
    && s.index < |raw| && Ranged(raw[s.index]) && Top(raw[s.index]) - raw[s.index].msgIdMin <= MAX_SPAN
    && s == Span(s.index, raw[s.index].msgIdMin, Top(raw[s.index]))
  }

  ghost predicate AllSpans(s: seq<Span>, raw: seq<RawRoute>) {
    forall i :: 0 <= i < |s| ==> IsSpan(s[i], raw)
  }

  lemma {:induction false} SpansAre(raw: seq<RawRoute>)
    ensures forall s :: s in Spans(raw) <==> IsSpan(s, raw)
    ensures forall i, j :: 0 <= i < j < |Spans(raw)| ==> Spans(raw)[i].index < Spans(raw)[j].index
  {
    if raw != [] {
      var n := |raw| - 1;
      SpansAre(raw[..n]);
      forall s ensures s in Spans(raw) <==> IsSpan(s, raw) {
        assert s in Spans(raw[..n]) <==> IsSpan(s, raw[..n]);
      }
      forall i | 0 <= i < |Spans(raw[..n])| ensures Spans(raw)[i].index < n {
        assert Spans(raw[..n])[i] in Spans(raw[..n]);
      }
    }
  }

  /** No element is below one that comes before it. */
  ghost predicate Ascending(s: seq<Span>) {
    forall i, j :: 0 <= i < j < |s| ==> !SpanBefore(s[j], s[i])
  }

  lemma PrependAscending(x: Span, s: seq<Span>)
    requires Ascending(s) && forall y :: y in s ==> !SpanBefore(y, x)
    ensures Ascending([x] + s)
  {
  }

  lemma InsertedFrom(x: Span, s: seq<Span>, y: Span)
    requires y in Insert(x, s, SpanBefore)
    ensures y == x || y in s
  {
    assert y in multiset(Insert(x, s, SpanBefore));
  }

  lemma {:induction false} InsertAscending(x: Span, s: seq<Span>)
    requires Ascending(s)
    ensures Ascending(Insert(x, s, SpanBefore))
  {
    if s != [] && SpanBefore(x, s[0]) {
      PrependAscending(x, s);
    } else if s != [] {
      InsertAscending(x, s[1..]);
      forall y | y in Insert(x, s[1..], SpanBefore) ensures !SpanBefore(y, s[0]) {
        InsertedFrom(x, s[1..], y);
      }
      PrependAscending(s[0], Insert(x, s[1..], SpanBefore));
    }
  }

  lemma {:induction false} SortAscending(s: seq<Span>)
    ensures Ascending(SortBy(s, SpanBefore))
    ensures forall x :: x in SortBy(s, SpanBefore) <==> x in s
  {
    if s != [] {
      SortAscending(s[1..]);
      InsertAscending(s[0], SortBy(s[1..], SpanBefore));
    }
    forall x ensures x in SortBy(s, SpanBefore) <==> x in s {
      assert x in SortBy(s, SpanBefore) <==> x in multiset(SortBy(s, SpanBefore));
      assert x in s <==> x in multiset(s);
    }
  }

  ghost predicate NeighboursApart(s: seq<Span>) {
    forall i :: 0 < i < |s| ==> s[i - 1].max < s[i].min
  }

  ghost predicate Filled(s: seq<Span>) {
    forall i :: 0 <= i < |s| ==> s[i].min <= s[i].max
  }

  lemma SpansApart(s: seq<Span>, i: nat, j: nat)
    requires NeighboursApart(s) && Filled(s) && i < j < |s|
    ensures s[i].max < s[j].min
  {
    ApartFrom(s, (span: Span) => span.min, (span: Span) => span.max, i, j);
  }

  /** With nothing too large, neighbours in the sorted ranges are apart if and only if no two ranges
      meet. */
  lemma NeighboursEnough(raw: seq<RawRoute>)
    requires AllModest(raw)
    ensures NeighboursApart(SortBy(Spans(raw), SpanBefore)) <==> NoneMeet(raw)
  {
    var sorted := SortBy(Spans(raw), SpanBefore);
    SortedSpans(raw);
    if NeighboursApart(sorted) {
      forall i, j | 0 <= i < j < |raw| && Ranged(raw[i]) && Ranged(raw[j]) ensures !Meet(raw[i], raw[j]) {
        SortedApart(raw, sorted, i, j);
      }
    }
    if NoneMeet(raw) {
      SortedDistinct(raw);
      forall i | 0 < i < |sorted| ensures sorted[i - 1].max < sorted[i].min {
        NeighbourApart(raw, sorted, i);
      }
    }
  }

  lemma SortedSpans(raw: seq<RawRoute>)
    ensures AllSpans(SortBy(Spans(raw), SpanBefore), raw) && Filled(SortBy(Spans(raw), SpanBefore))
    ensures Ascending(SortBy(Spans(raw), SpanBefore))
    ensures forall s :: IsSpan(s, raw) ==> s in SortBy(Spans(raw), SpanBefore)
  {
    var sorted := SortBy(Spans(raw), SpanBefore);
    SpansAre(raw);
    SortAscending(Spans(raw));
    forall i | 0 <= i < |sorted| ensures IsSpan(sorted[i], raw) && sorted[i].min <= sorted[i].max {
      assert sorted[i] in sorted;
      assert sorted[i] in Spans(raw);
    }
  }

  lemma SortedApart(raw: seq<RawRoute>, sorted: seq<Span>, i: nat, j: nat)
    requires NeighboursApart(sorted) && Filled(sorted) && forall s :: IsSpan(s, raw) ==> s in sorted
    requires AllModest(raw) && i < j < |raw| && Ranged(raw[i]) && Ranged(raw[j])
    ensures !Meet(raw[i], raw[j])
  {
    var a, b := Span(i, raw[i].msgIdMin, Top(raw[i])), Span(j, raw[j].msgIdMin, Top(raw[j]));
    assert IsSpan(a, raw) && IsSpan(b, raw);
    var x :| 0 <= x < |sorted| && sorted[x] == a;
    var y :| 0 <= y < |sorted| && sorted[y] == b;
    if x < y {
      SpansApart(sorted, x, y);
    } else {
      SpansApart(sorted, y, x);
    }
  }

  ghost predicate DistinctIndices(s: seq<Span>) {
    forall i, j :: 0 <= i < j < |s| ==> s[i].index != s[j].index
  }

  /** Every route has one place in the sorted ranges. */
  lemma SortedDistinct(raw: seq<RawRoute>)
    ensures DistinctIndices(SortBy(Spans(raw), SpanBefore))
  {
    var spans, sorted := Spans(raw), SortBy(Spans(raw), SpanBefore);
    SpansAre(raw);
    SortAscending(spans);
    OncePerElement(spans);
    forall i, j | 0 <= i < j < |sorted| ensures sorted[i].index != sorted[j].index {
      assert sorted[i] in spans && sorted[j] in spans;
      if sorted[i].index == sorted[j].index {
        assert sorted[i] == sorted[j];
        TwicePerElement(sorted, i, j);
      }
    }
  }

  lemma {:induction false} OncePerElement(s: seq<Span>)
    requires forall i, j :: 0 <= i < j < |s| ==> s[i].index < s[j].index
    ensures forall x :: multiset(s)[x] <= 1
  {
    if s != [] {
      var n := |s| - 1;
      OncePerElement(s[..n]);
      assert s == s[..n] + [s[n]];
      assert s[n] !in s[..n];
    }
  }

  lemma TwicePerElement(s: seq<Span>, i: nat, j: nat)
    requires i < j < |s| && s[i] == s[j]
    ensures multiset(s)[s[i]] >= 2
  {
    assert s == s[..i] + [s[i]] + s[i + 1..j] + [s[j]] + s[j + 1..];
  }

  lemma NeighbourApart(raw: seq<RawRoute>, sorted: seq<Span>, i: nat)
    requires NoneMeet(raw) && Ascending(sorted) && 0 < i < |sorted| && AllSpans(sorted, raw)
    requires DistinctIndices(sorted)
    ensures sorted[i - 1].max < sorted[i].min
  {
    var a, b := sorted[i - 1], sorted[i];
    assert IsSpan(a, raw) && IsSpan(b, raw) && !SpanBefore(b, a);
    if a.index < b.index {
      assert !Meet(raw[a.index], raw[b.index]);
    } else {
      assert !Meet(raw[b.index], raw[a.index]);
    }
  }

  // ---- The check -------------------------------------------------------------------------

  /** Which route had each key first. */
  ghost predicate NamedBy(names: map<string, nat>, keys: seq<string>) {
    && (forall name :: name in names ==> name != "" && names[name] < |keys| && keys[names[name]] == name)
    && (forall i :: 0 <= i < |keys| && keys[i] != "" ==> keys[i] in names)
  }

  lemma NamedMore(names: map<string, nat>, keys: seq<string>, key: string)
    requires NamedBy(names, keys)
    ensures NamedBy(if key != "" && key !in names then names[key := |keys|] else names, keys + [key])
  {
    var all := keys + [key];
    assert all[|keys|] == key && forall i :: 0 <= i < |keys| ==> all[i] == keys[i];
  }

  lemma DistinctMore(names: map<string, nat>, keys: seq<string>, key: string)
    requires NamedBy(names, keys)
    ensures DistinctKeys(keys + [key]) <==> DistinctKeys(keys) && key !in names
  {
    var all := keys + [key];
    assert all[|keys|] == key && forall i :: 0 <= i < |keys| ==> all[i] == keys[i];
    if DistinctKeys(all) {
      forall i, j | 0 <= i < j < |keys| && keys[i] == keys[j] ensures keys[i] == "" {
        assert all[i] == all[j];
      }
    }
    if key in names {
      var i := names[key];
      assert 0 <= i < |keys| && all[i] == all[|keys|] && all[i] != "";
    }
  }

  lemma ModestMore(raw: seq<RawRoute>, r: RawRoute)
    ensures AllModest(raw + [r]) <==> AllModest(raw) && (Ranged(r) ==> Modest(r))
  {
    var all := raw + [r];
    assert all[|raw|] == r && forall i :: 0 <= i < |raw| ==> all[i] == raw[i];
  }

  method ReservedIn(r: RawRoute, index: nat) returns (problems: seq<Problem>)
    ensures problems == [] <==> forall k :: 0 <= k < |RESERVED| ==> !HitsReserved(r, RESERVED[k])
  {
    problems := [];
    for k := 0 to |RESERVED|
      invariant problems == [] <==> forall l :: 0 <= l < k ==> !HitsReserved(r, RESERVED[l])
    {
      if r.msgIdMin <= RESERVED[k] && RESERVED[k] <= Top(r) {
        problems := problems + [UsesReserved(index, RESERVED[k])];
      }
    }
  }

  method NoteName(names: map<string, nat>, route: RawRoute, index: nat)
    returns (names': map<string, nat>, problems: seq<Problem>)
    ensures var key := KeyOf(route);
            && names' == (if key != "" && key !in names then names[key := index] else names)
            && (problems == [] <==> key == "" || key !in names)
  {
    names', problems := names, [];
    if route.enabled {
      var name := TrimSpace(route.name);
      if name != "" {
        if name in names {
          problems := [DuplicateName(index, names[name])];
        } else {
          names' := names[name := index];
        }
      }
    }
  }

  method NoteRange(route: RawRoute, index: nat) returns (span: seq<Span>, problems: seq<Problem>)
    ensures span == SpanOf(route, index)
    ensures problems == [] <==> (Ranged(route) ==> Modest(route))
  {
    span, problems := [], [];
    if route.enabled && ValidRange(route) {
      if Top(route) - route.msgIdMin > MAX_SPAN {
        problems := [TooLarge(index)];
      } else {
        problems := ReservedIn(route, index);
        span := [Span(index, route.msgIdMin, Top(route))];
      }
    }
  }

  /** What the first `n` routes have left: their names, their ranges and whether there was a problem. */
  ghost predicate Noted(raw: seq<RawRoute>, n: nat, names: map<string, nat>, spans: seq<Span>, clean: bool)
    requires n <= |raw|
  {
    && NamedBy(names, KeysOf(raw)[..n]) && spans == Spans(raw[..n])
    && (clean <==> DistinctKeys(KeysOf(raw)[..n]) && AllModest(raw[..n]))
  }

  lemma NextName(keys: seq<string>, n: nat, names: map<string, nat>)
    requires n < |keys| && NamedBy(names, keys[..n])
    ensures NamedBy(if keys[n] != "" && keys[n] !in names then names[keys[n] := n] else names, keys[..n + 1])
    ensures DistinctKeys(keys[..n + 1]) <==> DistinctKeys(keys[..n]) && keys[n] !in names
  {
    assert keys[..n + 1] == keys[..n] + [keys[n]];
    NamedMore(names, keys[..n], keys[n]);
    DistinctMore(names, keys[..n], keys[n]);
  }

  lemma NextRange(raw: seq<RawRoute>, n: nat)
    requires n < |raw|
    ensures Spans(raw[..n + 1]) == Spans(raw[..n]) + SpanOf(raw[n], n)
    ensures AllModest(raw[..n + 1]) <==> AllModest(raw[..n]) && (Ranged(raw[n]) ==> Modest(raw[n]))
  {
    assert raw[..n + 1] == raw[..n] + [raw[n]] && raw[..n + 1][..n] == raw[..n];
    ModestMore(raw[..n], raw[n]);
  }

  lemma NotedMore(raw: seq<RawRoute>, n: nat, names: map<string, nat>, spans: seq<Span>, clean: bool, key: string)
    requires n < |raw| && Noted(raw, n, names, spans, clean) && key == KeysOf(raw)[n]
    ensures Noted(raw, n + 1, if key != "" && key !in names then names[key := n] else names, spans + SpanOf(raw[n], n),
                  clean && (key == "" || key !in names) && (Ranged(raw[n]) ==> Modest(raw[n])))
  {
    NextName(KeysOf(raw), n, names);
    NextRange(raw, n);
  }

  /** One pass over names, sizes and reserved IDs collects the ranges. */
  method CollectRanges(raw: seq<RawRoute>) returns (spans: seq<Span>, problems: seq<Problem>)
    ensures spans == Spans(raw) && (problems == [] <==> DistinctKeys(KeysOf(raw)) && AllModest(raw))
  {
    spans, problems := [], [];
    var names: map<string, nat> := map[];
    for index := 0 to |raw|
      invariant Noted(raw, index, names, spans, problems == [])
    {
      NotedMore(raw, index, names, spans, problems == [], KeyOf(raw[index]));
      var duplicates, faults, span;
      names, duplicates := NoteName(names, raw[index], index);
      span, faults := NoteRange(raw[index], index);
      spans, problems := spans + span, problems + duplicates + faults;
    }
    assert raw[..|raw|] == raw && KeysOf(raw)[..|raw|] == KeysOf(raw);
  }

  method CompareNeighbours(sorted: seq<Span>) returns (problems: seq<Problem>)
    ensures problems == [] <==> NeighboursApart(sorted)
  {
    problems := [];
    var index := 1;
    while index < |sorted|
      invariant problems == [] <==> forall i :: 0 < i < index && i < |sorted| ==> sorted[i - 1].max < sorted[i].min
    {
      if sorted[index].min <= sorted[index - 1].max {
        problems := problems + [Overlaps(sorted[index].index, sorted[index - 1].index)];
      }
      index := index + 1;
    }
  }

  /** The check finds no problem if and only if the routes are free of conflicts. */
  method ValidateUpstreamRouteConflicts(raw: seq<RawRoute>) returns (problems: seq<Problem>)
    ensures problems == [] <==> ConflictFree(raw)
  {
    var spans;
    spans, problems := CollectRanges(raw);
    if AllModest(raw) {
      NeighboursEnough(raw);
    }
    var overlaps := CompareNeighbours(SortBy(spans, SpanBefore));
    problems := problems + overlaps;
  }

  // ---- The routes that load --------------------------------------------------------------

  /** An enabled route as the traffic policies see it. */
  function PolicyRoute(r: RawRoute): Route {
    Route(TrimSpace(r.name), r.msgIdMin, Top(r))
  }

  function Loaded(raw: seq<RawRoute>): seq<Route> {
    if raw == [] then []
    else Loaded(raw[..|raw| - 1]) + if raw[|raw| - 1].enabled then [PolicyRoute(raw[|raw| - 1])] else []
  }

  /** The enabled routes, unless the range of one is none. */
  method ToPolicyRoutes(raw: seq<RawRoute>) returns (routes: Option<seq<Route>>)
    ensures routes == if AllValid(raw) then Some(Loaded(raw)) else None
  {
    var out: seq<Route> := [];
    for index := 0 to |raw|
      invariant out == Loaded(raw[..index]) && AllValid(raw[..index])
    {
      assert raw[..index + 1][..index] == raw[..index];
      if raw[index].enabled {
        if !ValidRange(raw[index]) {
          return None;
        }
        out := out + [PolicyRoute(raw[index])];
      }
    }
    assert raw[..|raw|] == raw;
    routes := Some(out);
  }

  lemma {:induction false} LoadedFrom(raw: seq<RawRoute>, r: Route)
    requires r in Loaded(raw)
    ensures exists i :: 0 <= i < |raw| && raw[i].enabled && r == PolicyRoute(raw[i])
  {
    var n := |raw| - 1;
    if r in Loaded(raw[..n]) {
      LoadedFrom(raw[..n], r);
      var i :| 0 <= i < n && raw[..n][i].enabled && r == PolicyRoute(raw[..n][i]);
      assert raw[i].enabled && r == PolicyRoute(raw[i]);
    } else {
      assert raw[n].enabled && r == PolicyRoute(raw[n]);
    }
  }

  lemma UniqueMore(routes: seq<Route>, r: Route)
    requires UniqueNames(routes) && forall x :: x in routes && x.name == r.name ==> r.name == ""
    ensures UniqueNames(routes + [r])
  {
    var all := routes + [r];
    forall i, j | 0 <= i < j < |all| && all[i].name == all[j].name ensures all[i].name == "" {
      assert i < |routes| && all[i] in routes;
    }
  }

  lemma DisjointMore(routes: seq<Route>, r: Route)
    requires DisjointRoutes(routes) && forall x, m: nat :: x in routes && Hits(x, m) ==> !Hits(r, m)
    ensures DisjointRoutes(routes + [r])
  {
    var all := routes + [r];
    forall i, j, m: nat | 0 <= i < j < |all| && Hits(all[i], m) ensures !Hits(all[j], m) {
      assert i < |routes| && all[i] in routes;
    }
  }

  lemma PrefixFits(raw: seq<RawRoute>, n: nat)
    requires n <= |raw| && AllValid(raw) && ConflictFree(raw)
    ensures AllValid(raw[..n]) && ConflictFree(raw[..n])
  {
    assert KeysOf(raw[..n]) == KeysOf(raw)[..n];
  }

  /** What loads is uniquely named, disjoint and positive. */
  lemma {:induction false} LoadedRoutesFit(raw: seq<RawRoute>)
    requires AllValid(raw) && ConflictFree(raw)
    ensures UniqueNames(Loaded(raw)) && DisjointRoutes(Loaded(raw)) && PositiveRoutes(Loaded(raw))
  {
    if raw != [] {
      var n := |raw| - 1;
      var before, r := raw[..n], raw[n];
      PrefixFits(raw, n);
      LoadedRoutesFit(before);
      if r.enabled {
        forall x | x in Loaded(before)
          ensures x.name == TrimSpace(r.name) ==> x.name == ""
          ensures forall m: nat :: Hits(x, m) ==> !Hits(PolicyRoute(r), m)
        {
          LoadedFrom(before, x);
          var i :| 0 <= i < n && before[i].enabled && x == PolicyRoute(before[i]);
          assert raw[i] == before[i];
          assert KeysOf(raw)[i] == x.name && KeysOf(raw)[n] == TrimSpace(r.name);
          assert !Meet(raw[i], raw[n]);
        }
        UniqueMore(Loaded(before), PolicyRoute(r));
        DisjointMore(Loaded(before), PolicyRoute(r));
      }
    }
  }

  /** A configuration loads if and only if its routes are valid and free of conflicts and no packet is
      matched by two of its traffic policies of equal priority. */
  method LoadsWith(raw: seq<RawRoute>, policies: seq<Policy>) returns (ok: bool)
    requires ValidPolicies(policies)
    ensures ok <==> AllValid(raw) && ConflictFree(raw) && Unambiguous(policies, Loaded(raw))
  {
    var routes := ToPolicyRoutes(raw);
    if routes.None? {
      return false;
    }
    var byName := IndexRoutes(routes.value);
    var pair := ValidateAmbiguity(policies, byName, routes.value);
    var problems := ValidateUpstreamRouteConflicts(raw);
    if problems == [] {
      LoadedRoutesFit(raw);
      UniqueNamesIndexed(routes.value, byName);
      DisjointResolves(routes.value, byName);
    }
    ok := pair.None? && problems == [];
  }
}
