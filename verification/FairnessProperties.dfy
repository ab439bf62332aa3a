/** What the fair choice of internal/downlink/fairness.go guarantees, and the SQL query of
    internal/downlink/postgres_store.go as its independent specification. */
module FairnessProperties {
  import opened Messages
  import opened Ordering
  import opened Fairness

  function Min(a: int, b: int): int { if a < b then a else b }

  function Max(a: int, b: int): int { if a < b then b else a }

  // ---- The greedy choice -----------------------------------------------------------------

  /** A scan returns as many candidates as it may, none twice. */
  lemma PicksDistinct(c: seq<Message>, limit: nat)
    ensures |Picks(c, limit)| == Min(limit, |c|)
    ensures forall i, j :: 0 <= i < j < |Picks(c, limit)| ==> Picks(c, limit)[i] != Picks(c, limit)[j]
  {
    RoundOrder(c);
    ListingLength(RoundRobin(c), Indices(c), RoundLess(c));
    IndicesSize(c);
  }

  lemma {:induction false} IndicesSize(c: seq<Message>)
    ensures |Indices(c)| == |c|
  {
    if c == [] {
      assert Indices(c) == {};
    } else {
      var rest := c[..|c| - 1];
      IndicesSize(rest);
      assert forall i: nat :: i < |c| ==> IsIndex(c, i);
      assert forall i: nat :: i < |rest| ==> IsIndex(rest, i);
      assert Indices(c) == Indices(rest) + {|c| - 1};
    }
  }

  /** Whatever is left out comes after everything chosen. */
  lemma Greedy(c: seq<Message>, limit: nat, x: nat, y: nat)
    requires x in Picks(c, limit) && y < |c| && y !in Picks(c, limit)
    ensures RoundLess(c)(x, y)
  {
    var all := RoundRobin(c);
    assert IsIndex(c, y) && y in Indices(c);
    var i :| 0 <= i < |Picks(c, limit)| && Picks(c, limit)[i] == x;
    var j :| 0 <= j < |all| && all[j] == y;
    assert forall k :: 0 <= k < |Picks(c, limit)| ==> all[k] == Picks(c, limit)[k] && all[k] != y;
    assert i < |Picks(c, limit)| <= j;
  }

  /** Each device is served from the head of its queue. */
  lemma FifoPerDevice(c: seq<Message>, limit: nat, i: nat, j: nat)
    requires i in Picks(c, limit) && j < i < |c| && DeviceOf(c[j]) == DeviceOf(c[i])
    ensures j in Picks(c, limit)
  {
    if j !in Picks(c, limit) {
      Greedy(c, limit, i, j);
      assert Earlier(c, j, DeviceOf(c[i])) <= Earlier(c, i, DeviceOf(c[i]));
      SubsetSize(Earlier(c, j, DeviceOf(c[i])), Earlier(c, i, DeviceOf(c[i])));
    }
  }

  function Share(chosen: set<nat>, c: seq<Message>, d: Device): set<nat> {
    set i | i in chosen && i < |c| && DeviceOf(c[i]) == d
  }

  function Chosen(picks: seq<nat>): set<nat> {
    set i | i in picks
  }

  /** A device with something left waiting got at most one message less than any other. */
  lemma TrailingDeviceIsExhausted(c: seq<Message>, limit: nat, d: Device, e: Device, y: nat)
    requires y < |c| && DeviceOf(c[y]) == d && y !in Picks(c, limit)
    ensures var chosen := Chosen(Picks(c, limit)); |Share(chosen, c, e)| <= |Share(chosen, c, d)| + 1
  {
    var chosen := Chosen(Picks(c, limit));
    var z := FirstLeft(c, limit, d, y);
    assert Earlier(c, z, d) <= Share(chosen, c, d);
    SubsetSize(Earlier(c, z, d), Share(chosen, c, d));
    if Share(chosen, c, e) != {} {
      var x := LastServed(c, limit, e);
      Greedy(c, limit, x, z);
      assert Share(chosen, c, e) <= Earlier(c, x, e) + {x};
      SubsetSize(Share(chosen, c, e), Earlier(c, x, e) + {x});
    }
  }

  lemma {:induction false} FirstLeft(c: seq<Message>, limit: nat, d: Device, y: nat) returns (z: nat)
    requires y < |c| && DeviceOf(c[y]) == d && y !in Picks(c, limit)
    ensures z < |c| && DeviceOf(c[z]) == d && z !in Picks(c, limit)
    ensures forall i: nat :: i < z && DeviceOf(c[i]) == d ==> i in Picks(c, limit)
  {
    if i: nat :| i < y && DeviceOf(c[i]) == d && i !in Picks(c, limit) {
      z := FirstLeft(c, limit, d, i);
    } else {
      z := y;
    }
  }

  lemma LastServed(c: seq<Message>, limit: nat, e: Device) returns (x: nat)
    requires Share(Chosen(Picks(c, limit)), c, e) != {}
    ensures x in Picks(c, limit) && x < |c| && DeviceOf(c[x]) == e
    ensures forall i :: i in Share(Chosen(Picks(c, limit)), c, e) ==> i <= x
  {
    x := Largest(Share(Chosen(Picks(c, limit)), c, e));
  }

  lemma {:induction false} Largest(s: set<nat>) returns (x: nat)
    requires s != {}
    ensures x in s && forall i :: i in s ==> i <= x
    decreases s
  {
    x :| x in s;
    if s != {x} {
      var y := Largest(s - {x});
      assert forall i :: i in s ==> i == x || i in s - {x};
      if y > x { x := y; }
    }
  }

  // ---- Max-min optimality ----------------------------------------------------------------

  /** The members of a choice that are among the first `k` it grants their device. */
  function Served(chosen: set<nat>, c: seq<Message>, k: nat): set<nat> {
    set i | i in chosen && i < |c| && Rank(chosen, c, i) < k
  }

  function Rank(chosen: set<nat>, c: seq<Message>, i: nat): nat
    requires i < |c|
  {
    |set j | j in chosen && j < i && j < |c| && DeviceOf(c[j]) == DeviceOf(c[i])|
  }

  /** The devices of the candidates, each once. */
  ghost predicate ListsDevices(devices: seq<Device>, c: seq<Message>) {
    && (forall i :: 0 <= i < |c| ==> DeviceOf(c[i]) in devices)
    && (forall i, j :: 0 <= i < j < |devices| ==> devices[i] != devices[j])
  }

  /** The sum of min(share, k) over the devices. */
  function DepthSum(chosen: set<nat>, c: seq<Message>, k: nat, devices: seq<Device>): int {
    if devices == [] then 0
    else Min(|Share(chosen, c, devices[0])|, k) + DepthSum(chosen, c, k, devices[1..])
  }

  /** The elements of a set with fewer than `k` elements below them. */
  function Lowest(s: set<nat>, k: nat): set<nat> {
    set i | i in s && |Below(s, i)| < k
  }

  function Below(s: set<nat>, i: nat): set<nat> {
    set j | j in s && j < i
  }

  lemma {:induction false} LowestSize(s: set<nat>, k: nat)
    ensures |Lowest(s, k)| == Min(|s|, k)
    decreases s
  {
    if s == {} {
      assert Lowest(s, k) == {};
    } else {
      var x := Largest(s);
      var rest := s - {x};
      LowestSize(rest, k);
      assert Below(s, x) == rest;
      forall i | i in rest ensures Below(s, i) == Below(rest, i) {}
      assert Lowest(s, k) == Lowest(rest, k) + if |rest| < k then {x} else {};
    }
  }

  /** What a choice serves of one device at depth `k`. */
  lemma ServedOfDevice(chosen: set<nat>, c: seq<Message>, k: nat, d: Device)
    ensures |Share(Served(chosen, c, k), c, d)| == Min(|Share(chosen, c, d)|, k)
  {
    var share := Share(chosen, c, d);
    forall i | i in share
      ensures |Below(share, i)| == Rank(chosen, c, i)
    {
      assert Below(share, i) == set j | j in chosen && j < i && j < |c| && DeviceOf(c[j]) == DeviceOf(c[i]);
    }
    LowestSize(share, k);
    assert Share(Served(chosen, c, k), c, d) == Lowest(share, k);
  }

  function OfDevices(s: set<nat>, c: seq<Message>, devices: seq<Device>): set<nat> {
    set i | i in s && i < |c| && DeviceOf(c[i]) in devices
  }

  lemma {:induction false} ServedOfDevices(chosen: set<nat>, c: seq<Message>, k: nat, devices: seq<Device>)
    requires forall i, j :: 0 <= i < j < |devices| ==> devices[i] != devices[j]
    ensures |OfDevices(Served(chosen, c, k), c, devices)| == DepthSum(chosen, c, k, devices)
  {
    var served := Served(chosen, c, k);
    if devices == [] {
      assert OfDevices(served, c, devices) == {};
    } else {
      var d, rest := devices[0], devices[1..];
      ServedOfDevices(chosen, c, k, rest);
      ServedOfDevice(chosen, c, k, d);
      assert devices == [d] + rest && d !in rest;
      assert OfDevices(served, c, devices) == OfDevices(served, c, rest) + Share(served, c, d);
      assert OfDevices(served, c, rest) !! Share(served, c, d);
    }
  }

  /** Over all devices the served members add up to the sum of min(share, k). */
  lemma ServedIsDepthSum(chosen: set<nat>, c: seq<Message>, k: nat, devices: seq<Device>)
    requires ListsDevices(devices, c)
    ensures |Served(chosen, c, k)| == DepthSum(chosen, c, k, devices)
  {
    ServedOfDevices(chosen, c, k, devices);
    assert OfDevices(Served(chosen, c, k), c, devices) == Served(chosen, c, k);
  }

  /** No choice of at most `limit` candidates gives a larger sum of min(share, k) over the
      devices, for any `k`: all these sums are maximal at once, which is max-min fairness. */
  lemma MaxMinOptimal(c: seq<Message>, limit: nat, other: set<nat>, k: nat, devices: seq<Device>)
    requires other <= Indices(c) && |other| <= limit && ListsDevices(devices, c)
    ensures DepthSum(other, c, k, devices) <= DepthSum(Chosen(Picks(c, limit)), c, k, devices)
  {
    ServesMost(c, limit, other, k);
    ServedIsDepthSum(other, c, k, devices);
    ServedIsDepthSum(Chosen(Picks(c, limit)), c, k, devices);
  }

  lemma ServesMost(c: seq<Message>, limit: nat, other: set<nat>, k: nat)
    requires other <= Indices(c) && |other| <= limit
    ensures |Served(other, c, k)| <= |Served(Chosen(Picks(c, limit)), c, k)|
  {
    var chosen := Chosen(Picks(c, limit));
    assert Served(other, c, k) <= other;
    SubsetSize(Served(other, c, k), other);
    AtMostLow(c, other, k);
    ServedIsLow(c, limit, k);
    if y: nat :| y in Low(c, k) && y !in chosen {
      // Every choice made is at a depth below k, and the limit is used up.
      forall x | x in chosen
        ensures x in Served(chosen, c, k)
      {
        Greedy(c, limit, x, y);
      }
      assert Served(chosen, c, k) == chosen;
      ChosenSize(c, limit);
      PicksDistinct(c, limit);
      assert other <= Indices(c);
      SubsetSize(other, Indices(c));
      IndicesSize(c);
    } else {
      assert Served(chosen, c, k) == Low(c, k);
    }
  }

  lemma ChosenSize(c: seq<Message>, limit: nat)
    ensures |Chosen(Picks(c, limit))| == |Picks(c, limit)|
  {
    PicksDistinct(c, limit);
    DistinctSize(Picks(c, limit));
  }

  lemma {:induction false} DistinctSize(s: seq<nat>)
    requires forall i, j :: 0 <= i < j < |s| ==> s[i] != s[j]
    ensures |Chosen(s)| == |s|
  {
    if s == [] {
      assert Chosen(s) == {};
    } else {
      var rest := s[..|s| - 1];
      DistinctSize(rest);
      assert Chosen(s) == Chosen(rest) + {s[|s| - 1]} by {
        assert s == rest + [s[|s| - 1]];
      }
    }
  }

  /** The scan's own choice has no gaps, so rank within it is queue position. */
  lemma ServedIsLow(c: seq<Message>, limit: nat, k: nat)
    ensures Served(Chosen(Picks(c, limit)), c, k) == Chosen(Picks(c, limit)) * Low(c, k)
  {
    var chosen := Chosen(Picks(c, limit));
    forall i | i in chosen && i < |c|
      ensures Rank(chosen, c, i) == Position(c, i)
    {
      forall j: nat | j < i && DeviceOf(c[j]) == DeviceOf(c[i])
        ensures j in chosen
      {
        FifoPerDevice(c, limit, i, j);
      }
      assert (set j | j in chosen && j < i && j < |c| && DeviceOf(c[j]) == DeviceOf(c[i]))
          == Earlier(c, i, DeviceOf(c[i]));
    }
  }

  /** Mapping each served candidate to the one at that depth of its device's queue is
      one-to-one, so a choice cannot serve more than the queues hold at that depth. */
  lemma AtMostLow(c: seq<Message>, other: set<nat>, k: nat)
    requires other <= Indices(c)
    ensures |Served(other, c, k)| <= |Low(c, k)|
  {
    Embed(c, other, k, Served(other, c, k));
  }

  ghost predicate Places(c: seq<Message>, other: set<nat>, m: map<nat, nat>) {
    forall i :: i in m ==>
      && i < |c| && m[i] < |c|
      && DeviceOf(c[m[i]]) == DeviceOf(c[i])
      && Position(c, m[i]) == Rank(other, c, i)
  }

  lemma {:induction false} Embed(c: seq<Message>, other: set<nat>, k: nat, todo: set<nat>)
    requires other <= Indices(c) && todo <= Served(other, c, k)
    ensures |todo| <= |Low(c, k)|
  {
    var m := BuildPlaces(c, other, k, todo);
    forall i, j | i in m && j in m && i != j
      ensures m[i] != m[j]
    {
      if m[i] == m[j] {
        RanksDiffer(c, other, i, j);
      }
    }
    InjectiveImage(m);
    forall v | v in Image(m)
      ensures v in Low(c, k)
    {
      var i :| i in m && m[i] == v;
      assert i in Served(other, c, k);
    }
    SubsetSize(Image(m), Low(c, k));
  }

  lemma {:induction false} BuildPlaces(c: seq<Message>, other: set<nat>, k: nat, todo: set<nat>)
    returns (m: map<nat, nat>)
    requires other <= Indices(c) && todo <= Served(other, c, k)
    ensures m.Keys == todo && Places(c, other, m)
    decreases todo
  {
    if todo == {} {
      m := map[];
    } else {
      var i :| i in todo;
      assert i in Served(other, c, k);
      m := BuildPlaces(c, other, k, todo - {i});
      var j := PlaceFor(c, other, i);
      m := m[i := j];
    }
  }

  /** The candidate of the same device at the depth that `i` has within the other choice. */
  lemma PlaceFor(c: seq<Message>, other: set<nat>, i: nat) returns (j: nat)
    requires i < |c|
    ensures j < |c| && DeviceOf(c[j]) == DeviceOf(c[i]) && Position(c, j) == Rank(other, c, i)
  {
    var d := DeviceOf(c[i]);
    var below := set x | x in other && x < i && x < |c| && DeviceOf(c[x]) == DeviceOf(c[i]);
    assert below <= Earlier(c, i, d);
    SubsetSize(below, Earlier(c, i, d));
    EarlierStep(c, i, d);
    j := PlaceTaken(c, i + 1, d, Rank(other, c, i));
  }

  lemma RanksDiffer(c: seq<Message>, other: set<nat>, i: nat, j: nat)
    requires i in other && j in other && i < |c| && j < |c| && i != j
    requires DeviceOf(c[i]) == DeviceOf(c[j])
    ensures Rank(other, c, i) != Rank(other, c, j)
  {
    var lo, hi := Min(i, j), Max(i, j);
    var below := set x | x in other && x < lo && x < |c| && DeviceOf(c[x]) == DeviceOf(c[lo]);
    var above := set x | x in other && x < hi && x < |c| && DeviceOf(c[x]) == DeviceOf(c[hi]);
    assert below + {lo} <= above;
    SubsetSize(below + {lo}, above);
  }

  function Image<K, V>(m: map<K, V>): set<V> {
    set i | i in m :: m[i]
  }

  lemma {:induction false} InjectiveImage<K, V>(m: map<K, V>)
    requires forall i, j :: i in m && j in m && i != j ==> m[i] != m[j]
    ensures |Image(m)| == |m.Keys|
    decreases |m.Keys|
  {
    if m.Keys == {} {
      assert Image(m) == {};
    } else {
      var k :| k in m.Keys;
      var rest := m - {k};
      assert rest.Keys == m.Keys - {k};
      InjectiveImage(rest);
      assert Image(m) == Image(rest) + {m[k]} by {
        forall v | v in Image(m)
          ensures v in Image(rest) + {m[k]}
        {
          var i :| i in m && m[i] == v;
          assert i == k || (i in rest && rest[i] == v);
        }
      }
    }
  }

  // ---- The same choice in SQL ------------------------------------------------------------

  /** ROW_NUMBER() OVER (PARTITION BY client_id, device_id ORDER BY created_at, message_id). */
  function RowNumber(rows: set<Message>, m: Message): nat {
    1 + |set x | x in rows && DeviceOf(x) == DeviceOf(m) && CreatedBefore(x, m)|
  }

  /** ORDER BY device_position, created_at, message_id. */
  function QueryLess(rows: set<Message>): (Message, Message) -> bool {
    (a: Message, b: Message) =>
      RowNumber(rows, a) < RowNumber(rows, b) || (RowNumber(rows, a) == RowNumber(rows, b) && CreatedBefore(a, b))
  }

  lemma QueryOrder(rows: set<Message>)
    requires UniqueIds(rows)
    ensures StrictOrder(QueryLess(rows)) && Separates(QueryLess(rows), rows)
  {
    CreatedOrder(rows);
  }

  function Rows(c: seq<Message>): set<Message> {
    set i | 0 <= i < |c| :: c[i]
  }

  /** The candidate window: ORDER BY created_at, message_id LIMIT candidateLimit. */
  ghost function Window(due: set<Message>, candidateLimit: nat): seq<Message>
    requires UniqueIds(due)
  {
    CreatedOrder(due);
    Take(Listing(due, CreatedBefore), candidateLimit)
  }

  lemma WindowOrdered(due: set<Message>, candidateLimit: nat)
    requires UniqueIds(due)
    ensures Ordered(Window(due, candidateLimit), CreatedBefore)
    ensures Rows(Window(due, candidateLimit)) <= due
    ensures UniqueIds(Rows(Window(due, candidateLimit)))
    ensures |due| <= candidateLimit ==> Rows(Window(due, candidateLimit)) == due
    ensures |Window(due, candidateLimit)| == Min(candidateLimit, |due|)
  {
    CreatedOrder(due);
    var all := Listing(due, CreatedBefore);
    assert forall i :: 0 <= i < |all| ==> all[i] in due;
  }

  /** The `selected` rows of the claim query. */
  ghost function SelectedRows(due: set<Message>, candidateLimit: nat, limit: nat): seq<Message>
    requires UniqueIds(due)
  {
    WindowOrdered(due, candidateLimit);
    var rows := Rows(Window(due, candidateLimit));
    QueryOrder(rows);
    Take(Listing(rows, QueryLess(rows)), limit)
  }

  /** The in-memory rounds choose the rows the query chooses, in the query's order. */
  lemma RoundsMatchRows(due: set<Message>, candidateLimit: nat, limit: nat)
    requires UniqueIds(due)
    ensures FairSelection(Window(due, candidateLimit), limit) == SelectedRows(due, candidateLimit, limit)
  {
    var c := Window(due, candidateLimit);
    WindowOrdered(due, candidateLimit);
    var rows := Rows(c);
    QueryOrder(rows);
    var all := RoundRobin(c);
    ListedIndices(all, c);
    PluckedIsListing(c, all);
    ListingUnique(Pluck(c, all), Listing(rows, QueryLess(rows)), rows, QueryLess(rows));
    PluckTake(c, all, limit);
  }

  lemma PluckTake(c: seq<Message>, picks: seq<nat>, n: nat)
    requires forall k :: 0 <= k < |picks| ==> picks[k] < |c|
    ensures Pluck(c, Take(picks, n)) == Take(Pluck(c, picks), n)
  {
  }

  lemma PluckedIsListing(c: seq<Message>, all: seq<nat>)
    requires Ordered(c, CreatedBefore) && UniqueIds(Rows(c))
    requires IsListing(all, Indices(c), RoundLess(c))
    requires forall k :: 0 <= k < |all| ==> all[k] < |c|
    ensures IsListing(Pluck(c, all), Rows(c), QueryLess(Rows(c)))
  {
    var plucked, rows := Pluck(c, all), Rows(c);
    forall i, j | 0 <= i < j < |plucked|
      ensures QueryLess(rows)(plucked[i], plucked[j])
    {
      assert RoundLess(c)(all[i], all[j]);
      RowNumberIsPosition(c, all[i]);
      RowNumberIsPosition(c, all[j]);
    }
    forall m | m in rows
      ensures m in plucked
    {
      var i :| 0 <= i < |c| && c[i] == m;
      assert IsIndex(c, i) && i in Indices(c);
      var k :| 0 <= k < |all| && all[k] == i;
      assert plucked[k] == m;
    }
  }

  lemma OrderIsIndexOrder(c: seq<Message>, i: nat, j: nat)
    requires i < |c| && j < |c| && Ordered(c, CreatedBefore)
    ensures CreatedBefore(c[i], c[j]) <==> i < j
    ensures c[i] == c[j] ==> i == j
  {
    StrLessTotal(c[i].messageId, c[j].messageId);
  }

  lemma RowNumberIsPosition(c: seq<Message>, i: nat)
    requires i < |c| && Ordered(c, CreatedBefore)
    ensures RowNumber(Rows(c), c[i]) == Position(c, i) + 1
  {
    var d := DeviceOf(c[i]);
    var before := Earlier(c, i, d);
    var rows := set x | x in Rows(c) && DeviceOf(x) == d && CreatedBefore(x, c[i]);
    var m := map j | j in before :: c[j];
    EarlierDiffer(c, before, m);
    assert m.Keys == before;
    EarlierRows(c, i, m, rows);
  }

  lemma EarlierDiffer(c: seq<Message>, before: set<nat>, m: map<nat, Message>)
    requires Ordered(c, CreatedBefore) && m.Keys == before && forall j :: j in before ==> j < |c| && m[j] == c[j]
    ensures |Image(m)| == |m|
  {
    forall j, k | j in m && k in m && j != k
      ensures m[j] != m[k]
    {
      OrderIsIndexOrder(c, j, k);
    }
    InjectiveImage(m);
  }

  lemma EarlierRows(c: seq<Message>, i: nat, m: map<nat, Message>, rows: set<Message>)
    requires i < |c| && Ordered(c, CreatedBefore) && m.Keys == Earlier(c, i, DeviceOf(c[i]))
    requires forall j :: j in m ==> m[j] == c[j]
    requires rows == set x | x in Rows(c) && DeviceOf(x) == DeviceOf(c[i]) && CreatedBefore(x, c[i])
    ensures Image(m) == rows
  {
    forall x | x in rows
      ensures x in Image(m)
    {
      var j: nat :| j < |c| && c[j] == x;
      OrderIsIndexOrder(c, j, i);
      assert j in m;
    }
    forall x | x in Image(m)
      ensures x in rows
    {
      var j :| j in m && m[j] == x;
      OrderIsIndexOrder(c, j, i);
    }
    assert Image(m) == rows;
  }

  // ---- No device monopolises a scan ------------------------------------------------------

  predicate Int64(n: int) { -MAX_INT64 - 1 <= n <= MAX_INT64 }

  /** Two's-complement wrap-around of Go's `int`. */
  function Wrap(n: int): int {
    if Int64(n) then n else (n + MAX_INT64 + 1) % (2 * MAX_INT64 + 2) - MAX_INT64 - 1
  }

  function Multiplier(configured: int): int {
    if configured <= 0 then 4 else configured
  }

  /** `RetryFairness.CandidateLimit`, in wrapping arithmetic: no intermediate result overflows. */
  function CandidateLimit(candidateMultiplier: int, scanLimit: int, maxPendingPerDevice: int): (r: int)
    requires Int64(candidateMultiplier) && Int64(scanLimit) && Int64(maxPendingPerDevice)
    ensures var scan, times := ScanLimit(scanLimit), Multiplier(candidateMultiplier);
            r == Min(MAX_INT64, if maxPendingPerDevice > 0 then Max(scan * times, maxPendingPerDevice + scan)
                     else scan * times)
    ensures ScanLimit(scanLimit) <= r <= MAX_INT64
  {
    var scan := if scanLimit <= 0 then 100 else scanLimit;
    var times := if candidateMultiplier <= 0 then 4 else candidateMultiplier;
    QuotientBound(scan, times);
    var candidates := if scan <= MAX_INT64 / times then Wrap(scan * times) else MAX_INT64;
    var widened :=
      if maxPendingPerDevice > 0 then
        var window := if maxPendingPerDevice <= Wrap(MAX_INT64 - scan) then Wrap(maxPendingPerDevice + scan)
          else MAX_INT64;
        if window > candidates then window else candidates
      else candidates;
    if widened < scan then scan else widened
  }

  lemma QuotientBound(a: int, b: int)
    requires a > 0 && b > 0
    ensures a <= MAX_INT64 / b <==> a * b <= MAX_INT64
    ensures a <= a * b
  {
    DivisionBound(MAX_INT64, a, b);
  }

  lemma DivisionBound(m: nat, a: int, b: int)
    requires a > 0 && b > 0
    ensures a <= m / b <==> a * b <= m
    ensures a <= a * b
  {
    QuotientRemainder(m, m / b, m % b, a, b);
  }

  lemma QuotientRemainder(m: nat, q: int, r: int, a: int, b: int)
    requires a > 0 && b > 0 && m == q * b + r && 0 <= r < b
    ensures a <= q <==> a * b <= m
    ensures a <= a * b
  {
    if a <= q {
      MulMonotone(a, q, b);
    } else {
      MulMonotone(q + 1, a, b);
    }
    MulMonotone(1, b, a);
  }

  lemma MulMonotone(x: int, y: int, z: int)
    requires x <= y && z >= 0
    ensures x * z <= y * z
  {
  }

  /** A scan of two or more reaches two devices exactly when its window holds two. */
  lemma ReachesTwoDevices(c: seq<Message>, limit: nat)
    requires limit >= 2
    ensures TwoDevices(FairSelection(c, limit)) <==> TwoDevices(c)
  {
    var picks, chosen := Picks(c, limit), FairSelection(c, limit);
    if TwoDevices(chosen) {
      var i, j :| TwoDevicesAt(chosen, i, j);
      assert chosen[i] == c[picks[i]] && chosen[j] == c[picks[j]];
      assert TwoDevicesAt(c, picks[i], picks[j]);
    }
    if x, y :| TwoDevicesAt(c, x, y) {
      PicksDistinct(c, limit);
      if !TwoDevices(chosen) {
        var d := DeviceOf(c[picks[0]]);
        assert chosen[0] == c[picks[0]] && chosen[1] == c[picks[1]];
        assert !TwoDevicesAt(chosen, 0, 1);
        var e := if DeviceOf(c[x]) == d then y else x;
        var waiting := Head(c, e);
        assert waiting !in picks by {
          forall k | 0 <= k < |picks|
            ensures DeviceOf(c[picks[k]]) == d
          {
            assert !TwoDevicesAt(chosen, 0, k) && chosen[k] == c[picks[k]];
          }
        }
        var second := Max(picks[0], picks[1]);
        assert Min(picks[0], picks[1]) in Earlier(c, second, d);
        Greedy(c, limit, second, waiting);
        assert false;
      }
    }
  }

  lemma Head(c: seq<Message>, e: nat) returns (h: nat)
    requires e < |c|
    ensures h < |c| && DeviceOf(c[h]) == DeviceOf(c[e]) && Position(c, h) == 0
  {
    assert e in Earlier(c, |c|, DeviceOf(c[e]));
    h := PlaceTaken(c, |c|, DeviceOf(c[e]), 0);
  }

  predicate TwoDevicesAt(c: seq<Message>, i: int, j: int) {
    0 <= i < |c| && 0 <= j < |c| && DeviceOf(c[i]) != DeviceOf(c[j])
  }

  ghost predicate TwoDevices(c: seq<Message>) {
    exists i, j :: TwoDevicesAt(c, i, j)
  }

  function Queue(due: set<Message>, d: Device): set<Message> {
    set m | m in due && DeviceOf(m) == d
  }

  /** While no device has more due messages than its pending limit, a device that waits is
      never hidden behind another's backlog. */
  lemma NoMonopoly(due: set<Message>, multiplier: int, limit: int, perDevice: int, a: Message, b: Message)
    requires UniqueIds(due) && |due| <= MAX_INT64
    requires Int64(multiplier) && Int64(limit) && Int64(perDevice) && perDevice > 0 && ScanLimit(limit) >= 2
    requires forall d :: |Queue(due, d)| <= perDevice
    requires a in due && b in due && DeviceOf(a) != DeviceOf(b)
    ensures TwoDevices(FairSelection(Window(due, CandidateLimit(multiplier, limit, perDevice)), ScanLimit(limit)))
  {
    var size := CandidateLimit(multiplier, limit, perDevice);
    var c := Window(due, size);
    WindowOrdered(due, size);
    if |due| <= size {
      var i :| 0 <= i < |c| && c[i] == a;
      var j :| 0 <= j < |c| && c[j] == b;
      assert TwoDevicesAt(c, i, j);
    } else {
      assert |c| == size > perDevice;
      if !TwoDevices(c) {
        var d := DeviceOf(c[0]);
        forall i | 0 <= i < |c|
          ensures c[i] in Queue(due, d)
        {
          assert !TwoDevicesAt(c, 0, i);
          assert c[i] in Rows(c);
        }
        RowsSize(c);
        SubsetSize(Rows(c), Queue(due, d));
        assert false;
      }
    }
    ReachesTwoDevices(c, ScanLimit(limit));
  }

  lemma RowsSize(c: seq<Message>)
    requires Ordered(c, CreatedBefore)
    ensures |Rows(c)| == |c|
  {
    var m := map i: nat | i < |c| && IsIndex(c, i) :: c[i];
    forall j, k | j in m && k in m && j != k
      ensures m[j] != m[k]
    {
      OrderIsIndexOrder(c, j, k);
    }
    InjectiveImage(m);
    assert m.Keys == Indices(c);
    IndicesSize(c);
    assert Image(m) == Rows(c) by {
      forall x | x in Rows(c)
        ensures x in Image(m)
      {
        var i :| 0 <= i < |c| && c[i] == x;
        assert IsIndex(c, i) && i in m;
      }
    }
  }
}
