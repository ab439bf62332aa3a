/** internal/downlink/fairness.go: the bounded, per-device fair choice of retry candidates.

    Candidates are addressed by index.  `Position` is a candidate's place in its own device's
    queue; a scan takes all heads, then all seconds, and so on, until the limit is reached. */
module Fairness {
  import opened Messages
  import opened Ordering

  datatype Device = Device(clientId: string, deviceId: string)

  function DeviceOf(m: Message): Device {
    Device(m.clientId, m.deviceId)
  }

  /** The order of every retry listing: oldest first, then by ID. */
  predicate CreatedBefore(a: Message, b: Message) {
    a.createdAt < b.createdAt || (a.createdAt == b.createdAt && StrLess(a.messageId, b.messageId))
  }

  ghost predicate UniqueIds(messages: set<Message>) {
    forall a, b :: a in messages && b in messages && a.messageId == b.messageId ==> a == b
  }

  lemma CreatedStrict()
    ensures StrictOrder(CreatedBefore)
  {
    forall a: Message, b: Message
      ensures CreatedBefore(a, b) ==> !CreatedBefore(b, a)
    {
      StrLessTotal(a.messageId, b.messageId);
    }
    forall a: Message, b: Message, c: Message | CreatedBefore(a, b) && CreatedBefore(b, c)
      ensures CreatedBefore(a, c)
    {
      if a.createdAt == b.createdAt == c.createdAt {
        StrLessTransitive(a.messageId, b.messageId, c.messageId);
      }
    }
  }

  lemma CreatedOrder(messages: set<Message>)
    requires UniqueIds(messages)
    ensures StrictOrder(CreatedBefore) && Separates(CreatedBefore, messages)
  {
    CreatedStrict();
    forall a, b | a in messages && b in messages && a != b
      ensures CreatedBefore(a, b) || CreatedBefore(b, a)
    {
      StrLessTotal(a.messageId, b.messageId);
    }
  }

  // ---- Selection order -------------------------------------------------------------------

  function Earlier(c: seq<Message>, n: nat, d: Device): (s: set<nat>)
    requires n <= |c|
  {
    set j: nat | j < n && DeviceOf(c[j]) == d
  }

  function Position(c: seq<Message>, i: nat): nat {
    if i < |c| then |Earlier(c, i, DeviceOf(c[i]))| else 0
  }

  function RoundLess(c: seq<Message>): (nat, nat) -> bool {
    (i: nat, j: nat) => Position(c, i) < Position(c, j) || (Position(c, i) == Position(c, j) && i < j)
  }

  predicate IsIndex(c: seq<Message>, i: nat) {
    i < |c|
  }

  function Indices(c: seq<Message>): set<nat> {
    set i: nat | i < |c| && IsIndex(c, i)
  }

  lemma RoundOrder(c: seq<Message>)
    ensures StrictOrder(RoundLess(c)) && Separates(RoundLess(c), Indices(c))
  {
  }

  ghost function RoundRobin(c: seq<Message>): (r: seq<nat>)
    ensures IsListing(r, Indices(c), RoundLess(c))
  {
    RoundOrder(c);
    Listing(Indices(c), RoundLess(c))
  }

  /** The indices a scan selects, in selection order. */
  ghost function Picks(c: seq<Message>, limit: nat): (r: seq<nat>)
    ensures forall k :: 0 <= k < |r| ==> r[k] < |c|
  {
    ListedIndices(RoundRobin(c), c);
    Take(RoundRobin(c), limit)
  }

  lemma ListedIndices(r: seq<nat>, c: seq<Message>)
    requires forall i :: i in r ==> i in Indices(c)
    ensures forall k :: 0 <= k < |r| ==> r[k] < |c|
  {
    forall k | 0 <= k < |r| ensures r[k] < |c| {
      assert r[k] in r;
      assert IsIndex(c, r[k]);
    }
  }

  function Pluck(c: seq<Message>, picks: seq<nat>): (r: seq<Message>)
    requires forall k :: 0 <= k < |picks| ==> picks[k] < |c|
    ensures |r| == |picks|
    ensures forall k :: 0 <= k < |picks| ==> r[k] == c[picks[k]]
  {
    seq(|picks|, k requires 0 <= k < |picks| => c[picks[k]])
  }

  ghost function FairSelection(c: seq<Message>, limit: nat): seq<Message> {
    Pluck(c, Picks(c, limit))
  }

  function ScanLimit(limit: int): nat {
    if limit <= 0 then 100 else limit
  }

  // ---- The loops of fairRetrySelection ---------------------------------------------------

  datatype Mode = Fifo | Fair

  datatype RetrySelection = RetrySelection(messages: seq<Message>, mode: Mode, deviceCount: nat, maxPerDevice: nat)

  /** `rounds[p]` holds the first `n` candidates' indices of position `p`, oldest first. */
  ghost predicate RoundsOf(rounds: seq<seq<nat>>, c: seq<Message>, n: nat, limit: nat)
    requires n <= |c|
  {
    && (forall p, k :: 0 <= p < |rounds| && 0 <= k < |rounds[p]| ==>
          rounds[p][k] < n && Position(c, rounds[p][k]) == p)
    && (forall p, k, l :: 0 <= p < |rounds| && 0 <= k < l < |rounds[p]| ==> rounds[p][k] < rounds[p][l])
    && (forall i: nat :: i < n && Position(c, i) < limit ==>
          Position(c, i) < |rounds| && i in rounds[Position(c, i)])
  }

  method Rounds(c: seq<Message>, limit: nat) returns (rounds: seq<seq<nat>>)
    requires limit > 0
    ensures RoundsOf(rounds, c, |c|, limit)
    ensures |rounds| <= limit
  {
    var positions: map<Device, nat> := map[];
    rounds := [];
    for index := 0 to |c|
      invariant forall d :: Counted(positions, d) == |Earlier(c, index, d)|
      invariant RoundsOf(rounds, c, index, limit)
      invariant |rounds| <= limit
    {
      var key := DeviceOf(c[index]);
      var position := Counted(positions, key);
      positions := positions[key := position + 1];
      forall d
        ensures Counted(positions, d) == |Earlier(c, index + 1, d)|
      {
        EarlierStep(c, index, d);
      }
      if position < limit {
        var wide := Widen(rounds, position);
        WidenKeeps(rounds, wide, c, index, limit);
        rounds := wide[position := wide[position] + [index]];
        FileIndex(wide, c, index, limit);
      }
    }
  }

  /** A Go map lookup: absent keys read as zero. */
  function Counted<K>(counts: map<K, nat>, key: K): nat {
    if key in counts then counts[key] else 0
  }

  lemma WidenKeeps(rounds: seq<seq<nat>>, wide: seq<seq<nat>>, c: seq<Message>, n: nat, limit: nat)
    requires n <= |c| && RoundsOf(rounds, c, n, limit)
    requires |rounds| <= |wide| && wide[..|rounds|] == rounds
    requires forall p :: |rounds| <= p < |wide| ==> wide[p] == []
    ensures RoundsOf(wide, c, n, limit)
  {
    assert forall p :: 0 <= p < |rounds| ==> wide[p] == rounds[p];
  }

  lemma FileIndex(rounds: seq<seq<nat>>, c: seq<Message>, n: nat, limit: nat)
    requires n < |c| && RoundsOf(rounds, c, n, limit) && Position(c, n) < |rounds|
    ensures var p := Position(c, n); RoundsOf(rounds[p := rounds[p] + [n]], c, n + 1, limit)
  {
    var p := Position(c, n);
    var more := rounds[p := rounds[p] + [n]];
    assert more[p][|rounds[p]|] == n;
    forall i: nat | i < n + 1 && Position(c, i) < limit
      ensures Position(c, i) < |more| && i in more[Position(c, i)]
    {
      if i < n { assert i in rounds[Position(c, i)]; }
    }
  }

  lemma EarlierStep(c: seq<Message>, n: nat, d: Device)
    requires n < |c|
    ensures |Earlier(c, n + 1, d)| == |Earlier(c, n, d)| + (if DeviceOf(c[n]) == d then 1 else 0)
  {
    if DeviceOf(c[n]) == d {
      assert Earlier(c, n + 1, d) == Earlier(c, n, d) + {n};
    } else {
      assert Earlier(c, n + 1, d) == Earlier(c, n, d);
    }
  }

  method Widen(rounds: seq<seq<nat>>, position: nat) returns (wide: seq<seq<nat>>)
    ensures |wide| == if |rounds| <= position then position + 1 else |rounds|
    ensures wide[..|rounds|] == rounds
    ensures forall p :: |rounds| <= p < |wide| ==> wide[p] == []
  {
    wide := rounds;
    while |wide| <= position
      invariant |rounds| <= |wide| && (|wide| <= position + 1 || wide == rounds)
      invariant wide[..|rounds|] == rounds
      invariant forall p :: |rounds| <= p < |wide| ==> wide[p] == []
      decreases position + 1 - |wide|
    {
      wide := wide + [[]];
    }
  }

  /** The concatenated rounds, oldest round first. */
  ghost function Flat(rounds: seq<seq<nat>>, n: nat): (r: seq<nat>)
    requires n <= |rounds|
  {
    if n == 0 then [] else Flat(rounds, n - 1) + rounds[n - 1]
  }

  lemma {:induction false} FlatOrdered(rounds: seq<seq<nat>>, n: nat, c: seq<Message>, limit: nat)
    requires n <= |rounds| && RoundsOf(rounds, c, |c|, limit)
    ensures Ordered(Flat(rounds, n), RoundLess(c))
    ensures forall i :: i in Flat(rounds, n) ==> i < |c| && Position(c, i) < n
    ensures forall p, i :: 0 <= p < n && i in rounds[p] ==> i in Flat(rounds, n)
  {
    if n > 0 {
      FlatOrdered(rounds, n - 1, c, limit);
      RoundIs(rounds, n - 1, c, limit);
      RoundFollows(Flat(rounds, n - 1), rounds[n - 1], c, n - 1);
    }
  }

  lemma RoundIs(rounds: seq<seq<nat>>, p: nat, c: seq<Message>, limit: nat)
    requires p < |rounds| && RoundsOf(rounds, c, |c|, limit)
    ensures forall i :: i in rounds[p] ==> i < |c| && Position(c, i) == p
    ensures forall k, l :: 0 <= k < l < |rounds[p]| ==> rounds[p][k] < rounds[p][l]
  {
  }

  lemma RoundFollows(f: seq<nat>, round: seq<nat>, c: seq<Message>, p: nat)
    requires Ordered(f, RoundLess(c)) && forall i :: i in f ==> Position(c, i) < p
    requires forall i :: i in round ==> Position(c, i) == p
    requires forall k, l :: 0 <= k < l < |round| ==> round[k] < round[l]
    ensures Ordered(f + round, RoundLess(c))
  {
    var all := f + round;
    forall k, l | 0 <= k < l < |all| ensures RoundLess(c)(all[k], all[l]) {
      if l < |f| {
        assert RoundLess(c)(f[k], f[l]);
      } else if k < |f| {
        assert f[k] in f && round[l - |f|] in round;
      } else {
        assert round[k - |f|] in round && round[l - |f|] in round;
      }
    }
  }

  /** Every queue place up to the one a device reaches is taken by one of its candidates. */
  lemma {:induction false} PlaceTaken(c: seq<Message>, n: nat, d: Device, p: nat) returns (j: nat)
    requires n <= |c| && p < |Earlier(c, n, d)|
    ensures j < n && DeviceOf(c[j]) == d && Position(c, j) == p
  {
    assert n > 0;
    EarlierStep(c, n - 1, d);
    if DeviceOf(c[n - 1]) == d && |Earlier(c, n - 1, d)| == p {
      j := n - 1;
    } else {
      j := PlaceTaken(c, n - 1, d, p);
    }
  }

  function Low(c: seq<Message>, p: nat): set<nat> {
    set i: nat | i < |c| && Position(c, i) < p
  }

  lemma {:induction false} LowSize(c: seq<Message>, i: nat, p: nat)
    requires i < |c| && p <= Position(c, i)
    ensures |Low(c, p)| >= p
  {
    if p > 0 {
      LowSize(c, i, p - 1);
      var j := PlaceTaken(c, i, DeviceOf(c[i]), p - 1);
      assert Low(c, p - 1) + {j} <= Low(c, p);
      SubsetSize(Low(c, p - 1) + {j}, Low(c, p));
    }
  }

  lemma PrefixListing(f: seq<nat>, r: seq<nat>, a: set<nat>, all: set<nat>, less: (nat, nat) -> bool)
    requires StrictOrder(less) && Separates(less, all)
    requires a <= all && IsListing(f, a, less) && IsListing(r, all, less)
    requires forall x: nat, y: nat :: x in a && y in all - a ==> less(x, y)
    ensures f <= r
  {
    var g := Listing(all - a, less);
    assert IsListing(f + g, all, less) by {
      forall i, j | 0 <= i < j < |f + g|
        ensures less((f + g)[i], (f + g)[j])
      {
        if i < |f| <= j {
          assert f[i] in a && g[j - |f|] in all - a;
        }
      }
    }
    ListingUnique(f + g, r, all, less);
  }

  lemma FlatIsLow(rounds: seq<seq<nat>>, c: seq<Message>, limit: nat)
    requires limit > 0 && |rounds| <= limit && RoundsOf(rounds, c, |c|, limit)
    ensures IsListing(Flat(rounds, |rounds|), Low(c, limit), RoundLess(c))
  {
    FlatOrdered(rounds, |rounds|, c, limit);
    var f := Flat(rounds, |rounds|);
    forall i: nat ensures i in f <==> i in Low(c, limit) {
      if i in Low(c, limit) {
        assert i in rounds[Position(c, i)];
      }
    }
  }

  /** The rounds, cut at the limit, are the round-robin order cut at the limit. */
  lemma FlatIsRoundRobin(rounds: seq<seq<nat>>, c: seq<Message>, limit: nat)
    requires limit > 0 && |rounds| <= limit && RoundsOf(rounds, c, |c|, limit)
    ensures Take(Flat(rounds, |rounds|), limit) == Picks(c, limit)
  {
    var f, r, less := Flat(rounds, |rounds|), RoundRobin(c), RoundLess(c);
    RoundOrder(c);
    FlatIsLow(rounds, c, limit);
    PrefixListing(f, r, Low(c, limit), Indices(c), less);
    assert |f| >= limit || f == r by {
      if i: nat :| i < |c| && Position(c, i) >= limit {
        LowSize(c, i, limit);
        ListingLength(f, Low(c, limit), less);
      } else {
        assert Low(c, limit) == Indices(c);
        ListingUnique(f, r, Indices(c), less);
      }
    }
  }

  lemma ListingLength<T(!new)>(s: seq<T>, elems: set<T>, less: (T, T) -> bool)
    requires StrictOrder(less) && Separates(less, elems) && IsListing(s, elems, less)
    ensures |s| == |elems|
  {
    ListingUnique(s, Listing(elems, less), elems, less);
  }

  method FairRetrySelection(candidates: seq<Message>, limit: int) returns (selection: RetrySelection)
    ensures selection.messages == FairSelection(candidates, ScanLimit(limit))
    ensures selection.mode.Fair?
    ensures Summarises(selection)
  {
    var bound := if limit <= 0 then 100 else limit;
    var rounds := Rounds(candidates, bound);
    var selected := Drain(rounds, candidates, bound);
    FlatIsRoundRobin(rounds, candidates, bound);
    selection := RetrySelectionFromMessages(selected, Fair);
  }

  ghost predicate InRange(picks: seq<nat>, n: nat) {
    forall k :: 0 <= k < |picks| ==> picks[k] < n
  }

  method Drain(rounds: seq<seq<nat>>, c: seq<Message>, limit: nat) returns (selected: seq<Message>)
    requires forall p :: 0 <= p < |rounds| ==> InRange(rounds[p], |c|)
    ensures InRange(Take(Flat(rounds, |rounds|), limit), |c|)
    ensures selected == Pluck(c, Take(Flat(rounds, |rounds|), limit))
  {
    selected := [];
    ghost var picks: seq<nat> := [];
    var r := 0;
    while r < |rounds| && |selected| < limit
      invariant r <= |rounds|
      invariant InRange(picks, |c|) && selected == Pluck(c, picks)
      invariant picks == Take(Flat(rounds, r), limit)
    {
      selected, picks := DrainRound(rounds[r], c, limit, selected, picks);
      r := r + 1;
    }
    FlatPrefix(rounds, r, |rounds|);
  }

  method DrainRound(round: seq<nat>, c: seq<Message>, limit: nat, soFar: seq<Message>, ghost before: seq<nat>)
    returns (selected: seq<Message>, ghost picks: seq<nat>)
    requires InRange(round, |c|) && InRange(before, |c|) && soFar == Pluck(c, before) && |before| < limit
    ensures InRange(picks, |c|) && selected == Pluck(c, picks)
    ensures picks == Take(before + round, limit)
  {
    selected, picks := soFar, before;
    var k := 0;
    while k < |round| && |selected| < limit
      invariant k <= |round|
      invariant InRange(picks, |c|) && selected == Pluck(c, picks)
      invariant |picks| <= limit && picks == before + round[..k]
    {
      selected := selected + [c[round[k]]];
      picks := picks + [round[k]];
      k := k + 1;
    }
  }

  lemma {:induction false} FlatPrefix(rounds: seq<seq<nat>>, m: nat, n: nat)
    requires m <= n <= |rounds|
    ensures Flat(rounds, m) <= Flat(rounds, n)
  {
    if m < n {
      FlatPrefix(rounds, m, n - 1);
    }
  }

  // ---- retrySelectionFromMessages --------------------------------------------------------

  function DeviceShare(messages: seq<Message>, d: Device): nat {
    |Earlier(messages, |messages|, d)|
  }

  function Devices(messages: seq<Message>): set<Device> {
    set i | 0 <= i < |messages| :: DeviceOf(messages[i])
  }

  /** The counters of a selection are the number of devices and the largest share. */
  ghost predicate Summarises(s: RetrySelection) {
    && s.deviceCount == |Devices(s.messages)|
    && (forall d :: DeviceShare(s.messages, d) <= s.maxPerDevice)
    && (s.messages == [] ==> s.maxPerDevice == 0)
    && (s.messages != [] ==> exists d :: d in Devices(s.messages) && DeviceShare(s.messages, d) == s.maxPerDevice)
  }

  /** The table after the first `n` messages, and the largest count in it. */
  ghost predicate Tallied(messages: seq<Message>, n: nat, counts: map<Device, nat>)
    requires n <= |messages|
  {
    counts.Keys == Devices(messages[..n]) && forall d :: Counted(counts, d) == |Earlier(messages, n, d)|
  }

  ghost predicate IsLargest(counts: map<Device, nat>, max: nat) {
    && (forall d :: Counted(counts, d) <= max)
    && (if counts == map[] then max == 0 else exists d :: d in counts && counts[d] == max)
  }

  lemma TallyOne(messages: seq<Message>, n: nat, counts: map<Device, nat>)
    requires n < |messages| && Tallied(messages, n, counts)
    ensures var key := DeviceOf(messages[n]);
            Tallied(messages, n + 1, counts[key := Counted(counts, key) + 1])
  {
    var key := DeviceOf(messages[n]);
    var after := counts[key := Counted(counts, key) + 1];
    forall d ensures Counted(after, d) == |Earlier(messages, n + 1, d)| {
      EarlierStep(messages, n, d);
      assert d != key ==> Counted(after, d) == Counted(counts, d);
    }
    assert messages[..n + 1] == messages[..n] + [messages[n]];
    assert Devices(messages[..n + 1]) == Devices(messages[..n]) + {key};
  }

  lemma LargestAfter(counts: map<Device, nat>, max: nat, key: Device, n: nat)
    requires IsLargest(counts, max) && n == Counted(counts, key) + 1
    ensures IsLargest(counts[key := n], if n > max then n else max)
  {
    var after := counts[key := n];
    assert key in after && after[key] == n;
    forall d ensures Counted(after, d) <= if n > max then n else max {
      assert d != key ==> Counted(after, d) == Counted(counts, d);
    }
    if n <= max {
      var d :| d in counts && counts[d] == max;
      assert d in after && after[d] == max;
    }
  }

  lemma TallySummarises(messages: seq<Message>, mode: Mode, counts: map<Device, nat>, max: nat)
    requires Tallied(messages, |messages|, counts) && IsLargest(counts, max)
    ensures Summarises(RetrySelection(messages, mode, |counts|, max))
  {
    assert messages[..|messages|] == messages;
    assert messages != [] ==> DeviceOf(messages[0]) in Devices(messages);
    if messages != [] {
      var d :| d in counts && counts[d] == max;
      assert DeviceShare(messages, d) == Counted(counts, d);
    }
    assert |counts| == |counts.Keys|;
  }

  method RetrySelectionFromMessages(messages: seq<Message>, mode: Mode) returns (s: RetrySelection)
    ensures s.messages == messages && s.mode == mode
    ensures Summarises(s)
  {
    var counts: map<Device, nat> := map[];
    var maxPerDevice := 0;
    for index := 0 to |messages|
      invariant Tallied(messages, index, counts) && IsLargest(counts, maxPerDevice)
    {
      var key := DeviceOf(messages[index]);
      TallyOne(messages, index, counts);
      LargestAfter(counts, maxPerDevice, key, Counted(counts, key) + 1);
      counts := counts[key := Counted(counts, key) + 1];
      if counts[key] > maxPerDevice {
        maxPerDevice := counts[key];
      }
    }
    TallySummarises(messages, mode, counts, maxPerDevice);
    s := RetrySelection(messages, mode, |counts|, maxPerDevice);
  }
}
