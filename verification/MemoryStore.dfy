/** internal/downlink/memory_store.go: the store itself, with its maps updated in place.
    Every method runs under the store's lock; the clock reading and fresh ID it draws are
    parameters.  Each is proved against the step it stands for in `StoreModel`. */
module MemoryStores {
  import opened Messages
  import opened Ordering
  import opened Fairness
  import opened FairnessProperties
  import opened Identity
  import opened StoreModel
  import Cursors
  import Paging

  datatype Reply = Done | MessageNotFound

  /** `sort.Slice` followed by the cut at `limit`. */
  function SortAndLimit<T>(s: seq<T>, less: (T, T) -> bool, limit: int): seq<T> {
    var sorted := SortBy(s, less);
    if limit > 0 && |sorted| > limit then sorted[..limit] else sorted
  }

  function Limited<T>(s: seq<T>, limit: int): seq<T> {
    if limit > 0 then Take(s, limit) else s
  }

  lemma SortAndLimitListing<T(!new)>(s: seq<T>, elems: set<T>, less: (T, T) -> bool, limit: int)
    requires Gathered(s, elems) && StrictOrder(less) && Separates(less, elems)
    ensures SortAndLimit(s, less, limit) == Limited(Listing(elems, less), limit)
  {
    SortByIsListing(s, elems, less);
  }

  lemma SortedPage(messages: map<string, Message>, found: seq<Message>, status: Status, cursor: Cursors.Cursor, n: nat)
    requires Keyed(messages) && Gathered(found, Paging.Remaining(messages, status, cursor))
    ensures SortAndLimit(found, Paging.LaterFirst, n + 1)
            == Take(Paging.RemainingListing(messages, status, cursor), n + 1)
  {
    Paging.ListOrder(Paging.Remaining(messages, status, cursor));
    SortAndLimitListing(found, Paging.Remaining(messages, status, cursor), Paging.LaterFirst, n + 1);
  }

  lemma PageIs(rest: seq<Message>, n: nat, total: nat)
    requires n > 0
    ensures var shown := Take(rest, n + 1);
            Paging.Cut(rest, n, total) ==
              if |shown| > n then Paging.Page(shown[..n], total, true, Paging.CursorOf(shown[..n][n - 1]))
              else Paging.Page(shown, total, false, Cursors.START)
  {
  }

  lemma RemainingStep(past: map<string, Message>, m: Message, status: Status, cursor: Cursors.Cursor)
    requires Keyed(past) && m.messageId !in past
    ensures m !in Paging.Remaining(past, status, cursor)
    ensures Paging.Remaining(past[m.messageId := m], status, cursor) ==
              Paging.Remaining(past, status, cursor)
              + if m.status == status && Paging.AfterCursor(m, cursor) then {m} else {}
  {
    var now, kept := past[m.messageId := m], m.status == status && Paging.AfterCursor(m, cursor);
    var before, after := Paging.Remaining(past, status, cursor), Paging.Remaining(now, status, cursor);
    forall x ensures x in after <==> x in before || (kept && x == m) {
      assert x in before <==>
               x.messageId in past && past[x.messageId] == x && x.status == status && Paging.AfterCursor(x, cursor);
      assert x in after <==>
               x.messageId in now && now[x.messageId] == x && x.status == status && Paging.AfterCursor(x, cursor);
    }
  }

  lemma OfStatusStep(past: map<string, Message>, m: Message, status: Status)
    requires Keyed(past) && m.messageId !in past
    ensures |Paging.OfStatus(past[m.messageId := m], status)|
            == |Paging.OfStatus(past, status)| + (if m.status == status then 1 else 0)
  {
    RemainingStep(past, m, status, Cursors.START);
    Paging.StartIsAll(past, status);
    Paging.StartIsAll(past[m.messageId := m], status);
  }

  /** One more message of the map, in its effect on the count and the gathered messages. */
  lemma ScanStep(past: map<string, Message>, m: Message, found: seq<Message>, status: Status, cursor: Cursors.Cursor)
    requires Keyed(past) && m.messageId !in past && Gathered(found, Paging.Remaining(past, status, cursor))
    ensures var now := past[m.messageId := m];
            && |Paging.OfStatus(now, status)| == |Paging.OfStatus(past, status)| + (if m.status == status then 1 else 0)
            && Gathered(if m.status == status && Paging.AfterCursor(m, cursor) then found + [m] else found,
                        Paging.Remaining(now, status, cursor))
  {
    OfStatusStep(past, m, status);
    RemainingStep(past, m, status, cursor);
    if m.status == status && Paging.AfterCursor(m, cursor) {
      GatheredMore(found, Paging.Remaining(past, status, cursor), m);
    }
  }

  ghost predicate SameDevices(s: seq<Message>, t: seq<Message>) {
    |s| == |t| && forall i :: 0 <= i < |s| ==> DeviceOf(s[i]) == DeviceOf(t[i])
  }

  /** The counters of a selection are about its devices, which a claim does not touch. */
  lemma SummaryKept(s: RetrySelection, claimed: seq<Message>)
    requires Summarises(s) && SameDevices(claimed, s.messages)
    ensures Summarises(s.(messages := claimed))
  {
    forall d ensures DeviceShare(claimed, d) == DeviceShare(s.messages, d) {
      assert Earlier(claimed, |claimed|, d) == Earlier(s.messages, |claimed|, d);
    }
    assert Devices(claimed) == Devices(s.messages);
  }

  ghost predicate AreStored(chosen: seq<Message>, messages: map<string, Message>) {
    forall i :: 0 <= i < |chosen| ==> chosen[i].messageId in messages && messages[chosen[i].messageId] == chosen[i]
  }

  /** `current` holds the chosen messages, in order, as they are stored now. */
  ghost predicate AreCurrent(current: seq<Message>, chosen: seq<Message>, messages: map<string, Message>) {
    && |current| == |chosen|
    && forall i :: 0 <= i < |chosen| ==> chosen[i].messageId in messages && current[i] == messages[chosen[i].messageId]
  }

  lemma ChosenAreStored(messages: map<string, Message>, now: Time, ackTimeout: Duration, limit: int,
                        candidateLimit: int)
    requires Keyed(messages)
    ensures AreStored(RetryChoice(messages, now, ackTimeout, limit, candidateLimit), messages)
  {
    DueUnique(messages, now, ackTimeout);
    var due := DueSet(messages, now, ackTimeout);
    var window := Window(due, CandidateBound(limit, candidateLimit));
    WindowOrdered(due, CandidateBound(limit, candidateLimit));
    var chosen := RetryChoice(messages, now, ackTimeout, limit, candidateLimit);
    forall i | 0 <= i < |chosen|
      ensures chosen[i].messageId in messages && messages[chosen[i].messageId] == chosen[i]
    {
      assert chosen[i] == window[Picks(window, ScanLimit(limit))[i]];
      assert chosen[i] in Rows(window);
    }
  }

  lemma ClaimEffectIs(st: Store, now: Time, ackTimeout: Duration, limit: int, candidateLimit: int,
                      owner: string, lease: Duration, clock: Time, chosen: seq<Message>)
    requires WellFormed(st) && owner != ""
    requires chosen == RetryChoice(st.messages, OrElse(now, clock), ackTimeout, limit, candidateLimit)
    ensures var at := OrElse(now, clock);
            ClaimEffect(st, now, ackTimeout, limit, candidateLimit, owner, lease, clock)
              == Store(Claimed(st.messages, Ids(chosen), owner, at + LeaseOrDefault(lease), at), st.events)
  {
  }

  /** One iteration of a counting loop. */
  lemma CountOne(counted: set<string>, rest: set<string>, id: string)
    requires id in rest
    ensures |counted - (rest - {id})| == |counted - rest| + (if id in counted then 1 else 0)
  {
    if id in counted {
      assert counted - (rest - {id}) == (counted - rest) + {id};
    } else {
      assert counted - (rest - {id}) == counted - rest;
    }
  }

  lemma PendingStep(messages: map<string, Message>, d: Device, rest: set<string>, id: string)
    requires id in rest && rest <= messages.Keys
    ensures |PendingIds(messages) - (rest - {id})|
            == |PendingIds(messages) - rest| + if messages[id].status.Pending? then 1 else 0
    ensures |DevicePendingIds(messages, d) - (rest - {id})| ==
              |DevicePendingIds(messages, d) - rest|
              + if messages[id].status.Pending? && DeviceOf(messages[id]) == d then 1 else 0
  {
    CountOne(PendingIds(messages), rest, id);
    CountOne(DevicePendingIds(messages, d), rest, id);
  }

  lemma NothingLeft(s: set<string>)
    ensures s - {} == s
  {
  }

  /** One iteration of the claiming loop. */
  lemma ClaimOne(messages: map<string, Message>, selected: seq<Message>, n: nat, owner: string, until: Time, now: Time)
    requires n < |selected| && selected[n].messageId in messages
    ensures var id := selected[n].messageId;
            var before := Claimed(messages, Ids(selected[..n]), owner, until, now);
            && ClaimedMessage(before[id], owner, until, now) == ClaimedMessage(messages[id], owner, until, now)
            && Claimed(messages, Ids(selected[..n + 1]), owner, until, now)
                 == before[id := ClaimedMessage(messages[id], owner, until, now)]
  {
    var id := selected[n].messageId;
    assert Ids(selected[..n + 1]) == Ids(selected[..n]) + {id} by {
      assert selected[..n + 1] == selected[..n] + [selected[n]];
    }
  }

  lemma RemoveMore<K, V>(m: map<K, V>, gone: set<K>, more: set<K>)
    ensures m - gone - more == m - (gone + more)
  {
  }

  lemma RemoveOne(victims: seq<Message>, n: nat)
    requires n < |victims|
    ensures var ids, id := Ids(victims[..n]), victims[n].messageId;
            && Ids(victims[..n + 1]) == ids + {id}
            && EventKeys(ids + {id}) == EventKeys(ids) + {EventId(id, Failed)} + {EventId(id, Discarded)}
  {
    assert victims[..n + 1] == victims[..n] + [victims[n]];
  }

  function ClaimedRecord(r: TerminalRecord, owner: string, until: Time): TerminalRecord {
    r.(claimOwner := owner, claimUntil := until)
  }

  function ClaimedRecords(events: map<string, TerminalRecord>, keys: set<string>, owner: string, until: Time)
    : map<string, TerminalRecord>
  {
    map key | key in events :: if key in keys then ClaimedRecord(events[key], owner, until) else events[key]
  }

  ghost predicate RecordsStored(records: seq<TerminalRecord>, events: map<string, TerminalRecord>) {
    forall i :: 0 <= i < |records| ==>
      records[i].event.eventId in events && events[records[i].event.eventId] == records[i]
  }

  ghost predicate AreCurrentRecords(current: seq<TerminalRecord>, chosen: seq<TerminalRecord>,
                                    events: map<string, TerminalRecord>) {
    && |current| == |chosen|
    && forall i :: 0 <= i < |chosen| ==>
         chosen[i].event.eventId in events && current[i] == events[chosen[i].event.eventId]
  }

  lemma DueAreStored(events: map<string, TerminalRecord>, now: Time, limit: int)
    requires OutboxKeyed(events)
    ensures RecordsStored(PublishChoice(events, now, limit), events)
  {
    TerminalOrder(events, now);
    var all := Listing(PublishDueSet(events, now), TerminalBefore);
    assert forall i :: 0 <= i < |all| ==> all[i] in PublishDueSet(events, now);
  }

  lemma ClaimTerminalIs(st: Store, now: Time, limit: int, owner: string, lease: Duration, clock: Time,
                        due: seq<TerminalRecord>, records: seq<TerminalRecord>)
    requires WellFormed(st) && due == PublishChoice(st.events, OrElse(now, clock), limit)
    requires AreCurrentRecords(records, due,
                               ClaimedRecords(st.events, Keys(due), owner, OrElse(now, clock) + LeaseOrDefault(lease)))
    ensures var events := ClaimedRecords(st.events, Keys(due), owner, OrElse(now, clock) + LeaseOrDefault(lease));
            && ClaimTerminalEffect(st, now, limit, owner, lease, clock) == Store(st.messages, events)
            && AreCurrentRecords(records, PublishChoice(st.events, OrElse(now, clock), limit), events)
  {
    ClaimTerminalEffectIs(st, now, limit, owner, lease, clock, due);
  }

  /** The first `n` of the due records are claimed, in the copies and in the table. */
  ghost predicate ClaimedUpTo(before: map<string, TerminalRecord>, due: seq<TerminalRecord>,
                              records: seq<TerminalRecord>, n: nat,
                              owner: string, until: Time, events: map<string, TerminalRecord>) {
    && n <= |records| == |due|
    && events == ClaimedRecords(before, Keys(due[..n]), owner, until)
    && forall i :: 0 <= i < |due| ==> records[i] == if i < n then ClaimedRecord(due[i], owner, until) else due[i]
  }

  lemma ClaimNext(before: map<string, TerminalRecord>, due: seq<TerminalRecord>, records: seq<TerminalRecord>, n: nat,
                  owner: string, until: Time, events: map<string, TerminalRecord>)
    requires RecordsStored(due, before) && n < |due| && ClaimedUpTo(before, due, records, n, owner, until, events)
    ensures var claimed := records[n].(claimOwner := owner, claimUntil := until);
            ClaimedUpTo(before, due, records[n := claimed], n + 1, owner, until,
                        events[claimed.event.eventId := claimed])
  {
    RecordOne(before, due, n, owner, until);
  }

  lemma AllRecorded(before: map<string, TerminalRecord>, due: seq<TerminalRecord>, records: seq<TerminalRecord>,
                    owner: string, until: Time, events: map<string, TerminalRecord>)
    requires OutboxKeyed(before) && RecordsStored(due, before)
             && ClaimedUpTo(before, due, records, |due|, owner, until, events)
    ensures OutboxKeyed(events) && events == ClaimedRecords(before, Keys(due), owner, until)
    ensures AreCurrentRecords(records, due, events)
  {
    assert due[..|due|] == due;
    forall i | 0 <= i < |due| ensures due[i].event.eventId in Keys(due) {}
  }

  lemma RecordOne(events: map<string, TerminalRecord>, due: seq<TerminalRecord>, n: nat, owner: string, until: Time)
    requires n < |due| && RecordsStored(due, events)
    ensures var key := due[n].event.eventId;
            ClaimedRecords(events, Keys(due[..n + 1]), owner, until)
              == ClaimedRecords(events, Keys(due[..n]), owner, until)[key := ClaimedRecord(due[n], owner, until)]
  {
    assert Keys(due[..n + 1]) == Keys(due[..n]) + {due[n].event.eventId} by {
      assert due[..n + 1] == due[..n] + [due[n]];
    }
  }

  lemma ClaimTerminalEffectIs(st: Store, now: Time, limit: int, owner: string, lease: Duration, clock: Time,
                              due: seq<TerminalRecord>)
    requires WellFormed(st) && due == PublishChoice(st.events, OrElse(now, clock), limit)
    ensures var at := OrElse(now, clock);
            ClaimTerminalEffect(st, now, limit, owner, lease, clock)
              == Store(st.messages, ClaimedRecords(st.events, Keys(due), owner, at + LeaseOrDefault(lease)))
  {
  }

  ghost function ExpiredAmong(st: Store, ids: set<string>, status: Status, before: Time): set<Message> {
    set id | id in ids && id in st.messages && Expired(st, id, status, before) :: st.messages[id]
  }

  /** One iteration of the expiry loop. */
  lemma ExpiredOne(st: Store, rest: set<string>, id: string, status: Status, before: Time, found: seq<Message>)
    requires WellFormed(st) && id in rest && rest <= st.messages.Keys
    requires Gathered(found, ExpiredAmong(st, st.messages.Keys - rest, status, before))
    ensures var more := if Expired(st, id, status, before) then found + [st.messages[id]] else found;
            Gathered(more, ExpiredAmong(st, st.messages.Keys - (rest - {id}), status, before))
  {
    var was := ExpiredAmong(st, st.messages.Keys - rest, status, before);
    var now := ExpiredAmong(st, st.messages.Keys - (rest - {id}), status, before);
    if Expired(st, id, status, before) {
      assert st.messages[id] !in was;
      assert now == was + {st.messages[id]};
    } else {
      assert now == was;
    }
  }

  class MemoryStore {
    var messages: map<string, Message>
    var terminalEvents: map<string, TerminalRecord>

    ghost function State(): Store
      reads this
    {
      Store(messages, terminalEvents)
    }

    ghost predicate Valid()
      reads this
    {
      WellFormed(State())
    }

    constructor ()
      ensures Valid() && State() == EMPTY
    {
      messages := map[];
      terminalEvents := map[];
    }

    // ---- Submission ----------------------------------------------------------------------

    method SaveWithCapacity(submitted: Message, capacity: QueueCapacity, freshId: string, clock: Time)
      returns (reply: SaveReply)
      requires Valid()
      modifies this
      ensures reply == SaveReplyOf(old(State()), submitted, capacity, freshId, clock)
      ensures Valid() && State() == SaveEffect(old(State()), submitted, capacity, freshId, clock)
    {
      var message := Prepare(submitted, freshId, clock);
      if message.messageId in messages {
        var existing := messages[message.messageId];
        if existing.fingerprint.None? {
          existing := existing.(fingerprint := Some(IdentityFingerprint(existing)));
          messages := messages[message.messageId := existing];
        }
        return Saved(existing, if HaveSameIdentity(existing, message) then Existing else Conflict);
      }
      if message.status.Pending? {
        var refusal := CheckQueueCapacity(DeviceOf(message), capacity);
        if refusal.Some? {
          return Rejected(refusal.value);
        }
      }
      messages := messages[message.messageId := message];
      reply := Saved(message, Created);
    }

    static method Prepare(submitted: Message, freshId: string, clock: Time) returns (message: Message)
      ensures message == Prepared(submitted, freshId, clock)
    {
      message := submitted;
      if message.messageId == "" { message := message.(messageId := freshId); }
      if message.status.Unspecified? { message := message.(status := Pending); }
      if message.createdAt == 0 { message := message.(createdAt := clock); }
      if message.updatedAt == 0 { message := message.(updatedAt := clock); }
      message := message.(fingerprint := Some(IdentityFingerprint(message)));
    }

    method CheckQueueCapacity(d: Device, capacity: QueueCapacity) returns (refusal: Option<CapacityError>)
      ensures refusal == CapacityVerdict(messages, d, capacity)
    {
      if !capacity.Enabled() {
        return None;
      }
      var globalPending, devicePending := CountPending(d);
      if capacity.maxPendingGlobal > 0 && globalPending >= capacity.maxPendingGlobal {
        return Some(CapacityError(GlobalScope, globalPending, capacity.maxPendingGlobal));
      }
      if capacity.maxPendingPerDevice > 0 && devicePending >= capacity.maxPendingPerDevice {
        return Some(CapacityError(DeviceScope, devicePending, capacity.maxPendingPerDevice));
      }
      refusal := None;
    }

    method CountPending(d: Device) returns (globalPending: nat, devicePending: nat)
      ensures globalPending == |PendingIds(messages)| && devicePending == |DevicePendingIds(messages, d)|
    {
      globalPending, devicePending := 0, 0;
      var rest := messages.Keys;
      while rest != {}
        invariant rest <= messages.Keys
        invariant globalPending == |PendingIds(messages) - rest|
        invariant devicePending == |DevicePendingIds(messages, d) - rest|
        decreases |rest|
      {
        var id :| id in rest;
        PendingStep(messages, d, rest, id);
        rest := rest - {id};
        if messages[id].status.Pending? {
          globalPending := globalPending + 1;
          if DeviceOf(messages[id]) == d {
            devicePending := devicePending + 1;
          }
        }
      }
      NothingLeft(PendingIds(messages));
      NothingLeft(DevicePendingIds(messages, d));
    }

    method Get(id: string) returns (found: Option<Message>)
      ensures found == if id in messages then Some(messages[id]) else None
    {
      found := if id in messages then Some(messages[id]) else None;
    }

    // ---- Retry selection -----------------------------------------------------------------

    method RetryCandidates(now: Time, ackTimeout: Duration) returns (found: seq<Message>)
      requires Valid()
      ensures Gathered(found, DueSet(messages, now, ackTimeout))
    {
      found := [];
      var rest := messages.Keys;
      ghost var seen: set<Message> := {};
      while rest != {}
        invariant rest <= messages.Keys
        invariant seen
                  == set id | id in messages.Keys - rest && DueForRetry(messages[id], now, ackTimeout) :: messages[id]
        invariant Gathered(found, seen)
        decreases |rest|
      {
        var id :| id in rest;
        rest := rest - {id};
        if DueForRetry(messages[id], now, ackTimeout) {
          assert messages[id] !in seen;
          found := found + [messages[id]];
          seen := seen + {messages[id]};
        }
      }
      assert seen == DueSet(messages, now, ackTimeout);
    }

    method ListDueRetry(now: Time, ackTimeout: Duration, limit: int, clock: Time) returns (due: seq<Message>)
      requires Valid()
      ensures due == Limited(DueListing(messages, OrElse(now, clock), ackTimeout), limit)
    {
      var at := if now == 0 then clock else now;
      var found := RetryCandidates(at, ackTimeout);
      DueUnique(messages, at, ackTimeout);
      CreatedOrder(DueSet(messages, at, ackTimeout));
      SortAndLimitListing(found, DueSet(messages, at, ackTimeout), CreatedBefore, limit);
      due := SortAndLimit(found, CreatedBefore, limit);
    }

    method ListDueRetryFair(now: Time, ackTimeout: Duration, limit: int, candidateLimit: int, clock: Time)
      returns (selection: RetrySelection)
      requires Valid()
      ensures selection.messages == RetryChoice(messages, OrElse(now, clock), ackTimeout, limit, candidateLimit)
      ensures selection.mode.Fair? && Summarises(selection)
    {
      var candidates := Candidates(if now == 0 then clock else now, ackTimeout, limit, candidateLimit);
      selection := FairRetrySelection(candidates, if limit <= 0 then 100 else limit);
    }

    method Candidates(now: Time, ackTimeout: Duration, limit: int, candidateLimit: int)
      returns (candidates: seq<Message>)
      requires Valid()
      ensures candidates == Candidacy(messages, now, ackTimeout, limit, candidateLimit)
    {
      var bound := if limit <= 0 then 100 else limit;
      var candidateBound := if candidateLimit < bound then bound else candidateLimit;
      var found := RetryCandidates(now, ackTimeout);
      DueUnique(messages, now, ackTimeout);
      CreatedOrder(DueSet(messages, now, ackTimeout));
      SortAndLimitListing(found, DueSet(messages, now, ackTimeout), CreatedBefore, candidateBound);
      candidates := SortAndLimit(found, CreatedBefore, candidateBound);
    }

    method ClaimDueRetryFair(now: Time, ackTimeout: Duration, limit: int, candidateLimit: int,
                             owner: string, lease: Duration, clock: Time)
      returns (selection: RetrySelection)
      requires Valid()
      modifies this
      ensures Valid()
      ensures State() == ClaimEffect(old(State()), now, ackTimeout, limit, candidateLimit, owner, lease, clock)
      ensures AreCurrent(selection.messages,
                         RetryChoice(old(messages), OrElse(now, clock), ackTimeout, limit, candidateLimit), messages)
      ensures selection.mode.Fair? && Summarises(selection)
    {
      selection := ListDueRetryFair(now, ackTimeout, limit, candidateLimit, clock);
      var claimed := ClaimChosen(selection.messages, now, ackTimeout, limit, candidateLimit, owner, lease, clock);
      SummaryKept(selection, claimed);
      selection := selection.(messages := claimed);
    }

    method ClaimChosen(chosen: seq<Message>, now: Time, ackTimeout: Duration, limit: int, candidateLimit: int,
                       owner: string, lease: Duration, clock: Time)
      returns (claimed: seq<Message>)
      requires Valid() && chosen == RetryChoice(messages, OrElse(now, clock), ackTimeout, limit, candidateLimit)
      modifies `messages
      ensures Valid()
      ensures State() == ClaimEffect(old(State()), now, ackTimeout, limit, candidateLimit, owner, lease, clock)
      ensures AreCurrent(claimed, chosen, messages) && SameDevices(claimed, chosen)
    {
      var at := OrElse(now, clock);
      ChosenAreStored(messages, at, ackTimeout, limit, candidateLimit);
      if owner == "" {
        return chosen;
      }
      ghost var before := State();
      claimed := ClaimAll(chosen, owner, at + LeaseOrDefault(lease), at);
      ClaimEffectIs(before, now, ackTimeout, limit, candidateLimit, owner, lease, clock, chosen);
    }

    method ClaimAll(selected: seq<Message>, owner: string, until: Time, now: Time) returns (claimed: seq<Message>)
      requires Valid()
      requires AreStored(selected, messages)
      modifies this`messages
      ensures Valid()
      ensures messages == Claimed(old(messages), Ids(selected), owner, until, now)
      ensures AreCurrent(claimed, selected, messages)
      ensures SameDevices(claimed, selected)
    {
      claimed := selected;
      var index := 0;
      while index < |claimed|
        invariant 0 <= index <= |claimed| == |selected|
        invariant messages == Claimed(old(messages), Ids(selected[..index]), owner, until, now)
        invariant forall i :: 0 <= i < index ==>
          claimed[i] == ClaimedMessage(old(messages)[selected[i].messageId], owner, until, now)
        invariant forall i :: index <= i < |claimed| ==> claimed[i] == selected[i]
      {
        var id := claimed[index].messageId;
        var stored := messages[id].(claimOwner := owner, claimUntil := until, updatedAt := now);
        ClaimOne(old(messages), selected, index, owner, until, now);
        messages := messages[id := stored];
        claimed := claimed[index := stored];
        index := index + 1;
      }
      assert selected[..|selected|] == selected;
      assert forall i :: 0 <= i < |selected| ==> selected[i].messageId in Ids(selected);
    }

    method ListPendingByClientDevice(d: Device, limit: int, clock: Time) returns (waiting: seq<Message>)
      requires Valid()
      ensures waiting == Limited(FlushListing(messages, d, clock), limit)
    {
      var found: seq<Message> := [];
      var rest := messages.Keys;
      ghost var seen: set<Message> := {};
      while rest != {}
        invariant rest <= messages.Keys
        invariant seen == set id | id in messages.Keys - rest && messages[id].status.Pending?
                              && !ClaimActive(messages[id], clock) && DeviceOf(messages[id]) == d :: messages[id]
        invariant Gathered(found, seen)
        decreases |rest|
      {
        var id :| id in rest;
        rest := rest - {id};
        if messages[id].status.Pending? && !ClaimActive(messages[id], clock) && DeviceOf(messages[id]) == d {
          assert messages[id] !in seen;
          found := found + [messages[id]];
          seen := seen + {messages[id]};
        }
      }
      assert seen == FlushSet(messages, d, clock);
      CreatedOrder(FlushSet(messages, d, clock));
      SortAndLimitListing(found, FlushSet(messages, d, clock), CreatedBefore, limit);
      waiting := SortAndLimit(found, CreatedBefore, limit);
    }

    // ---- Paging --------------------------------------------------------------------------

    /** One page of the messages of a status, latest first, after the cursor. */
    method ListByStatusPage(status: Status, limit: int, cursor: Cursors.Cursor) returns (page: Paging.Page)
      requires Valid()
      ensures page == Paging.PageOf(messages, status, limit, cursor)
    {
      var n := if limit <= 0 then Paging.DEFAULT_LIMIT else if limit > Paging.MAX_LIMIT then Paging.MAX_LIMIT
        else limit;
      var after := Cursors.NormaliseCursor(cursor);
      var total, found := Scan(status, after);
      var shown := SortAndLimit(found, Paging.LaterFirst, n + 1);
      SortedPage(messages, found, status, after, n);
      PageIs(Paging.RemainingListing(messages, status, after), n, total);
      var hasMore := |shown| > n;
      if hasMore {
        shown := shown[..n];
      }
      var next := if hasMore then Paging.CursorOf(shown[n - 1]) else Cursors.START;
      page := Paging.Page(shown, total, hasMore, next);
    }

    /** Counts the messages of a status and gathers those after the cursor. */
    method Scan(status: Status, cursor: Cursors.Cursor) returns (total: nat, found: seq<Message>)
      requires Valid()
      ensures total == |Paging.OfStatus(messages, status)|
      ensures Gathered(found, Paging.Remaining(messages, status, cursor))
    {
      total, found := 0, [];
      var rest := messages.Keys;
      ghost var past: map<string, Message> := map[];
      while rest != {}
        invariant rest <= messages.Keys && past == map id | id in messages && id !in rest :: messages[id]
        invariant total == |Paging.OfStatus(past, status)| && Gathered(found, Paging.Remaining(past, status, cursor))
        decreases |rest|
      {
        var id :| id in rest;
        rest := rest - {id};
        ScanStep(past, messages[id], found, status, cursor);
        past := past[id := messages[id]];
        if messages[id].status == status {
          total := total + 1;
          if Paging.AfterCursor(messages[id], cursor) {
            found := found + [messages[id]];
          }
        }
      }
      assert past == messages;
    }

    // ---- Delivery marks ------------------------------------------------------------------

    method MarkSent(id: string, sessionId: string, sentAt: Time, nextRetryAt: Time, clock: Time) returns (reply: Reply)
      requires Valid()
      modifies this
      ensures Valid() && State() == SentEffect(old(State()), id, sessionId, sentAt, nextRetryAt, clock)
      ensures reply.MessageNotFound? <==> id !in old(messages)
    {
      if id !in messages {
        return MessageNotFound;
      }
      var message := messages[id];
      if message.status.Delivered? || message.status.Discarded? {
        return Done;
      }
      message := message.(sessionId := sessionId, status := Sent, attempts := message.attempts + 1, lastError := "");
      message := message.(nextRetryAt := nextRetryAt, claimOwner := "", claimUntil := 0);
      message := message.(sentAt := if sentAt == 0 then clock else sentAt, updatedAt := clock);
      messages := messages[id := message];
      reply := Done;
    }

    method MarkDelivered(id: string, d: Device, deliveredAt: Time, clock: Time) returns (reply: Reply)
      requires Valid()
      modifies this
      ensures Valid() && State() == DeliveredEffect(old(State()), id, d, deliveredAt, clock)
      ensures reply.MessageNotFound? <==> !Addressed(old(State()), id, d)
    {
      var at := if deliveredAt == 0 then clock else deliveredAt;
      if id !in messages || DeviceOf(messages[id]) != d {
        return MessageNotFound;
      }
      var message := messages[id];
      message := message.(status := Delivered, lastError := "", nextRetryAt := 0, claimOwner := "", claimUntil := 0);
      message := message.(deliveredAt := at, updatedAt := at);
      messages := messages[id := message];
      reply := Done;
    }

    method MarkAttemptFailed(id: string, reason: string, nextRetryAt: Time, clock: Time) returns (reply: Reply)
      requires Valid()
      modifies this
      ensures Valid() && State() == AttemptFailedEffect(old(State()), id, reason, nextRetryAt, clock)
      ensures reply.MessageNotFound? <==> id !in old(messages)
    {
      if id !in messages {
        return MessageNotFound;
      }
      var message := messages[id];
      if message.status.Delivered? || message.status.Discarded? {
        return Done;
      }
      message := message.(status := Pending, attempts := message.attempts + 1, lastError := reason);
      message := message.(nextRetryAt := nextRetryAt, claimOwner := "", claimUntil := 0, updatedAt := clock);
      messages := messages[id := message];
      reply := Done;
    }

    method RequeueWithCapacity(id: string, requeuedAt: Time, capacity: QueueCapacity, clock: Time)
      returns (reply: RequeueReply)
      requires Valid()
      modifies this
      ensures reply == RequeueReplyOf(old(State()), id, capacity)
      ensures Valid() && State() == RequeueEffect(old(State()), id, requeuedAt, capacity, clock)
    {
      var at := if requeuedAt == 0 then clock else requeuedAt;
      if id !in messages {
        return RequeueNotFound;
      }
      var message := messages[id];
      if !message.status.Pending? {
        var refusal := CheckQueueCapacity(DeviceOf(message), capacity);
        if refusal.Some? {
          return RequeueRejected(refusal.value);
        }
      }
      message := message.(status := Pending, attempts := 0, lastError := "", nextRetryAt := 0);
      message := message.(claimOwner := "", claimUntil := 0, sessionId := "", sentAt := 0, deliveredAt := 0);
      message := message.(terminalReason := "", terminalAt := 0, publishStatus := Unrecorded, publishAttempts := 0);
      message := message.(nextPublishAt := 0, publishError := "", publishedAt := 0, updatedAt := at);
      messages := messages[id := message];
      reply := Requeued;
    }

    // ---- Terminal transitions and the outbox ---------------------------------------------

    method MarkFailed(id: string, requested: TerminalTransition, clock: Time) returns (reply: Reply)
      requires Valid()
      modifies this
      ensures Valid() && State() == FailedEffect(old(State()), id, requested, clock)
      ensures reply.MessageNotFound? <==> id !in old(messages)
    {
      var transition := if requested.at == 0 then requested.(at := clock) else requested;
      if id !in messages {
        return MessageNotFound;
      }
      var message := messages[id];
      if message.status.Delivered? || message.status.Discarded? {
        return Done;
      }
      ghost var before := State();
      FailedWellFormed(before, id, requested, clock);
      var firstTransition := !message.status.Failed? || message.terminalReason == "";
      message := message.(status := Failed);
      if transition.attempted {
        message := message.(attempts := message.attempts + 1);
      }
      message := message.(lastError := transition.reason, nextRetryAt := 0, claimOwner := "", claimUntil := 0);
      message := message.(updatedAt := transition.at);
      assert message == FailedMessage(messages[id], transition);
      Finish(id, message, Failed, transition, firstTransition);
      reply := Done;
    }

    /** The end that `MarkFailed` and `Discard` share: the message is stored, on its first
        transition together with its outbox record. */
    method Finish(id: string, stamped: Message, status: Status, transition: TerminalTransition, first: bool)
      requires stamped.status == status
      modifies this
      ensures State() == if first then Conclude(old(State()), id, stamped, transition)
                         else old(State()).(messages := old(messages)[id := stamped])
    {
      var message := stamped;
      if first {
        message := OpenTerminal(id, stamped, status, transition);
      }
      messages := messages[id := message];
    }

    /** Stamps the message, finds or creates its outbox record, and copies the record's
        publication state. */
    method OpenTerminal(id: string, stamped: Message, status: Status, transition: TerminalTransition)
      returns (message: Message)
      requires stamped.status == status
      modifies this`terminalEvents
      ensures Store(old(messages)[id := message], terminalEvents) == Conclude(old(State()), id, stamped, transition)
    {
      message := stamped.(terminalReason := transition.reason, terminalAt := transition.at);
      message := message.(publishStatus := if transition.publish then Waiting else Disabled);
      message := message.(publishAttempts := 0, nextPublishAt := 0, publishError := "", publishedAt := 0);
      if transition.publish {
        var event := NewTerminalEvent(message, status, transition);
        var record;
        if event.eventId in terminalEvents {
          record := terminalEvents[event.eventId];
        } else {
          record := TerminalRecord(event, Waiting, 0, 0, "", 0, "", 0);
          terminalEvents := terminalEvents[event.eventId := record];
        }
        message := ApplyTerminalRecord(message, record);
      }
    }

    method Discard(id: string, reason: string, requested: TerminalTransition, clock: Time) returns (reply: Reply)
      requires Valid()
      modifies this
      ensures Valid() && State() == DiscardEffect(old(State()), id, reason, requested, clock)
      ensures reply.MessageNotFound? <==> id !in old(messages)
    {
      var transition := requested;
      if transition.at == 0 { transition := transition.(at := clock); }
      if transition.reason == "" { transition := transition.(reason := OPERATOR_DISCARD); }
      if id !in messages {
        return MessageNotFound;
      }
      var message := messages[id];
      ghost var before := State();
      DiscardWellFormed(before, id, reason, requested, clock);
      var firstTransition := !message.status.Discarded? || message.terminalReason == "";
      message := message.(status := Discarded, lastError := reason, nextRetryAt := 0, claimOwner := "",
                          claimUntil := 0);
      message := message.(updatedAt := transition.at);
      assert message == DiscardedMessage(messages[id], reason, transition.at);
      Finish(id, message, Discarded, transition, firstTransition);
      reply := Done;
    }

    method DueTerminal(now: Time) returns (found: seq<TerminalRecord>)
      requires Valid()
      ensures Gathered(found, PublishDueSet(terminalEvents, now))
    {
      found := [];
      var rest := terminalEvents.Keys;
      ghost var seen: set<TerminalRecord> := {};
      while rest != {}
        invariant rest <= terminalEvents.Keys
        invariant seen == set key | key in terminalEvents.Keys - rest && PublishDue(terminalEvents[key], now)
                              :: terminalEvents[key]
        invariant Gathered(found, seen)
        decreases |rest|
      {
        var key :| key in rest;
        rest := rest - {key};
        var record := terminalEvents[key];
        if !record.status.Waiting? && !record.status.Retrying? {
          continue;
        }
        if record.nextAttemptAt != 0 && record.nextAttemptAt > now {
          continue;
        }
        if record.claimUntil != 0 && record.claimUntil > now {
          continue;
        }
        assert record !in seen;
        found := found + [record];
        seen := seen + {record};
      }
      assert seen == PublishDueSet(terminalEvents, now);
    }

    method ClaimDueTerminal(now: Time, limit: int, owner: string, lease: Duration, clock: Time)
      returns (records: seq<TerminalRecord>)
      requires Valid()
      modifies `terminalEvents
      ensures Valid() && State() == ClaimTerminalEffect(old(State()), now, limit, owner, lease, clock)
      ensures AreCurrentRecords(records, PublishChoice(old(terminalEvents), OrElse(now, clock), limit), terminalEvents)
    {
      var due := ChooseTerminal(if now == 0 then clock else now, limit);
      records := ClaimListed(due, now, limit, owner, lease, clock);
    }

    method ClaimListed(due: seq<TerminalRecord>, now: Time, limit: int, owner: string, lease: Duration, clock: Time)
      returns (records: seq<TerminalRecord>)
      requires Valid() && due == PublishChoice(terminalEvents, OrElse(now, clock), limit)
      modifies `terminalEvents
      ensures Valid() && State() == ClaimTerminalEffect(old(State()), now, limit, owner, lease, clock)
      ensures AreCurrentRecords(records, due, terminalEvents)
    {
      var at := OrElse(now, clock);
      ghost var before := State();
      DueAreStored(before.events, at, limit);
      records := ClaimRecords(due, owner, at + LeaseOrDefault(lease));
      ClaimTerminalIs(before, now, limit, owner, lease, clock, due, records);
    }

    method ChooseTerminal(at: Time, limit: int) returns (due: seq<TerminalRecord>)
      requires Valid()
      ensures due == PublishChoice(terminalEvents, at, limit)
    {
      var bound := if limit <= 0 then 100 else limit;
      var found := DueTerminal(at);
      TerminalOrder(terminalEvents, at);
      SortAndLimitListing(found, PublishDueSet(terminalEvents, at), TerminalBefore, bound);
      due := SortAndLimit(found, TerminalBefore, bound);
    }

    method ClaimRecords(due: seq<TerminalRecord>, owner: string, until: Time) returns (records: seq<TerminalRecord>)
      requires Valid() && RecordsStored(due, terminalEvents)
      modifies this`terminalEvents
      ensures Valid()
      ensures terminalEvents == ClaimedRecords(old(terminalEvents), Keys(due), owner, until)
      ensures AreCurrentRecords(records, due, terminalEvents)
    {
      records := due;
      ghost var before := terminalEvents;
      var index := 0;
      while index < |records|
        invariant 0 <= index <= |records| == |due|
        invariant ClaimedUpTo(before, due, records, index, owner, until, terminalEvents)
      {
        ClaimNext(before, due, records, index, owner, until, terminalEvents);
        records := records[index := records[index].(claimOwner := owner, claimUntil := until)];
        terminalEvents := terminalEvents[records[index].event.eventId := records[index]];
        index := index + 1;
      }
      AllRecorded(before, due, records, owner, until, terminalEvents);
    }

    method MarkTerminalPublished(id: string, status: Status, publishedAt: Time, clock: Time) returns (reply: Reply)
      requires Valid()
      modifies this
      ensures Valid() && State() == PublishedEffect(old(State()), id, status, publishedAt, clock)
      ensures reply.MessageNotFound? <==> EventId(id, status) !in old(terminalEvents)
    {
      var at := if publishedAt == 0 then clock else publishedAt;
      var key := EventId(id, status);
      if key !in terminalEvents {
        return MessageNotFound;
      }
      var record := terminalEvents[key];
      if record.status.Published? {
        return Done;
      }
      record := record.(status := Published, publishAttempts := record.publishAttempts + 1, nextAttemptAt := 0);
      record := record.(lastError := "", publishedAt := at, claimOwner := "", claimUntil := 0);
      terminalEvents := terminalEvents[key := record];
      if id in messages && messages[id].status == status {
        var message := messages[id];
        message := message.(publishStatus := Published, publishAttempts := record.publishAttempts, nextPublishAt := 0);
        message := message.(publishError := "", publishedAt := at);
        messages := messages[id := message];
      }
      reply := Done;
    }

    method MarkTerminalPublishFailed(id: string, status: Status, reason: string, nextAttemptAt: Time)
      returns (reply: Reply)
      requires Valid()
      modifies this
      ensures Valid() && State() == PublishFailedEffect(old(State()), id, status, reason, nextAttemptAt)
      ensures reply.MessageNotFound? <==> EventId(id, status) !in old(terminalEvents)
    {
      var key := EventId(id, status);
      if key !in terminalEvents {
        return MessageNotFound;
      }
      var record := terminalEvents[key];
      if record.status.Published? {
        return Done;
      }
      record := record.(status := Retrying, publishAttempts := record.publishAttempts + 1);
      record := record.(nextAttemptAt := nextAttemptAt, lastError := reason, claimOwner := "", claimUntil := 0);
      terminalEvents := terminalEvents[key := record];
      if id in messages && messages[id].status == status {
        var message := messages[id];
        message := message.(publishStatus := Retrying, publishAttempts := record.publishAttempts);
        message := message.(nextPublishAt := nextAttemptAt, publishError := reason);
        messages := messages[id := message];
      }
      reply := Done;
    }

    // ---- Retention -----------------------------------------------------------------------

    method HasUnpublishedTerminalEvent(id: string) returns (found: bool)
      ensures found <==> HasUnpublished(terminalEvents, id)
    {
      var rest := terminalEvents.Keys;
      while rest != {}
        invariant rest <= terminalEvents.Keys
        invariant forall key :: key in terminalEvents.Keys - rest ==>
          terminalEvents[key].event.messageId != id
            || !(terminalEvents[key].status.Waiting? || terminalEvents[key].status.Retrying?)
        decreases |rest|
      {
        var key :| key in rest;
        rest := rest - {key};
        var record := terminalEvents[key];
        if record.event.messageId == id && (record.status.Waiting? || record.status.Retrying?) {
          return true;
        }
      }
      found := false;
    }

    method IsExpired(id: string, status: Status, before: Time) returns (expired: bool)
      requires Valid() && id in messages
      ensures expired <==> Expired(State(), id, status, before)
    {
      var message := messages[id];
      if message.status != status {
        return false;
      }
      var unpublished := HasUnpublishedTerminalEvent(message.messageId);
      if unpublished {
        return false;
      }
      var updatedAt := RetentionTime(message);
      expired := updatedAt != 0 && updatedAt < before;
    }

    method ExpiredMessages(status: Status, before: Time) returns (found: seq<Message>)
      requires Valid()
      ensures Gathered(found, ExpiredSet(State(), status, before))
    {
      found := [];
      var rest := messages.Keys;
      ghost var st := State();
      assert ExpiredAmong(st, {}, status, before) == {};
      while rest != {}
        invariant st == State() && rest <= messages.Keys
        invariant Gathered(found, ExpiredAmong(st, messages.Keys - rest, status, before))
        decreases |rest|
      {
        var id :| id in rest;
        var expired := IsExpired(id, status, before);
        ExpiredOne(st, rest, id, status, before, found);
        rest := rest - {id};
        if expired {
          found := found + [messages[id]];
        }
      }
      assert ExpiredAmong(st, messages.Keys - {}, status, before) == ExpiredSet(st, status, before);
    }

    method DeleteExpired(status: Status, before: Time, limit: int) returns (deleted: nat)
      requires Valid()
      modifies this
      ensures Valid() && State() == DeleteEffect(old(State()), status, before, limit)
      ensures deleted == |Victims(old(State()), status, before, limit)|
    {
      if before == 0 {
        assert Ids(Victims(State(), status, before, limit)) == {};
        return 0;
      }
      var bound := if limit <= 0 then 1000 else limit;
      var found := ExpiredMessages(status, before);
      RetentionOrder(ExpiredSet(State(), status, before));
      SortAndLimitListing(found, ExpiredSet(State(), status, before), RetainedBefore, bound);
      var victims := SortAndLimit(found, RetainedBefore, bound);
      RemoveAll(victims);
      deleted := |victims|;
    }

    method RemoveAll(victims: seq<Message>)
      modifies this
      ensures messages == old(messages) - Ids(victims)
      ensures terminalEvents == old(terminalEvents) - EventKeys(Ids(victims))
    {
      var index := 0;
      while index < |victims|
        invariant 0 <= index <= |victims|
        invariant messages == old(messages) - Ids(victims[..index])
        invariant terminalEvents == old(terminalEvents) - EventKeys(Ids(victims[..index]))
      {
        var id := victims[index].messageId;
        RemoveOne(victims, index);
        RemoveMore(old(messages), Ids(victims[..index]), {id});
        RemoveMore(old(terminalEvents), EventKeys(Ids(victims[..index])), {EventId(id, Failed)});
        RemoveMore(old(terminalEvents), EventKeys(Ids(victims[..index])) + {EventId(id, Failed)},
                   {EventId(id, Discarded)});
        messages := messages - {id};
        terminalEvents := terminalEvents - {EventId(id, Failed)};
        terminalEvents := terminalEvents - {EventId(id, Discarded)};
        index := index + 1;
      }
      assert victims[..|victims|] == victims;
    }
  }
}
