/** The batches internal/downlink/service.go works through, as runs of store calls: the messages a
    scan or a flush selects, the terminal events a publisher round claims, the retention sweeps. */
module Batches {
  import opened Messages
  import opened Chains
  import opened Overlays
  import opened Ordering
  import opened Fairness
  import opened FairnessProperties
  import opened StoreModel
  import opened MemoryStores
  import opened Outbox
  import opened Races
  import opened ServiceModel

  // ---- Runs ------------------------------------------------------------------------------

  lemma RunOne(st: Store, a: Action)
    requires WellFormed(st)
    ensures Run(st, [a]) == Step(st, a)
  {
    assert [a][..0] == [];
  }

  lemma RunTwo(st: Store, a: Action, b: Action)
    requires WellFormed(st)
    ensures Run(st, [a, b]) == Step(Step(st, a), b)
  {
    assert [a, b][..1] == [a];
    RunOne(st, a);
  }

  lemma {:induction false} RunAppend(st: Store, a: seq<Action>, b: seq<Action>)
    requires WellFormed(st)
    ensures Run(st, a + b) == Run(Run(st, a), b)
    decreases |b|
  {
    if b == [] {
      assert a + b == a;
    } else {
      var n := |b| - 1;
      RunAppend(st, a, b[..n]);
      assert (a + b)[..|a + b| - 1] == a + b[..n];
    }
  }

  lemma RunThree(st: Store, a: seq<Action>, b: seq<Action>, c: seq<Action>)
    requires WellFormed(st)
    ensures Run(Run(Run(st, a), b), c) == Run(st, a + b + c)
  {
    RunAppend(st, a, b);
    RunAppend(st, a + b, c);
  }

  // ---- Messages to retry -----------------------------------------------------------------

  ghost predicate Marks(action: Option<Action>) {
    action.Some? ==> IsMark(action.value)
  }

  /** The mark a decision asks for, if any. */
  ghost function Taken(st: Store, action: Option<Action>): Store
    requires Marks(action)
  {
    if action.None? then st else MarkStep(st, action.value)
  }

  /** The store after the first `n` messages of a batch have been handled in turn; `surroundings(i)`
      is what the i-th meets. */
  ghost function Handled(c: Config, st: Store, messages: seq<Message>, surroundings: nat -> Env, n: nat): Store
    requires n <= |messages|
  {
    if n == 0 then st
    else Taken(Handled(c, st, messages, surroundings, n - 1), RetryAction(c, messages[n - 1], surroundings(n - 1)))
  }

  function Further(calls: seq<Action>, action: Option<Action>): seq<Action> {
    if action.None? then calls else calls + [action.value]
  }

  ghost predicate AllMarks(calls: seq<Action>) {
    forall i :: 0 <= i < |calls| ==> IsMark(calls[i])
  }

  /** The store calls of the first `n` messages. */
  function RetryCalls(c: Config, messages: seq<Message>, surroundings: nat -> Env, n: nat): (calls: seq<Action>)
    requires n <= |messages|
    ensures AllMarks(calls)
  {
    if n == 0 then []
    else Further(RetryCalls(c, messages, surroundings, n - 1), RetryAction(c, messages[n - 1], surroundings(n - 1)))
  }

  /** A run of marks alone. */
  ghost function MarkRun(st: Store, calls: seq<Action>): Store
    requires AllMarks(calls)
  {
    if calls == [] then st else MarkStep(MarkRun(st, calls[..|calls| - 1]), calls[|calls| - 1])
  }

  lemma {:induction false} MarkRunIsRun(st: Store, calls: seq<Action>)
    requires WellFormed(st) && AllMarks(calls)
    ensures MarkRun(st, calls) == Run(st, calls)
    decreases |calls|
  {
    if calls != [] {
      var n := |calls| - 1;
      MarkRunIsRun(st, calls[..n]);
      MarkIsStep(Run(st, calls[..n]), calls[n]);
    }
  }

  lemma MarkRunFurther(st: Store, calls: seq<Action>, action: Option<Action>)
    requires AllMarks(calls) && Marks(action)
    ensures AllMarks(Further(calls, action))
    ensures MarkRun(st, Further(calls, action)) == Taken(MarkRun(st, calls), action)
  {
    if action.Some? {
      assert (calls + [action.value])[..|calls|] == calls;
    }
  }

  lemma {:induction false} HandledIsMarkRun(c: Config, st: Store, messages: seq<Message>, surroundings: nat -> Env,
                                            n: nat)
    requires n <= |messages|
    ensures Handled(c, st, messages, surroundings, n) == MarkRun(st, RetryCalls(c, messages, surroundings, n))
  {
    if n > 0 {
      HandledIsMarkRun(c, st, messages, surroundings, n - 1);
      MarkRunFurther(st, RetryCalls(c, messages, surroundings, n - 1),
                     RetryAction(c, messages[n - 1], surroundings(n - 1)));
    }
  }

  /** Handling a batch is a run of the store. */
  lemma HandledIsRun(c: Config, st: Store, messages: seq<Message>, surroundings: nat -> Env, n: nat)
    requires WellFormed(st) && n <= |messages|
    ensures Handled(c, st, messages, surroundings, n) == Run(st, RetryCalls(c, messages, surroundings, n))
  {
    HandledIsMarkRun(c, st, messages, surroundings, n);
    MarkRunIsRun(st, RetryCalls(c, messages, surroundings, n));
  }

  function CountStatus(c: Config, messages: seq<Message>, surroundings: nat -> Env, n: nat, status: Status): nat
    requires n <= |messages|
  {
    if n == 0 then 0
    else
      CountStatus(c, messages, surroundings, n - 1, status)
      + if RetryStatus(c, messages[n - 1], surroundings(n - 1)) == status then 1 else 0
  }

  /** Handling this message needs a store call, and it is not there any more. */
  ghost predicate Vanished(c: Config, st: Store, m: Message, e: Env) {
    RetryAction(c, m, e).Some? && m.messageId !in st.messages
  }

  lemma MissingUnchanged(c: Config, st: Store, m: Message, e: Env)
    requires Vanished(c, st, m, e)
    ensures Taken(st, RetryAction(c, m, e)) == st
  {
    MarkMissing(st, RetryAction(c, m, e).value);
  }

  lemma MarkMissing(st: Store, a: Action)
    requires IsMark(a) && a.id !in st.messages
    ensures MarkStep(st, a) == st
  {
  }

  /** Handling messages removes none. */
  lemma {:induction false} HandledKeeps(c: Config, st: Store, messages: seq<Message>, surroundings: nat -> Env, n: nat,
                                        id: string)
    requires n <= |messages| && id in st.messages
    ensures id in Handled(c, st, messages, surroundings, n).messages
  {
    if n > 0 {
      HandledKeeps(c, st, messages, surroundings, n - 1, id);
      var action := RetryAction(c, messages[n - 1], surroundings(n - 1));
      if action.Some? {
        MarkKeeps(Handled(c, st, messages, surroundings, n - 1), action.value, id);
      }
    }
  }

  /** A message that a batch finds gone was not stored when the batch began. */
  lemma VanishedBefore(c: Config, st: Store, messages: seq<Message>, surroundings: nat -> Env, n: nat, st': Store)
    requires n < |messages| && st' == Handled(c, st, messages, surroundings, n)
    ensures messages[n].messageId !in st'.messages ==> messages[n].messageId !in st.messages
  {
    if messages[n].messageId in st.messages {
      HandledKeeps(c, st, messages, surroundings, n, messages[n].messageId);
    }
  }

  ghost predicate AllPresent(st: Store, messages: seq<Message>) {
    forall i :: 0 <= i < |messages| ==> messages[i].messageId in st.messages
  }

  // ---- Scans -----------------------------------------------------------------------------

  /** The numbers of a scan are machine integers. */
  predicate ScanRange(c: Config, limit: int) {
    Int64(limit) && Int64(c.candidateMultiplier) && Int64(c.capacity.maxPendingPerDevice)
  }

  function ScanWindow(c: Config, limit: int): int
    requires ScanRange(c, limit)
  {
    CandidateLimit(c.candidateMultiplier, limit, c.capacity.maxPendingPerDevice)
  }

  /** What a scan chooses: the fair selection if fairness is on, otherwise the oldest due. */
  ghost function Choice(c: Config, st: Store, at: Time, limit: int): seq<Message>
    requires WellFormed(st) && ScanRange(c, limit)
  {
    if c.fair then RetryChoice(st.messages, at, c.ackTimeout, limit, ScanWindow(c, limit))
    else Limited(DueListing(st.messages, at, c.ackTimeout), limit)
  }

  /** The store calls of the selection itself: the claim, for a fair scan with an owner. */
  function ScanCalls(c: Config, limit: int, now: Time, clock: Time): seq<Action>
    requires ScanRange(c, limit)
  {
    if c.fair && c.claimOwner != "" then
      [Claim(now, c.ackTimeout, limit, ScanWindow(c, limit), c.claimOwner, c.claimLease, clock)]
    else []
  }

  lemma DueAreStored(messages: map<string, Message>, now: Time, ackTimeout: Duration, limit: int)
    requires Keyed(messages)
    ensures AreStored(Limited(DueListing(messages, now, ackTimeout), limit), messages)
  {
    DueUnique(messages, now, ackTimeout);
    CreatedOrder(DueSet(messages, now, ackTimeout));
    var all := DueListing(messages, now, ackTimeout);
    assert forall i :: 0 <= i < |all| ==> all[i] in DueSet(messages, now, ackTimeout);
  }

  lemma FlushAreStored(messages: map<string, Message>, d: Device, clock: Time, limit: int)
    requires Keyed(messages)
    ensures AreStored(Limited(FlushListing(messages, d, clock), limit), messages)
  {
    CreatedOrder(FlushSet(messages, d, clock));
    var all := FlushListing(messages, d, clock);
    assert forall i :: 0 <= i < |all| ==> all[i] in FlushSet(messages, d, clock);
  }

  // ---- Terminal events to publish --------------------------------------------------------

  /** What publishing one event meets: the publisher's answer, the clock after it, the jitter
      and the store's own clock. */
  datatype PublishEnv = PublishEnv(error: Option<string>, at: Time, jitter: Duration, clock: Time)

  /** The store calls that record how a publication went. */
  predicate IsReport(a: Action) { a.MarkPublished? || a.MarkPublishFailed? }

  function ReportStep(st: Store, a: Action): Store {
    match a
    case MarkPublished(id, status, at, clock) => PublishedEffect(st, id, status, at, clock)
    case MarkPublishFailed(id, status, reason, next) => PublishFailedEffect(st, id, status, reason, next)
    case _ => st
  }

  lemma ReportIsStep(st: Store, a: Action)
    requires WellFormed(st) && IsReport(a)
    ensures Step(st, a) == ReportStep(st, a)
  {
  }

  /** What an answer comes to: published, or due again at a later time. */
  datatype Answer = Succeeded(at: Time, clock: Time) | PutOff(error: string, next: Time)

  function AnswerOf(c: Config, r: TerminalRecord, e: PublishEnv): Answer {
    if e.error.Some? then PutOff(e.error.value, NextPublishAt(c, e.at, r.publishAttempts, e.jitter))
    else Succeeded(e.at, e.clock)
  }

  ghost predicate Gives(c: Config, r: TerminalRecord, e: PublishEnv, a: Answer) {
    a == AnswerOf(c, r, e)
  }

  /** The answers for a batch; `surroundings(i)` is what the i-th event meets. */
  function AnswersOf(c: Config, records: seq<TerminalRecord>, surroundings: nat -> PublishEnv): (answers: seq<Answer>)
    ensures |answers| == |records|
    ensures forall i: nat :: i < |records| ==> Gives(c, records[i], surroundings(i), answers[i])
  {
    seq(|records|, i requires 0 <= i < |records| => AnswerOf(c, records[i], surroundings(i)))
  }

  function PublishAction(r: TerminalRecord, a: Answer): (call: Action)
    ensures IsReport(call)
  {
    match a
    case Succeeded(at, clock) => MarkPublished(r.event.messageId, r.event.terminalStatus, at, clock)
    case PutOff(error, next) => MarkPublishFailed(r.event.messageId, r.event.terminalStatus, error, next)
  }

  /** The store call that follows the publisher's answer. */
  function Answered(st: Store, r: TerminalRecord, a: Answer): Store {
    ReportStep(st, PublishAction(r, a))
  }

  /** The record an answer leaves: published at that moment, or due again after the backoff. */
  function AnsweredRecord(r: TerminalRecord, a: Answer): TerminalRecord {
    match a
    case Succeeded(at, clock) => PublishedRecord(r, OrElse(at, clock))
    case PutOff(error, next) => PublishFailedRecord(r, error, next)
  }

  /** The owner and lease under which a publisher round claims its events. */
  function PublishOwner(c: Config): string {
    if c.terminal.claimOwner == "" then c.gatewayNode else c.terminal.claimOwner
  }

  ghost predicate AllReports(calls: seq<Action>) {
    forall i :: 0 <= i < |calls| ==> IsReport(calls[i])
  }

  /** The reports of the first `n` events of a batch. */
  function PublishCalls(records: seq<TerminalRecord>, answers: seq<Answer>, n: nat): (calls: seq<Action>)
    requires n <= |records| == |answers|
    ensures |calls| == n && AllReports(calls)
    ensures forall i :: 0 <= i < n ==> calls[i] == PublishAction(records[i], answers[i])
  {
    seq(n, i requires 0 <= i < n => PublishAction(records[i], answers[i]))
  }

  lemma {:induction false} ReportRunIsRun(st: Store, calls: seq<Action>)
    requires WellFormed(st) && AllReports(calls)
    ensures Fold(st, ReportStep, calls) == Run(st, calls)
    decreases |calls|
  {
    if calls != [] {
      var n := |calls| - 1;
      ReportRunIsRun(st, calls[..n]);
      ReportIsStep(Run(st, calls[..n]), calls[n]);
    }
  }

  /** The store after the first `n` events of a batch have been reported in turn. */
  ghost function Reported(st: Store, records: seq<TerminalRecord>, answers: seq<Answer>, n: nat): Store
    requires n <= |records| == |answers|
  {
    if n == 0 then st else Answered(Reported(st, records, answers, n - 1), records[n - 1], answers[n - 1])
  }

  lemma ReportedNext(st: Store, records: seq<TerminalRecord>, answers: seq<Answer>, n: nat)
    requires n < |records| == |answers|
    ensures Reported(st, records, answers, n + 1) == Answered(Reported(st, records, answers, n), records[n], answers[n])
  {
  }

  ghost function Stores(st: Store, records: seq<TerminalRecord>, answers: seq<Answer>): (states: seq<Store>)
    requires |records| == |answers|
    ensures |states| == |records| + 1
    ensures forall i :: 0 <= i <= |records| ==> states[i] == Reported(st, records, answers, i)
  {
    seq(|records| + 1, i requires 0 <= i <= |records| => Reported(st, records, answers, i))
  }

  lemma ReportedIsFold(st: Store, records: seq<TerminalRecord>, answers: seq<Answer>, n: nat)
    requires n <= |records| == |answers|
    ensures Reported(st, records, answers, n) == Fold(st, ReportStep, PublishCalls(records, answers, n))
  {
    var states, calls := Stores(st, records, answers)[..n + 1], PublishCalls(records, answers, n);
    forall i | 0 <= i < n
      ensures states[i + 1] == ReportStep(states[i], calls[i])
    {
      ReportedNext(st, records, answers, i);
    }
    ChainIsFold(states, ReportStep, calls);
  }

  lemma ReportedIsRun(st: Store, records: seq<TerminalRecord>, answers: seq<Answer>, n: nat)
    requires WellFormed(st) && n <= |records| == |answers|
    ensures Reported(st, records, answers, n) == Run(st, PublishCalls(records, answers, n))
  {
    ReportedIsFold(st, records, answers, n);
    ReportRunIsRun(st, PublishCalls(records, answers, n));
  }

  function CountPublished(answers: seq<Answer>, n: nat): nat
    requires n <= |answers|
  {
    if n == 0 then 0 else CountPublished(answers, n - 1) + if answers[n - 1].Succeeded? then 1 else 0
  }

  ghost predicate Open(r: TerminalRecord) {
    RecordKeyed(r.event.eventId, r) && !r.status.Published?
  }

  /** Different events, none of them published. */
  ghost predicate Distinct(records: seq<TerminalRecord>) {
    && (forall i :: 0 <= i < |records| ==> Open(records[i]))
    && (forall i, j :: 0 <= i < j < |records| ==> records[i].event.eventId != records[j].event.eventId)
  }

  lemma ChosenDistinct(events: map<string, TerminalRecord>, now: Time, limit: int)
    requires OutboxKeyed(events)
    ensures var chosen := PublishChoice(events, now, limit);
            RecordsStored(chosen, events) && Distinct(chosen)
  {
    TerminalOrder(events, now);
    var all := Listing(PublishDueSet(events, now), TerminalBefore);
    var chosen := PublishChoice(events, now, limit);
    MemoryStores.DueAreStored(events, now, limit);
    assert forall i :: 0 <= i < |all| ==> all[i] in PublishDueSet(events, now);
    forall i, j | 0 <= i < j < |chosen|
      ensures chosen[i].event.eventId != chosen[j].event.eventId
    {
      assert TerminalBefore(all[i], all[j]);
    }
  }

  lemma ClaimedAreBatch(st: Store, now: Time, limit: int, owner: string, lease: Duration, clock: Time,
                        records: seq<TerminalRecord>)
    requires WellFormed(st)
    requires AreCurrentRecords(records, PublishChoice(st.events, OrElse(now, clock), limit),
                               ClaimTerminalEffect(st, now, limit, owner, lease, clock).events)
    ensures Distinct(records) && RecordsStored(records, ClaimTerminalEffect(st, now, limit, owner, lease, clock).events)
  {
    var chosen := PublishChoice(st.events, OrElse(now, clock), limit);
    ChosenDistinct(st.events, OrElse(now, clock), limit);
    forall i | 0 <= i < |records|
      ensures records[i].event.eventId == chosen[i].event.eventId && Open(records[i])
    {
      assert Open(chosen[i]);
    }
  }

  /** The answer turns this open record, stored under the key, into the other. */
  ghost predicate Turns(r: TerminalRecord, a: Answer, key: string, left: TerminalRecord) {
    Open(r) && key == r.event.eventId && left == AnsweredRecord(r, a)
  }

  /** An answer concerns its own record and no other. */
  lemma AnsweredOne(st: Store, r: TerminalRecord, a: Answer, key: string, left: TerminalRecord)
    requires Turns(r, a, key, left) && key in st.events && st.events[key] == r
    ensures Answered(st, r, a).events == st.events[key := left]
  {
  }

  /** A batch with its answers, its keys and what the answers leave. */
  ghost predicate Batch(st: Store, records: seq<TerminalRecord>, answers: seq<Answer>, keys: seq<string>,
                        left: seq<TerminalRecord>) {
    && |records| == |answers| == |keys| == |left| && AllDifferent(keys)
    && (forall i :: 0 <= i < |records| ==> keys[i] in st.events && st.events[keys[i]] == records[i])
    && (forall i :: 0 <= i < |records| ==> Turns(records[i], answers[i], keys[i], left[i]))
  }

  lemma ReportPuts(st: Store, records: seq<TerminalRecord>, answers: seq<Answer>, keys: seq<string>,
                   left: seq<TerminalRecord>, n: nat, before: Store, after: Store)
    requires Batch(st, records, answers, keys, left) && n < |records|
    requires before == Reported(st, records, answers, n) && after == Reported(st, records, answers, n + 1)
    ensures Puts(before.events, after.events, keys[n], records[n], left[n])
  {
    ReportedNext(st, records, answers, n);
    assert Turns(records[n], answers[n], keys[n], left[n]);
    if keys[n] in before.events && before.events[keys[n]] == records[n] {
      AnsweredOne(before, records[n], answers[n], keys[n], left[n]);
    }
  }

  /** The outbox after each of the reports. */
  ghost function Outboxes(st: Store, records: seq<TerminalRecord>, answers: seq<Answer>)
    : (states: seq<map<string, TerminalRecord>>)
    requires |records| == |answers|
    ensures |states| == |records| + 1
    ensures forall i :: 0 <= i <= |records| ==> states[i] == Reported(st, records, answers, i).events
  {
    seq(|records| + 1, i requires 0 <= i <= |records| => Reported(st, records, answers, i).events)
  }

  /** Reporting a batch replaces each record as its own answer says, whatever the others' are. */
  lemma ReportedIsOverlaid(st: Store, records: seq<TerminalRecord>, answers: seq<Answer>, keys: seq<string>,
                           left: seq<TerminalRecord>, n: nat)
    requires Batch(st, records, answers, keys, left) && n <= |records|
    ensures Reported(st, records, answers, n).events == Overlaid(st.events, keys, left, n)
  {
    var states := Outboxes(st, records, answers);
    assert states[0] == st.events;
    forall i | 0 <= i < |keys|
      ensures Puts(states[i], states[i + 1], keys[i], records[i], left[i])
    {
      ReportPuts(st, records, answers, keys, left, i, Reported(st, records, answers, i),
                 Reported(st, records, answers, i + 1));
    }
    PutsOverlay(states, keys, records, left, n);
  }

  function EventIds(records: seq<TerminalRecord>): (keys: seq<string>)
    ensures |keys| == |records| && forall i :: 0 <= i < |records| ==> keys[i] == records[i].event.eventId
  {
    seq(|records|, i requires 0 <= i < |records| => records[i].event.eventId)
  }

  /** What the answers leave of the records, each of its own. */
  function Leavings(records: seq<TerminalRecord>, answers: seq<Answer>): (left: seq<TerminalRecord>)
    requires |records| == |answers|
    ensures |left| == |records| && forall i :: 0 <= i < |records| ==> left[i] == AnsweredRecord(records[i], answers[i])
  {
    seq(|records|, i requires 0 <= i < |records| => AnsweredRecord(records[i], answers[i]))
  }

  lemma IsBatch(st: Store, records: seq<TerminalRecord>, answers: seq<Answer>)
    requires Distinct(records) && RecordsStored(records, st.events) && |records| == |answers|
    ensures Batch(st, records, answers, EventIds(records), Leavings(records, answers))
  {
  }

  ghost predicate AllAnswered(events: map<string, TerminalRecord>, records: seq<TerminalRecord>, answers: seq<Answer>)
    requires |records| == |answers|
  {
    forall k: nat :: k < |records| ==>
      && records[k].event.eventId in events
      && events[records[k].event.eventId] == AnsweredRecord(records[k], answers[k])
  }

  ghost predicate OthersKept(before: map<string, TerminalRecord>, events: map<string, TerminalRecord>,
                             keys: set<string>) {
    forall key :: key !in keys ==> (key in events <==> key in before) && (key in events ==> events[key] == before[key])
  }

  /** Every event of a reported batch ends as its own answer says, and no other event changes. */
  lemma BatchReported(st: Store, records: seq<TerminalRecord>, answers: seq<Answer>)
    requires Distinct(records) && RecordsStored(records, st.events) && |records| == |answers|
    ensures var events := Reported(st, records, answers, |records|).events;
            AllAnswered(events, records, answers) && OthersKept(st.events, events, Keys(records))
  {
    var keys, left := EventIds(records), Leavings(records, answers);
    var events := Reported(st, records, answers, |records|).events;
    IsBatch(st, records, answers);
    ReportedIsOverlaid(st, records, answers, keys, left, |records|);
    OverlaidAll(st.events, keys, left, events);
    assert forall key :: key in keys ==> key in Keys(records);
  }

  /** The first `n` answers of a batch are in the store, `published` of them successes. */
  ghost predicate ReportedUpTo(start: Store, records: seq<TerminalRecord>, answers: seq<Answer>, n: nat, st: Store,
                               published: nat) {
    && n <= |records| == |answers|
    && st == Reported(start, records, answers, n) && published == CountPublished(answers, n)
  }

  /** A claimed batch and its answers. */
  ghost predicate Round(c: Config, start: Store, records: seq<TerminalRecord>, surroundings: nat -> PublishEnv,
                        answers: seq<Answer>) {
    && Distinct(records) && RecordsStored(records, start.events) && |answers| == |records|
    && forall i: nat :: i < |records| ==> Gives(c, records[i], surroundings(i), answers[i])
  }

  lemma RoundStarts(start: Store, records: seq<TerminalRecord>, answers: seq<Answer>)
    requires |answers| == |records|
    ensures ReportedUpTo(start, records, answers, 0, start, 0)
  {
  }

  lemma ReportNext(start: Store, records: seq<TerminalRecord>, answers: seq<Answer>, n: nat, st: Store, published: nat)
    requires Distinct(records) && RecordsStored(records, start.events)
    requires n < |records| && ReportedUpTo(start, records, answers, n, st, published)
    ensures Open(records[n]) && records[n].event.eventId in st.events
    ensures ReportedUpTo(start, records, answers, n + 1, Answered(st, records[n], answers[n]),
                         published + if answers[n].Succeeded? then 1 else 0)
  {
    var keys, left := EventIds(records), Leavings(records, answers);
    IsBatch(start, records, answers);
    ReportedIsOverlaid(start, records, answers, keys, left, n);
    OverlaidAt(start.events, keys, left, n, n);
    ReportedNext(start, records, answers, n);
  }

  /** The claim and the reports together are a run of the store. */
  lemma RoundIsRun(st: Store, claim: Action, records: seq<TerminalRecord>, answers: seq<Answer>)
    requires WellFormed(st) && |records| == |answers|
    ensures Reported(Step(st, claim), records, answers, |records|)
            == Run(st, [claim] + PublishCalls(records, answers, |records|))
  {
    var calls := PublishCalls(records, answers, |records|);
    ReportedIsRun(Step(st, claim), records, answers, |records|);
    RunAfter(st, claim, calls);
  }

  lemma RunAfter(st: Store, a: Action, calls: seq<Action>)
    requires WellFormed(st)
    ensures Run(Step(st, a), calls) == Run(st, [a] + calls)
  {
    RunOne(st, a);
    RunAppend(st, [a], calls);
  }

  // ---- Retention sweeps ------------------------------------------------------------------

  /** The calls of one cleanup: delivered, failed and discarded messages, where they have a TTL. */
  function CleanupActions(policy: RetentionPolicy, limit: int, now: Time): seq<Action> {
    var bound := if limit <= 0 then 1000 else limit;
    CleanupCall(Delivered, policy.deliveredTTL, bound, now)
    + CleanupCall(Failed, policy.failedTTL, bound, now)
    + CleanupCall(Discarded, policy.discardedTTL, bound, now)
  }

  function CleanupCall(status: Status, ttl: Duration, limit: int, now: Time): seq<Action> {
    if ttl > 0 then [DeleteExpired(status, now - ttl, limit)] else []
  }

  /** What the service's cleanup asks of the store is what the retention theorems suppose. */
  lemma CleanupActionsObeyPolicy(policy: RetentionPolicy, limit: int, now: Time, i: nat)
    requires i < |CleanupActions(policy, limit, now)|
    ensures Cleanup(CleanupActions(policy, limit, now)[i], policy, now)
  {
  }

  ghost function Swept(st: Store, status: Status, ttl: Duration, limit: int, now: Time): (st': Store)
    requires WellFormed(st)
    ensures WellFormed(st')
  {
    if ttl > 0 then DeleteEffect(st, status, now - ttl, limit) else st
  }

  ghost function SweepCount(st: Store, status: Status, ttl: Duration, limit: int, now: Time): nat
    requires WellFormed(st)
  {
    if ttl > 0 then |Victims(st, status, now - ttl, limit)| else 0
  }

  lemma DeleteIsStep(st: Store, status: Status, before: Time, limit: int)
    requires WellFormed(st)
    ensures Step(st, DeleteExpired(status, before, limit)) == DeleteEffect(st, status, before, limit)
  {
  }

  lemma RunDelete(st: Store, status: Status, before: Time, limit: int, calls: seq<Action>, st': Store)
    requires WellFormed(st) && calls == [DeleteExpired(status, before, limit)]
             && st' == DeleteEffect(st, status, before, limit)
    ensures Run(st, calls) == st'
  {
    RunOne(st, calls[0]);
    DeleteIsStep(st, status, before, limit);
  }

  lemma SweepIsRun(st: Store, status: Status, ttl: Duration, limit: int, now: Time, calls: seq<Action>, st': Store)
    requires WellFormed(st) && calls == CleanupCall(status, ttl, limit, now)
             && st' == Swept(st, status, ttl, limit, now)
    ensures Run(st, calls) == st'
  {
    if ttl > 0 {
      RunDelete(st, status, now - ttl, limit, calls, st');
    } else {
      assert calls == [];
    }
  }

  /** A cleanup is a run of at most three deletions. */
  lemma CleanupIsRun(st: Store, policy: RetentionPolicy, limit: int, now: Time)
    requires WellFormed(st)
    ensures var bound := if limit <= 0 then 1000 else limit;
            var one := Swept(st, Delivered, policy.deliveredTTL, bound, now);
            var two := Swept(one, Failed, policy.failedTTL, bound, now);
            Swept(two, Discarded, policy.discardedTTL, bound, now) == Run(st, CleanupActions(policy, limit, now))
  {
    var bound := if limit <= 0 then 1000 else limit;
    var one := Swept(st, Delivered, policy.deliveredTTL, bound, now);
    var two := Swept(one, Failed, policy.failedTTL, bound, now);
    var a, b, c := CleanupCall(Delivered, policy.deliveredTTL, bound, now),
      CleanupCall(Failed, policy.failedTTL, bound, now),
                   CleanupCall(Discarded, policy.discardedTTL, bound, now);
    SweepIsRun(st, Delivered, policy.deliveredTTL, bound, now, a, one);
    SweepIsRun(one, Failed, policy.failedTTL, bound, now, b, two);
    SweepIsRun(two, Discarded, policy.discardedTTL, bound, now, c,
               Swept(two, Discarded, policy.discardedTTL, bound, now));
    RunThree(st, a, b, c);
  }

  /** A cleanup call reports exactly as many messages as it removes. */
  lemma DeletedCount(st: Store, status: Status, before: Time, limit: int)
    requires WellFormed(st)
    ensures |Victims(st, status, before, limit)|
            == |st.messages| - |Step(st, DeleteExpired(status, before, limit)).messages|
  {
    var victims := Victims(st, status, before, limit);
    var ids := Ids(victims);
    VictimIds(st, status, before, limit);
    assert ids <= st.messages.Keys by {
      forall id | id in ids
        ensures id in st.messages
      {
        VictimExpired(st, status, before, limit, id);
      }
    }
    var left := Step(st, DeleteExpired(status, before, limit)).messages;
    assert left == st.messages - ids;
    assert left.Keys == st.messages.Keys - ids;
    assert |st.messages.Keys - ids| == |st.messages.Keys| - |ids|;
  }

  lemma VictimIds(st: Store, status: Status, before: Time, limit: int)
    requires WellFormed(st)
    ensures |Ids(Victims(st, status, before, limit))| == |Victims(st, status, before, limit)|
  {
    var victims := Victims(st, status, before, limit);
    if before != 0 {
      RetentionOrder(ExpiredSet(st, status, before));
      var all := Listing(ExpiredSet(st, status, before), RetainedBefore);
      forall i, j | 0 <= i < j < |victims|
        ensures victims[i].messageId != victims[j].messageId
      {
        assert victims[i] == all[i] && victims[j] == all[j];
        assert all[i] in ExpiredSet(st, status, before) && all[j] in ExpiredSet(st, status, before);
        assert RetainedBefore(all[i], all[j]);
      }
    }
    DistinctIds(victims);
  }

  lemma {:induction false} DistinctIds(s: seq<Message>)
    requires forall i, j :: 0 <= i < j < |s| ==> s[i].messageId != s[j].messageId
    ensures |Ids(s)| == |s|
  {
    if s == [] {
      assert Ids(s) == {};
    } else {
      var rest := s[..|s| - 1];
      DistinctIds(rest);
      assert Ids(s) == Ids(rest) + {s[|s| - 1].messageId} by {
        assert s == rest + [s[|s| - 1]];
      }
    }
  }
}
