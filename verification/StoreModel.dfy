/** The state of internal/downlink/memory_store.go and what each of its locked methods does
    to it.  A run of the store, under any interleaving of callers, is a sequence of these
    steps. */
module StoreModel {
  import opened Messages
  import opened Ordering
  import opened Fairness
  import opened FairnessProperties
  import opened Identity

  datatype Store = Store(messages: map<string, Message>, events: map<string, TerminalRecord>)

  const EMPTY := Store(map[], map[])

  // ---- Invariant -------------------------------------------------------------------------

  ghost predicate Keyed(messages: map<string, Message>) {
    forall id :: id in messages ==> messages[id].messageId == id
  }

  predicate Reportable(status: Status) {
    status.Failed? || status.Discarded?
  }

  predicate RecordKeyed(key: string, r: TerminalRecord) {
    && r.event.eventId == key
    && key == EventId(r.event.messageId, r.event.terminalStatus)
    && Reportable(r.event.terminalStatus)
    && (r.status.Waiting? || r.status.Retrying? || r.status.Published?)
  }

  ghost predicate OutboxKeyed(events: map<string, TerminalRecord>) {
    forall key :: key in events ==> RecordKeyed(key, events[key])
  }

  /** Map keys agree with the records they hold. */
  ghost predicate WellFormed(st: Store) {
    Keyed(st.messages) && OutboxKeyed(st.events)
  }

  // ---- Save ------------------------------------------------------------------------------

  function OrElse(t: Time, clock: Time): Time {
    if t == 0 then clock else t
  }

  function Prepared(m: Message, freshId: string, clock: Time): Message {
    var named := m.(
      messageId := if m.messageId == "" then freshId else m.messageId,
      status := if m.status.Unspecified? then Pending else m.status,
      createdAt := OrElse(m.createdAt, clock),
      updatedAt := OrElse(m.updatedAt, clock));
    named.(fingerprint := Some(IdentityFingerprint(named)))
  }

  function PendingIds(messages: map<string, Message>): set<string> {
    set id | id in messages && messages[id].status.Pending?
  }

  function DevicePendingIds(messages: map<string, Message>, d: Device): set<string> {
    set id | id in messages && messages[id].status.Pending? && DeviceOf(messages[id]) == d
  }

  function CapacityVerdict(messages: map<string, Message>, d: Device, capacity: QueueCapacity): Option<CapacityError> {
    var globalPending, devicePending := |PendingIds(messages)|, |DevicePendingIds(messages, d)|;
    if 0 < capacity.maxPendingGlobal <= globalPending then
      Some(CapacityError(GlobalScope, globalPending, capacity.maxPendingGlobal))
    else if 0 < capacity.maxPendingPerDevice <= devicePending then
      Some(CapacityError(DeviceScope, devicePending, capacity.maxPendingPerDevice))
    else None
  }

  datatype SaveOutcome = Created | Existing | Conflict

  datatype SaveReply = Saved(message: Message, outcome: SaveOutcome) | Rejected(error: CapacityError)

  function WithFingerprint(m: Message): Message {
    if m.fingerprint.Some? then m else m.(fingerprint := Some(IdentityFingerprint(m)))
  }

  function SaveReplyOf(st: Store, m: Message, capacity: QueueCapacity, freshId: string, clock: Time): SaveReply {
    var p := Prepared(m, freshId, clock);
    if p.messageId in st.messages then
      var existing := WithFingerprint(st.messages[p.messageId]);
      Saved(existing, if HaveSameIdentity(existing, p) then Existing else Conflict)
    else
      var verdict := if p.status.Pending? then CapacityVerdict(st.messages, DeviceOf(p), capacity) else None;
      if verdict.Some? then Rejected(verdict.value) else Saved(p, Created)
  }

  /** Whatever the outcome, the stored message is the one in the reply. */
  function SaveEffect(st: Store, m: Message, capacity: QueueCapacity, freshId: string, clock: Time): Store {
    match SaveReplyOf(st, m, capacity, freshId, clock)
    case Saved(stored, _) => st.(messages := st.messages[Prepared(m, freshId, clock).messageId := stored])
    case Rejected(_) => st
  }

  // ---- Retry selection -------------------------------------------------------------------

  predicate ClaimActive(m: Message, now: Time) {
    m.claimUntil != 0 && m.claimUntil > now
  }

  predicate DueForRetry(m: Message, now: Time, ackTimeout: Duration) {
    && !ClaimActive(m, now)
    && match m.status
       case Pending => m.nextRetryAt == 0 || m.nextRetryAt <= now
       case Sent =>
         && m.ackRequired
         && if m.nextRetryAt != 0 then m.nextRetryAt <= now
            else ackTimeout > 0 && m.sentAt != 0 && m.sentAt + ackTimeout <= now
       case _ => false
  }

  function DueSet(messages: map<string, Message>, now: Time, ackTimeout: Duration): set<Message> {
    set id | id in messages && DueForRetry(messages[id], now, ackTimeout) :: messages[id]
  }

  lemma DueUnique(messages: map<string, Message>, now: Time, ackTimeout: Duration)
    requires Keyed(messages)
    ensures UniqueIds(DueSet(messages, now, ackTimeout))
  {
  }

  /** All due messages, oldest first. */
  ghost function DueListing(messages: map<string, Message>, now: Time, ackTimeout: Duration): seq<Message>
    requires Keyed(messages)
  {
    DueUnique(messages, now, ackTimeout);
    CreatedOrder(DueSet(messages, now, ackTimeout));
    Listing(DueSet(messages, now, ackTimeout), CreatedBefore)
  }

  function CandidateBound(limit: int, candidateLimit: int): nat {
    if candidateLimit < ScanLimit(limit) then ScanLimit(limit) else candidateLimit
  }

  ghost function Candidacy(messages: map<string, Message>, now: Time, ackTimeout: Duration, limit: int,
                           candidateLimit: int)
    : seq<Message>
    requires Keyed(messages)
  {
    DueUnique(messages, now, ackTimeout);
    Window(DueSet(messages, now, ackTimeout), CandidateBound(limit, candidateLimit))
  }

  ghost function RetryChoice(messages: map<string, Message>, now: Time, ackTimeout: Duration, limit: int,
                             candidateLimit: int)
    : seq<Message>
    requires Keyed(messages)
  {
    FairSelection(Candidacy(messages, now, ackTimeout, limit, candidateLimit), ScanLimit(limit))
  }

  function Ids(s: seq<Message>): set<string> {
    set i | 0 <= i < |s| :: s[i].messageId
  }

  function LeaseOrDefault(lease: Duration): Duration {
    if lease <= 0 then 30 * SECOND else lease
  }

  function Claimed(messages: map<string, Message>, ids: set<string>, owner: string, until: Time, now: Time)
    : map<string, Message>
  {
    map id | id in messages ::
      if id in ids then ClaimedMessage(messages[id], owner, until, now) else messages[id]
  }

  function ClaimedMessage(m: Message, owner: string, until: Time, now: Time): Message {
    m.(claimOwner := owner, claimUntil := until, updatedAt := now)
  }

  ghost function ClaimEffect(st: Store, now: Time, ackTimeout: Duration, limit: int, candidateLimit: int,
                             owner: string, lease: Duration, clock: Time): Store
    requires WellFormed(st)
  {
    if owner == "" then st
    else
      var at := OrElse(now, clock);
      var chosen := RetryChoice(st.messages, at, ackTimeout, limit, candidateLimit);
      st.(messages := Claimed(st.messages, Ids(chosen), owner, at + LeaseOrDefault(lease), at))
  }

  function FlushSet(messages: map<string, Message>, d: Device, clock: Time): set<Message> {
    set id | id in messages && messages[id].status.Pending? && !ClaimActive(messages[id], clock)
          && DeviceOf(messages[id]) == d :: messages[id]
  }

  ghost function FlushListing(messages: map<string, Message>, d: Device, clock: Time): seq<Message>
    requires Keyed(messages)
  {
    CreatedOrder(FlushSet(messages, d, clock));
    Listing(FlushSet(messages, d, clock), CreatedBefore)
  }

  // ---- Delivery marks --------------------------------------------------------------------

  function SentMessage(m: Message, sessionId: string, sentAt: Time, nextRetryAt: Time, clock: Time): Message {
    if m.status.Delivered? || m.status.Discarded? then m
    else m.(sessionId := sessionId, status := Sent, attempts := m.attempts + 1, lastError := "",
            nextRetryAt := nextRetryAt, claimOwner := "", claimUntil := 0,
            sentAt := OrElse(sentAt, clock), updatedAt := clock)
  }

  function DeliveredMessage(m: Message, deliveredAt: Time): Message {
    m.(status := Delivered, lastError := "", nextRetryAt := 0, claimOwner := "", claimUntil := 0,
       deliveredAt := deliveredAt, updatedAt := deliveredAt)
  }

  function AttemptFailedMessage(m: Message, reason: string, nextRetryAt: Time, clock: Time): Message {
    if m.status.Delivered? || m.status.Discarded? then m
    else m.(status := Pending, attempts := m.attempts + 1, lastError := reason, nextRetryAt := nextRetryAt,
            claimOwner := "", claimUntil := 0, updatedAt := clock)
  }

  function RequeuedMessage(m: Message, requeuedAt: Time): Message {
    m.(status := Pending, attempts := 0, lastError := "", nextRetryAt := 0, claimOwner := "", claimUntil := 0,
       sessionId := "", sentAt := 0, deliveredAt := 0, terminalReason := "", terminalAt := 0,
       publishStatus := Unrecorded, publishAttempts := 0, nextPublishAt := 0, publishError := "", publishedAt := 0,
       updatedAt := requeuedAt)
  }

  function SentEffect(st: Store, id: string, sessionId: string, sentAt: Time, nextRetryAt: Time, clock: Time): Store {
    if id !in st.messages then st
    else st.(messages := st.messages[id := SentMessage(st.messages[id], sessionId, sentAt, nextRetryAt, clock)])
  }

  predicate Addressed(st: Store, id: string, d: Device) {
    id in st.messages && DeviceOf(st.messages[id]) == d
  }

  function DeliveredEffect(st: Store, id: string, d: Device, deliveredAt: Time, clock: Time): Store {
    if !Addressed(st, id, d) then st
    else st.(messages := st.messages[id := DeliveredMessage(st.messages[id], OrElse(deliveredAt, clock))])
  }

  function AttemptFailedEffect(st: Store, id: string, reason: string, nextRetryAt: Time, clock: Time): Store {
    if id !in st.messages then st
    else st.(messages := st.messages[id := AttemptFailedMessage(st.messages[id], reason, nextRetryAt, clock)])
  }

  datatype RequeueReply = Requeued | RequeueNotFound | RequeueRejected(error: CapacityError)

  function RequeueReplyOf(st: Store, id: string, capacity: QueueCapacity): RequeueReply {
    if id !in st.messages then RequeueNotFound
    else
      var m := st.messages[id];
      var verdict := if m.status.Pending? then None else CapacityVerdict(st.messages, DeviceOf(m), capacity);
      if verdict.Some? then RequeueRejected(verdict.value) else Requeued
  }

  function RequeueEffect(st: Store, id: string, requeuedAt: Time, capacity: QueueCapacity, clock: Time): Store {
    if RequeueReplyOf(st, id, capacity).Requeued? then
      st.(messages := st.messages[id := RequeuedMessage(st.messages[id], OrElse(requeuedAt, clock))])
    else st
  }

  // ---- Terminal transitions and the outbox ------------------------------------------------

  function Marked(m: Message, transition: TerminalTransition): Message {
    m.(terminalReason := transition.reason, terminalAt := transition.at,
       publishStatus := if transition.publish then Waiting else Disabled,
       publishAttempts := 0, nextPublishAt := 0, publishError := "", publishedAt := 0)
  }

  function NewRecord(event: TerminalEvent): TerminalRecord {
    TerminalRecord(event, Waiting, 0, 0, "", 0, "", 0)
  }

  /** The first transition into a terminal status: the message is stored together with its
      outbox record, which is created unless an earlier transition left one. */
  function Conclude(st: Store, id: string, m: Message, transition: TerminalTransition): Store {
    var marked := Marked(m, transition);
    if !transition.publish then st.(messages := st.messages[id := marked])
    else
      var event := NewTerminalEvent(marked, m.status, transition);
      var record := if event.eventId in st.events then st.events[event.eventId] else NewRecord(event);
      Store(st.messages[id := ApplyTerminalRecord(marked, record)], st.events[event.eventId := record])
  }

  function FailedMessage(m: Message, transition: TerminalTransition): Message {
    m.(status := Failed, attempts := if transition.attempted then m.attempts + 1 else m.attempts,
       lastError := transition.reason, nextRetryAt := 0, claimOwner := "", claimUntil := 0,
       updatedAt := transition.at)
  }

  function FailedEffect(st: Store, id: string, transition: TerminalTransition, clock: Time): Store {
    if id !in st.messages || st.messages[id].status.Delivered? || st.messages[id].status.Discarded? then st
    else
      var m := st.messages[id];
      var t := transition.(at := OrElse(transition.at, clock));
      var failed := FailedMessage(m, t);
      if !m.status.Failed? || m.terminalReason == "" then Conclude(st, id, failed, t)
      else st.(messages := st.messages[id := failed])
  }

  function DiscardedMessage(m: Message, reason: string, at: Time): Message {
    m.(status := Discarded, lastError := reason, nextRetryAt := 0, claimOwner := "", claimUntil := 0, updatedAt := at)
  }

  function DiscardEffect(st: Store, id: string, reason: string, transition: TerminalTransition, clock: Time): Store {
    if id !in st.messages then st
    else
      var m := st.messages[id];
      var t := transition.(at := OrElse(transition.at, clock),
                           reason := if transition.reason == "" then OPERATOR_DISCARD else transition.reason);
      var discarded := DiscardedMessage(m, reason, t.at);
      if !m.status.Discarded? || m.terminalReason == "" then Conclude(st, id, discarded, t)
      else st.(messages := st.messages[id := discarded])
  }

  predicate PublishDue(r: TerminalRecord, now: Time) {
    && (r.status.Waiting? || r.status.Retrying?)
    && (r.nextAttemptAt == 0 || r.nextAttemptAt <= now)
    && (r.claimUntil == 0 || r.claimUntil <= now)
  }

  predicate TerminalBefore(a: TerminalRecord, b: TerminalRecord) {
    || a.event.terminalAt < b.event.terminalAt
    || (a.event.terminalAt == b.event.terminalAt && StrLess(a.event.eventId, b.event.eventId))
  }

  function PublishDueSet(events: map<string, TerminalRecord>, now: Time): set<TerminalRecord> {
    set key | key in events && PublishDue(events[key], now) :: events[key]
  }

  lemma TerminalOrder(events: map<string, TerminalRecord>, now: Time)
    requires OutboxKeyed(events)
    ensures StrictOrder(TerminalBefore) && Separates(TerminalBefore, PublishDueSet(events, now))
  {
    forall a: TerminalRecord, b: TerminalRecord
      ensures TerminalBefore(a, b) ==> !TerminalBefore(b, a)
      ensures a.event.eventId == b.event.eventId || TerminalBefore(a, b) || TerminalBefore(b, a)
    {
      StrLessTotal(a.event.eventId, b.event.eventId);
    }
    forall a: TerminalRecord, b: TerminalRecord, c: TerminalRecord | TerminalBefore(a, b) && TerminalBefore(b, c)
      ensures TerminalBefore(a, c)
    {
      if a.event.terminalAt == b.event.terminalAt == c.event.terminalAt {
        StrLessTransitive(a.event.eventId, b.event.eventId, c.event.eventId);
      }
    }
  }

  ghost function PublishChoice(events: map<string, TerminalRecord>, now: Time, limit: int): seq<TerminalRecord>
    requires OutboxKeyed(events)
  {
    TerminalOrder(events, now);
    Take(Listing(PublishDueSet(events, now), TerminalBefore), if limit <= 0 then 100 else limit)
  }

  function Keys(s: seq<TerminalRecord>): set<string> {
    set i | 0 <= i < |s| :: s[i].event.eventId
  }

  ghost function ClaimTerminalEffect(st: Store, now: Time, limit: int, owner: string, lease: Duration,
                                     clock: Time): Store
    requires WellFormed(st)
  {
    var at := OrElse(now, clock);
    var keys := Keys(PublishChoice(st.events, at, limit));
    st.(events := map key | key in st.events ::
          if key in keys then st.events[key].(claimOwner := owner, claimUntil := at + LeaseOrDefault(lease))
          else st.events[key])
  }

  function PublishedRecord(r: TerminalRecord, at: Time): TerminalRecord {
    r.(status := Published, publishAttempts := r.publishAttempts + 1, nextAttemptAt := 0, lastError := "",
       publishedAt := at, claimOwner := "", claimUntil := 0)
  }

  function PublishedEffect(st: Store, id: string, status: Status, publishedAt: Time, clock: Time): Store {
    var key := EventId(id, status);
    if key !in st.events || st.events[key].status.Published? then st
    else
      var record := PublishedRecord(st.events[key], OrElse(publishedAt, clock));
      var messages :=
        if id in st.messages && st.messages[id].status == status then
          st.messages[id := st.messages[id].(publishStatus := Published, publishAttempts := record.publishAttempts,
                                             nextPublishAt := 0, publishError := "", publishedAt := record.publishedAt)]
        else st.messages;
      Store(messages, st.events[key := record])
  }

  function PublishFailedRecord(r: TerminalRecord, reason: string, next: Time): TerminalRecord {
    r.(status := Retrying, publishAttempts := r.publishAttempts + 1, nextAttemptAt := next, lastError := reason,
       claimOwner := "", claimUntil := 0)
  }

  function PublishFailedEffect(st: Store, id: string, status: Status, reason: string, next: Time): Store {
    var key := EventId(id, status);
    if key !in st.events || st.events[key].status.Published? then st
    else
      var record := PublishFailedRecord(st.events[key], reason, next);
      var messages :=
        if id in st.messages && st.messages[id].status == status then
          st.messages[id := st.messages[id].(publishStatus := Retrying, publishAttempts := record.publishAttempts,
                                             nextPublishAt := next, publishError := reason)]
        else st.messages;
      Store(messages, st.events[key := record])
  }

  // ---- Retention -------------------------------------------------------------------------

  ghost predicate HasUnpublished(events: map<string, TerminalRecord>, id: string) {
    exists key :: key in events && events[key].event.messageId == id
                  && (events[key].status.Waiting? || events[key].status.Retrying?)
  }

  ghost predicate Expired(st: Store, id: string, status: Status, before: Time) {
    && id in st.messages
    && st.messages[id].status == status
    && !HasUnpublished(st.events, id)
    && RetentionTime(st.messages[id]) != 0
    && RetentionTime(st.messages[id]) < before
  }

  predicate RetainedBefore(a: Message, b: Message) {
    || RetentionTime(a) < RetentionTime(b)
    || (RetentionTime(a) == RetentionTime(b) && StrLess(a.messageId, b.messageId))
  }

  ghost function ExpiredSet(st: Store, status: Status, before: Time): set<Message> {
    set id | id in st.messages && Expired(st, id, status, before) :: st.messages[id]
  }

  lemma RetentionOrder(messages: set<Message>)
    requires UniqueIds(messages)
    ensures StrictOrder(RetainedBefore) && Separates(RetainedBefore, messages)
  {
    forall a: Message, b: Message
      ensures RetainedBefore(a, b) ==> !RetainedBefore(b, a)
      ensures a.messageId == b.messageId || RetainedBefore(a, b) || RetainedBefore(b, a)
    {
      StrLessTotal(a.messageId, b.messageId);
    }
    forall a: Message, b: Message, c: Message | RetainedBefore(a, b) && RetainedBefore(b, c)
      ensures RetainedBefore(a, c)
    {
      if RetentionTime(a) == RetentionTime(b) == RetentionTime(c) {
        StrLessTransitive(a.messageId, b.messageId, c.messageId);
      }
    }
  }

  ghost function Victims(st: Store, status: Status, before: Time, limit: int): seq<Message>
    requires Keyed(st.messages)
  {
    if before == 0 then []
    else
      RetentionOrder(ExpiredSet(st, status, before));
      Take(Listing(ExpiredSet(st, status, before), RetainedBefore), if limit <= 0 then 1000 else limit)
  }

  function EventKeys(ids: set<string>): set<string> {
    (set id | id in ids :: EventId(id, Failed)) + (set id | id in ids :: EventId(id, Discarded))
  }

  ghost function DeleteEffect(st: Store, status: Status, before: Time, limit: int): (st': Store)
    requires WellFormed(st)
    ensures WellFormed(st')
  {
    var ids := Ids(Victims(st, status, before, limit));
    Store(st.messages - ids, st.events - EventKeys(ids))
  }

  // ---- Steps and runs --------------------------------------------------------------------

  datatype Action =
    | Save(message: Message, capacity: QueueCapacity, freshId: string, clock: Time)
    | Claim(now: Time, ackTimeout: Duration, limit: int, candidateLimit: int, owner: string, lease: Duration,
            clock: Time)
    | MarkSent(id: string, sessionId: string, sentAt: Time, nextRetryAt: Time, clock: Time)
    | MarkDelivered(id: string, device: Device, deliveredAt: Time, clock: Time)
    | MarkAttemptFailed(id: string, reason: string, nextRetryAt: Time, clock: Time)
    | MarkFailed(id: string, transition: TerminalTransition, clock: Time)
    | Requeue(id: string, requeuedAt: Time, capacity: QueueCapacity, clock: Time)
    | Discard(id: string, reason: string, transition: TerminalTransition, clock: Time)
    | ClaimTerminal(now: Time, limit: int, owner: string, lease: Duration, clock: Time)
    | MarkPublished(id: string, status: Status, publishedAt: Time, clock: Time)
    | MarkPublishFailed(id: string, status: Status, reason: string, nextRetryAt: Time)
    | DeleteExpired(status: Status, before: Time, limit: int)

  ghost function Apply(st: Store, a: Action): Store
    requires WellFormed(st)
  {
    match a
    case Save(m, capacity, freshId, clock) => SaveEffect(st, m, capacity, freshId, clock)
    case Claim(now, ackTimeout, limit, candidateLimit, owner, lease, clock) =>
      ClaimEffect(st, now, ackTimeout, limit, candidateLimit, owner, lease, clock)
    case MarkSent(id, sessionId, sentAt, next, clock) => SentEffect(st, id, sessionId, sentAt, next, clock)
    case MarkDelivered(id, device, at, clock) => DeliveredEffect(st, id, device, at, clock)
    case MarkAttemptFailed(id, reason, next, clock) => AttemptFailedEffect(st, id, reason, next, clock)
    case MarkFailed(id, transition, clock) => FailedEffect(st, id, transition, clock)
    case Requeue(id, at, capacity, clock) => RequeueEffect(st, id, at, capacity, clock)
    case Discard(id, reason, transition, clock) => DiscardEffect(st, id, reason, transition, clock)
    case ClaimTerminal(now, limit, owner, lease, clock) => ClaimTerminalEffect(st, now, limit, owner, lease, clock)
    case MarkPublished(id, status, at, clock) => PublishedEffect(st, id, status, at, clock)
    case MarkPublishFailed(id, status, reason, next) => PublishFailedEffect(st, id, status, reason, next)
    case DeleteExpired(status, before, limit) => DeleteEffect(st, status, before, limit)
  }

  lemma ConcludeWellFormed(st: Store, id: string, m: Message, transition: TerminalTransition)
    requires WellFormed(st) && m.messageId == id && Reportable(m.status)
    ensures WellFormed(Conclude(st, id, m, transition))
  {
  }

  lemma FailedWellFormed(st: Store, id: string, transition: TerminalTransition, clock: Time)
    requires WellFormed(st)
    ensures WellFormed(FailedEffect(st, id, transition, clock))
  {
    if id in st.messages {
      var t := transition.(at := OrElse(transition.at, clock));
      ConcludeWellFormed(st, id, FailedMessage(st.messages[id], t), t);
    }
  }

  lemma DiscardWellFormed(st: Store, id: string, reason: string, transition: TerminalTransition, clock: Time)
    requires WellFormed(st)
    ensures WellFormed(DiscardEffect(st, id, reason, transition, clock))
  {
    if id in st.messages {
      var t := transition.(at := OrElse(transition.at, clock),
                           reason := if transition.reason == "" then OPERATOR_DISCARD else transition.reason);
      ConcludeWellFormed(st, id, DiscardedMessage(st.messages[id], reason, t.at), t);
    }
  }

  lemma QueueWellFormed(st: Store, a: Action)
    requires WellFormed(st) && (a.Save? || a.Claim? || a.Requeue? || a.DeleteExpired?)
    ensures WellFormed(Apply(st, a))
  {
  }

  lemma DeliveryWellFormed(st: Store, a: Action)
    requires WellFormed(st) && (a.MarkSent? || a.MarkDelivered? || a.MarkAttemptFailed?)
    ensures WellFormed(Apply(st, a))
  {
  }

  lemma PublishWellFormed(st: Store, a: Action)
    requires WellFormed(st) && (a.ClaimTerminal? || a.MarkPublished? || a.MarkPublishFailed?)
    ensures WellFormed(Apply(st, a))
  {
  }

  /** Every step keeps keys and records in agreement. */
  lemma ApplyWellFormed(st: Store, a: Action)
    requires WellFormed(st)
    ensures WellFormed(Apply(st, a))
  {
    match a
    case MarkFailed(id, transition, clock) => FailedWellFormed(st, id, transition, clock);
    case Discard(id, reason, transition, clock) => DiscardWellFormed(st, id, reason, transition, clock);
    case MarkSent(_, _, _, _, _) => DeliveryWellFormed(st, a);
    case MarkDelivered(_, _, _, _) => DeliveryWellFormed(st, a);
    case MarkAttemptFailed(_, _, _, _) => DeliveryWellFormed(st, a);
    case ClaimTerminal(_, _, _, _, _) => PublishWellFormed(st, a);
    case MarkPublished(_, _, _, _) => PublishWellFormed(st, a);
    case MarkPublishFailed(_, _, _, _) => PublishWellFormed(st, a);
    case _ => QueueWellFormed(st, a);
  }

  ghost function Step(st: Store, a: Action): (st': Store)
    requires WellFormed(st)
    ensures WellFormed(st')
  {
    ApplyWellFormed(st, a);
    Apply(st, a)
  }

  ghost function Run(st: Store, actions: seq<Action>): (st': Store)
    requires WellFormed(st)
    ensures WellFormed(st')
    decreases |actions|
  {
    if actions == [] then st else Step(Run(st, actions[..|actions| - 1]), actions[|actions| - 1])
  }
}
