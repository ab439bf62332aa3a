/** The records of the reliable downlink: messages, delivery policies, terminal outbox records. */
module Messages {

  /** Instants in nanoseconds; 0 is Go's zero `time.Time`. */
  type Time = int
  type Duration = int

  datatype Option<+T> = None | Some(value: T)

  const SECOND: Duration := 1_000_000_000

  /** The largest 64-bit integer. */
  const MAX_INT64: int := 0x7fff_ffff_ffff_ffff

  /** `sdkbackend.MessageStatus`; `Unspecified` is the empty string. */
  datatype Status = Unspecified | Pending | Sent | Delivered | Failed | Discarded

  function StatusName(status: Status): string {
    match status
    case Unspecified => ""
    case Pending => "pending"
    case Sent => "sent"
    case Delivered => "delivered"
    case Failed => "failed"
    case Discarded => "discarded"
  }

  predicate Terminal(status: Status) {
    status.Delivered? || status.Failed? || status.Discarded?
  }

  /** `TerminalPublicationStatus`; `Unrecorded` is the empty string. */
  datatype Publication = Unrecorded | Disabled | Waiting | Retrying | Published

  /** SHA-256 without collisions: two digests are equal only for equal inputs.  A message
      identity hashes a byte string that ends in the fixed-size digest of the body. */
  datatype Digest =
    | OfBytes(bytes: string)
    | OfIdentity(prefix: string, body: Digest)

  datatype DeliveryPolicy = DeliveryPolicy(
    name: string,
    maxAttempts: int,
    maxAge: Duration,
    ackTimeout: Duration,
    initialRetryDelay: Duration,
    backoffMultiplier: real,
    maxRetryDelay: Duration,
    retryJitter: Duration)

  datatype Message = Message(
    messageId: string,
    clientId: string,
    deviceId: string,
    msgId: nat,
    body: string,
    fingerprint: Option<Digest>,
    ackRequired: bool,
    traceId: string,
    sessionId: string,
    policy: DeliveryPolicy,
    status: Status,
    attempts: int,
    nextRetryAt: Time,
    lastError: string,
    terminalReason: string,
    terminalAt: Time,
    publishStatus: Publication,
    publishAttempts: int,
    nextPublishAt: Time,
    publishError: string,
    publishedAt: Time,
    claimOwner: string,
    claimUntil: Time,
    createdAt: Time,
    updatedAt: Time,
    sentAt: Time,
    deliveredAt: Time)

  datatype TerminalEvent = TerminalEvent(
    eventId: string,
    messageId: string,
    clientId: string,
    deviceId: string,
    msgId: nat,
    traceId: string,
    terminalStatus: Status,
    terminalReason: string,
    policyName: string,
    attempts: int,
    messageCreated: Time,
    terminalAt: Time,
    gatewayNode: string)

  datatype TerminalRecord = TerminalRecord(
    event: TerminalEvent,
    status: Publication,
    publishAttempts: int,
    nextAttemptAt: Time,
    lastError: string,
    publishedAt: Time,
    claimOwner: string,
    claimUntil: Time)

  datatype TerminalTransition = TerminalTransition(
    reason: string,
    gatewayNode: string,
    at: Time,
    attempted: bool,
    publish: bool)

  const OPERATOR_DISCARD := "operator_discarded"
  const MAX_ATTEMPTS_EXCEEDED := "max_attempts_exceeded"
  const MAX_AGE_EXCEEDED := "max_age_exceeded"
  const DEFAULT_POLICY_NAME := "default"

  function EventId(messageId: string, status: Status): string {
    messageId + ":" + StatusName(status)
  }

  /** No status name holds a colon, so the one after the message ID is the last in the key. */
  lemma LastColon(messageId: string, status: Status)
    ensures var key := EventId(messageId, status);
            && key[|messageId|] == ':'
            && (forall i :: |messageId| < i < |key| ==> key[i] != ':')
            && key[..|messageId|] == messageId
            && key[|messageId| + 1..] == StatusName(status)
  {
    var key, name := EventId(messageId, status), StatusName(status);
    assert forall i :: 0 <= i < |name| ==> name[i] != ':';
    assert forall i :: |messageId| < i < |key| ==> key[i] == name[i - |messageId| - 1];
  }

  /** The event key determines message and status, even for IDs that contain a colon. */
  lemma EventIdInjective(a: string, s: Status, b: string, t: Status)
    requires EventId(a, s) == EventId(b, t)
    ensures a == b && s == t
  {
    LastColon(a, s);
    LastColon(b, t);
  }

  function NewTerminalEvent(m: Message, status: Status, transition: TerminalTransition): TerminalEvent {
    TerminalEvent(
      EventId(m.messageId, status), m.messageId, m.clientId, m.deviceId, m.msgId, m.traceId,
      status, transition.reason,
      if m.policy.name == "" then DEFAULT_POLICY_NAME else m.policy.name,
      m.attempts, m.createdAt, transition.at, transition.gatewayNode)
  }

  /** What an outbox record and its message must agree on. */
  predicate Mirrors(m: Message, r: TerminalRecord) {
    && m.publishStatus == r.status
    && m.publishAttempts == r.publishAttempts
    && m.nextPublishAt == r.nextAttemptAt
    && m.publishError == r.lastError
    && m.publishedAt == r.publishedAt
  }

  function ApplyTerminalRecord(m: Message, r: TerminalRecord): (m': Message)
    ensures Mirrors(m', r)
    ensures SameExceptPublication(m, m')
  {
    m.(publishStatus := r.status,
       publishAttempts := r.publishAttempts,
       nextPublishAt := r.nextAttemptAt,
       publishError := r.lastError,
       publishedAt := r.publishedAt)
  }

  predicate SameExceptPublication(m: Message, m': Message) {
    m == m'.(publishStatus := m.publishStatus,
             publishAttempts := m.publishAttempts,
             nextPublishAt := m.nextPublishAt,
             publishError := m.publishError,
             publishedAt := m.publishedAt)
  }

  function RetentionTime(m: Message): Time {
    if m.updatedAt != 0 then m.updatedAt else m.createdAt
  }

  datatype QueueCapacity = QueueCapacity(maxPendingGlobal: int, maxPendingPerDevice: int) {
    predicate Enabled() { maxPendingGlobal > 0 || maxPendingPerDevice > 0 }
  }

  datatype CapacityScope = GlobalScope | DeviceScope

  datatype CapacityError = CapacityError(scope: CapacityScope, pending: int, limit: int)
}
