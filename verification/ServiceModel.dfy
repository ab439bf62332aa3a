/** The decisions of internal/downlink/service.go: which store call follows from a message, the
    clock and the outcome of a send. */
module ServiceModel {
  import opened Messages
  import opened DeliveryPolicies
  import opened StoreModel

  datatype Config = Config(
    policies: Option<PolicySet>,
    maxAttempts: int,
    ackTimeout: Duration,
    retryDelay: Duration,
    retryJitter: Duration,
    claimOwner: string,
    claimLease: Duration,
    capacity: QueueCapacity,
    fair: bool,
    candidateMultiplier: int,
    publish: bool,
    gatewayNode: string,
    terminal: TerminalPublishing)

  /** How terminal events are published: the waits after a failure and the lease on a batch. */
  datatype TerminalPublishing = TerminalPublishing(
    retryDelay: Duration,
    backoffMultiplier: real,
    maxRetryDelay: Duration,
    retryJitter: Duration,
    claimOwner: string,
    claimLease: Duration)

  /** What `NewService` and its options leave: every default is positive, every option that
      would make it otherwise is ignored. */
  predicate ValidConfig(c: Config) {
    && c.maxAttempts > 0 && c.ackTimeout > 0 && c.retryDelay > 0 && c.retryJitter >= 0 && c.claimLease > 0
    && c.terminal.retryDelay > 0 && c.terminal.backoffMultiplier >= 1.0 && c.terminal.maxRetryDelay > 0
    && c.terminal.retryJitter >= 0 && c.terminal.claimLease > 0
    && (c.policies.Some? ==> Sound(c.policies.value))
  }

  function PolicyByType(c: Config, msgId: nat): DeliveryPolicy {
    if c.policies.Some? then Resolved(c.policies.value, msgId)
    else DeliveryPolicy(DEFAULT_POLICY_NAME, c.maxAttempts, 0, c.ackTimeout, c.retryDelay, 1.0, c.retryDelay,
                        c.retryJitter)
  }

  /** The policy saved with the message, as long as it is still valid. */
  function PolicyFor(c: Config, m: Message): DeliveryPolicy {
    if m.policy.name != "" && ValidPolicy(m.policy) then m.policy else PolicyByType(c, m.msgId)
  }

  /** Replies carry the policy in force. */
  function WithPolicy(c: Config, m: Message): Message {
    m.(policy := PolicyFor(c, m))
  }

  lemma {:induction false} ResolvedSound(s: PolicySet, msgId: nat, index: nat)
    requires Sound(s) && index <= |s.rules|
    ensures ValidPolicy(ResolvedFrom(s, msgId, index))
    decreases |s.rules| - index
  {
    if index < |s.rules| {
      ResolvedSound(s, msgId, index + 1);
    }
  }

  /** Whatever was stored with a message, it is handled under a valid policy. */
  lemma PolicyForValid(c: Config, m: Message)
    requires ValidConfig(c)
    ensures ValidPolicy(PolicyFor(c, m))
  {
    if c.policies.Some? {
      ResolvedSound(c.policies.value, m.msgId, 0);
    }
  }

  predicate MaxAgeExceeded(m: Message, p: DeliveryPolicy, now: Time) {
    p.maxAge > 0 && m.createdAt != 0 && m.createdAt + p.maxAge <= now
  }

  function AckDeadline(m: Message, p: DeliveryPolicy, sentAt: Time): Time {
    if !m.ackRequired || p.ackTimeout <= 0 || sentAt == 0 then 0 else sentAt + p.ackTimeout
  }

  predicate AckTimedOut(m: Message, p: DeliveryPolicy, now: Time) {
    && m.status.Sent? && m.ackRequired
    && if m.nextRetryAt == 0 then m.sentAt != 0 && p.ackTimeout > 0 && m.sentAt + p.ackTimeout <= now
       else m.nextRetryAt <= now
  }

  function ClampJitter(jitter: Duration, max: Duration): Duration {
    if max <= 0 || jitter < 0 then 0 else if jitter > max then max else jitter
  }

  function NextRetryAt(now: Time, p: DeliveryPolicy, attempts: int, jitter: Duration): Time {
    now + RetryDelay(p, attempts) + ClampJitter(jitter, p.retryJitter)
  }

  /** When a terminal event whose publication failed is due again. */
  function NextPublishAt(c: Config, now: Time, attempts: int, jitter: Duration): Time {
    now + Backoff(c.terminal.retryDelay, c.terminal.backoffMultiplier, c.terminal.maxRetryDelay, attempts)
    + ClampJitter(jitter, c.terminal.retryJitter)
  }

  /** A failed publication is put off by no less than the initial delay (or the largest, if that
      is less) and no more than the largest delay and jitter. */
  lemma PublishPutOff(c: Config, now: Time, attempts: int, jitter: Duration)
    requires ValidConfig(c)
    ensures var t := c.terminal;
            && now + (if t.retryDelay < t.maxRetryDelay then t.retryDelay else t.maxRetryDelay)
               <= NextPublishAt(c, now, attempts, jitter)
            && NextPublishAt(c, now, attempts, jitter) <= now + t.maxRetryDelay + t.retryJitter
  {
    BackoffBetween(c.terminal.retryDelay, c.terminal.backoffMultiplier, c.terminal.maxRetryDelay, attempts);
  }

  function Transition(c: Config, reason: string, at: Time, attempted: bool): TerminalTransition {
    TerminalTransition(reason, c.gatewayNode, at, attempted, c.publish)
  }

  /** How one delivery attempt ends: with the session it went to, or with an error. */
  datatype Send = Accepted(sessionId: string) | Refused(error: string)

  /** The surroundings of one `retryMessage` call: the clock before and after the send, the
      send's outcome, the random jitter and the store's own clock. */
  datatype Env = Env(now: Time, send: Send, after: Time, jitter: Duration, clock: Time)

  /** The store calls that record how a delivery went. */
  predicate IsMark(a: Action) {
    a.MarkSent? || a.MarkAttemptFailed? || a.MarkFailed?
  }

  function MarkStep(st: Store, a: Action): Store
    requires IsMark(a)
  {
    match a
    case MarkSent(id, sessionId, sentAt, next, clock) => SentEffect(st, id, sessionId, sentAt, next, clock)
    case MarkAttemptFailed(id, reason, next, clock) => AttemptFailedEffect(st, id, reason, next, clock)
    case MarkFailed(id, transition, clock) => FailedEffect(st, id, transition, clock)
  }

  lemma MarkIsStep(st: Store, a: Action)
    requires WellFormed(st) && IsMark(a)
    ensures Step(st, a) == MarkStep(st, a)
  {
  }

  /** The decision before any send: give the message up, leave it, or go on. */
  datatype Verdict = GiveUp(action: Action) | Leave | Attempt

  function BeforeSend(c: Config, m: Message, e: Env): Verdict {
    var p := PolicyFor(c, m);
    if MaxAgeExceeded(m, p, e.now) then
      GiveUp(MarkFailed(m.messageId, Transition(c, MAX_AGE_EXCEEDED, e.now, false), e.clock))
    else if m.attempts >= p.maxAttempts then
      GiveUp(MarkFailed(m.messageId, Transition(c, MAX_ATTEMPTS_EXCEEDED, e.now, false), e.clock))
    else if m.status.Sent? && !AckTimedOut(m, p, e.now) then Leave
    else Attempt
  }

  /** What is recorded after the send. */
  function AfterSend(c: Config, m: Message, e: Env): (a: Action)
    ensures IsMark(a) && a.id == m.messageId
  {
    var p := PolicyFor(c, m);
    match e.send
    case Accepted(sessionId) => MarkSent(m.messageId, sessionId, e.after, AckDeadline(m, p, e.after), e.clock)
    case Refused(error) =>
      if MaxAgeExceeded(m, p, e.after) then
        MarkFailed(m.messageId, Transition(c, MAX_AGE_EXCEEDED, e.after, true), e.clock)
      else if m.attempts + 1 >= p.maxAttempts then
        MarkFailed(m.messageId, Transition(c, MAX_ATTEMPTS_EXCEEDED, e.after, true), e.clock)
      else
        MarkAttemptFailed(m.messageId, error, NextRetryAt(e.after, p, m.attempts, e.jitter), e.clock)
  }

  /** The one store call that handling a message leads to, if any. */
  function RetryAction(c: Config, m: Message, e: Env): (r: Option<Action>)
    ensures r.Some? ==> IsMark(r.value) && r.value.id == m.messageId
  {
    match BeforeSend(c, m, e)
    case GiveUp(action) => Some(action)
    case Leave => None
    case Attempt => Some(AfterSend(c, m, e))
  }

  /** The status `retryMessage` reports to its caller. */
  function RetryStatus(c: Config, m: Message, e: Env): Status {
    match RetryAction(c, m, e)
    case None => Sent
    case Some(MarkSent(_, _, _, _, _)) => Sent
    case Some(MarkFailed(_, _, _)) => Failed
    case _ => Pending
  }

  // ---- Submission ------------------------------------------------------------------------

  datatype PushRequest = PushRequest(messageId: string, clientId: string, deviceId: string, msgId: nat,
                                     body: string, ackRequired: bool, traceId: string)

  /** The message a push request becomes, with its policy and the lease of its first attempt. */
  function Submission(c: Config, req: PushRequest, freshId: string, now: Time): Message {
    var id := if req.messageId == "" then freshId else req.messageId;
    var leased := c.claimOwner != "" && c.claimLease > 0;
    Message(id, req.clientId, req.deviceId, req.msgId, req.body, None, req.ackRequired, req.traceId, "",
            PolicyByType(c, req.msgId), Pending, 0, 0, "", "", 0, Unrecorded, 0, 0, "", 0,
            if leased then c.claimOwner else "", if leased then now + c.claimLease else 0, now, now, 0, 0)
  }

  /** What is recorded after the first send; there is no attempt limit to reach yet. */
  function AfterFirstSend(m: Message, e: Env): Action {
    match e.send
    case Accepted(sessionId) => MarkSent(m.messageId, sessionId, e.after, AckDeadline(m, m.policy, e.after), e.clock)
    case Refused(error) =>
      MarkAttemptFailed(m.messageId, error, NextRetryAt(e.after, m.policy, m.attempts, e.jitter), e.clock)
  }

  // ---- Progress and termination ----------------------------------------------------------

  predicate InQueue(m: Message) {
    m.status.Pending? || m.status.Sent?
  }

  /** Handling a message that a scan selected, with no one else touching it. */
  ghost function Handle(c: Config, st: Store, id: string, e: Env): Store
    requires WellFormed(st) && id in st.messages
    ensures WellFormed(Handle(c, st, id, e))
  {
    match RetryAction(c, st.messages[id], e)
    case None => st
    case Some(a) => Step(st, a)
  }

  predicate CountsAttempt(a: Action) {
    a.MarkFailed? ==> a.transition.attempted
  }

  /** What the three delivery marks do to a message that is not yet final. */
  lemma MarkOutcome(st: Store, a: Action)
    requires WellFormed(st) && IsMark(a) && a.id in st.messages
    requires !st.messages[a.id].status.Delivered? && !st.messages[a.id].status.Discarded?
    ensures a.id in Step(st, a).messages
    ensures var m, m' := st.messages[a.id], Step(st, a).messages[a.id];
            && m'.status == (if a.MarkSent? then Sent else if a.MarkFailed? then Failed else Pending)
            && m'.attempts == m.attempts + (if CountsAttempt(a) then 1 else 0)
            && m'.policy == m.policy && m'.msgId == m.msgId
  {
    if a.MarkFailed? {
      FailedOutcome(st, a.id, a.transition, a.clock);
    }
  }

  lemma FailedOutcome(st: Store, id: string, transition: TerminalTransition, clock: Time)
    requires WellFormed(st) && id in st.messages
    requires !st.messages[id].status.Delivered? && !st.messages[id].status.Discarded?
    ensures var m, m' := st.messages[id], FailedEffect(st, id, transition, clock).messages[id];
            && m'.status.Failed?
            && m'.attempts == m.attempts + (if transition.attempted then 1 else 0)
            && m'.policy == m.policy && m'.msgId == m.msgId
  {
  }

  /** A selected message is left alone exactly when it waits for an acknowledgement, carries
      no deadline of its own, and the policy's timeout has not run out. */
  lemma ScanMakesProgressExactly(c: Config, m: Message, e: Env, scanned: Time)
    requires ValidConfig(c) && DueForRetry(m, scanned, c.ackTimeout) && scanned <= e.now
    ensures RetryAction(c, m, e).None? <==>
              var p := PolicyFor(c, m);
              && m.status.Sent? && m.nextRetryAt == 0 && m.sentAt + p.ackTimeout > e.now
              && !MaxAgeExceeded(m, p, e.now) && m.attempts < p.maxAttempts
  {
    PolicyForValid(c, m);
  }

  /** Each handling of a selected message leaves the store as it is, uses up one of the policy's
      attempts, or ends in failure. */
  lemma HandleProgress(c: Config, st: Store, id: string, e: Env, scanned: Time)
    requires ValidConfig(c) && WellFormed(st) && id in st.messages
    requires DueForRetry(st.messages[id], scanned, c.ackTimeout) && scanned <= e.now
    ensures var m, st' := st.messages[id], Handle(c, st, id, e);
            if RetryAction(c, m, e).None? then st' == st
            else
              && id in st'.messages
              && var m' := st'.messages[id];
                 && PolicyFor(c, m') == PolicyFor(c, m)
                 && (m'.status.Failed? || (m'.attempts == m.attempts + 1 && InQueue(m')))
                 && (m'.attempts <= m.attempts || m.attempts < PolicyFor(c, m).maxAttempts)
  {
    var action := RetryAction(c, st.messages[id], e);
    if action.Some? {
      MarkOutcome(st, action.value);
    }
  }

  /** The scan at time `scanned` selects the message and it is handled under `e`. */
  ghost predicate Selected(c: Config, st: Store, id: string, scanned: Time, e: Env) {
    id in st.messages && DueForRetry(st.messages[id], scanned, c.ackTimeout) && scanned <= e.now
  }

  /** `scans[k]` and `envs[k]` belong to the k-th scan, and each of them selects the message. */
  ghost predicate AllSelected(c: Config, st: Store, id: string, scans: seq<Time>, envs: seq<Env>)
    requires WellFormed(st) && |scans| == |envs|
    decreases |envs|
  {
    || envs == []
    || (&& Selected(c, st, id, scans[0], envs[0])
        && AllSelected(c, Handle(c, st, id, envs[0]), id, scans[1..], envs[1..]))
  }

  /** How many of the scans do something, that is, do not find the message waiting for an
      acknowledgement inside its policy's timeout. */
  ghost function Acting(c: Config, st: Store, id: string, scans: seq<Time>, envs: seq<Env>): nat
    requires WellFormed(st) && |scans| == |envs| && AllSelected(c, st, id, scans, envs)
    decreases |envs|
  {
    if envs == [] then 0
    else
      (if RetryAction(c, st.messages[id], envs[0]).Some? then 1 else 0)
      + Acting(c, Handle(c, st, id, envs[0]), id, scans[1..], envs[1..])
  }

  /** What is left of a message's attempts under its policy. */
  function Left(c: Config, m: Message): nat {
    if m.attempts < PolicyFor(c, m).maxAttempts then PolicyFor(c, m).maxAttempts - m.attempts else 0
  }

  /** Whatever the sends do, no more than the attempts left and one scan more do anything about the
      same message before it is acknowledged or requeued. */
  lemma {:induction false} ScansBounded(c: Config, st: Store, id: string, scans: seq<Time>, envs: seq<Env>)
    requires ValidConfig(c) && WellFormed(st) && |scans| == |envs| && id in st.messages
    requires AllSelected(c, st, id, scans, envs)
    ensures Acting(c, st, id, scans, envs) <= Left(c, st.messages[id]) + 1
    decreases |envs|
  {
    if envs != [] {
      var st' := Handle(c, st, id, envs[0]);
      HandleProgress(c, st, id, envs[0], scans[0]);
      ScansBounded(c, st', id, scans[1..], envs[1..]);
    }
  }

  /** At each of these scans a message that waits for an acknowledgement carries its own deadline. */
  ghost predicate AllTimed(c: Config, st: Store, id: string, envs: seq<Env>)
    requires WellFormed(st)
    decreases |envs|
  {
    envs == [] || (&& id in st.messages && (st.messages[id].status.Sent? ==> st.messages[id].nextRetryAt != 0)
                   && AllTimed(c, Handle(c, st, id, envs[0]), id, envs[1..]))
  }

  /** Then every scan does something, so that there are no more scans at all. */
  lemma {:induction false} TimedScansBounded(c: Config, st: Store, id: string, scans: seq<Time>, envs: seq<Env>)
    requires ValidConfig(c) && WellFormed(st) && |scans| == |envs| && id in st.messages
    requires AllSelected(c, st, id, scans, envs) && AllTimed(c, st, id, envs)
    ensures |envs| == Acting(c, st, id, scans, envs) <= Left(c, st.messages[id]) + 1
    decreases |envs|
  {
    ScansBounded(c, st, id, scans, envs);
    if envs != [] {
      ScanMakesProgressExactly(c, st.messages[id], envs[0], scans[0]);
      HandleProgress(c, st, id, envs[0], scans[0]);
      TimedScansBounded(c, Handle(c, st, id, envs[0]), id, scans[1..], envs[1..]);
    }
  }

  predicate AllRefused(envs: seq<Env>) {
    forall k :: 0 <= k < |envs| ==> envs[k].send.Refused?
  }

  /** The message after the scans that still find it in the queue. */
  ghost function HandleWhileQueued(c: Config, st: Store, id: string, envs: seq<Env>): Store
    requires WellFormed(st) && id in st.messages
    decreases |envs|
  {
    if envs == [] || !InQueue(st.messages[id]) then st
    else
      var st' := Handle(c, st, id, envs[0]);
      HandleKeeps(c, st, id, envs[0]);
      HandleWhileQueued(c, st', id, envs[1..])
  }

  lemma HandleKeeps(c: Config, st: Store, id: string, e: Env)
    requires WellFormed(st) && id in st.messages
    ensures id in Handle(c, st, id, e).messages
  {
    var action := RetryAction(c, st.messages[id], e);
    if action.Some? {
      MarkIsStep(st, action.value);
      MarkKeeps(st, action.value, id);
    }
  }

  lemma MarkKeeps(st: Store, a: Action, id: string)
    requires IsMark(a) && id in st.messages
    ensures id in MarkStep(st, a).messages
  {
  }

  /** A message whose sends always fail is failed after at most maxAttempts scans, counted from the
      first that does something about it. */
  lemma {:induction false} FailingSendsEnd(c: Config, st: Store, id: string, envs: seq<Env>)
    requires ValidConfig(c) && WellFormed(st) && id in st.messages && InQueue(st.messages[id])
    requires AllRefused(envs) && 0 <= st.messages[id].attempts
    requires |envs| >= PolicyFor(c, st.messages[id]).maxAttempts
    requires envs != [] ==> RetryAction(c, st.messages[id], envs[0]).Some?
    ensures id in HandleWhileQueued(c, st, id, envs).messages
    ensures HandleWhileQueued(c, st, id, envs).messages[id].status.Failed?
    decreases |envs|
  {
    PolicyForValid(c, st.messages[id]);
    FailingSendsEndWithin(c, st, id, envs);
  }

  lemma {:induction false} FailingSendsEndWithin(c: Config, st: Store, id: string, envs: seq<Env>)
    requires ValidConfig(c) && WellFormed(st) && id in st.messages && InQueue(st.messages[id])
    requires AllRefused(envs) && envs != [] && RetryAction(c, st.messages[id], envs[0]).Some?
    requires |envs| >= PolicyFor(c, st.messages[id]).maxAttempts - st.messages[id].attempts
    ensures id in HandleWhileQueued(c, st, id, envs).messages
    ensures HandleWhileQueued(c, st, id, envs).messages[id].status.Failed?
    decreases |envs|
  {
    RefusedHandle(c, st, id, envs[0]);
    var st' := Handle(c, st, id, envs[0]);
    if !st'.messages[id].status.Failed? {
      FailingSendsEndWithin(c, st', id, envs[1..]);
    }
  }

  lemma RefusedHandle(c: Config, st: Store, id: string, e: Env)
    requires ValidConfig(c) && WellFormed(st) && id in st.messages && InQueue(st.messages[id])
    requires e.send.Refused? && RetryAction(c, st.messages[id], e).Some?
    ensures var m, st' := st.messages[id], Handle(c, st, id, e);
            && id in st'.messages
            && var m' := st'.messages[id];
               || m'.status.Failed?
               || (&& m'.status.Pending? && m'.attempts == m.attempts + 1
                   && PolicyFor(c, m') == PolicyFor(c, m) && m'.attempts < PolicyFor(c, m).maxAttempts)
  {
    MarkOutcome(st, RetryAction(c, st.messages[id], e).value);
  }
}
