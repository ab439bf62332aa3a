/** internal/downlink/service.go: the calls that drive the store.  Clock readings, send outcomes,
    jitter and publisher answers are parameters. */
module Services {
  import opened Messages
  import opened Fairness
  import opened StoreModel
  import opened MemoryStores
  import opened Races
  import opened ServiceModel
  import opened Batches

  datatype PushReply =
    | Queued(id: string)
    | SentTo(id: string, sessionId: string)
    | AlreadyKnown(message: Message)
    | IdConflict(id: string)
    | OverCapacity(error: CapacityError)
    | PushFailed

  /** The store calls of one push. */
  ghost function PushActions(c: Config, st: Store, req: PushRequest, freshId: string, now: Time, e: Env): seq<Action> {
    var m := Submission(c, req, freshId, now);
    var reply := SaveReplyOf(st, m, c.capacity, freshId, e.clock);
    var save := Save(m, c.capacity, freshId, e.clock);
    if reply.Saved? && reply.outcome.Created? then [save, AfterFirstSend(reply.message, e)] else [save]
  }

  function FirstReply(m: Message, e: Env): PushReply {
    match e.send
    case Accepted(sessionId) => SentTo(m.messageId, sessionId)
    case Refused(_) => Queued(m.messageId)
  }

  /** What the caller is told: the outcome of the save, and for a new message that of its send. */
  function PushReplyOf(saved: SaveReply, e: Env): PushReply {
    match saved
    case Rejected(error) => OverCapacity(error)
    case Saved(m, Created) => FirstReply(m, e)
    case Saved(m, Existing) => AlreadyKnown(m)
    case Saved(m, Conflict) => IdConflict(m.messageId)
  }

  /** The counts of a batch, and for a scan how it selected. */
  datatype RetryResult = RetryResult(scanned: nat, sent: nat, queued: nat, failed: nat,
                                     mode: Option<Mode>, selectedDevices: nat, maxPerDevice: nat)

  /** Every message counted once, under the status its handling reported. */
  ghost predicate Tally(r: RetryResult, c: Config, messages: seq<Message>, surroundings: nat -> Env, n: nat)
    requires n <= |messages|
  {
    && r.sent + r.queued + r.failed == n
    && r.sent == CountStatus(c, messages, surroundings, n, Sent)
    && r.failed == CountStatus(c, messages, surroundings, n, Failed)
  }

  function Counted(r: RetryResult, status: Status): RetryResult {
    match status
    case Sent => r.(sent := r.sent + 1)
    case Failed => r.(failed := r.failed + 1)
    case _ => r.(queued := r.queued + 1)
  }

  lemma TallyNext(r: RetryResult, c: Config, messages: seq<Message>, surroundings: nat -> Env, n: nat)
    requires n < |messages| && Tally(r, c, messages, surroundings, n)
    ensures Tally(Counted(r, RetryStatus(c, messages[n], surroundings(n))), c, messages, surroundings, n + 1)
  {
  }

  /** A batch of which the first messages were handled, and then ended by a missing one if not `ok`. */
  ghost predicate Worked(c: Config, st: Store, messages: seq<Message>, surroundings: nat -> Env, st': Store,
                         r: RetryResult, ok: bool)
  {
    var n := r.sent + r.queued + r.failed;
    && n <= |messages| && r.scanned == (if ok then n else n + 1)
    && (if ok then n == |messages| else n < |messages| && Vanished(c, st', messages[n], surroundings(n)))
    && st' == Handled(c, st, messages, surroundings, n)
    && Tally(r, c, messages, surroundings, n)
  }

  lemma EndsMissing(c: Config, start: Store, messages: seq<Message>, surroundings: nat -> Env, n: nat, st: Store,
                    r: RetryResult)
    requires n < |messages| && st == Handled(c, start, messages, surroundings, n)
             && Vanished(c, st, messages[n], surroundings(n))
    requires Tally(r, c, messages, surroundings, n) && r.scanned == n + 1
    ensures Worked(c, start, messages, surroundings, Taken(st, RetryAction(c, messages[n], surroundings(n))), r, false)
    ensures messages[n].messageId !in start.messages
  {
    MissingUnchanged(c, st, messages[n], surroundings(n));
    VanishedBefore(c, start, messages, surroundings, n, st);
  }

  /** What a scan selects: its choice, as stored after the claim, with the summary of it. */
  ghost predicate Scanned(c: Config, st: Store, now: Time, limit: int, clock: Time, selection: RetrySelection)
    requires WellFormed(st) && ScanRange(c, limit)
  {
    && AreCurrent(selection.messages, Choice(c, st, OrElse(now, clock), limit),
                  Run(st, ScanCalls(c, limit, now, clock)).messages)
    && selection.mode == (if c.fair then Fair else Fifo) && Summarises(selection)
  }

  datatype FlushReply = Flushed(result: RetryResult) | NoClient | NoDevice

  datatype OperatorReply =
    | Updated(message: Message)
    | OperatorNotFound
    | InvalidTransition
    | MissingId
    | CapacityRefused(error: CapacityError)

  /** An operator cannot bring it back. */
  predicate Closed(status: Status) { status.Delivered? || status.Discarded? }

  const ACK_DELIVERED := "delivered"

  datatype AckReply =
    | Acknowledged(message: Message)
    | AckNoClient
    | AckNoDevice
    | AckNoMessage
    | AckInvalidCode
    | AckNotFound

  /** The refusals of an acknowledgement, in the order in which they are checked. */
  function AckRefusal(st: Store, d: Device, id: string, code: string): Option<AckReply> {
    if d.clientId == "" then Some(AckNoClient)
    else if d.deviceId == "" then Some(AckNoDevice)
    else if id == "" then Some(AckNoMessage)
    else if code != ACK_DELIVERED then Some(AckInvalidCode)
    else if !Addressed(st, id, d) then Some(AckNotFound)
    else None
  }

  class Service {
    const config: Config
    const store: MemoryStore

    constructor (config: Config, store: MemoryStore)
      requires ValidConfig(config) && store.Valid()
      ensures Valid() && this.config == config && this.store == store
    {
      this.config := config;
      this.store := store;
    }

    ghost predicate Valid()
      reads store
    {
      store.Valid() && ValidConfig(config)
    }

    // ---- Push ----------------------------------------------------------------------------

    /** A push saves first and sends only what it created, so a replay is never sent twice. */
    method PushReliable(req: PushRequest, freshId: string, now: Time, e: Env) returns (reply: PushReply)
      requires Valid()
      modifies store
      ensures Valid()
      ensures store.State() == Run(old(store.State()), PushActions(config, old(store.State()), req, freshId, now, e))
      ensures reply == PushReplyOf(SaveReplyOf(old(store.State()), Submission(config, req, freshId, now),
                                               config.capacity, freshId, e.clock), e)
    {
      ghost var before := store.State();
      var message := Submission(config, req, freshId, now);
      var saved := store.SaveWithCapacity(message, config.capacity, freshId, e.clock);
      if saved.Saved? && saved.outcome.Created? {
        reply := SendFirst(saved.message, e);
        RunTwo(before, Save(message, config.capacity, freshId, e.clock), AfterFirstSend(saved.message, e));
        return;
      }
      RunOne(before, Save(message, config.capacity, freshId, e.clock));
      match saved {
        case Rejected(error) => reply := OverCapacity(error);
        case Saved(stored, outcome) =>
          reply := if outcome.Existing? then AlreadyKnown(stored) else IdConflict(stored.messageId);
      }
    }

    /** The first delivery attempt of a message just created. */
    method SendFirst(message: Message, e: Env) returns (reply: PushReply)
      requires Valid() && message.messageId in store.messages
      modifies store
      ensures Valid() && store.State() == Step(old(store.State()), AfterFirstSend(message, e))
      ensures reply == FirstReply(message, e)
    {
      match e.send {
        case Refused(error) =>
          var mark := store.MarkAttemptFailed(message.messageId, error,
                                              NextRetryAt(e.after, message.policy, message.attempts, e.jitter),
                                              e.clock);
          reply := if mark.Done? then Queued(message.messageId) else PushFailed;
        case Accepted(sessionId) =>
          var mark := store.MarkSent(message.messageId, sessionId, e.after,
                                     AckDeadline(message, message.policy, e.after), e.clock);
          reply := if mark.Done? then SentTo(message.messageId, sessionId) else PushFailed;
      }
    }

    // ---- Retry ---------------------------------------------------------------------------

    /** The store call follows the decision; a message that has been cleaned up meanwhile is an error. */
    method RetryMessage(message: Message, e: Env) returns (status: Option<Status>)
      requires Valid()
      modifies store
      ensures Valid()
      ensures var action := RetryAction(config, message, e);
              && store.State() == Taken(old(store.State()), action)
              && status == (if action.Some? && message.messageId !in old(store.messages) then None
                            else Some(RetryStatus(config, message, e)))
    {
      var policy := PolicyFor(config, message);
      if MaxAgeExceeded(message, policy, e.now) {
        var mark := store.MarkFailed(message.messageId, Transition(config, MAX_AGE_EXCEEDED, e.now, false), e.clock);
        return if mark.Done? then Some(Failed) else None;
      }
      if message.attempts >= policy.maxAttempts {
        var mark := store.MarkFailed(message.messageId, Transition(config, MAX_ATTEMPTS_EXCEEDED, e.now, false),
                                     e.clock);
        return if mark.Done? then Some(Failed) else None;
      }
      if message.status.Sent? && !AckTimedOut(message, policy, e.now) {
        return Some(Sent);
      }
      status := RecordSend(message, policy, e);
    }

    method RecordSend(message: Message, policy: DeliveryPolicy, e: Env) returns (status: Option<Status>)
      requires Valid() && policy == PolicyFor(config, message)
      modifies store
      ensures Valid() && store.State() == MarkStep(old(store.State()), AfterSend(config, message, e))
      ensures status == if message.messageId !in old(store.messages) then None
                        else Some(match AfterSend(config, message, e)
                                  case MarkSent(_, _, _, _, _) => Sent
                                  case MarkFailed(_, _, _) => Failed
                                  case _ => Pending)
    {
      if e.send.Refused? {
        if MaxAgeExceeded(message, policy, e.after) {
          var mark := store.MarkFailed(message.messageId, Transition(config, MAX_AGE_EXCEEDED, e.after, true), e.clock);
          return if mark.Done? then Some(Failed) else None;
        }
        if message.attempts + 1 >= policy.maxAttempts {
          var mark := store.MarkFailed(message.messageId, Transition(config, MAX_ATTEMPTS_EXCEEDED, e.after, true),
                                       e.clock);
          return if mark.Done? then Some(Failed) else None;
        }
        var mark := store.MarkAttemptFailed(message.messageId, e.send.error,
                                            NextRetryAt(e.after, policy, message.attempts, e.jitter), e.clock);
        return if mark.Done? then Some(Pending) else None;
      }
      var mark := store.MarkSent(message.messageId, e.send.sessionId, e.after, AckDeadline(message, policy, e.after),
                                 e.clock);
      status := if mark.Done? then Some(Sent) else None;
    }

    /** Every message of a batch is handled once, in order, and counted once; a store error ends
        the batch with the work done so far. */
    method RetryMessages(messages: seq<Message>, surroundings: nat -> Env) returns (result: RetryResult, ok: bool)
      requires Valid()
      modifies store
      ensures Valid()
      ensures Worked(config, old(store.State()), messages, surroundings, store.State(), result, ok)
      ensures result.mode.None? && result.selectedDevices == 0 == result.maxPerDevice
      ensures !ok ==> 0 < result.scanned <= |messages| && messages[result.scanned - 1].messageId !in old(store.messages)
    {
      result, ok := RetryResult(0, 0, 0, 0, None, 0, 0), true;
      ghost var start := store.State();
      for index := 0 to |messages|
        invariant Valid()
        invariant result.mode.None? && result.selectedDevices == 0 == result.maxPerDevice && result.scanned == index
        invariant store.State() == Handled(config, start, messages, surroundings, index)
        invariant Tally(result, config, messages, surroundings, index)
      {
        result := result.(scanned := result.scanned + 1);
        ghost var before := store.State();
        var status := RetryMessage(messages[index], surroundings(index));
        if status.None? {
          EndsMissing(config, start, messages, surroundings, index, before, result);
          return result, false;
        }
        TallyNext(result, config, messages, surroundings, index);
        match status.value {
          case Sent => result := result.(sent := result.sent + 1);
          case Failed => result := result.(failed := result.failed + 1);
          case _ => result := result.(queued := result.queued + 1);
        }
      }
    }

    /** With nobody else at work, a batch of stored messages is handled to its end. */
    method RetryPresent(messages: seq<Message>, surroundings: nat -> Env) returns (result: RetryResult)
      requires Valid() && AllPresent(store.State(), messages)
      modifies store
      ensures Valid() && Worked(config, old(store.State()), messages, surroundings, store.State(), result, true)
      ensures result.mode.None? && result.selectedDevices == 0 == result.maxPerDevice
    {
      var ok;
      result, ok := RetryMessages(messages, surroundings);
    }

    /** Selects by the configured mode: a fair claim, a fair listing, or the oldest due.  The
        memory store has no claim without fairness, so that mode only lists. */
    method ListRetryMessages(now: Time, limit: int, clock: Time) returns (selection: RetrySelection)
      requires Valid() && ScanRange(config, limit)
      modifies store
      ensures Valid() && store.State() == Run(old(store.State()), ScanCalls(config, limit, now, clock))
      ensures Scanned(config, old(store.State()), now, limit, clock, selection)
      ensures AllPresent(store.State(), selection.messages)
    {
      if config.fair {
        if config.claimOwner != "" {
          selection := ClaimFair(now, limit, clock);
          return;
        }
        ChosenAreStored(store.messages, OrElse(now, clock), config.ackTimeout, limit, ScanWindow(config, limit));
        selection := store.ListDueRetryFair(now, config.ackTimeout, limit, ScanWindow(config, limit), clock);
        return;
      }
      Batches.DueAreStored(store.messages, OrElse(now, clock), config.ackTimeout, limit);
      var messages := store.ListDueRetry(now, config.ackTimeout, limit, clock);
      selection := RetrySelectionFromMessages(messages, Fifo);
    }

    method ClaimFair(now: Time, limit: int, clock: Time) returns (selection: RetrySelection)
      requires Valid() && ScanRange(config, limit) && config.fair && config.claimOwner != ""
      modifies store
      ensures Valid() && store.State() == Run(old(store.State()), ScanCalls(config, limit, now, clock))
      ensures Scanned(config, old(store.State()), now, limit, clock, selection)
      ensures AllPresent(store.State(), selection.messages)
    {
      RunOne(store.State(), ScanCalls(config, limit, now, clock)[0]);
      selection := store.ClaimDueRetryFair(now, config.ackTimeout, limit, ScanWindow(config, limit),
                                           config.claimOwner, config.claimLease, clock);
    }

    /** What a scan selects is handled, each message once and in order, and counted; the store
        ends as after the claim, if there is one, and the marks of the selected messages. */
    method RetryDue(limit: int, now: Time, clock: Time, surroundings: nat -> Env)
      returns (result: RetryResult, ghost selection: RetrySelection)
      requires Valid() && ScanRange(config, limit)
      modifies store
      ensures Valid()
      ensures Scanned(config, old(store.State()), now, limit, clock, selection)
      ensures result.scanned == |selection.messages|
              && Tally(result, config, selection.messages, surroundings, |selection.messages|)
      ensures result.mode == Some(selection.mode)
      ensures result.selectedDevices == selection.deviceCount && result.maxPerDevice == selection.maxPerDevice
      ensures store.State() == Run(old(store.State()), ScanCalls(config, limit, now, clock)
                                                       + RetryCalls(config, selection.messages, surroundings,
                                                                    |selection.messages|))
    {
      var listed := ListRetryMessages(now, limit, clock);
      selection := listed;
      result := RetryPresent(listed.messages, surroundings);
      result := result.(mode := Some(listed.mode), selectedDevices := listed.deviceCount,
                        maxPerDevice := listed.maxPerDevice);
      HandledIsRun(config, Run(old(store.State()), ScanCalls(config, limit, now, clock)), listed.messages,
                   surroundings, |listed.messages|);
      RunAppend(old(store.State()), ScanCalls(config, limit, now, clock),
                RetryCalls(config, listed.messages, surroundings, |listed.messages|));
    }

    /** A device that comes online gets its waiting messages, the oldest first, whatever their
        retry times; only messages under someone's lease are left out. */
    method FlushClientDevice(d: Device, limit: int, clock: Time, surroundings: nat -> Env) returns (reply: FlushReply)
      requires Valid()
      modifies store
      ensures Valid()
      ensures reply.NoClient? <==> d.clientId == ""
      ensures reply.NoDevice? <==> d.clientId != "" && d.deviceId == ""
      ensures !reply.Flushed? ==> store.State() == old(store.State())
      ensures reply.Flushed? ==>
                var waiting := Limited(FlushListing(old(store.messages), d, clock), limit);
                && reply.result.scanned == |waiting| && Tally(reply.result, config, waiting, surroundings, |waiting|)
                && store.State() == Run(old(store.State()), RetryCalls(config, waiting, surroundings, |waiting|))
    {
      if d.clientId == "" {
        return NoClient;
      }
      if d.deviceId == "" {
        return NoDevice;
      }
      FlushAreStored(store.messages, d, clock, limit);
      var waiting := store.ListPendingByClientDevice(d, limit, clock);
      var result := RetryPresent(waiting, surroundings);
      HandledIsRun(config, old(store.State()), waiting, surroundings, |waiting|);
      reply := Flushed(result);
    }

    // ---- Operators and acknowledgements --------------------------------------------------

    /** Delivered and discarded messages are refused; the check and the write are two store calls. */
    method Requeue(id: string, now: Time, clock: Time) returns (reply: OperatorReply)
      requires Valid()
      modifies store
      ensures Valid()
      ensures reply.MissingId? <==> id == ""
      ensures reply.OperatorNotFound? <==> id != "" && id !in old(store.messages)
      ensures reply.InvalidTransition? <==>
                id != "" && id in old(store.messages) && Closed(old(store.messages)[id].status)
      ensures var refused := RequeueReplyOf(old(store.State()), id, config.capacity);
              if id != "" && id in old(store.messages) && !Closed(old(store.messages)[id].status)
                && refused.RequeueRejected?
              then reply == CapacityRefused(refused.error) else !reply.CapacityRefused?
      ensures reply.Updated? ==>
                && id in old(store.messages)
                && store.State() == RequeueEffect(old(store.State()), id, now, config.capacity, clock)
                && id in store.messages && reply.message == WithPolicy(config, store.messages[id])
                && reply.message.status.Pending? && reply.message.attempts == 0
      ensures !reply.Updated? ==> store.State() == old(store.State())
    {
      if id == "" {
        return MissingId;
      }
      var found := store.Get(id);
      if found.None? {
        return OperatorNotFound;
      }
      if found.value.status.Delivered? || found.value.status.Discarded? {
        return InvalidTransition;
      }
      var requeued := store.RequeueWithCapacity(id, now, config.capacity, clock);
      if requeued.RequeueRejected? {
        return CapacityRefused(requeued.error);
      }
      var current := store.Get(id);
      reply := Updated(WithPolicy(config, current.value));
    }

    method Discard(id: string, reason: string, now: Time, clock: Time) returns (reply: OperatorReply)
      requires Valid()
      modifies store
      ensures Valid()
      ensures !reply.CapacityRefused? && (reply.MissingId? <==> id == "")
      ensures reply.OperatorNotFound? <==> id != "" && id !in old(store.messages)
      ensures reply.InvalidTransition? <==>
                id != "" && id in old(store.messages) && old(store.messages)[id].status.Delivered?
      ensures reply.Updated? ==>
                && id in old(store.messages)
                && store.State() == DiscardEffect(old(store.State()), id, reason,
                                                  Transition(config, OPERATOR_DISCARD, now, false), clock)
                && id in store.messages && reply.message == WithPolicy(config, store.messages[id])
                   && reply.message.status.Discarded?
      ensures !reply.Updated? ==> store.State() == old(store.State())
    {
      if id == "" {
        return MissingId;
      }
      var found := store.Get(id);
      if found.None? {
        return OperatorNotFound;
      }
      if found.value.status.Delivered? {
        return InvalidTransition;
      }
      var discarded := store.Discard(id, reason, Transition(config, OPERATOR_DISCARD, now, false), clock);
      var current := store.Get(id);
      reply := Updated(WithPolicy(config, current.value));
    }

    /** An acknowledgement counts only with the code `delivered` and from the client and device the
        message is for, and then whatever the message's status is. */
    method Ack(d: Device, id: string, code: string, now: Time, clock: Time) returns (reply: AckReply)
      requires Valid()
      modifies store
      ensures Valid()
      ensures var refusal := AckRefusal(old(store.State()), d, id, code);
              if refusal.Some? then reply == refusal.value && store.State() == old(store.State())
              else reply.Acknowledged? && store.State() == DeliveredEffect(old(store.State()), id, d, now, clock)
      ensures reply.Acknowledged? && now != 0 ==>
                id in store.messages && reply.message == WithPolicy(config, store.messages[id])
                  && Acked(store.State(), id)
    {
      if d.clientId == "" {
        return AckNoClient;
      }
      if d.deviceId == "" {
        return AckNoDevice;
      }
      if id == "" {
        return AckNoMessage;
      }
      if code != ACK_DELIVERED {
        return AckInvalidCode;
      }
      var found := store.Get(id);
      if found.None? || DeviceOf(found.value) != d {
        return AckNotFound;
      }
      var mark := store.MarkDelivered(id, d, now, clock);
      var m := found.value.(status := Delivered, lastError := "", nextRetryAt := 0);
      m := m.(claimOwner := "", claimUntil := 0, deliveredAt := now, updatedAt := now);
      reply := Acknowledged(WithPolicy(config, m));
    }

    // ---- Background work -----------------------------------------------------------------

    /** Each claimed event is published or put off by its backoff, once, and counted once; the
        round is a run of the claim and one report for each event. */
    method PublishTerminalDue(limit: int, now: Time, clock: Time, surroundings: nat -> PublishEnv)
      returns (scanned: nat, published: nat, failed: nat, ghost records: seq<TerminalRecord>)
      requires Valid()
      modifies store
      ensures Valid()
      ensures !config.publish ==> store.State() == old(store.State()) && scanned == 0 && records == []
      ensures scanned == |records| == published + failed
      ensures published == CountPublished(AnswersOf(config, records, surroundings), |records|)
      ensures config.publish ==>
                var claim := Action.ClaimTerminal(now, limit, PublishOwner(config), config.terminal.claimLease, clock);
                var claimed := Step(old(store.State()), claim).events;
                var answers := AnswersOf(config, records, surroundings);
                && AreCurrentRecords(records, PublishChoice(old(store.terminalEvents), OrElse(now, clock), limit),
                                     claimed)
                && store.State() == Run(old(store.State()), [claim] + PublishCalls(records, answers, |records|))
                && AllAnswered(store.terminalEvents, records, answers)
                && OthersKept(claimed, store.terminalEvents, Keys(records))
    {
      if !config.publish {
        return 0, 0, 0, [];
      }
      var claimed := ClaimEvents(limit, now, clock);
      records := claimed;
      ghost var answers := AnswersOf(config, claimed, surroundings);
      BatchReported(store.State(), claimed, answers);
      published, failed := ReportAll(claimed, surroundings, answers);
      ghost var claim := Action.ClaimTerminal(now, limit, PublishOwner(config), config.terminal.claimLease, clock);
      RoundIsRun(old(store.State()), claim, claimed, answers);
      scanned := |claimed|;
    }

    method ClaimEvents(limit: int, now: Time, clock: Time) returns (records: seq<TerminalRecord>)
      requires Valid()
      modifies store
      ensures Valid() && Distinct(records) && RecordsStored(records, store.terminalEvents)
      ensures var claim := Action.ClaimTerminal(now, limit, PublishOwner(config), config.terminal.claimLease, clock);
              store.State() == Step(old(store.State()), claim)
      ensures AreCurrentRecords(records, PublishChoice(old(store.terminalEvents), OrElse(now, clock), limit),
                                store.terminalEvents)
    {
      var owner := config.terminal.claimOwner;
      if owner == "" {
        owner := config.gatewayNode;
      }
      records := store.ClaimDueTerminal(now, limit, owner, config.terminal.claimLease, clock);
      ClaimedAreBatch(old(store.State()), now, limit, owner, config.terminal.claimLease, clock, records);
    }

    method ReportAll(records: seq<TerminalRecord>, surroundings: nat -> PublishEnv, ghost answers: seq<Answer>)
      returns (published: nat, failed: nat)
      requires Valid() && Round(config, store.State(), records, surroundings, answers)
      modifies store
      ensures Valid() && ReportedUpTo(old(store.State()), records, answers, |records|, store.State(), published)
      ensures published + failed == |records|
    {
      published, failed := 0, 0;
      ghost var before := store.State();
      RoundStarts(before, records, answers);
      for index := 0 to |records|
        invariant Valid() && published + failed == index
        invariant ReportedUpTo(before, records, answers, index, store.State(), published)
      {
        var success := ReportAt(before, records, surroundings, answers, index, published);
        if success {
          published := published + 1;
        } else {
          failed := failed + 1;
        }
      }
    }

    method ReportAt(ghost start: Store, records: seq<TerminalRecord>, surroundings: nat -> PublishEnv,
                    ghost answers: seq<Answer>, n: nat, ghost published: nat)
      returns (success: bool)
      requires Valid() && n < |records| && Round(config, start, records, surroundings, answers)
      requires ReportedUpTo(start, records, answers, n, store.State(), published)
      modifies store
      ensures Valid()
      ensures ReportedUpTo(start, records, answers, n + 1, store.State(), if success then published + 1 else published)
    {
      ReportNext(start, records, answers, n, store.State(), published);
      success := ReportOne(records[n], surroundings(n), answers[n]);
    }

    /** Records what the publisher answered for one event. */
    method ReportOne(record: TerminalRecord, e: PublishEnv, ghost answer: Answer) returns (success: bool)
      requires Valid() && Open(record) && record.event.eventId in store.terminalEvents
      requires Gives(config, record, e, answer)
      modifies store
      ensures Valid() && store.State() == Answered(old(store.State()), record, answer) && success == answer.Succeeded?
    {
      var event := record.event;
      if e.error.Some? {
        var next := NextPublishAt(config, e.at, record.publishAttempts, e.jitter);
        var mark := store.MarkTerminalPublishFailed(event.messageId, event.terminalStatus, e.error.value, next);
        assert mark.Done?;
        return false;
      }
      var mark := store.MarkTerminalPublished(event.messageId, event.terminalStatus, e.at, e.clock);
      assert mark.Done?;
      return true;
    }

    /** Each finished status with a TTL is swept once; the counts are the messages removed. */
    method CleanupExpired(policy: RetentionPolicy, limit: int, now: Time)
      returns (delivered: nat, failed: nat, discarded: nat)
      requires Valid()
      modifies store
      ensures Valid() && store.State() == Run(old(store.State()), CleanupActions(policy, limit, now))
      ensures var bound := if limit <= 0 then 1000 else limit;
              var one := Swept(old(store.State()), Status.Delivered, policy.deliveredTTL, bound, now);
              var two := Swept(one, Status.Failed, policy.failedTTL, bound, now);
              && delivered == SweepCount(old(store.State()), Status.Delivered, policy.deliveredTTL, bound, now)
              && failed == SweepCount(one, Status.Failed, policy.failedTTL, bound, now)
              && discarded == SweepCount(two, Status.Discarded, policy.discardedTTL, bound, now)
    {
      CleanupIsRun(store.State(), policy, limit, now);
      var bound := if limit <= 0 then 1000 else limit;
      delivered := CleanupStatus(Status.Delivered, policy.deliveredTTL, bound, now);
      failed := CleanupStatus(Status.Failed, policy.failedTTL, bound, now);
      discarded := CleanupStatus(Status.Discarded, policy.discardedTTL, bound, now);
    }

    method CleanupStatus(status: Status, ttl: Duration, limit: int, now: Time) returns (deleted: nat)
      requires Valid()
      modifies store
      ensures Valid() && store.State() == Swept(old(store.State()), status, ttl, limit, now)
      ensures deleted == SweepCount(old(store.State()), status, ttl, limit, now)
    {
      if ttl <= 0 {
        return 0;
      }
      deleted := store.DeleteExpired(status, now - ttl, limit);
    }
  }
}
