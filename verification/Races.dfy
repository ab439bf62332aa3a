/** Races between delivery, acknowledgement, operators and cleanup, over whole runs. */
module Races {
  import opened Messages
  import opened Fairness
  import opened FairnessProperties
  import opened StoreModel
  import opened Outbox

  // ---- Acknowledgements ------------------------------------------------------------------

  predicate OperatorWrite(a: Action, id: string) {
    (a.Requeue? || a.Discard?) && a.id == id
  }

  ghost predicate Acked(st: Store, id: string) {
    id in st.messages && st.messages[id].status.Delivered?
  }

  /** The one way to undo an acknowledgement is an operator's requeue or discard that takes
      effect after it; no send, retry, failure or claim can. */
  lemma AckUndoneExactly(st: Store, a: Action, id: string)
    requires WellFormed(st) && Acked(st, id) && id in Step(st, a).messages
    ensures !Acked(Step(st, a), id) <==>
              || (a.Requeue? && a.id == id && RequeueReplyOf(st, id, a.capacity).Requeued?)
              || (a.Discard? && a.id == id)
  {
    match a
    case Save(_, _, _, _) => IntakeKeepsAck(st, a, id);
    case Claim(_, _, _, _, _, _, _) => IntakeKeepsAck(st, a, id);
    case MarkSent(_, _, _, _, _) => MarksKeepAck(st, a, id);
    case MarkDelivered(_, _, _, _) => MarksKeepAck(st, a, id);
    case MarkAttemptFailed(_, _, _, _) => MarksKeepAck(st, a, id);
    case MarkFailed(_, _, _) => MarksKeepAck(st, a, id);
    case Requeue(_, _, _, _) => OperatorOnAck(st, a, id);
    case Discard(_, _, _, _) => OperatorOnAck(st, a, id);
    case _ => OutboxKeepsAck(st, a, id);
  }

  lemma IntakeKeepsAck(st: Store, a: Action, id: string)
    requires WellFormed(st) && Acked(st, id) && (a.Save? || a.Claim?)
    ensures Acked(Step(st, a), id)
  {
  }

  lemma MarksKeepAck(st: Store, a: Action, id: string)
    requires WellFormed(st) && Acked(st, id)
             && (a.MarkSent? || a.MarkDelivered? || a.MarkAttemptFailed? || a.MarkFailed?)
    ensures Acked(Step(st, a), id)
  {
  }

  lemma OutboxKeepsAck(st: Store, a: Action, id: string)
    requires WellFormed(st) && Acked(st, id) && id in Step(st, a).messages
    requires a.ClaimTerminal? || a.MarkPublished? || a.MarkPublishFailed? || a.DeleteExpired?
    ensures Acked(Step(st, a), id)
  {
  }

  lemma OperatorOnAck(st: Store, a: Action, id: string)
    requires WellFormed(st) && Acked(st, id) && (a.Requeue? || a.Discard?)
    ensures !Acked(Step(st, a), id) <==> a.id == id && (a.Requeue? ==> RequeueReplyOf(st, id, a.capacity).Requeued?)
  {
  }

  /** The operator calls check the status before they write, in two separate store calls.
      `r` counts the steps before the check of the call that writes in step `j`. */
  ghost predicate ChecksStatus(st: Store, actions: seq<Action>, id: string, j: nat, r: nat)
    requires WellFormed(st) && j < |actions|
  {
    OperatorWrite(actions[j], id) ==> r <= j && !Acked(Run(st, actions[..r]), id)
  }

  /** If each operator call that writes to the message also checked it after the
      acknowledgement, then it saw the acknowledgement, and nothing undoes it: the message
      stays delivered for as long as it is retained. */
  lemma {:induction false} AckSurvives(st: Store, actions: seq<Action>, id: string, checks: seq<nat>, i: nat)
    requires WellFormed(st) && Acked(st, id) && |checks| == |actions| && i <= |actions|
    requires forall j :: 0 <= j < |actions| ==> ChecksStatus(st, actions, id, j, checks[j])
    requires forall j :: 0 <= j <= |actions| ==> id in Run(st, actions[..j]).messages
    ensures Acked(Run(st, actions[..i]), id)
    decreases i
  {
    if i > 0 {
      var n := i - 1;
      AckSurvives(st, actions, id, checks, n);
      assert ChecksStatus(st, actions, id, n, checks[n]);
      if OperatorWrite(actions[n], id) {
        AckSurvives(st, actions, id, checks, checks[n]);
      }
      RunExtends(st, actions, n);
      AckUndoneExactly(Run(st, actions[..n]), actions[n], id);
    }
  }

  lemma RunExtends(st: Store, actions: seq<Action>, n: nat)
    requires WellFormed(st) && n < |actions|
    ensures Run(st, actions[..n + 1]) == Step(Run(st, actions[..n]), actions[n])
  {
    assert actions[..n + 1][..n] == actions[..n];
  }

  /** The order the two-call check leaves open: the operator's check passes, the
      acknowledgement arrives, and the operator's write comes last.  A discard then always
      undoes the acknowledgement, and a requeue does exactly when the queue has room. */
  lemma OperatorRaceUndoesAck(st: Store, id: string, ack: Action, write: Action)
    requires WellFormed(st) && id in st.messages && !Acked(st, id) && OperatorWrite(write, id)
    requires write.Requeue? ==> !st.messages[id].status.Discarded?
    requires ack.MarkDelivered? && ack.id == id && ack.device == DeviceOf(st.messages[id])
    ensures var acked, after := Run(st, [ack]), Run(st, [ack, write]);
            && Acked(acked, id) && id in after.messages
            && (!Acked(after, id) <==> write.Requeue? ==> RequeueReplyOf(acked, id, write.capacity).Requeued?)
            && (!Acked(after, id) ==> after.messages[id].status == if write.Requeue? then Pending else Discarded)
  {
    assert [ack, write][..1] == [ack];
    assert [ack][..0] == [];
    var acked := Step(st, ack);
    Acknowledges(st, ack, id);
    WrittenStatus(acked, write, id);
    OperatorOnAck(acked, write, id);
  }

  lemma Acknowledges(st: Store, ack: Action, id: string)
    requires WellFormed(st) && id in st.messages && ack.MarkDelivered? && ack.id == id
             && ack.device == DeviceOf(st.messages[id])
    ensures Acked(Step(st, ack), id)
  {
  }

  lemma WrittenStatus(st: Store, write: Action, id: string)
    requires WellFormed(st) && Acked(st, id) && OperatorWrite(write, id)
    ensures id in Step(st, write).messages
    ensures var status := Step(st, write).messages[id].status;
            status == Delivered || status == if write.Requeue? then Pending else Discarded
  {
  }

  // ---- Retention -------------------------------------------------------------------------

  /** `Service.CleanupExpired` at time `now`: only finished messages, each with its own TTL. */
  datatype RetentionPolicy = RetentionPolicy(deliveredTTL: Duration, failedTTL: Duration, discardedTTL: Duration)

  function TtlOf(policy: RetentionPolicy, status: Status): Duration {
    match status
    case Delivered => policy.deliveredTTL
    case Failed => policy.failedTTL
    case Discarded => policy.discardedTTL
    case _ => 0
  }

  predicate Cleanup(a: Action, policy: RetentionPolicy, now: Time) {
    a.DeleteExpired? ==> TtlOf(policy, a.status) > 0 && a.before == now - TtlOf(policy, a.status)
  }

  /** A message may go when it is finished, past its TTL, and has no event left to publish. */
  ghost predicate MayGo(st: Store, id: string, policy: RetentionPolicy, now: Time) {
    && id in st.messages
    && Terminal(st.messages[id].status)
    && RetentionTime(st.messages[id]) + TtlOf(policy, st.messages[id].status) < now
    && !HasUnpublished(st.events, id)
  }

  lemma StepKeepsMessage(st: Store, a: Action, id: string)
    requires WellFormed(st) && id in st.messages && id !in Step(st, a).messages
    ensures a.DeleteExpired? && Expired(st, id, a.status, a.before)
  {
    match a
    case MarkFailed(_, _, _) => ConcludeKeepsAll(st, a, id);
    case Discard(_, _, _, _) => ConcludeKeepsAll(st, a, id);
    case Save(_, _, _, _) => QueueKeepsAll(st, a, id);
    case Claim(_, _, _, _, _, _, _) => QueueKeepsAll(st, a, id);
    case Requeue(_, _, _, _) => QueueKeepsAll(st, a, id);
    case DeleteExpired(status, before, limit) => VictimExpired(st, status, before, limit, id);
    case _ => MarksKeepAll(st, a, id);
  }

  lemma ConcludeKeepsAll(st: Store, a: Action, id: string)
    requires WellFormed(st) && id in st.messages && (a.MarkFailed? || a.Discard?)
    ensures id in Step(st, a).messages
  {
  }

  lemma QueueKeepsAll(st: Store, a: Action, id: string)
    requires WellFormed(st) && id in st.messages && (a.Save? || a.Claim? || a.Requeue?)
    ensures id in Step(st, a).messages
  {
  }

  lemma MarksKeepAll(st: Store, a: Action, id: string)
    requires WellFormed(st) && id in st.messages
    requires a.MarkSent? || a.MarkDelivered? || a.MarkAttemptFailed? || a.ClaimTerminal? || a.MarkPublished?
             || a.MarkPublishFailed?
    ensures id in Step(st, a).messages
  {
  }

  /** An accepted message leaves the store only through cleanup, at a moment when it is
      finished, past its TTL and fully reported. */
  lemma {:induction false} NoMessageVanishes(st: Store, actions: seq<Action>, id: string, policy: RetentionPolicy,
                                             clock: seq<Time>)
    returns (k: nat)
    requires WellFormed(st) && id in st.messages && id !in Run(st, actions).messages
    requires |clock| == |actions| && forall i :: 0 <= i < |actions| ==> Cleanup(actions[i], policy, clock[i])
    ensures k < |actions| && actions[k].DeleteExpired?
    ensures MayGo(Run(st, actions[..k]), id, policy, clock[k])
    decreases |actions|
  {
    var n := |actions| - 1;
    if id in Run(st, actions[..n]).messages {
      k := n;
      StepKeepsMessage(Run(st, actions[..n]), actions[n], id);
      assert Cleanup(actions[n], policy, clock[n]);
    } else {
      k := NoMessageVanishes(st, actions[..n], id, policy, clock[..n]);
      assert actions[..n][..k] == actions[..k];
    }
  }

  // ---- Leases ----------------------------------------------------------------------------

  predicate Touches(a: Action, id: string) {
    && (a.MarkSent? || a.MarkDelivered? || a.MarkAttemptFailed? || a.MarkFailed? || a.Requeue? || a.Discard?)
    && a.id == id
  }

  /** Held until `until`: a retry in flight that no scan or flush before then may see. */
  ghost predicate Leased(st: Store, id: string, until: Time) {
    && id in st.messages
    && (st.messages[id].status.Pending? || st.messages[id].status.Sent?)
    && 0 < until <= st.messages[id].claimUntil
  }

  lemma ChosenAreDue(messages: map<string, Message>, now: Time, ackTimeout: Duration, limit: int, candidateLimit: int,
                     id: string)
    requires Keyed(messages) && id in Ids(RetryChoice(messages, now, ackTimeout, limit, candidateLimit))
    ensures id in messages && DueForRetry(messages[id], now, ackTimeout)
  {
    DueUnique(messages, now, ackTimeout);
    var due := DueSet(messages, now, ackTimeout);
    var window := Window(due, CandidateBound(limit, candidateLimit));
    WindowOrdered(due, CandidateBound(limit, candidateLimit));
    var chosen := RetryChoice(messages, now, ackTimeout, limit, candidateLimit);
    var i :| 0 <= i < |chosen| && chosen[i].messageId == id;
    assert chosen[i] == window[Picks(window, ScanLimit(limit))[i]];
    assert chosen[i] in Rows(window);
  }

  /** A lease only ever moves forward: a scan cannot take the message before it runs out, and
      one that takes it later holds it longer, whatever the clocks of the scanners read. */
  lemma StepKeepsLease(st: Store, a: Action, id: string, until: Time)
    requires WellFormed(st) && Leased(st, id, until) && !Touches(a, id)
    requires a.DeleteExpired? ==> Terminal(a.status)
    ensures Leased(Step(st, a), id, until)
  {
    match a
    case DeleteExpired(status, before, limit) => DeleteKeepsLease(st, status, before, limit, id, until);
    case Claim(now, ackTimeout, limit, candidateLimit, owner, lease, clock) =>
      ClaimKeepsLease(st, now, ackTimeout, limit, candidateLimit, owner, lease, clock, id, until);
    case Save(_, _, _, _) => IntakeKeepsLease(st, a, id, until);
    case Requeue(_, _, _, _) => IntakeKeepsLease(st, a, id, until);
    case ClaimTerminal(_, _, _, _, _) => OutboxKeepsLease(st, a, id, until);
    case MarkPublished(_, _, _, _) => OutboxKeepsLease(st, a, id, until);
    case MarkPublishFailed(_, _, _, _) => OutboxKeepsLease(st, a, id, until);
    case _ => MarksKeepLease(st, a, id, until);
  }

  lemma IntakeKeepsLease(st: Store, a: Action, id: string, until: Time)
    requires WellFormed(st) && Leased(st, id, until) && !Touches(a, id) && (a.Save? || a.Requeue?)
    ensures Leased(Step(st, a), id, until)
  {
  }

  lemma OutboxKeepsLease(st: Store, a: Action, id: string, until: Time)
    requires WellFormed(st) && Leased(st, id, until) && (a.ClaimTerminal? || a.MarkPublished? || a.MarkPublishFailed?)
    ensures Leased(Step(st, a), id, until)
  {
  }

  lemma MarksKeepLease(st: Store, a: Action, id: string, until: Time)
    requires WellFormed(st) && Leased(st, id, until) && !Touches(a, id)
    requires a.MarkSent? || a.MarkDelivered? || a.MarkAttemptFailed? || a.MarkFailed? || a.Discard?
    ensures Leased(Step(st, a), id, until)
  {
  }

  lemma DeleteKeepsLease(st: Store, status: Status, before: Time, limit: int, id: string, until: Time)
    requires WellFormed(st) && Leased(st, id, until) && Terminal(status)
    ensures Leased(DeleteEffect(st, status, before, limit), id, until)
  {
    if id in Ids(Victims(st, status, before, limit)) {
      VictimExpired(st, status, before, limit, id);
    }
  }

  lemma ClaimKeepsLease(st: Store, now: Time, ackTimeout: Duration, limit: int, candidateLimit: int,
                        owner: string, lease: Duration, clock: Time, id: string, until: Time)
    requires WellFormed(st) && Leased(st, id, until)
    ensures Leased(ClaimEffect(st, now, ackTimeout, limit, candidateLimit, owner, lease, clock), id, until)
  {
    var at := OrElse(now, clock);
    if id in Ids(RetryChoice(st.messages, at, ackTimeout, limit, candidateLimit)) {
      ChosenAreDue(st.messages, at, ackTimeout, limit, candidateLimit, id);
    }
  }

  lemma {:induction false} RunKeepsLease(st: Store, actions: seq<Action>, id: string, until: Time)
    requires WellFormed(st) && Leased(st, id, until)
    requires forall i :: 0 <= i < |actions| ==>
               !Touches(actions[i], id) && (actions[i].DeleteExpired? ==> Terminal(actions[i].status))
    ensures Leased(Run(st, actions), id, until)
    decreases |actions|
  {
    if actions != [] {
      var n := |actions| - 1;
      RunKeepsLease(st, actions[..n], id, until);
      StepKeepsLease(Run(st, actions[..n]), actions[n], id, until);
    }
  }

  /** No scan before the lease ends selects the message, and no bind-time flush lists it. */
  lemma LeaseExcludes(st: Store, id: string, until: Time, now: Time, ackTimeout: Duration, limit: int,
                      candidateLimit: int)
    requires WellFormed(st) && Leased(st, id, until) && now < until
    ensures id !in Ids(RetryChoice(st.messages, now, ackTimeout, limit, candidateLimit))
    ensures st.messages[id] !in FlushSet(st.messages, DeviceOf(st.messages[id]), now)
  {
    if id in Ids(RetryChoice(st.messages, now, ackTimeout, limit, candidateLimit)) {
      ChosenAreDue(st.messages, now, ackTimeout, limit, candidateLimit, id);
    }
  }

  /** From the claim at `t1` on, and while nobody marks the message, it is out of reach of
      every scan and flush at a time before the lease ends. */
  lemma ClaimIsExclusive(st: Store, claim: Action, actions: seq<Action>, id: string,
                         now: Time, ackTimeout: Duration, limit: int, candidateLimit: int)
    requires WellFormed(st) && claim.Claim? && claim.owner != "" && OrElse(claim.now, claim.clock) > 0
    requires id in Ids(RetryChoice(st.messages, OrElse(claim.now, claim.clock), claim.ackTimeout, claim.limit,
                                   claim.candidateLimit))
    requires forall i :: 0 <= i < |actions| ==>
               !Touches(actions[i], id) && (actions[i].DeleteExpired? ==> Terminal(actions[i].status))
    requires now < OrElse(claim.now, claim.clock) + LeaseOrDefault(claim.lease)
    ensures var st' := Run(Step(st, claim), actions);
            && id in st'.messages
            && id !in Ids(RetryChoice(st'.messages, now, ackTimeout, limit, candidateLimit))
            && st'.messages[id] !in FlushSet(st'.messages, DeviceOf(st'.messages[id]), now)
  {
    var t1 := OrElse(claim.now, claim.clock);
    ChosenAreDue(st.messages, t1, claim.ackTimeout, claim.limit, claim.candidateLimit, id);
    var until := t1 + LeaseOrDefault(claim.lease);
    assert Leased(Step(st, claim), id, until);
    RunKeepsLease(Step(st, claim), actions, id, until);
    LeaseExcludes(Run(Step(st, claim), actions), id, until, now, ackTimeout, limit, candidateLimit);
  }

  /** The same for the lease a first submission takes out for its own delivery attempt. */
  lemma SubmissionIsExclusive(st: Store, save: Action, actions: seq<Action>,
                              now: Time, ackTimeout: Duration, limit: int, candidateLimit: int)
    requires WellFormed(st) && save.Save? && save.message.status.Pending? && save.message.claimUntil > 0
    requires SaveReplyOf(st, save.message, save.capacity, save.freshId, save.clock).Saved?
    requires Prepared(save.message, save.freshId, save.clock).messageId !in st.messages
    requires var id := Prepared(save.message, save.freshId, save.clock).messageId;
             forall i :: 0 <= i < |actions| ==>
                 !Touches(actions[i], id) && (actions[i].DeleteExpired? ==> Terminal(actions[i].status))
    requires now < save.message.claimUntil
    ensures var st', id := Run(Step(st, save), actions), Prepared(save.message, save.freshId, save.clock).messageId;
            && id in st'.messages
            && id !in Ids(RetryChoice(st'.messages, now, ackTimeout, limit, candidateLimit))
            && st'.messages[id] !in FlushSet(st'.messages, DeviceOf(st'.messages[id]), now)
  {
    var id, until := Prepared(save.message, save.freshId, save.clock).messageId, save.message.claimUntil;
    assert Leased(Step(st, save), id, until);
    RunKeepsLease(Step(st, save), actions, id, until);
    LeaseExcludes(Run(Step(st, save), actions), id, until, now, ackTimeout, limit, candidateLimit);
  }
}
