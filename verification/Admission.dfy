/** Queue capacity and idempotent submission over whole runs of the store. */
module Admission {
  import opened Messages
  import opened Ordering
  import opened Fairness
  import opened Identity
  import opened StoreModel

  // ---- Capacity --------------------------------------------------------------------------

  /** The limits are a setting of the service, the same for all its calls. */
  predicate Limited(a: Action, capacity: QueueCapacity) {
    match a
    case Save(_, c, _, _) => c == capacity
    case Requeue(_, _, c, _) => c == capacity
    case _ => true
  }

  ghost predicate Within(st: Store, d: Device, capacity: QueueCapacity, slack: nat, deviceSlack: nat) {
    && (capacity.maxPendingGlobal > 0 ==> |PendingIds(st.messages)| <= capacity.maxPendingGlobal + slack)
    && (capacity.maxPendingPerDevice > 0 ==>
          |DevicePendingIds(st.messages, d)| <= capacity.maxPendingPerDevice + deviceSlack)
  }

  /** A successful create or requeue into pending leaves both counts within their limits. */
  lemma AdmittedWithinLimits(st: Store, a: Action, id: string)
    requires WellFormed(st) && (a.Save? || a.Requeue?)
    requires id !in PendingIds(st.messages) && id in PendingIds(Step(st, a).messages)
    ensures var st' := Step(st, a); Within(st', DeviceOf(st'.messages[id]), a.capacity, 0, 0)
  {
    var st' := Step(st, a);
    var d := DeviceOf(st'.messages[id]);
    var joined := st'.messages[id];
    assert st'.messages == st.messages[id := joined] && CapacityVerdict(st.messages, d, a.capacity).None? by {
      if a.Save? {
        SaveAdmits(st, a, id);
      } else {
        RequeueAdmits(st, a, id);
      }
    }
    JoinedWithin(st.messages, joined, id, a.capacity);
  }

  lemma JoinedWithin(messages: map<string, Message>, joined: Message, id: string, capacity: QueueCapacity)
    requires id !in PendingIds(messages) && joined.status.Pending?
    requires CapacityVerdict(messages, DeviceOf(joined), capacity).None?
    ensures Within(Store(messages[id := joined], map[]), DeviceOf(joined), capacity, 0, 0)
  {
    PendingJoins(messages, joined, id);
    DevicePendingJoins(messages, joined, id);
  }

  lemma PendingJoins(messages: map<string, Message>, joined: Message, id: string)
    requires id !in PendingIds(messages) && joined.status.Pending?
    ensures |PendingIds(messages[id := joined])| == |PendingIds(messages)| + 1
  {
    assert PendingIds(messages[id := joined]) == PendingIds(messages) + {id};
  }

  lemma DevicePendingJoins(messages: map<string, Message>, joined: Message, id: string)
    requires id !in PendingIds(messages) && joined.status.Pending?
    ensures var d := DeviceOf(joined);
            |DevicePendingIds(messages[id := joined], d)| == |DevicePendingIds(messages, d)| + 1
  {
    var d := DeviceOf(joined);
    assert id !in DevicePendingIds(messages, d);
    assert DevicePendingIds(messages[id := joined], d) == DevicePendingIds(messages, d) + {id};
  }

  lemma SaveAdmits(st: Store, a: Action, id: string)
    requires WellFormed(st) && a.Save?
    requires id !in PendingIds(st.messages) && id in PendingIds(Step(st, a).messages)
    ensures var st' := Step(st, a);
            && st'.messages == st.messages[id := st'.messages[id]]
            && CapacityVerdict(st.messages, DeviceOf(st'.messages[id]), a.capacity).None?
  {
    var p := Prepared(a.message, a.freshId, a.clock);
    assert p.messageId == id && id !in st.messages;
    assert Step(st, a).messages[id] == p;
  }

  lemma RequeueAdmits(st: Store, a: Action, id: string)
    requires WellFormed(st) && a.Requeue?
    requires id !in PendingIds(st.messages) && id in PendingIds(Step(st, a).messages)
    ensures var st' := Step(st, a);
            && st'.messages == st.messages[id := st'.messages[id]]
            && CapacityVerdict(st.messages, DeviceOf(st'.messages[id]), a.capacity).None?
  {
    assert a.id == id && id in st.messages;
    assert DeviceOf(Step(st, a).messages[id]) == DeviceOf(st.messages[id]);
  }

  /** The step puts a message that had left the queue back without asking for capacity. */
  predicate Reverts(st: Store, a: Action) {
    && a.MarkAttemptFailed? && a.id in st.messages
    && !st.messages[a.id].status.Pending?
    && !st.messages[a.id].status.Delivered? && !st.messages[a.id].status.Discarded?
  }

  predicate RevertsFor(st: Store, a: Action, d: Device) {
    Reverts(st, a) && DeviceOf(st.messages[a.id]) == d
  }

  ghost function RevertCount(actions: seq<Action>): nat
    decreases |actions|
  {
    if actions == [] then 0
    else
      var n := |actions| - 1;
      RevertCount(actions[..n]) + if Reverts(Run(EMPTY, actions[..n]), actions[n]) then 1 else 0
  }

  ghost function DeviceRevertCount(actions: seq<Action>, d: Device): nat
    decreases |actions|
  {
    if actions == [] then 0
    else
      var n := |actions| - 1;
      DeviceRevertCount(actions[..n], d) + if RevertsFor(Run(EMPTY, actions[..n]), actions[n], d) then 1 else 0
  }

  /** Who can join the queue in one step. */
  lemma NewlyPending(st: Store, a: Action, id: string)
    requires WellFormed(st)
    requires id !in PendingIds(st.messages) && id in PendingIds(Step(st, a).messages)
    ensures || (a.Save? && Prepared(a.message, a.freshId, a.clock).messageId == id)
            || (a.Requeue? && a.id == id)
            || (Reverts(st, a) && a.id == id)
    ensures Reverts(st, a) ==> DeviceOf(Step(st, a).messages[id]) == DeviceOf(st.messages[id])
  {
    match a
    case Claim(_, _, _, _, _, _, _) => NeverQueues(st, a, id);
    case DeleteExpired(_, _, _) => NeverQueues(st, a, id);
    case MarkFailed(_, _, _) => ConcludeNeverQueues(st, a, id);
    case Discard(_, _, _, _) => ConcludeNeverQueues(st, a, id);
    case ClaimTerminal(_, _, _, _, _) => PublishNeverQueues(st, a, id);
    case MarkPublished(_, _, _, _) => PublishNeverQueues(st, a, id);
    case MarkPublishFailed(_, _, _, _) => PublishNeverQueues(st, a, id);
    case _ =>
  }

  lemma NeverQueues(st: Store, a: Action, id: string)
    requires WellFormed(st) && (a.Claim? || a.DeleteExpired?)
    ensures id in PendingIds(Step(st, a).messages) ==> id in PendingIds(st.messages)
  {
  }

  lemma ConcludeNeverQueues(st: Store, a: Action, id: string)
    requires WellFormed(st) && (a.MarkFailed? || a.Discard?)
    ensures id in PendingIds(Step(st, a).messages) ==> id in PendingIds(st.messages)
  {
  }

  lemma PublishNeverQueues(st: Store, a: Action, id: string)
    requires WellFormed(st) && (a.ClaimTerminal? || a.MarkPublished? || a.MarkPublishFailed?)
    ensures id in PendingIds(Step(st, a).messages) ==> id in PendingIds(st.messages)
  {
  }

  lemma StepKeepsDevice(st: Store, a: Action, id: string)
    requires WellFormed(st) && id in st.messages && id in Step(st, a).messages
    ensures SameIdentityFields(st.messages[id], Step(st, a).messages[id])
  {
    if a.Claim? {
      ClaimKeepsIdentity(st, a, id);
    } else if a.Save? || a.Requeue? {
      QueueKeepsIdentity(st, a, id);
    } else if a.MarkFailed? || a.Discard? {
      ConcludeKeepsIdentity(st, a, id);
    } else if a.MarkSent? || a.MarkDelivered? || a.MarkAttemptFailed? {
      MarkKeepsIdentity(st, a, id);
    } else if a.MarkPublished? || a.MarkPublishFailed? {
      PublishKeepsIdentity(st, a, id);
    } else {
      RetentionKeepsIdentity(st, a, id);
    }
  }

  lemma ConcludeKeepsIdentity(st: Store, a: Action, id: string)
    requires WellFormed(st) && id in st.messages && (a.MarkFailed? || a.Discard?)
    ensures id in Step(st, a).messages && SameIdentityFields(st.messages[id], Step(st, a).messages[id])
  {
    if a.MarkFailed? {
      FailedKeepsIdentity(st, a.id, a.transition, a.clock, id);
    } else {
      DiscardKeepsIdentity(st, a.id, a.reason, a.transition, a.clock, id);
    }
  }

  lemma ClaimKeepsIdentity(st: Store, a: Action, id: string)
    requires WellFormed(st) && id in st.messages && a.Claim?
    ensures SameIdentityFields(st.messages[id], Step(st, a).messages[id])
  {
  }

  lemma FailedKeepsIdentity(st: Store, target: string, transition: TerminalTransition, clock: Time, id: string)
    requires WellFormed(st) && id in st.messages
    ensures var st' := FailedEffect(st, target, transition, clock);
            id in st'.messages && SameIdentityFields(st.messages[id], st'.messages[id])
  {
    if target == id {
      var t := transition.(at := OrElse(transition.at, clock));
      ConcludedIdentity(st, id, FailedMessage(st.messages[id], t), t);
    }
  }

  lemma DiscardKeepsIdentity(st: Store, target: string, reason: string, transition: TerminalTransition, clock: Time,
                             id: string)
    requires WellFormed(st) && id in st.messages
    ensures var st' := DiscardEffect(st, target, reason, transition, clock);
            id in st'.messages && SameIdentityFields(st.messages[id], st'.messages[id])
  {
    if target == id {
      var t := transition.(at := OrElse(transition.at, clock),
                           reason := if transition.reason == "" then OPERATOR_DISCARD else transition.reason);
      ConcludedIdentity(st, id, DiscardedMessage(st.messages[id], reason, t.at), t);
    }
  }

  lemma ConcludedIdentity(st: Store, id: string, m: Message, transition: TerminalTransition)
    ensures var m' := Conclude(st, id, m, transition).messages[id]; SameIdentityFields(m, m')
  {
  }

  lemma MarkKeepsIdentity(st: Store, a: Action, id: string)
    requires WellFormed(st) && id in st.messages
    requires a.MarkSent? || a.MarkDelivered? || a.MarkAttemptFailed?
    ensures SameIdentityFields(st.messages[id], Step(st, a).messages[id])
  {
  }

  lemma QueueKeepsIdentity(st: Store, a: Action, id: string)
    requires WellFormed(st) && id in st.messages && (a.Save? || a.Requeue?)
    ensures SameIdentityFields(st.messages[id], Step(st, a).messages[id])
  {
  }

  lemma PublishKeepsIdentity(st: Store, a: Action, id: string)
    requires WellFormed(st) && id in st.messages && (a.MarkPublished? || a.MarkPublishFailed?)
    ensures id in Step(st, a).messages && SameIdentityFields(st.messages[id], Step(st, a).messages[id])
  {
  }

  lemma RetentionKeepsIdentity(st: Store, a: Action, id: string)
    requires WellFormed(st) && id in st.messages && id in Step(st, a).messages && (a.DeleteExpired? || a.ClaimTerminal?)
    ensures SameIdentityFields(st.messages[id], Step(st, a).messages[id])
  {
  }

  lemma StepWithin(st: Store, a: Action, d: Device, capacity: QueueCapacity, slack: nat, deviceSlack: nat)
    requires WellFormed(st) && Limited(a, capacity) && Within(st, d, capacity, slack, deviceSlack)
    ensures Within(Step(st, a), d, capacity,
                   slack + (if Reverts(st, a) then 1 else 0), deviceSlack + (if RevertsFor(st, a, d) then 1 else 0))
  {
    var st' := Step(st, a);
    forall id | id in DevicePendingIds(st'.messages, d) && id in PendingIds(st.messages)
      ensures id in DevicePendingIds(st.messages, d)
    {
      StepKeepsDevice(st, a, id);
    }
    if id :| id in PendingIds(st'.messages) && id !in PendingIds(st.messages) {
      NewlyPending(st, a, id);
      forall other | other in PendingIds(st'.messages) && other !in PendingIds(st.messages)
        ensures other == id
      {
        NewlyPending(st, a, other);
      }
      if a.Save? || a.Requeue? {
        AdmittedWithinLimits(st, a, id);
      }
      QueueJoined(st.messages, st'.messages, d, id);
    } else {
      QueueShrinks(st.messages, st'.messages, d);
    }
  }

  /** The device's messages were the device's before. */
  ghost predicate KeepsDevices(before: map<string, Message>, after: map<string, Message>, d: Device) {
    forall id :: id in DevicePendingIds(after, d) && id in PendingIds(before) ==> id in DevicePendingIds(before, d)
  }

  lemma QueueShrinks(before: map<string, Message>, after: map<string, Message>, d: Device)
    requires PendingIds(after) <= PendingIds(before) && KeepsDevices(before, after, d)
    ensures |PendingIds(after)| <= |PendingIds(before)| && |DevicePendingIds(after, d)| <= |DevicePendingIds(before, d)|
  {
    SubsetSize(PendingIds(after), PendingIds(before));
    SubsetSize(DevicePendingIds(after, d), DevicePendingIds(before, d));
  }

  /** One newcomer adds at most one to the queue, and to the device's if it is for the device. */
  lemma QueueJoined(before: map<string, Message>, after: map<string, Message>, d: Device, id: string)
    requires id in PendingIds(after) && KeepsDevices(before, after, d)
    requires forall other :: other in PendingIds(after) && other !in PendingIds(before) ==> other == id
    ensures |PendingIds(after)| <= |PendingIds(before)| + 1
    ensures |DevicePendingIds(after, d)| <= |DevicePendingIds(before, d)| + if DeviceOf(after[id]) == d then 1 else 0
  {
    SubsetSize(PendingIds(after), PendingIds(before) + {id});
    SubsetSize(DevicePendingIds(after, d), DevicePendingIds(before, d) + if DeviceOf(after[id]) == d then {id} else {});
  }

  /** In every run the queues exceed their limits by at most the attempts that failed on a
      message which was no longer pending. */
  lemma {:induction false} QueueBounded(actions: seq<Action>, d: Device, capacity: QueueCapacity)
    requires forall i :: 0 <= i < |actions| ==> Limited(actions[i], capacity)
    ensures Within(Run(EMPTY, actions), d, capacity, RevertCount(actions), DeviceRevertCount(actions, d))
    decreases |actions|
  {
    if actions == [] {
      assert PendingIds(EMPTY.messages) == {} && DevicePendingIds(EMPTY.messages, d) == {};
    } else {
      var n := |actions| - 1;
      QueueBounded(actions[..n], d, capacity);
      StepWithin(Run(EMPTY, actions[..n]), actions[n], d, capacity,
                 RevertCount(actions[..n]), DeviceRevertCount(actions[..n], d));
    }
  }

  // ---- Idempotent submission -------------------------------------------------------------

  ghost predicate Fingerprinted(st: Store) {
    forall id :: id in st.messages ==> st.messages[id].fingerprint == Some(IdentityFingerprint(st.messages[id]))
  }

  lemma SameFieldsSameFingerprint(a: Message, b: Message)
    requires SameIdentityFields(a, b)
    ensures IdentityFingerprint(a) == IdentityFingerprint(b)
  {
  }

  lemma StepFingerprint(st: Store, a: Action, id: string)
    requires WellFormed(st) && id in st.messages && id in Step(st, a).messages
    requires st.messages[id].fingerprint.Some?
    ensures Step(st, a).messages[id].fingerprint == st.messages[id].fingerprint
  {
    if a.Save? || a.Claim? || a.Requeue? {
      QueueKeepsFingerprint(st, a, id);
    } else if a.MarkFailed? || a.Discard? {
      ConcludeKeepsFingerprint(st, a, id);
    } else if a.MarkSent? || a.MarkDelivered? || a.MarkAttemptFailed? {
      MarkKeepsFingerprint(st, a, id);
    } else {
      OutboxKeepsFingerprint(st, a, id);
    }
  }

  lemma QueueKeepsFingerprint(st: Store, a: Action, id: string)
    requires WellFormed(st) && id in st.messages && st.messages[id].fingerprint.Some?
             && (a.Save? || a.Claim? || a.Requeue?)
    ensures id in Step(st, a).messages && Step(st, a).messages[id].fingerprint == st.messages[id].fingerprint
  {
  }

  lemma ConcludeKeepsFingerprint(st: Store, a: Action, id: string)
    requires WellFormed(st) && id in st.messages && (a.MarkFailed? || a.Discard?)
    ensures id in Step(st, a).messages && Step(st, a).messages[id].fingerprint == st.messages[id].fingerprint
  {
    if a.MarkFailed? {
      FailedKeepsFingerprint(st, a.id, a.transition, a.clock, id);
    } else {
      DiscardKeepsFingerprint(st, a.id, a.reason, a.transition, a.clock, id);
    }
  }

  lemma FailedKeepsFingerprint(st: Store, target: string, transition: TerminalTransition, clock: Time, id: string)
    requires id in st.messages
    ensures var st' := FailedEffect(st, target, transition, clock);
            id in st'.messages && st'.messages[id].fingerprint == st.messages[id].fingerprint
  {
  }

  lemma DiscardKeepsFingerprint(st: Store, target: string, reason: string, transition: TerminalTransition, clock: Time,
                                id: string)
    requires id in st.messages
    ensures var st' := DiscardEffect(st, target, reason, transition, clock);
            id in st'.messages && st'.messages[id].fingerprint == st.messages[id].fingerprint
  {
  }

  lemma MarkKeepsFingerprint(st: Store, a: Action, id: string)
    requires WellFormed(st) && id in st.messages && (a.MarkSent? || a.MarkDelivered? || a.MarkAttemptFailed?)
    ensures id in Step(st, a).messages && Step(st, a).messages[id].fingerprint == st.messages[id].fingerprint
  {
  }

  lemma OutboxKeepsFingerprint(st: Store, a: Action, id: string)
    requires WellFormed(st) && id in st.messages && id in Step(st, a).messages
    requires a.ClaimTerminal? || a.MarkPublished? || a.MarkPublishFailed? || a.DeleteExpired?
    ensures Step(st, a).messages[id].fingerprint == st.messages[id].fingerprint
  {
  }

  lemma {:induction false} RunFingerprinted(actions: seq<Action>)
    ensures Fingerprinted(Run(EMPTY, actions))
    decreases |actions|
  {
    if actions != [] {
      var n := |actions| - 1;
      RunFingerprinted(actions[..n]);
      var mid := Run(EMPTY, actions[..n]);
      var st' := Step(mid, actions[n]);
      forall id | id in st'.messages
        ensures st'.messages[id].fingerprint == Some(IdentityFingerprint(st'.messages[id]))
      {
        if id in mid.messages {
          StepFingerprint(mid, actions[n], id);
          StepKeepsDevice(mid, actions[n], id);
          SameFieldsSameFingerprint(mid.messages[id], st'.messages[id]);
        } else {
          CreatedFingerprint(mid, actions[n], id);
        }
      }
    }
  }

  lemma CreatedFingerprint(st: Store, a: Action, id: string)
    requires WellFormed(st) && id !in st.messages && id in Step(st, a).messages
    ensures Step(st, a).messages[id].fingerprint == Some(IdentityFingerprint(Step(st, a).messages[id]))
  {
    assert a.Save?;
    assert Step(st, a).messages[id] == Prepared(a.message, a.freshId, a.clock);
    PreparedFingerprint(a.message, a.freshId, a.clock);
  }

  /** In every reachable state, submitting under a known ID is answered as a replay exactly
      when the submission repeats the stored one, as a conflict otherwise, and changes nothing. */
  lemma ReplayExact(actions: seq<Action>, m: Message, capacity: QueueCapacity, freshId: string, clock: Time)
    requires var st, id := Run(EMPTY, actions), Prepared(m, freshId, clock).messageId;
             id in st.messages && Encodable(st.messages[id]) && Encodable(m)
    ensures var st, id := Run(EMPTY, actions), Prepared(m, freshId, clock).messageId;
            var reply := SaveReplyOf(st, m, capacity, freshId, clock);
            && reply.Saved? && reply.message == st.messages[id]
            && reply.outcome == (if SameIdentityFields(st.messages[id], m) then Existing else Conflict)
            && SaveEffect(st, m, capacity, freshId, clock) == st
  {
    RunFingerprinted(actions);
    ReplayAnswer(Run(EMPTY, actions), m, capacity, freshId, clock);
  }

  lemma ReplayAnswer(st: Store, m: Message, capacity: QueueCapacity, freshId: string, clock: Time)
    requires Fingerprinted(st)
    requires var id := Prepared(m, freshId, clock).messageId;
             id in st.messages && Encodable(st.messages[id]) && Encodable(m)
    ensures var id := Prepared(m, freshId, clock).messageId;
            var reply := SaveReplyOf(st, m, capacity, freshId, clock);
            && reply.Saved? && reply.message == st.messages[id]
            && reply.outcome == (if SameIdentityFields(st.messages[id], m) then Existing else Conflict)
            && SaveEffect(st, m, capacity, freshId, clock) == st
  {
    var p := Prepared(m, freshId, clock);
    PreparedFingerprint(m, freshId, clock);
    FingerprintExact(st.messages[p.messageId], p);
    assert st.messages[p.messageId := st.messages[p.messageId]] == st.messages;
  }

  lemma PreparedFingerprint(m: Message, freshId: string, clock: Time)
    ensures var p := Prepared(m, freshId, clock);
            p.fingerprint == Some(IdentityFingerprint(p)) && SameIdentityFields(m, p)
  {
    var p := Prepared(m, freshId, clock);
    SameFieldsSameFingerprint(p, p.(fingerprint := m.fingerprint));
  }

  /** No step alters what was submitted: as long as a message is retained its client, device,
      message type, acknowledgement flag and body are those it was created with. */
  lemma {:induction false} IdentityImmutable(st: Store, actions: seq<Action>, id: string)
    requires WellFormed(st) && forall i :: 0 <= i <= |actions| ==> id in Run(st, actions[..i]).messages
    ensures id in st.messages && id in Run(st, actions).messages
    ensures SameIdentityFields(st.messages[id], Run(st, actions).messages[id])
    decreases |actions|
  {
    assert actions[..0] == [] && actions[..|actions|] == actions;
    if actions != [] {
      var n := |actions| - 1;
      assert forall i :: 0 <= i <= n ==> actions[..n][..i] == actions[..i];
      IdentityImmutable(st, actions[..n], id);
      StepKeepsDevice(Run(st, actions[..n]), actions[n], id);
    }
  }
}
