/** The terminal outbox over whole runs of the store: no event is lost, none is enqueued twice,
    and a message always shows the publication state of its outbox record. */
module Outbox {
  import opened Messages
  import opened Ordering
  import opened StoreModel

  /** Every outbox record belongs to a stored message. */
  ghost predicate NoOrphans(st: Store) {
    forall key :: key in st.events ==> st.events[key].event.messageId in st.messages
  }

  // ---- One step --------------------------------------------------------------------------

  /** A record leaves only through cleanup, after it was published and with its message. */
  lemma StepKeepsUnpublished(st: Store, a: Action, key: string)
    requires WellFormed(st) && NoOrphans(st) && key in st.events
    ensures var id := st.events[key].event.messageId;
            key !in Step(st, a).events ==>
              a.DeleteExpired? && st.events[key].status.Published? && id !in Step(st, a).messages
  {
    if a.DeleteExpired? && key !in Step(st, a).events {
      var ids := Ids(Victims(st, a.status, a.before, a.limit));
      var id :| id in ids && (key == EventId(id, Failed) || key == EventId(id, Discarded));
      VictimExpired(st, a.status, a.before, a.limit, id);
      var event := st.events[key].event;
      EventIdInjective(event.messageId, event.terminalStatus, id,
                       if key == EventId(id, Failed) then Failed else Discarded);
    }
  }

  lemma VictimExpired(st: Store, status: Status, before: Time, limit: int, id: string)
    requires WellFormed(st) && id in Ids(Victims(st, status, before, limit))
    ensures before != 0 && Expired(st, id, status, before)
  {
    var victims := Victims(st, status, before, limit);
    var i :| 0 <= i < |victims| && victims[i].messageId == id;
    RetentionOrder(ExpiredSet(st, status, before));
    var all := Listing(ExpiredSet(st, status, before), RetainedBefore);
    assert victims[i] == all[i] && all[i] in ExpiredSet(st, status, before);
  }

  /** The event of a record never changes, and a published record never changes at all. */
  lemma StepKeepsRecord(st: Store, a: Action, key: string)
    requires WellFormed(st) && key in st.events && key in Step(st, a).events
    ensures Step(st, a).events[key].event == st.events[key].event
    ensures st.events[key].status.Published? ==> Step(st, a).events[key] == st.events[key]
    ensures Step(st, a).events[key].status.Published? && !st.events[key].status.Published? ==>
              a.MarkPublished? && key == EventId(a.id, a.status)
  {
    if a.ClaimTerminal? {
      var at := OrElse(a.now, a.clock);
      if key in Keys(PublishChoice(st.events, at, a.limit)) {
        ChosenIsDue(st.events, at, a.limit, key);
      }
    }
  }

  lemma ChosenIsDue(events: map<string, TerminalRecord>, now: Time, limit: int, key: string)
    requires OutboxKeyed(events) && key in Keys(PublishChoice(events, now, limit))
    ensures key in events && PublishDue(events[key], now)
  {
    var chosen := PublishChoice(events, now, limit);
    var i :| 0 <= i < |chosen| && chosen[i].event.eventId == key;
    TerminalOrder(events, now);
    var all := Listing(PublishDueSet(events, now), TerminalBefore);
    assert chosen[i] == all[i] && all[i] in PublishDueSet(events, now);
  }

  /** A record appears only through a terminal transition of a stored message. */
  lemma StepEnqueues(st: Store, a: Action, key: string)
    requires WellFormed(st) && key !in st.events && key in Step(st, a).events
    ensures a.MarkFailed? || a.Discard?
    ensures a.id in st.messages && key == EventId(a.id, if a.MarkFailed? then Failed else Discarded)
    ensures Step(st, a).events[key].status.Waiting? && Step(st, a).events[key].event.messageId == a.id
    ensures Step(st, a).messages.Keys == st.messages.Keys
  {
  }

  lemma StepNoOrphans(st: Store, a: Action)
    requires WellFormed(st) && NoOrphans(st)
    ensures NoOrphans(Step(st, a))
  {
    var st' := Step(st, a);
    forall key | key in st'.events
      ensures st'.events[key].event.messageId in st'.messages
    {
      HasMessage(st, a, key);
    }
  }

  lemma HasMessage(st: Store, a: Action, key: string)
    requires WellFormed(st) && NoOrphans(st) && key in Step(st, a).events
    ensures Step(st, a).events[key].event.messageId in Step(st, a).messages
  {
    if key !in st.events {
      StepEnqueues(st, a, key);
    } else {
      StepKeepsRecord(st, a, key);
      if a.DeleteExpired? {
        DeletedTogether(st, a.status, a.before, a.limit, key);
      } else {
        StepKeepsAll(st, a, st.events[key].event.messageId);
      }
    }
  }

  /** What retention deletes, it deletes with its records. */
  lemma DeletedTogether(st: Store, status: Status, before: Time, limit: int, key: string)
    requires WellFormed(st) && NoOrphans(st) && key in st.events
             && key in DeleteEffect(st, status, before, limit).events
    ensures st.events[key].event.messageId in DeleteEffect(st, status, before, limit).messages
  {
    var ids, id := Ids(Victims(st, status, before, limit)), st.events[key].event.messageId;
    assert id in ids ==> key in EventKeys(ids);
  }

  lemma StepKeepsAll(st: Store, a: Action, id: string)
    requires WellFormed(st) && id in st.messages && !a.DeleteExpired?
    ensures id in Step(st, a).messages
  {
  }

  // ---- Whole runs ------------------------------------------------------------------------

  lemma {:induction false} RunNoOrphans(st: Store, actions: seq<Action>)
    requires WellFormed(st) && NoOrphans(st)
    ensures NoOrphans(Run(st, actions))
    decreases |actions|
  {
    if actions != [] {
      var n := |actions| - 1;
      RunNoOrphans(st, actions[..n]);
      StepNoOrphans(Run(st, actions[..n]), actions[n]);
    }
  }

  predicate Publishes(a: Action, key: string) {
    a.MarkPublished? && EventId(a.id, a.status) == key
  }

  /** An unpublished event stays in the store, with its message, until it is published. */
  lemma {:induction false} UnpublishedSurvives(st: Store, actions: seq<Action>, key: string)
    requires WellFormed(st) && NoOrphans(st)
    requires key in st.events && !st.events[key].status.Published?
    requires forall i :: 0 <= i < |actions| ==> !Publishes(actions[i], key)
    ensures var st', event := Run(st, actions), st.events[key].event;
            && key in st'.events
            && st'.events[key].event == event
            && !st'.events[key].status.Published?
            && event.messageId in st'.messages
    decreases |actions|
  {
    if actions != [] {
      var n := |actions| - 1;
      UnpublishedSurvives(st, actions[..n], key);
      RunNoOrphans(st, actions[..n]);
      var mid := Run(st, actions[..n]);
      StepKeepsUnpublished(mid, actions[n], key);
      StepKeepsRecord(mid, actions[n], key);
    }
    RunNoOrphans(st, actions);
  }

  /** Once published, a record stays as it is for as long as its message is retained. */
  lemma {:induction false} PublishedIsAbsorbing(st: Store, actions: seq<Action>, key: string)
    requires WellFormed(st) && NoOrphans(st)
    requires key in st.events && st.events[key].status.Published?
    requires forall i :: 0 <= i <= |actions| ==> st.events[key].event.messageId in Run(st, actions[..i]).messages
    ensures key in Run(st, actions).events && Run(st, actions).events[key] == st.events[key]
    decreases |actions|
  {
    if actions != [] {
      var n := |actions| - 1;
      assert forall i :: 0 <= i <= n ==> actions[..n][..i] == actions[..i];
      PublishedIsAbsorbing(st, actions[..n], key);
      RunNoOrphans(st, actions[..n]);
      var mid := Run(st, actions[..n]);
      assert actions[..|actions|] == actions;
      StepKeepsUnpublished(mid, actions[n], key);
      StepKeepsRecord(mid, actions[n], key);
    }
  }

  /** Steps of a run that add the outbox record `key`. */
  ghost function Enqueued(actions: seq<Action>, key: string): nat
    decreases |actions|
  {
    if actions == [] then 0
    else
      var n := |actions| - 1;
      var mid := Run(EMPTY, actions[..n]);
      Enqueued(actions[..n], key) + if key !in mid.events && key in Step(mid, actions[n]).events then 1 else 0
  }

  /** Steps of a run that create message `id`: one, plus one for each cleanup it comes back from. */
  ghost function Creations(actions: seq<Action>, id: string): nat
    decreases |actions|
  {
    if actions == [] then 0
    else
      var n := |actions| - 1;
      var mid := Run(EMPTY, actions[..n]);
      Creations(actions[..n], id) + if id !in mid.messages && id in Step(mid, actions[n]).messages then 1 else 0
  }

  /** However often a message fails, is requeued and fails again, each terminal status is
      enqueued at most once for each time the message was created. */
  lemma {:induction false} EnqueuedAtMostOnce(actions: seq<Action>, id: string, status: Status)
    ensures var st, key := Run(EMPTY, actions), EventId(id, status);
            Enqueued(actions, key) + (if id in st.messages && key !in st.events then 1 else 0) <= Creations(actions, id)
    decreases |actions|
  {
    if actions != [] {
      var n, key := |actions| - 1, EventId(id, status);
      EnqueuedAtMostOnce(actions[..n], id, status);
      RunNoOrphans(EMPTY, actions[..n]);
      var mid := Run(EMPTY, actions[..n]);
      var st' := Step(mid, actions[n]);
      if key in mid.events {
        var event := mid.events[key].event;
        EventIdInjective(event.messageId, event.terminalStatus, id, status);
        StepKeepsUnpublished(mid, actions[n], key);
      } else if key in st'.events {
        StepEnqueues(mid, actions[n], key);
        EventIdInjective(actions[n].id, if actions[n].MarkFailed? then Failed else Discarded, id, status);
      }
    }
  }

  // ---- The mirror ------------------------------------------------------------------------

  /** Whether publishing is on is a setting of the service, the same for all its calls, and
      no caller stores a message that is already failed or discarded. */
  predicate Configured(a: Action, publish: bool) {
    match a
    case MarkFailed(_, transition, _) => transition.publish == publish
    case Discard(_, _, transition, _) => transition.publish == publish
    case Save(m, _, _, _) => !Reportable(m.status)
    case _ => true
  }

  ghost predicate MirrorsOutbox(st: Store, id: string, publish: bool)
    requires id in st.messages
  {
    var m := st.messages[id];
    var key := EventId(id, m.status);
    Reportable(m.status) ==>
      if publish then key in st.events && Mirrors(m, st.events[key])
      else m.publishStatus.Disabled? && m.publishAttempts == 0
  }

  ghost predicate Mirror(st: Store, publish: bool) {
    && (forall id :: id in st.messages ==> MirrorsOutbox(st, id, publish))
    && (!publish ==> st.events == map[])
  }

  /** In every reachable state a failed or discarded message has the outbox record for that
      status and shows its publication state, attempts, next time, error and publish time;
      with publishing off there is no record at all and the message says so. */
  lemma {:induction false} OutboxMirror(actions: seq<Action>, publish: bool)
    requires forall i :: 0 <= i < |actions| ==> Configured(actions[i], publish)
    ensures Mirror(Run(EMPTY, actions), publish)
    decreases |actions|
  {
    if actions != [] {
      var n := |actions| - 1;
      OutboxMirror(actions[..n], publish);
      RunNoOrphans(EMPTY, actions[..n]);
      StepMirror(Run(EMPTY, actions[..n]), actions[n], publish);
    }
  }

  lemma StepMirror(st: Store, a: Action, publish: bool)
    requires WellFormed(st) && NoOrphans(st) && Mirror(st, publish) && Configured(a, publish)
    ensures Mirror(Step(st, a), publish)
  {
    var st' := Step(st, a);
    forall id | id in st'.messages
      ensures MirrorsOutbox(st', id, publish)
    {
      if Reportable(st'.messages[id].status) {
        MirrorAt(st, a, publish, id);
      }
    }
    if !publish {
      forall key
        ensures key !in st'.events
      {
        if key in st'.events {
          StepEnqueues(st, a, key);
        }
      }
      assert st'.events == map[];
    }
  }

  lemma MirrorAt(st: Store, a: Action, publish: bool, id: string)
    requires WellFormed(st) && NoOrphans(st) && Mirror(st, publish) && Configured(a, publish)
    requires id in Step(st, a).messages && Reportable(Step(st, a).messages[id].status)
    ensures MirrorsOutbox(Step(st, a), id, publish)
  {
    match a
    case MarkFailed(target, transition, clock) => FailedMirror(st, target, transition, clock, publish, id);
    case Discard(target, reason, transition, clock) =>
      DiscardMirror(st, target, reason, transition, clock, publish, id);
    case Save(_, _, _, _) => IntakeMirror(st, a, publish, id);
    case Claim(_, _, _, _, _, _, _) => IntakeMirror(st, a, publish, id);
    case Requeue(_, _, _, _) => IntakeMirror(st, a, publish, id);
    case MarkPublished(_, _, _, _) => PublishMirror(st, a, publish, id);
    case MarkPublishFailed(_, _, _, _) => PublishMirror(st, a, publish, id);
    case DeleteExpired(_, _, _) => DeleteMirror(st, a, publish, id);
    case _ => QuietMirror(st, a, publish, id);
  }

  /** The remaining steps leave reportable messages and the mirrored record fields alone. */
  lemma IntakeMirror(st: Store, a: Action, publish: bool, id: string)
    requires WellFormed(st) && Mirror(st, publish) && Configured(a, publish) && (a.Save? || a.Claim? || a.Requeue?)
    requires id in Step(st, a).messages && Reportable(Step(st, a).messages[id].status)
    ensures MirrorsOutbox(Step(st, a), id, publish)
  {
    assert id in st.messages && MirrorsOutbox(st, id, publish);
  }

  lemma QuietMirror(st: Store, a: Action, publish: bool, id: string)
    requires WellFormed(st) && Mirror(st, publish)
    requires a.MarkSent? || a.MarkDelivered? || a.MarkAttemptFailed? || a.ClaimTerminal?
    requires id in Step(st, a).messages && Reportable(Step(st, a).messages[id].status)
    ensures MirrorsOutbox(Step(st, a), id, publish)
  {
    assert id in st.messages && MirrorsOutbox(st, id, publish);
  }

  lemma FailedMirror(st: Store, target: string, transition: TerminalTransition, clock: Time, publish: bool, id: string)
    requires WellFormed(st) && Mirror(st, publish) && transition.publish == publish
    requires id in st.messages && Reportable(FailedEffect(st, target, transition, clock).messages[id].status)
    ensures MirrorsOutbox(FailedEffect(st, target, transition, clock), id, publish)
  {
    assert MirrorsOutbox(st, id, publish);
    assert FailedEffect(st, target, transition, clock).messages[id].messageId == id;
  }

  lemma DiscardMirror(st: Store, target: string, reason: string, transition: TerminalTransition, clock: Time,
                      publish: bool, id: string)
    requires WellFormed(st) && Mirror(st, publish) && transition.publish == publish
    requires id in st.messages && Reportable(DiscardEffect(st, target, reason, transition, clock).messages[id].status)
    ensures MirrorsOutbox(DiscardEffect(st, target, reason, transition, clock), id, publish)
  {
    assert MirrorsOutbox(st, id, publish);
    assert DiscardEffect(st, target, reason, transition, clock).messages[id].messageId == id;
  }

  lemma PublishMirror(st: Store, a: Action, publish: bool, id: string)
    requires WellFormed(st) && Mirror(st, publish)
    requires (a.MarkPublished? || a.MarkPublishFailed?) && id in st.messages && Reportable(st.messages[id].status)
    ensures MirrorsOutbox(Step(st, a), id, publish)
  {
    assert MirrorsOutbox(st, id, publish);
    if EventId(a.id, a.status) == EventId(id, st.messages[id].status) {
      EventIdInjective(a.id, a.status, id, st.messages[id].status);
    }
  }

  lemma DeleteMirror(st: Store, a: Action, publish: bool, id: string)
    requires WellFormed(st) && Mirror(st, publish) && a.DeleteExpired?
    requires id in Step(st, a).messages && Reportable(st.messages[id].status)
    ensures MirrorsOutbox(Step(st, a), id, publish)
  {
    assert MirrorsOutbox(st, id, publish);
    var ids, key := Ids(Victims(st, a.status, a.before, a.limit)), EventId(id, st.messages[id].status);
    if key in EventKeys(ids) {
      var other :| other in ids && (key == EventId(other, Failed) || key == EventId(other, Discarded));
      EventIdInjective(id, st.messages[id].status, other, if key == EventId(other, Failed) then Failed else Discarded);
    }
  }
}
