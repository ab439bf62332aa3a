/** Leases keep workers apart: where messages are taken up only by submission and by claims, and
    every flight is over before its lease ends, no message has two holders, so the attempt limit
    holds without supposing it. */
module LeasedAttempts {
  import opened Messages
  import opened Fairness
  import opened StoreModel
  import opened Races
  import opened ServiceModel
  import opened Attempts

  // ---- What the workers keep to ----------------------------------------------------------

  /** The time a claim reads. */
  function ClaimTime(a: Action): Time
    requires a.Claim?
  {
    OrElse(a.now, a.clock)
  }

  /** The claim selects the message and takes out a lease on it. */
  ghost predicate Takes(st: Store, a: Action, id: string) {
    && WellFormed(st) && a.Claim? && a.owner != "" && ClaimTime(a) > 0
    && id in Ids(RetryChoice(st.messages, ClaimTime(a), a.ackTimeout, a.limit, a.candidateLimit))
  }

  /** The message taken up in event `i` is one that the claim in event `j` selected.  A claim returns
      copies of its messages in the one call, so nothing but taking up the others comes between. */
  ghost predicate HandedOut(events: seq<Event>, states: seq<System>, id: string, j: nat, i: nat)
    requires j < i < |events| < |states|
  {
    && events[j].Other? && Takes(states[j].store, events[j].action, id)
    && forall k :: j < k < i ==> events[k].PickUp? && events[k].id != id
  }

  /** Every flight of the message that is not over yet has its lease still running at this time. */
  ghost predicate InTime(s: System, id: string, now: Time) {
    forall w :: w in Crew(s.flights, id) ==> now < s.flights[w].snapshot.claimUntil
  }

  /** What event `i` keeps to about the message.  A submission takes out a lease and does not bring
      the ID back while someone still holds the message that was cleaned up under it; a message
      is taken up from the claim in event `claims[i]`; a claim comes before the leases of flights
      under way have ended; and an operator does not requeue what someone holds. */
  ghost predicate Keeps(c: Config, events: seq<Event>, states: seq<System>, claims: seq<nat>, id: string, i: nat)
    requires |states| == |events| + 1 && |claims| == |events| && i < |events|
  {
    var s := states[i];
    match events[i]
    case Submit(_, _, _, now, _) =>
      SubmittedId(c, events[i]) == id && id !in s.store.messages ==>
        c.claimOwner != "" && c.claimLease > 0 && now > 0 && Crew(s.flights, id) == {}
    case PickUp(_, target, _) => target == id ==> claims[i] < i && HandedOut(events, states, id, claims[i], i)
    case Other(a) =>
      && (a.Claim? ==> InTime(s, id, ClaimTime(a)))
      && (a.Requeue? && a.id == id ==> Crew(s.flights, id) == {})
    case _ => true
  }

  ghost predicate AllKeep(c: Config, events: seq<Event>, states: seq<System>, claims: seq<nat>, id: string) {
    && |states| == |events| + 1 && |claims| == |events|
    && forall i :: 0 <= i < |events| ==> Keeps(c, events, states, claims, id, i)
  }

  // ---- The invariant ---------------------------------------------------------------------

  /** As long as the message is in the queue, nobody can take it before this time. */
  ghost predicate Guarded(st: Store, id: string, until: Time) {
    until > 0 && (id in st.messages && InQueue(st.messages[id]) ==> until <= st.messages[id].claimUntil)
  }

  /** One holder at most, and the lease it took out still guards the message. */
  ghost predicate Apart(s: System, id: string) {
    && |Crew(s.flights, id)| <= 1
    && forall w :: w in Crew(s.flights, id) ==> Guarded(s.store, id, s.flights[w].snapshot.claimUntil)
  }

  // ---- The store's steps keep the guard --------------------------------------------------

  /** No step but a mark, a requeue or a creation brings a message into the queue. */
  lemma OtherKeepsOut(st: Store, a: Action, id: string)
    requires WellFormed(st) && !IsMark(a) && !(a.Requeue? && a.id == id)
    requires id in st.messages && id in Step(st, a).messages && InQueue(Step(st, a).messages[id])
    ensures InQueue(st.messages[id])
  {
    if a.Discard? {
      DiscardKeepsOut(st, a.id, a.reason, a.transition, a.clock, id);
    }
  }

  lemma DiscardKeepsOut(st: Store, target: string, reason: string, transition: TerminalTransition, clock: Time,
                        id: string)
    requires id in st.messages
    ensures var st' := DiscardEffect(st, target, reason, transition, clock);
            id in st'.messages && (InQueue(st'.messages[id]) ==> st'.messages[id] == st.messages[id])
  {
  }

  lemma DeliveredKeepsOut(st: Store, target: string, d: Device, at: Time, clock: Time, id: string)
    requires id in st.messages
    ensures var st' := DeliveredEffect(st, target, d, at, clock);
            id in st'.messages && (InQueue(st'.messages[id]) ==> st'.messages[id] == st.messages[id])
  {
  }

  lemma DeleteKeeps(st: Store, status: Status, before: Time, limit: int, id: string)
    requires WellFormed(st) && id in DeleteEffect(st, status, before, limit).messages
    ensures id in st.messages && DeleteEffect(st, status, before, limit).messages[id] == st.messages[id]
  {
  }

  lemma OtherGuards(st: Store, a: Action, id: string, until: Time)
    requires WellFormed(st) && !IsMark(a) && !(a.Requeue? && a.id == id) && Guarded(st, id, until)
    requires a.Save? ==> Prepared(a.message, a.freshId, a.clock).messageId in st.messages
    ensures Guarded(Step(st, a), id, until)
  {
    var st' := Step(st, a);
    if id in st'.messages && InQueue(st'.messages[id]) {
      OtherKnown(st, a, id);
      OtherKeepsOut(st, a, id);
      QueuedGuards(st, a, st', id, until);
    }
  }

  lemma QueuedGuards(st: Store, a: Action, st': Store, id: string, until: Time)
    requires WellFormed(st) && !IsMark(a) && !(a.Requeue? && a.id == id) && Leased(st, id, until)
    requires st' == Step(st, a) && id in st'.messages && InQueue(st'.messages[id])
    ensures until <= st'.messages[id].claimUntil
  {
    if a.DeleteExpired? {
      DeleteKeeps(st, a.status, a.before, a.limit, id);
    } else if a.Discard? {
      DiscardKeepsOut(st, a.id, a.reason, a.transition, a.clock, id);
    } else if a.MarkDelivered? {
      DeliveredKeepsOut(st, a.id, a.device, a.deliveredAt, a.clock, id);
    } else {
      StepKeepsLease(st, a, id, until);
    }
  }

  /** A mark on another message does not matter here. */
  lemma MarkGuards(st: Store, a: Action, id: string, until: Time)
    requires WellFormed(st) && IsMark(a) && a.id != id && Guarded(st, id, until)
    ensures Guarded(Step(st, a), id, until)
  {
    MarkOthers(st, a, id);
  }

  /** What a claim has taken is guarded until the end of its lease. */
  lemma TakenGuarded(st: Store, a: Action, id: string)
    requires Takes(st, a, id)
    ensures id in st.messages && DueForRetry(st.messages[id], ClaimTime(a), a.ackTimeout)
    ensures id in Step(st, a).messages && Step(st, a).messages[id].claimUntil > 0
  {
    ChosenAreDue(st.messages, ClaimTime(a), a.ackTimeout, a.limit, a.candidateLimit, id);
  }

  /** A message guarded past the time of a claim is not taken by it. */
  lemma GuardKeepsOff(st: Store, a: Action, id: string, until: Time)
    requires Guarded(st, id, until) && a.Claim? && ClaimTime(a) < until
    ensures !Takes(st, a, id)
  {
    if Takes(st, a, id) {
      TakenGuarded(st, a, id);
    }
  }

  // ---- One event -------------------------------------------------------------------------

  lemma OtherApart(c: Config, s: System, e: Event, id: string)
    requires WellFormed(s.store) && Enabled(c, s, e) && e.Other? && Apart(s, id)
    requires e.action.Requeue? && e.action.id == id ==> Crew(s.flights, id) == {}
    ensures Apart(Next(c, s, e), id)
  {
    forall w | w in Crew(s.flights, id)
      ensures Guarded(Step(s.store, e.action), id, s.flights[w].snapshot.claimUntil)
    {
      OtherGuards(s.store, e.action, id, s.flights[w].snapshot.claimUntil);
    }
  }

  /** A worker lets its message go, with or without a mark on it. */
  lemma LetGoApart(s: System, w: nat, st': Store, id: string)
    requires Apart(s, id) && w in s.flights
    requires s.flights[w].snapshot.messageId != id ==>
               forall until: Time :: Guarded(s.store, id, until) ==> Guarded(st', id, until)
    ensures Apart(s.(store := st', flights := s.flights - {w}), id)
  {
    var crew, crew' := Crew(s.flights, id), Crew(s.flights - {w}, id);
    assert crew' == crew - {w};
    if s.flights[w].snapshot.messageId == id {
      assert w in crew;
      assert |crew - {w}| == |crew| - 1;
    } else {
      assert crew' == crew;
    }
  }

  lemma MarkLetsGo(s: System, w: nat, a: Action, id: string)
    requires WellFormed(s.store) && Apart(s, id) && w in s.flights
    requires IsMark(a) && a.id == s.flights[w].snapshot.messageId
    ensures Apart(s.(store := Step(s.store, a), flights := s.flights - {w}), id)
  {
    if a.id != id {
      forall until: Time | Guarded(s.store, id, until)
        ensures Guarded(Step(s.store, a), id, until)
      {
        MarkGuards(s.store, a, id, until);
      }
    }
    LetGoApart(s, w, Step(s.store, a), id);
  }

  lemma WorkerApart(c: Config, s: System, e: Event, id: string)
    requires WellFormed(s.store) && Enabled(c, s, e) && (e.Abandon? || e.Record? || e.SendOut?) && Apart(s, id)
    ensures Apart(Next(c, s, e), id)
  {
    match e
    case Record(w, env) => MarkLetsGo(s, w, RecordAction(c, s.flights[w], env), id);
    case Abandon(w, env) =>
      var verdict := BeforeSend(c, s.flights[w].snapshot, env);
      if verdict.GiveUp? {
        MarkLetsGo(s, w, verdict.action, id);
      } else {
        LetGoApart(s, w, s.store, id);
      }
    case SendOut(w, env) =>
      var flights' := Next(c, s, e).flights;
      assert Crew(flights', id) == Crew(s.flights, id);
      assert forall v :: v in Crew(s.flights, id) ==> flights'[v].snapshot == s.flights[v].snapshot;
  }

  /** A message nobody held now has one holder. */
  lemma TakeUpApart(s: System, w: nat, f: Flight, s': System, id: string)
    requires w !in s.flights && f.snapshot.messageId == id && Crew(s.flights, id) == {}
    requires s'.flights == s.flights[w := f] && Guarded(s'.store, id, f.snapshot.claimUntil)
    ensures Apart(s', id)
  {
    assert Crew(s'.flights, id) == {w};
  }

  lemma TakeOther(s: System, w: nat, f: Flight, s': System, id: string)
    requires w !in s.flights && f.snapshot.messageId != id && s'.flights == s.flights[w := f]
    requires |Crew(s.flights, id)| <= 1
    requires forall v :: v in Crew(s.flights, id) ==> Guarded(s'.store, id, s.flights[v].snapshot.claimUntil)
    ensures Apart(s', id)
  {
    assert Crew(s'.flights, id) == Crew(s.flights, id);
  }

  /** What a save leaves of the guard on a message that is there already, or under another ID. */
  lemma SubmitGuards(c: Config, st: Store, e: Event, id: string, until: Time)
    requires WellFormed(st) && e.Submit? && Guarded(st, id, until)
    requires SubmittedId(c, e) == id ==> id in st.messages
    ensures Guarded(Step(st, SubmitAction(c, e)), id, until)
  {
    if SubmittedId(c, e) == id {
      OtherGuards(st, SubmitAction(c, e), id, until);
    } else {
      SaveOthers(st, SubmitAction(c, e), id);
    }
  }

  lemma SaveOthers(st: Store, a: Action, id: string)
    requires a.Save? && Prepared(a.message, a.freshId, a.clock).messageId != id
    ensures var st' := SaveEffect(st, a.message, a.capacity, a.freshId, a.clock);
            (id in st'.messages <==> id in st.messages) && (id in st.messages ==> st'.messages[id] == st.messages[id])
  {
  }

  /** A new submission carries the lease it takes out. */
  lemma SubmittedLeased(c: Config, st: Store, e: Event)
    requires WellFormed(st) && e.Submit? && c.claimOwner != "" && c.claimLease > 0 && e.now > 0
    requires SubmittedId(c, e) !in st.messages && SubmittedId(c, e) in Step(st, SubmitAction(c, e)).messages
    ensures var m := Step(st, SubmitAction(c, e)).messages[SubmittedId(c, e)];
            m.messageId == SubmittedId(c, e) && m.claimUntil == e.now + c.claimLease
  {
  }

  lemma SubmitApart(c: Config, s: System, e: Event, id: string)
    requires WellFormed(s.store) && Enabled(c, s, e) && e.Submit? && Apart(s, id)
    requires SubmittedId(c, e) == id && id !in s.store.messages ==>
               c.claimOwner != "" && c.claimLease > 0 && e.now > 0 && Crew(s.flights, id) == {}
    ensures Apart(Next(c, s, e), id)
  {
    var target, st' := SubmittedId(c, e), Step(s.store, SubmitAction(c, e));
    if target == id && id !in s.store.messages {
      NewApart(c, s, e, st', id);
    } else {
      forall w | w in Crew(s.flights, id)
        ensures Guarded(st', id, s.flights[w].snapshot.claimUntil)
      {
        SubmitGuards(c, s.store, e, id, s.flights[w].snapshot.claimUntil);
      }
      SubmitOutcome(c, s.store, e, target);
      IntakeApart(s, st', target, e.worker, id);
    }
  }

  lemma NewApart(c: Config, s: System, e: Event, st': Store, id: string)
    requires WellFormed(s.store) && e.Submit? && e.worker !in s.flights && st' == Step(s.store, SubmitAction(c, e))
    requires SubmittedId(c, e) == id && id !in s.store.messages
    requires c.claimOwner != "" && c.claimLease > 0 && e.now > 0 && Crew(s.flights, id) == {}
    ensures Apart(Intake(s, st', id, e.worker), id)
  {
    if id in st'.messages {
      SubmittedLeased(c, s.store, e);
      TakeUpApart(s, e.worker, Flight(st'.messages[id], true, false), Intake(s, st', id, e.worker), id);
    }
  }

  lemma IntakeApart(s: System, st': Store, target: string, w: nat, id: string)
    requires w !in s.flights && |Crew(s.flights, id)| <= 1
    requires target == id ==> id in s.store.messages
    requires target in st'.messages ==> st'.messages[target].messageId == target
    requires forall v :: v in Crew(s.flights, id) ==> Guarded(st', id, s.flights[v].snapshot.claimUntil)
    ensures Apart(Intake(s, st', target, w), id)
  {
    if target !in s.store.messages && target in st'.messages {
      TakeOther(s, w, Flight(st'.messages[target], true, false), Intake(s, st', target, w), id);
    }
  }

  // ---- Whole runs ------------------------------------------------------------------------

  /** The claim finds nobody holding what it takes. */
  lemma ClaimFindsFree(s: System, a: Action, id: string)
    requires Apart(s, id) && a.Claim? && InTime(s, id, ClaimTime(a)) && Takes(s.store, a, id)
    ensures Crew(s.flights, id) == {}
  {
    if w :| w in Crew(s.flights, id) {
      GuardKeepsOff(s.store, a, id, s.flights[w].snapshot.claimUntil);
      assert false;
    }
  }

  /** Nobody holds the message, and its lease is the one just taken out. */
  ghost predicate Free(s: System, st: Store, id: string) {
    s.store == st && Crew(s.flights, id) == {}
  }

  lemma PickUpFree(c: Config, s: System, e: Event, s': System, st: Store, id: string)
    requires Free(s, st, id) && Moves(c, s, e, s') && e.PickUp? && e.id != id
    ensures Free(s', st, id)
  {
    assert s.store.messages[e.id].messageId == e.id;
    assert Crew(s'.flights, id) == Crew(s.flights, id);
  }

  /** Between a claim and the worker that takes the message from it nobody else does. */
  lemma {:induction false} HandedOver(c: Config, events: seq<Event>, states: seq<System>, id: string, j: nat, k: nat,
                                      st: Store)
    requires IsRun(c, events, states) && j < k < |states| && Free(states[j + 1], st, id)
    requires forall i :: j < i < k ==> events[i].PickUp? && events[i].id != id
    ensures Free(states[k], st, id)
    decreases k
  {
    if k > j + 1 {
      HandedOver(c, events, states, id, j, k - 1, st);
      assert Moves(c, states[k - 1], events[k - 1], states[k]);
      PickUpFree(c, states[k - 1], events[k - 1], states[k], st, id);
    }
  }

  lemma ClaimFrees(c: Config, s: System, e: Event, s': System, id: string)
    requires Moves(c, s, e, s') && e.Other? && Takes(s.store, e.action, id) && Apart(s, id)
    requires InTime(s, id, ClaimTime(e.action))
    ensures Free(s', s'.store, id) && id in s'.store.messages && s'.store.messages[id].claimUntil > 0
  {
    ClaimFindsFree(s, e.action, id);
    TakenGuarded(s.store, e.action, id);
  }

  lemma PickUpApart(c: Config, s: System, e: Event, s': System, id: string)
    requires Moves(c, s, e, s') && e.PickUp? && Apart(s, id)
    requires e.id == id ==> Crew(s.flights, id) == {} && s.store.messages[id].claimUntil > 0
    ensures Apart(s', id)
  {
    var f := Flight(s.store.messages[e.id], false, false);
    assert f.snapshot.messageId == e.id;
    if e.id == id {
      TakeUpApart(s, e.worker, f, s', id);
    } else {
      TakeOther(s, e.worker, f, s', id);
    }
  }

  /** Who takes the message up finds it free and leased. */
  lemma TakenFromClaim(c: Config, events: seq<Event>, states: seq<System>, claims: seq<nat>, id: string, i: nat)
    requires IsRun(c, events, states) && AllKeep(c, events, states, claims, id) && i < |events|
    requires events[i].PickUp? && events[i].id == id
    requires claims[i] < i ==> Apart(states[claims[i]], id)
    ensures var s := states[i];
            Crew(s.flights, id) == {} && id in s.store.messages && s.store.messages[id].claimUntil > 0
  {
    assert Keeps(c, events, states, claims, id, i);
    var j := claims[i];
    assert Keeps(c, events, states, claims, id, j);
    assert Moves(c, states[j], events[j], states[j + 1]);
    ClaimFrees(c, states[j], events[j], states[j + 1], id);
    HandedOver(c, events, states, id, j, i, states[j + 1].store);
  }

  lemma {:induction false} LeasedApart(c: Config, events: seq<Event>, states: seq<System>, claims: seq<nat>,
                                       id: string, n: nat)
    requires IsRun(c, events, states) && AllKeep(c, events, states, claims, id) && n < |states|
    ensures Apart(states[n], id)
    decreases n
  {
    if n == 0 {
      assert Crew(START.flights, id) == {};
    } else {
      var i := n - 1;
      var s, e := states[i], events[i];
      LeasedApart(c, events, states, claims, id, i);
      assert Moves(c, s, e, states[n]);
      assert Keeps(c, events, states, claims, id, i);
      if e.PickUp? {
        if e.id == id {
          LeasedApart(c, events, states, claims, id, claims[i]);
          TakenFromClaim(c, events, states, claims, id, i);
        }
        PickUpApart(c, s, e, states[n], id);
      } else if e.Submit? {
        SubmitApart(c, s, e, id);
      } else if e.Other? {
        OtherApart(c, s, e, id);
      } else {
        WorkerApart(c, s, e, id);
      }
    }
  }

  /** Where messages are taken up by submission and claim alone and no flight outlasts its lease,
      never more than one worker holds the message. */
  lemma LeasesKeepApart(c: Config, events: seq<Event>, states: seq<System>, claims: seq<nat>, id: string)
    requires IsRun(c, events, states) && AllKeep(c, events, states, claims, id)
    ensures AtMost(states, id, 1)
  {
    forall n | 0 <= n < |states|
      ensures |Crew(states[n].flights, id)| <= 1
    {
      LeasedApart(c, events, states, claims, id, n);
    }
  }

  /** There the attempt limit holds. */
  lemma LeasedAttemptsBounded(c: Config, events: seq<Event>, states: seq<System>, claims: seq<nat>, n: nat, id: string)
    requires ValidConfig(c) && IsRun(c, events, states) && n < |states| && id in states[n].store.messages
    requires AllKeep(c, events, states, claims, id)
    ensures var s := states[n];
            var m := s.store.messages[id];
            && 0 <= m.attempts <= Limit(c, m)
            && (Undecided(m) ==> Counted(s.calls, id) == m.attempts + |InAir(s.flights, id)| <= Limit(c, m))
  {
    LeasesKeepApart(c, events, states, claims, id);
    AttemptsBounded(c, events, states, n, id);
  }
}
