/** Delivery attempts under interleaving.  The calls of internal/downlink/service.go are cut at
    their store calls: taking a message up, sending it and recording the outcome are separate
    steps, and acknowledgements, operators, scans and cleanup may fall between any two. */
module Attempts {
  import opened Messages
  import opened Ordering
  import opened Fairness
  import opened StoreModel
  import opened ServiceModel
  import opened Chains

  /** A message in a worker's hands: the copy it works from, whether it is the submission's
      own first attempt, and whether the delivery call has been made. */
  datatype Flight = Flight(snapshot: Message, first: bool, sent: bool)

  type Flights = map<nat, Flight>

  /** `flights` says what each worker holds; several may hold the same message.  `calls` counts
      delivery calls since creation or last requeue; a call whose outcome is still to be
      recorded at that moment belongs to the new count. */
  datatype System = System(store: Store, flights: Flights, calls: map<string, nat>)

  /** How a worker comes by a message: from a scan, from a scan that claimed it, or from the
      flush when its device binds, which takes no lease. */
  datatype Via = ByScan(now: Time) | ByClaim | ByFlush(clock: Time)

  datatype Event =
    | Submit(worker: nat, req: PushRequest, freshId: string, now: Time, clock: Time)
    | PickUp(worker: nat, id: string, via: Via)
    | Abandon(worker: nat, env: Env)
    | SendOut(worker: nat, env: Env)
    | Record(worker: nat, env: Env)
    | Other(action: Action)

  function SubmitAction(c: Config, e: Event): Action
    requires e.Submit?
  {
    Save(Submission(c, e.req, e.freshId, e.now), c.capacity, e.freshId, e.clock)
  }

  function SubmittedId(c: Config, e: Event): string
    requires e.Submit?
  {
    Prepared(Submission(c, e.req, e.freshId, e.now), e.freshId, e.clock).messageId
  }

  predicate Offered(c: Config, m: Message, via: Via) {
    match via
    case ByScan(now) => DueForRetry(m, now, c.ackTimeout)
    case ByClaim => InQueue(m) && c.claimOwner != "" && m.claimOwner == c.claimOwner
    case ByFlush(clock) => m.status.Pending? && !ClaimActive(m, clock)
  }

  /** A worker's own steps follow `retryMessage` and `pushReliable`; nothing keeps two workers
      from holding the same message. */
  ghost predicate Enabled(c: Config, s: System, e: Event) {
    match e
    case Submit(w, _, _, _, _) => w !in s.flights
    case PickUp(w, id, via) => w !in s.flights && id in s.store.messages && Offered(c, s.store.messages[id], via)
    case Abandon(w, env) =>
      w in s.flights && !s.flights[w].first && !s.flights[w].sent && !BeforeSend(c, s.flights[w].snapshot, env).Attempt?
    case SendOut(w, env) =>
      w in s.flights && !s.flights[w].sent && (s.flights[w].first || BeforeSend(c, s.flights[w].snapshot, env).Attempt?)
    case Record(w, env) => w in s.flights && s.flights[w].sent
    case Other(a) =>
      !IsMark(a) && (a.Save? ==> Prepared(a.message, a.freshId, a.clock).messageId in s.store.messages)
  }

  predicate Undecided(m: Message) {
    !m.status.Delivered? && !m.status.Discarded?
  }

  function RecordAction(c: Config, f: Flight, env: Env): (a: Action)
    ensures IsMark(a) && CountsAttempt(a) && a.id == f.snapshot.messageId
  {
    if f.first then AfterFirstSend(f.snapshot, env) else AfterSend(c, f.snapshot, env)
  }

  /** The store has the message as saved; if it is new, the worker holds it. */
  ghost function Intake(s: System, st': Store, target: string, w: nat): System {
    if target !in s.store.messages && target in st'.messages then
      System(st', s.flights[w := Flight(st'.messages[target], true, false)],
             s.calls[target := |InAir(s.flights, target)|])
    else s.(store := st')
  }

  ghost function Next(c: Config, s: System, e: Event): System
    requires WellFormed(s.store) && Enabled(c, s, e)
  {
    match e
    case Submit(w, _, _, _, _) =>
      Intake(s, Step(s.store, SubmitAction(c, e)), SubmittedId(c, e), w)
    case PickUp(w, id, _) => s.(flights := s.flights[w := Flight(s.store.messages[id], false, false)])
    case Abandon(w, env) =>
      var verdict := BeforeSend(c, s.flights[w].snapshot, env);
      s.(store := if verdict.GiveUp? then Step(s.store, verdict.action) else s.store, flights := s.flights - {w})
    case SendOut(w, env) =>
      var id := s.flights[w].snapshot.messageId;
      s.(flights := s.flights[w := s.flights[w].(sent := true)], calls := s.calls[id := Counted(s.calls, id) + 1])
    case Record(w, env) =>
      s.(store := Step(s.store, RecordAction(c, s.flights[w], env)), flights := s.flights - {w})
    case Other(a) =>
      s.(store := Step(s.store, a),
         calls := if a.Requeue? && RequeueReplyOf(s.store, a.id, a.capacity).Requeued?
                  then s.calls[a.id := |InAir(s.flights, a.id)|] else s.calls)
  }

  // ---- Who holds a message ---------------------------------------------------------------

  /** The workers that hold the message. */
  function Crew(flights: Flights, id: string): set<nat> {
    set w | w in flights && flights[w].snapshot.messageId == id
  }

  /** Those that have made the delivery call and not recorded it yet. */
  function InAir(flights: Flights, id: string): set<nat> {
    set w | w in flights && flights[w].snapshot.messageId == id && flights[w].sent
  }

  /** The worker's copy allows it an attempt. */
  predicate Able(c: Config, f: Flight) {
    f.first || f.snapshot.attempts < Limit(c, f.snapshot)
  }

  /** Those that may still add an attempt. */
  function Armed(c: Config, flights: Flights, id: string): set<nat> {
    set w | w in flights && flights[w].snapshot.messageId == id && Able(c, flights[w])
  }

  function Limit(c: Config, m: Message): int {
    PolicyFor(c, m).maxAttempts
  }

  lemma TakeUp(c: Config, flights: Flights, w: nat, f: Flight, id: string)
    requires w !in flights && !f.sent
    ensures InAir(flights[w := f], id) == InAir(flights, id)
    ensures Armed(c, flights[w := f], id) ==
              Armed(c, flights, id) + if f.snapshot.messageId == id && Able(c, f) then {w} else {}
    ensures w !in Armed(c, flights, id)
  {
  }

  lemma LetGo(c: Config, flights: Flights, w: nat, id: string)
    requires w in flights
    ensures var f := flights[w];
            && InAir(flights - {w}, id)
               == InAir(flights, id) - (if f.snapshot.messageId == id && f.sent then {w} else {})
            && Armed(c, flights - {w}, id)
               == Armed(c, flights, id) - (if f.snapshot.messageId == id && Able(c, f) then {w} else {})
  {
  }

  lemma SetOff(c: Config, flights: Flights, w: nat, id: string)
    requires w in flights && !flights[w].sent
    ensures var flights', f := flights[w := flights[w].(sent := true)], flights[w];
            && InAir(flights', id) == InAir(flights, id) + (if f.snapshot.messageId == id then {w} else {})
            && w !in InAir(flights, id)
            && Armed(c, flights', id) == Armed(c, flights, id)
  {
  }

  lemma ArmedInCrew(c: Config, flights: Flights, id: string)
    ensures |Armed(c, flights, id)| <= |Crew(flights, id)|
  {
    SubsetSize(Armed(c, flights, id), Crew(flights, id));
  }

  // ---- Invariants ------------------------------------------------------------------------

  /** The message's counter counts the calls made, save those in the air. */
  ghost predicate Accounted(s: System, id: string) {
    id in s.store.messages ==>
      var m := s.store.messages[id];
      && 0 <= m.attempts <= Counted(s.calls, id)
      && (Undecided(m) ==> Counted(s.calls, id) == m.attempts + |InAir(s.flights, id)|)
  }

  /** Only workers whose copy allows it make a delivery call. */
  ghost predicate Licensed(c: Config, flights: Flights) {
    forall w :: w in flights && flights[w].sent ==> Able(c, flights[w])
  }

  ghost predicate Invariant(c: Config, s: System) {
    WellFormed(s.store) && Licensed(c, s.flights) && forall id :: Accounted(s, id)
  }

  /** The attempts made and those the present holders may still add stay below the limit plus
      the number of holders. */
  ghost predicate Capped(c: Config, s: System, id: string, k: nat) {
    id in s.store.messages ==>
      s.store.messages[id].attempts + |Armed(c, s.flights, id)| <= Limit(c, s.store.messages[id]) - 1 + k
  }

  // ---- One step --------------------------------------------------------------------------

  /** What the steps outside a worker's hands can do to the attempt counter. */
  lemma OtherOutcome(st: Store, a: Action, id: string)
    requires WellFormed(st) && !IsMark(a) && id in st.messages && id in Step(st, a).messages
    ensures var m, m' := st.messages[id], Step(st, a).messages[id];
            && m'.policy == m.policy && m'.msgId == m.msgId
            && if a.Requeue? && a.id == id && RequeueReplyOf(st, id, a.capacity).Requeued?
               then m'.attempts == 0 && m'.status.Pending?
               else m'.attempts == m.attempts && (Undecided(m') ==> Undecided(m))
  {
    if a.Discard? {
      DiscardOutcome(st, a.id, a.reason, a.transition, a.clock, id);
    }
  }

  lemma DiscardOutcome(st: Store, target: string, reason: string, transition: TerminalTransition, clock: Time,
                       id: string)
    requires WellFormed(st) && id in st.messages
    ensures var st' := DiscardEffect(st, target, reason, transition, clock);
            && id in st'.messages
            && var m, m' := st.messages[id], st'.messages[id];
               && m'.policy == m.policy && m'.msgId == m.msgId && m'.attempts == m.attempts
               && (Undecided(m') ==> Undecided(m))
  {
  }

  lemma MarkOthers(st: Store, a: Action, id: string)
    requires WellFormed(st) && IsMark(a) && a.id != id
    ensures id in Step(st, a).messages <==> id in st.messages
    ensures id in st.messages ==> Step(st, a).messages[id] == st.messages[id]
  {
  }

  lemma MarkFinal(st: Store, a: Action)
    requires WellFormed(st) && IsMark(a) && (a.id in st.messages ==> !Undecided(st.messages[a.id]))
    ensures Step(st, a) == st
  {
    if a.id in st.messages {
      assert st.messages[a.id := st.messages[a.id]] == st.messages;
    }
  }

  /** What a save of `target` does to the counter of the message: it starts at zero if the message
      is new, and stays otherwise. */
  ghost predicate SavesOnly(st: Store, st': Store, target: string, id: string) {
    id in st'.messages ==>
      var m' := st'.messages[id];
      && m'.messageId == id
      && if id in st.messages then
           var m := st.messages[id];
           m'.policy == m.policy && m'.msgId == m.msgId && m'.attempts == m.attempts && (Undecided(m') ==> Undecided(m))
         else id == target && m'.attempts == 0
  }

  lemma SubmitOutcome(c: Config, st: Store, e: Event, id: string)
    requires WellFormed(st) && e.Submit?
    ensures SavesOnly(st, Step(st, SubmitAction(c, e)), SubmittedId(c, e), id)
  {
    if id in st.messages && id in Step(st, SubmitAction(c, e)).messages {
      OtherOutcome(st, SubmitAction(c, e), id);
    }
  }

  lemma IntakeAt(c: Config, s: System, st': Store, target: string, w: nat, id: string, k: nat)
    requires ValidConfig(c) && Accounted(s, id) && w !in s.flights
    requires SavesOnly(s.store, st', target, id) && SavesOnly(s.store, st', target, target)
    ensures var s' := Intake(s, st', target, w);
            && Accounted(s', id)
            && (Capped(c, s, id, k) && |Crew(s'.flights, id)| <= k ==> Capped(c, s', id, k))
  {
    var s' := Intake(s, st', target, w);
    if id in s'.store.messages {
      PolicyForValid(c, s'.store.messages[id]);
      ArmedInCrew(c, s'.flights, id);
      if target !in s.store.messages && target in st'.messages {
        TakeUp(c, s.flights, w, Flight(st'.messages[target], true, false), id);
      }
    }
  }

  lemma SubmitAt(c: Config, s: System, e: Event, id: string, k: nat)
    requires ValidConfig(c) && Invariant(c, s) && Enabled(c, s, e) && e.Submit?
    ensures var s' := Next(c, s, e);
            && Accounted(s', id)
            && (Capped(c, s, id, k) && |Crew(s'.flights, id)| <= k ==> Capped(c, s', id, k))
  {
    var target := SubmittedId(c, e);
    SubmitOutcome(c, s.store, e, id);
    SubmitOutcome(c, s.store, e, target);
    IntakeAt(c, s, Step(s.store, SubmitAction(c, e)), target, e.worker, id, k);
  }

  lemma PickUpAt(c: Config, s: System, e: Event, id: string, k: nat)
    requires ValidConfig(c) && Invariant(c, s) && Enabled(c, s, e) && e.PickUp?
    ensures var s' := Next(c, s, e);
            && Accounted(s', id)
            && (Capped(c, s, id, k) && |Crew(s'.flights, id)| <= k ==> Capped(c, s', id, k))
  {
    assert Accounted(s, id);
    TakeUp(c, s.flights, e.worker, Flight(s.store.messages[e.id], false, false), id);
    ArmedInCrew(c, Next(c, s, e).flights, id);
  }

  lemma SendOutAt(c: Config, s: System, e: Event, id: string, k: nat)
    requires Invariant(c, s) && Enabled(c, s, e) && e.SendOut?
    ensures var s' := Next(c, s, e); Accounted(s', id) && (Capped(c, s, id, k) ==> Capped(c, s', id, k))
  {
    assert Accounted(s, id);
    SetOff(c, s.flights, e.worker, id);
  }

  /** What a delivery mark of `target` does to the counter of the message: one more attempt if it
      counts and the message is not final, and nothing else that matters here. */
  ghost predicate MarksOnly(st: Store, st': Store, target: string, counts: bool, id: string) {
    && (id in st'.messages <==> id in st.messages)
    && (id in st.messages ==>
          var m, m' := st.messages[id], st'.messages[id];
          && m'.policy == m.policy && m'.msgId == m.msgId && (Undecided(m') <==> Undecided(m))
          && m'.attempts == m.attempts + if target == id && Undecided(m) && counts then 1 else 0)
  }

  lemma MarkEffect(st: Store, a: Action, id: string)
    requires WellFormed(st) && IsMark(a)
    ensures MarksOnly(st, Step(st, a), a.id, CountsAttempt(a), id)
  {
    if id != a.id {
      MarkOthers(st, a, id);
    } else if id in st.messages && Undecided(st.messages[id]) {
      MarkOutcome(st, a);
    } else {
      MarkFinal(st, a);
    }
  }

  /** A worker lets its message go: with a mark that counts if it made the call, otherwise with
      one that does not, or with none. */
  lemma HandBack(c: Config, s: System, w: nat, st': Store, id: string, k: nat)
    requires Accounted(s, id) && w in s.flights && (s.flights[w].sent ==> Able(c, s.flights[w]))
    requires MarksOnly(s.store, st', s.flights[w].snapshot.messageId, s.flights[w].sent, id)
    ensures var s' := s.(store := st', flights := s.flights - {w});
            Accounted(s', id) && (Capped(c, s, id, k) ==> Capped(c, s', id, k))
  {
    LetGo(c, s.flights, w, id);
    SubsetSize(Armed(c, s.flights - {w}, id), Armed(c, s.flights, id));
  }

  lemma RecordAt(c: Config, s: System, e: Event, id: string, k: nat)
    requires Invariant(c, s) && Enabled(c, s, e) && e.Record?
    ensures var s' := Next(c, s, e); Accounted(s', id) && (Capped(c, s, id, k) ==> Capped(c, s', id, k))
  {
    var a := RecordAction(c, s.flights[e.worker], e.env);
    MarkEffect(s.store, a, id);
    HandBack(c, s, e.worker, Step(s.store, a), id, k);
  }

  lemma AbandonAt(c: Config, s: System, e: Event, id: string, k: nat)
    requires Invariant(c, s) && Enabled(c, s, e) && e.Abandon?
    ensures var s' := Next(c, s, e); Accounted(s', id) && (Capped(c, s, id, k) ==> Capped(c, s', id, k))
  {
    var verdict := BeforeSend(c, s.flights[e.worker].snapshot, e.env);
    if verdict.GiveUp? {
      MarkEffect(s.store, verdict.action, id);
      HandBack(c, s, e.worker, Step(s.store, verdict.action), id, k);
    } else {
      HandBack(c, s, e.worker, s.store, id, k);
    }
  }

  lemma OtherAt(c: Config, s: System, e: Event, id: string, k: nat)
    requires ValidConfig(c) && Invariant(c, s) && Enabled(c, s, e) && e.Other?
    ensures var s' := Next(c, s, e);
            && Accounted(s', id)
            && (Capped(c, s, id, k) && |Crew(s'.flights, id)| <= k ==> Capped(c, s', id, k))
  {
    assert Accounted(s, id);
    if id in Next(c, s, e).store.messages {
      OtherKnown(s.store, e.action, id);
      OtherOutcome(s.store, e.action, id);
      PolicyForValid(c, s.store.messages[id]);
      ArmedInCrew(c, s.flights, id);
    }
  }

  lemma OtherKnown(st: Store, a: Action, id: string)
    requires WellFormed(st) && !IsMark(a) && id in Step(st, a).messages
    requires a.Save? ==> Prepared(a.message, a.freshId, a.clock).messageId in st.messages
    ensures id in st.messages
  {
  }

  lemma NextAt(c: Config, s: System, e: Event, id: string, k: nat)
    requires ValidConfig(c) && Invariant(c, s) && Enabled(c, s, e)
    ensures var s' := Next(c, s, e);
            && Accounted(s', id)
            && (Capped(c, s, id, k) && |Crew(s'.flights, id)| <= k ==> Capped(c, s', id, k))
  {
    match e
    case Submit(_, _, _, _, _) => SubmitAt(c, s, e, id, k);
    case PickUp(_, _, _) => PickUpAt(c, s, e, id, k);
    case SendOut(_, _) => SendOutAt(c, s, e, id, k);
    case Abandon(_, _) => AbandonAt(c, s, e, id, k);
    case Record(_, _) => RecordAt(c, s, e, id, k);
    case Other(_) => OtherAt(c, s, e, id, k);
  }

  lemma NextKeeps(c: Config, s: System, e: Event)
    requires ValidConfig(c) && Invariant(c, s) && Enabled(c, s, e)
    ensures Invariant(c, Next(c, s, e))
  {
    forall id
      ensures Accounted(Next(c, s, e), id)
    {
      NextAt(c, s, e, id, 0);
    }
  }

  // ---- Whole runs ------------------------------------------------------------------------

  const START := System(EMPTY, map[], map[])

  /** `states` is a run of the system under `events`. */
  ghost predicate IsRun(c: Config, events: seq<Event>, states: seq<System>) {
    IsChain(START, MovesOf(c), events, states)
  }

  ghost function MovesOf(c: Config): (System, Event, System) -> bool {
    (s: System, e: Event, s': System) => Moves(c, s, e, s')
  }

  ghost predicate Moves(c: Config, s: System, e: Event, s': System) {
    WellFormed(s.store) && Enabled(c, s, e) && s' == Next(c, s, e)
  }

  /** Never more than `k` workers hold the message at once. */
  ghost predicate AtMost(states: seq<System>, id: string, k: nat) {
    forall i :: 0 <= i < |states| ==> |Crew(states[i].flights, id)| <= k
  }

  lemma {:induction false} RunInvariant(c: Config, events: seq<Event>, states: seq<System>, n: nat)
    requires ValidConfig(c) && IsRun(c, events, states) && n < |states|
    ensures Invariant(c, states[n])
  {
    if n > 0 {
      RunInvariant(c, events, states, n - 1);
      assert Moves(c, states[n - 1], events[n - 1], states[n]);
      NextKeeps(c, states[n - 1], events[n - 1]);
    }
  }

  /** The invariant, and the cap on one message. */
  ghost predicate InHand(c: Config, s: System, id: string, k: nat) {
    Invariant(c, s) && Capped(c, s, id, k)
  }

  lemma MoveInHand(c: Config, s: System, e: Event, s': System, id: string, k: nat)
    requires ValidConfig(c) && InHand(c, s, id, k) && Moves(c, s, e, s') && |Crew(s'.flights, id)| <= k
    ensures InHand(c, s', id, k)
  {
    NextKeeps(c, s, e);
    NextAt(c, s, e, id, k);
  }

  lemma {:induction false} RunInHand(c: Config, events: seq<Event>, states: seq<System>, n: nat, id: string, k: nat)
    requires ValidConfig(c) && IsRun(c, events, states) && n < |states| && AtMost(states, id, k)
    ensures InHand(c, states[n], id, k)
  {
    if n == 0 {
      StartInHand(c, id, k);
    } else {
      RunInHand(c, events, states, n - 1, id, k);
      assert Moves(c, states[n - 1], events[n - 1], states[n]);
      MoveInHand(c, states[n - 1], events[n - 1], states[n], id, k);
    }
  }

  lemma StartInHand(c: Config, id: string, k: nat)
    ensures InHand(c, START, id, k)
  {
  }

  /** While at most `k` workers hold a message at once, its attempt counter passes the policy's
      limit by less than `k`, and for a message that is neither acknowledged nor discarded it
      equals the delivery calls made since creation or last requeue, save those in the air. */
  lemma AttemptsBoundedBy(c: Config, events: seq<Event>, states: seq<System>, n: nat, id: string, k: nat)
    requires ValidConfig(c) && IsRun(c, events, states) && n < |states| && id in states[n].store.messages
    requires AtMost(states, id, k)
    ensures var s := states[n];
            var m := s.store.messages[id];
            && 0 <= m.attempts <= Limit(c, m) - 1 + k
            && (Undecided(m) ==> Counted(s.calls, id) == m.attempts + |InAir(s.flights, id)| <= Limit(c, m) - 1 + k)
  {
    RunInHand(c, events, states, n, id, k);
    assert Accounted(states[n], id);
    SubsetSize(InAir(states[n].flights, id), Armed(c, states[n].flights, id));
  }

  /** One worker at a time keeps to the limit. */
  lemma AttemptsBounded(c: Config, events: seq<Event>, states: seq<System>, n: nat, id: string)
    requires ValidConfig(c) && IsRun(c, events, states) && n < |states| && id in states[n].store.messages
    requires AtMost(states, id, 1)
    ensures var s := states[n];
            var m := s.store.messages[id];
            && 0 <= m.attempts <= Limit(c, m)
            && (Undecided(m) ==> Counted(s.calls, id) == m.attempts + |InAir(s.flights, id)| <= Limit(c, m))
  {
    AttemptsBoundedBy(c, events, states, n, id, 1);
  }
}
