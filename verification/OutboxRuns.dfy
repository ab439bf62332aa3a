/** The bound of `Outbox.EnqueuedAtMostOnce` is attained: a message that is cleaned up and created
    again is reported again, once for every creation. */
module OutboxRuns {
  import opened Messages
  import opened Ordering
  import opened Fairness
  import opened StoreModel
  import opened Outbox
  import opened Chains

  // One life of a message: it is saved, fails or is discarded, is reported, and is swept once it
  // has been kept longer than its TTL.

  function Born(m: Message, capacity: QueueCapacity, u: Time): Action {
    Save(m, capacity, "", u)
  }

  function Ends(m: Message, status: Status, u: Time): Action {
    var transition := TerminalTransition("ended", "node", u, false, true);
    if status.Failed? then MarkFailed(m.messageId, transition, u)
    else Discard(m.messageId, "ended", transition, u)
  }

  function Reported(m: Message, status: Status, u: Time): Action {
    MarkPublished(m.messageId, status, u, u)
  }

  /** The sweep at time `u + ttl + 1` of what was last changed more than `ttl` ago. */
  function Swept(status: Status, u: Time, ttl: Duration): Action {
    DeleteExpired(status, u + ttl + 1 - ttl, 0)
  }

  /** The store holds this message in its final status and its one record. */
  ghost predicate Final(st: Store, id: string, status: Status, u: Time, publication: Publication) {
    && st.messages.Keys == {id} && st.messages[id].messageId == id
    && st.messages[id].status == status && st.messages[id].updatedAt == u
    && st.events.Keys == {EventId(id, status)}
    && st.events[EventId(id, status)].event.messageId == id
    && st.events[EventId(id, status)].status == publication
  }

  lemma IsBorn(m: Message, capacity: QueueCapacity, u: Time)
    requires m.messageId != "" && m.status.Pending?
    ensures SaveEffect(EMPTY, m, capacity, "", u) == Store(map[m.messageId := Prepared(m, "", u)], map[])
  {
    assert PendingIds(map[]) == {};
    assert DevicePendingIds(map[], DeviceOf(m)) == {};
  }

  lemma Fails(m: Message, p: Message, u: Time)
    requires p.messageId == m.messageId && p.status.Pending? && u > 0
    ensures var t := TerminalTransition("ended", "node", u, false, true);
            Final(FailedEffect(Store(map[m.messageId := p], map[]), m.messageId, t, u), m.messageId, Failed, u, Waiting)
  {
  }

  lemma IsDiscarded(m: Message, p: Message, u: Time)
    requires p.messageId == m.messageId && p.status.Pending? && u > 0
    ensures var t := TerminalTransition("ended", "node", u, false, true);
            Final(DiscardEffect(Store(map[m.messageId := p], map[]), m.messageId, "ended", t, u), m.messageId,
                  Discarded, u, Waiting)
  {
  }

  lemma IsReported(st: Store, id: string, status: Status, u: Time)
    requires Final(st, id, status, u, Waiting)
    ensures Final(PublishedEffect(st, id, status, u, u), id, status, u, Published)
  {
  }

  lemma IsSwept(st: Store, id: string, status: Status, u: Time)
    requires WellFormed(st) && Final(st, id, status, u, Published) && u > 0 && Reportable(status)
    ensures DeleteEffect(st, status, u + 1, 0) == EMPTY
  {
    var expired := ExpiredSet(st, status, u + 1);
    assert Expired(st, id, status, u + 1);
    assert expired == {st.messages[id]};
    RetentionOrder(expired);
    var victims := Victims(st, status, u + 1, 0);
    assert st.messages[id] in Listing(expired, RetainedBefore);
    assert victims[0] == st.messages[id];
    assert id in Ids(victims);
    assert EventId(id, status) in EventKeys(Ids(victims));
  }

  ghost predicate StepsTo(st: Store, a: Action, st': Store) {
    WellFormed(st) && st' == Step(st, a)
  }

  ghost function Steps(): (Store, Action, Store) -> bool {
    (st: Store, a: Action, st': Store) => StepsTo(st, a, st')
  }

  function Has(key: string): Store -> bool {
    (st: Store) => key in st.events
  }

  function Knows(id: string): Store -> bool {
    (st: Store) => id in st.messages
  }

  /** A chain of steps is a run, and its counts are those of the run. */
  lemma {:induction false} ChainIsRun(actions: seq<Action>, states: seq<Store>, id: string, key: string)
    requires IsChain(EMPTY, Steps(), actions, states)
    ensures Run(EMPTY, actions) == states[|actions|]
    ensures Enqueued(actions, key) == Rises(states, Has(key)) && Creations(actions, id) == Rises(states, Knows(id))
    decreases |actions|
  {
    if actions != [] {
      var n := |actions| - 1;
      CutChain(EMPTY, Steps(), actions, states);
      ChainIsRun(actions[..n], states[..n + 1], id, key);
      assert StepsTo(states[n], actions[n], states[n + 1]);
      assert states[..n + 1] == states[..|states| - 1];
    }
  }

  lemma BornSteps(m: Message, capacity: QueueCapacity, u: Time) returns (st: Store)
    requires m.messageId != "" && m.status.Pending?
    ensures StepsTo(EMPTY, Born(m, capacity, u), st)
    ensures st == Store(map[m.messageId := Prepared(m, "", u)], map[])
  {
    IsBorn(m, capacity, u);
    st := Store(map[m.messageId := Prepared(m, "", u)], map[]);
  }

  lemma EndSteps(m: Message, p: Message, status: Status, u: Time) returns (st: Store)
    requires m.messageId != "" && p.messageId == m.messageId && p.status.Pending? && u > 0 && Reportable(status)
    ensures StepsTo(Store(map[m.messageId := p], map[]), Ends(m, status, u), st)
    ensures WellFormed(st) && Final(st, m.messageId, status, u, Waiting)
  {
    var born := Store(map[m.messageId := p], map[]);
    if status.Failed? {
      Fails(m, p, u);
    } else {
      IsDiscarded(m, p, u);
    }
    st := Step(born, Ends(m, status, u));
  }

  lemma ReportSteps(st: Store, m: Message, status: Status, u: Time) returns (st': Store)
    requires WellFormed(st) && Final(st, m.messageId, status, u, Waiting)
    ensures StepsTo(st, Reported(m, status, u), st') && WellFormed(st') && Final(st', m.messageId, status, u, Published)
  {
    IsReported(st, m.messageId, status, u);
    st' := Step(st, Reported(m, status, u));
  }

  lemma SweepSteps(st: Store, m: Message, status: Status, u: Time, ttl: Duration)
    requires WellFormed(st) && Final(st, m.messageId, status, u, Published) && u > 0 && Reportable(status)
    ensures StepsTo(st, Swept(status, u, ttl), EMPTY)
  {
    IsSwept(st, m.messageId, status, u);
  }

  /** A chain from the empty store to this one, with so many creations and reports. */
  ghost predicate Leads(actions: seq<Action>, states: seq<Store>, st: Store, id: string, key: string, created: nat,
                        told: nat) {
    && IsChain(EMPTY, Steps(), actions, states) && states[|actions|] == st
    && Rises(states, Knows(id)) == created && Rises(states, Has(key)) == told
  }

  /** One step more, and what it adds to the counts. */
  lemma LeadsOn(actions: seq<Action>, states: seq<Store>, st: Store, a: Action, st': Store, id: string, key: string,
                created: nat, told: nat)
    requires Leads(actions, states, st, id, key, created, told) && StepsTo(st, a, st')
    ensures Leads(actions + [a], states + [st'], st', id, key,
                  created + (if id !in st.messages && id in st'.messages then 1 else 0),
                  told + (if key !in st.events && key in st'.events then 1 else 0))
  {
    ExtendChain(EMPTY, Steps(), actions, states, a, st');
    RisesMore(states, st', Has(key));
    RisesMore(states, st', Knows(id));
  }

  /** From the empty store to the end of the message: one creation and one event more. */
  lemma ToItsEnd(actions: seq<Action>, states: seq<Store>, m: Message, capacity: QueueCapacity, status: Status,
                 u: Time, n: nat)
    returns (states': seq<Store>, st: Store)
    requires m.messageId != "" && m.status.Pending? && u > 0 && Reportable(status)
    requires Leads(actions, states, EMPTY, m.messageId, EventId(m.messageId, status), n, n)
    ensures Leads(actions + [Born(m, capacity, u)] + [Ends(m, status, u)], states', st, m.messageId,
                  EventId(m.messageId, status), n + 1, n + 1)
    ensures WellFormed(st) && Final(st, m.messageId, status, u, Waiting)
  {
    var id, key, a := m.messageId, EventId(m.messageId, status), Born(m, capacity, u);
    var born := BornSteps(m, capacity, u);
    LeadsOn(actions, states, EMPTY, a, born, id, key, n, n);
    st := EndSteps(m, Prepared(m, "", u), status, u);
    LeadsOn(actions + [a], states + [born], born, Ends(m, status, u), st, id, key, n + 1, n);
    states' := states + [born] + [st];
  }

  /** And on to the empty store again, with nothing more. */
  lemma ToItsSweep(actions: seq<Action>, states: seq<Store>, st: Store, m: Message, status: Status, u: Time,
                   ttl: Duration, n: nat)
    returns (states': seq<Store>)
    requires u > 0 && Reportable(status) && WellFormed(st) && Final(st, m.messageId, status, u, Waiting)
    requires Leads(actions, states, st, m.messageId, EventId(m.messageId, status), n, n)
    ensures Leads(actions + [Reported(m, status, u)] + [Swept(status, u, ttl)], states', EMPTY, m.messageId,
                  EventId(m.messageId, status), n, n)
  {
    var id, key, a := m.messageId, EventId(m.messageId, status), Reported(m, status, u);
    var reported := ReportSteps(st, m, status, u);
    LeadsOn(actions, states, st, a, reported, id, key, n, n);
    SweepSteps(reported, m, status, u, ttl);
    LeadsOn(actions + [a], states + [reported], reported, Swept(status, u, ttl), EMPTY, id, key, n, n);
    states' := states + [reported] + [EMPTY];
  }

  /** For every message, terminal status, capacity and TTL, and every number: a run in which the
      message is created that often and that often reported. */
  lemma ReportedEachTime(m: Message, capacity: QueueCapacity, status: Status, u: Time, ttl: Duration, n: nat)
    returns (actions: seq<Action>)
    requires m.messageId != "" && m.status.Pending? && u > 0 && ttl >= 0 && Reportable(status)
    ensures Run(EMPTY, actions) == EMPTY
    ensures Creations(actions, m.messageId) == n == Enqueued(actions, EventId(m.messageId, status))
  {
    var states;
    actions, states := Lives(m, capacity, status, u, ttl, n);
    ChainIsRun(actions, states, m.messageId, EventId(m.messageId, status));
  }

  lemma Lives(m: Message, capacity: QueueCapacity, status: Status, u: Time, ttl: Duration, n: nat)
    returns (actions: seq<Action>, states: seq<Store>)
    requires m.messageId != "" && m.status.Pending? && u > 0 && ttl >= 0 && Reportable(status)
    ensures Leads(actions, states, EMPTY, m.messageId, EventId(m.messageId, status), n, n)
  {
    actions, states := [], [EMPTY];
    var at := u;
    for i := 0 to n
      invariant at > 0 && Leads(actions, states, EMPTY, m.messageId, EventId(m.messageId, status), i, i)
    {
      var st;
      states, st := ToItsEnd(actions, states, m, capacity, status, at, i);
      actions := actions + [Born(m, capacity, at)] + [Ends(m, status, at)];
      states := ToItsSweep(actions, states, st, m, status, at, ttl, i + 1);
      actions, at := actions + [Reported(m, status, at)] + [Swept(status, at, ttl)], at + ttl + 1;
    }
  }
}
