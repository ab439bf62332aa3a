/** The bound of `Attempts` is attained: runs from the empty store, for every number of workers,
    in which concurrent bind-time flushes bring the attempts exactly to the bound. */
module AttemptRuns {
  import opened Messages
  import opened Ordering
  import opened StoreModel
  import opened ServiceModel
  import opened Chains
  import opened Attempts

  /** A run from the empty store, with never more than `k` holders of the message, ends here. */
  ghost predicate Reaches(c: Config, s: System, id: string, k: nat) {
    exists events, states :: IsRun(c, events, states) && states[|events|] == s && AtMost(states, id, k)
  }

  lemma ReachesStart(c: Config, id: string, k: nat)
    ensures Reaches(c, START, id, k)
  {
    var events: seq<Event>, states := [], [START];
    assert IsRun(c, events, states) && states[|events|] == START && AtMost(states, id, k);
  }

  lemma ReachesNext(c: Config, s: System, id: string, k: nat, e: Event)
    requires Reaches(c, s, id, k) && WellFormed(s.store) && Enabled(c, s, e)
    requires |Crew(Next(c, s, e).flights, id)| <= k
    ensures Reaches(c, Next(c, s, e), id, k)
  {
    var events, states :| IsRun(c, events, states) && states[|events|] == s && AtMost(states, id, k);
    var s' := Next(c, s, e);
    var events', states' := events + [e], states + [s'];
    assert Moves(c, s, e, s');
    ExtendChain(START, MovesOf(c), events, states, e, s');
    AtMostMore(states, id, k, s');
    assert IsRun(c, events', states') && states'[|events'|] == s' && AtMost(states', id, k);
  }

  lemma AtMostMore(states: seq<System>, id: string, k: nat, s': System)
    requires AtMost(states, id, k) && |Crew(s'.flights, id)| <= k
    ensures AtMost(states + [s'], id, k)
  {
  }

  // ---- Pieces of the runs ----------------------------------------------------------------

  /** A send at time `t` that reaches nobody. */
  function Failing(t: Time): Env {
    Env(t, Refused("session not found"), t, 0, t)
  }

  /** The message is pending after `n` attempts, and a flush at time `t` would hand it out. */
  predicate Waiting(c: Config, st: Store, id: string, n: int, t: Time) {
    && id in st.messages
    && var m := st.messages[id];
       && m.messageId == id && m.status.Pending? && m.attempts == n && Offered(c, m, ByFlush(t))
       && !MaxAgeExceeded(m, PolicyFor(c, m), t)
  }

  /** A flush at time `t` would hand it out with an attempt to spare. */
  predicate Ready(c: Config, st: Store, id: string, t: Time) {
    && id in st.messages && Waiting(c, st, id, st.messages[id].attempts, t)
    && st.messages[id].attempts < Limit(c, st.messages[id])
  }

  predicate Between(from: nat, w: nat, to: nat) { from <= w < to }

  /** Workers `from` up to `to` hold this copy and have made their call. */
  function Holding(m: Message, from: nat, to: nat): Flights {
    map w: nat | w < to && Between(from, w, to) :: Flight(m, false, true)
  }

  function UpTo(n: nat): (s: set<nat>)
    ensures |s| == n && forall w: nat :: w in s <==> w < n
  {
    if n == 0 then {} else UpTo(n - 1) + {n - 1}
  }

  lemma CrewUpTo(flights: Flights, id: string, n: nat)
    requires forall w :: w in flights ==> w < n
    ensures |Crew(flights, id)| <= n
  {
    SubsetSize(Crew(flights, id), UpTo(n));
  }

  /** Worker `w` lists the message in a flush and calls its device in vain. */
  lemma FlushAndCall(c: Config, s: System, id: string, k: nat, w: nat, t: Time) returns (s': System)
    requires WellFormed(s.store) && Reaches(c, s, id, k) && Ready(c, s.store, id, t)
    requires w < k && w !in s.flights && forall v :: v in s.flights ==> v < w
    ensures Reaches(c, s', id, k) && s'.store == s.store
    ensures s'.flights == s.flights[w := Flight(s.store.messages[id], false, true)]
  {
    var e := PickUp(w, id, ByFlush(t));
    var held := Next(c, s, e);
    CrewUpTo(held.flights, id, k);
    ReachesNext(c, s, id, k, e);
    var call := SendOut(w, Failing(t));
    s' := Next(c, held, call);
    CrewUpTo(s'.flights, id, k);
    ReachesNext(c, held, id, k, call);
  }

  lemma HoldMore(m: Message, n: nat)
    ensures Holding(m, 0, n)[n := Flight(m, false, true)] == Holding(m, 0, n + 1)
    ensures n !in Holding(m, 0, n)
  {
  }

  lemma HoldLess(m: Message, n: nat, k: nat)
    requires n < k
    ensures n in Holding(m, n, k) && Holding(m, n, k) - {n} == Holding(m, n + 1, k)
  {
    assert Between(n, n, k);
  }

  /** Workers up to `n` hold copies of the message as it is stored and have called. */
  lemma {:induction false} FlushAll(c: Config, s: System, id: string, n: nat, k: nat, t: Time) returns (s': System)
    requires WellFormed(s.store) && Reaches(c, s, id, k) && Ready(c, s.store, id, t)
    requires n <= k && s.flights == Holding(s.store.messages[id], 0, n)
    ensures Reaches(c, s', id, k) && s'.store == s.store
    ensures s'.flights == Holding(s.store.messages[id], 0, k)
    decreases k - n
  {
    if n == k {
      s' := s;
    } else {
      var m := s.store.messages[id];
      var more := FlushAndCall(c, s, id, k, n, t);
      HoldMore(m, n);
      s' := FlushAll(c, more, id, n + 1, k, t);
    }
  }

  /** One after the other they record the failure. */
  lemma {:induction false} RecordAll(c: Config, s: System, id: string, m: Message, n: nat, k: nat, t: Time)
    returns (s': System)
    requires WellFormed(s.store) && Reaches(c, s, id, k) && n <= k && m.messageId == id
    requires id in s.store.messages && Undecided(s.store.messages[id]) && s.flights == Holding(m, n, k)
    ensures Reaches(c, s', id, k) && id in s'.store.messages
    ensures s'.store.messages[id].attempts == s.store.messages[id].attempts + k - n
    ensures Limit(c, s'.store.messages[id]) == Limit(c, s.store.messages[id])
    decreases k - n
  {
    if n == k {
      s' := s;
    } else {
      HoldLess(m, n, k);
      var e := Record(n, Failing(t));
      var next := Next(c, s, e);
      MarkEffect(s.store, RecordAction(c, s.flights[n], Failing(t)), id);
      CrewUpTo(next.flights, id, k);
      ReachesNext(c, s, id, k, e);
      s' := RecordAll(c, next, id, m, n + 1, k, t);
    }
  }

  // ---- The runs --------------------------------------------------------------------------

  /** The submission itself, its first delivery attempt under way. */
  lemma Submitted(c: Config, req: PushRequest, t: Time, k: nat) returns (s: System, m: Message)
    requires ValidConfig(c) && req.messageId != "" && t > 0 && k > 0
    ensures WellFormed(s.store) && Reaches(c, s, req.messageId, k)
    ensures m == Prepared(Submission(c, req, "", t), "", t) && s.store.messages == map[req.messageId := m]
    ensures s.flights == map[0 := Flight(m, true, true)]
  {
    var taken;
    taken, m := TakenIn(c, req, t, k);
    var call := SendOut(0, Failing(t));
    s := Next(c, taken, call);
    CrewUpTo(s.flights, req.messageId, k);
    ReachesNext(c, taken, req.messageId, k, call);
  }

  /** The submission is stored and its worker holds it. */
  lemma TakenIn(c: Config, req: PushRequest, t: Time, k: nat) returns (taken: System, m: Message)
    requires ValidConfig(c) && req.messageId != "" && t > 0 && k > 0
    ensures WellFormed(taken.store) && Reaches(c, taken, req.messageId, k)
    ensures m == Prepared(Submission(c, req, "", t), "", t) && taken.store.messages == map[req.messageId := m]
    ensures taken.flights == map[0 := Flight(m, true, false)]
  {
    ReachesStart(c, req.messageId, k);
    m := Prepared(Submission(c, req, "", t), "", t);
    var e := Submit(0, req, "", t, t);
    taken := Next(c, START, e);
    FirstSave(c, req, t);
    assert taken.flights == map[0 := Flight(m, true, false)];
    CrewUpTo(taken.flights, req.messageId, k);
    ReachesNext(c, START, req.messageId, k, e);
  }

  lemma FirstSave(c: Config, req: PushRequest, t: Time)
    requires req.messageId != ""
    ensures var m := Prepared(Submission(c, req, "", t), "", t);
            Step(EMPTY, SubmitAction(c, Submit(0, req, "", t, t))) == Store(map[req.messageId := m], map[])
  {
    assert PendingIds(map[]) == {};
    assert forall d :: DevicePendingIds(map[], d) == {};
  }

  lemma FailedAttempt(c: Config, st: Store, id: string, m: Message, t: Time)
    requires ValidConfig(c) && WellFormed(st) && id in st.messages && st.messages[id] == m && m.messageId == id
    requires m.status.Pending? && !MaxAgeExceeded(m, PolicyFor(c, m), t) && m.attempts + 1 < Limit(c, m)
    ensures var st' := Step(st, RecordAction(c, Flight(m, false, true), Failing(t)));
            Waiting(c, st', id, m.attempts + 1, t) && Limit(c, st'.messages[id]) == Limit(c, m)
  {
  }

  /** Failing rounds by one worker at a time use up attempts. */
  lemma {:induction false} FailUntil(c: Config, s: System, id: string, n: int, k: nat, t: Time) returns (s': System)
    requires ValidConfig(c) && WellFormed(s.store) && Reaches(c, s, id, k) && k > 0 && s.flights == map[]
    requires id in s.store.messages && Waiting(c, s.store, id, s.store.messages[id].attempts, t)
    requires s.store.messages[id].attempts <= n < Limit(c, s.store.messages[id])
    ensures WellFormed(s'.store) && Reaches(c, s', id, k) && s'.flights == map[]
    ensures Waiting(c, s'.store, id, n, t) && Limit(c, s'.store.messages[id]) == Limit(c, s.store.messages[id])
    decreases n - s.store.messages[id].attempts
  {
    var m := s.store.messages[id];
    if m.attempts == n {
      s' := s;
    } else {
      var called := FlushAndCall(c, s, id, k, 0, t);
      FailedAttempt(c, s.store, id, m, t);
      var e := Record(0, Failing(t));
      var next := Next(c, called, e);
      assert next.flights == map[];
      CrewUpTo(next.flights, id, k);
      ReachesNext(c, called, id, k, e);
      s' := FailUntil(c, next, id, n, k, t);
    }
  }

  /** The first attempt has failed and an operator requeues the message: it waits, with all its
      attempts before it and nobody's lease on it. */
  lemma Requeued(c: Config, req: PushRequest, t: Time, k: nat) returns (s: System)
    requires ValidConfig(c) && req.messageId != "" && t > 0 && k > 0
    ensures WellFormed(s.store) && Reaches(c, s, req.messageId, k) && s.flights == map[]
    ensures Waiting(c, s.store, req.messageId, 0, t)
  {
    var id := req.messageId;
    var first, m := Submitted(c, req, t, k);
    var e := Record(0, Failing(t));
    var failed := Next(c, first, e);
    FirstFails(c, first.store, id, m, t);
    CrewUpTo(failed.flights, id, k);
    ReachesNext(c, first, id, k, e);
    var requeue := Other(Requeue(id, t, c.capacity, t));
    s := Next(c, failed, requeue);
    RequeueWaits(c, failed.store, id, t);
    CrewUpTo(s.flights, id, k);
    ReachesNext(c, failed, id, k, requeue);
  }

  lemma FirstFails(c: Config, st: Store, id: string, m: Message, t: Time)
    requires WellFormed(st) && id in st.messages && st.messages[id] == m && m.messageId == id && m.status.Pending?
    ensures var st' := Step(st, RecordAction(c, Flight(m, true, true), Failing(t)));
            id in st'.messages && st'.messages[id].status.Pending? && st'.messages[id].createdAt == m.createdAt
  {
  }

  lemma RequeueWaits(c: Config, st: Store, id: string, t: Time)
    requires WellFormed(st) && id in st.messages && st.messages[id].status.Pending? && st.messages[id].createdAt == t
    ensures Waiting(c, Step(st, Requeue(id, t, c.capacity, t)), id, 0, t)
  {
  }

  /** For every service, every request and every number of workers, a run in which that many flushes
      overlap brings the attempts to the bound. */
  lemma BoundAttained(c: Config, req: PushRequest, t: Time, k: nat) returns (s: System)
    requires ValidConfig(c) && req.messageId != "" && t > 0 && k > 0
    ensures Reaches(c, s, req.messageId, k) && req.messageId in s.store.messages
    ensures var m := s.store.messages[req.messageId]; m.attempts == Limit(c, m) - 1 + k
  {
    var id := req.messageId;
    var free := Requeued(c, req, t, k);
    PolicyForValid(c, free.store.messages[id]);
    var last := FailUntil(c, free, id, Limit(c, free.store.messages[id]) - 1, k, t);
    assert last.flights == Holding(last.store.messages[id], 0, 0);
    var all := FlushAll(c, last, id, 0, k, t);
    s := RecordAll(c, all, id, last.store.messages[id], 0, k, t);
  }
}
