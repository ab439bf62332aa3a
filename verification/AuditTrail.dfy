/** internal/adminaudit/store.go: a bounded trail of numbered entries, listed newest first and
    page by page while new entries keep coming. */
module AuditTrail {
  import opened Messages
  import opened Ordering
  import opened Text
  import opened Cursors

  const DEFAULT_LIMIT: nat := 100
  const MAX_LIMIT: nat := 1000
  const DEFAULT_CAPACITY: nat := 1000
  const MAX_CURSOR: nat := MAX_INT64

  datatype Entry = Entry(id: nat, recordedAt: Time, action: string, result: string, principal: string,
                         adminSessionId: string, targetClientId: string, targetSessionId: string,
                         messageId: string, reason: string)

  datatype Query = Query(limit: int, cursor: nat, action: string, result: string, principal: string,
                         clientId: string, sessionId: string, messageId: string)

  function NonEmpty(value: string, fallback: string): string { if value == "" then fallback else value }

  function NormaliseEntry(e: Entry): Entry {
    e.(action := NonEmpty(TrimSpace(e.action), "unknown"), result := NonEmpty(TrimSpace(e.result), "unknown"),
       principal := TrimSpace(e.principal), adminSessionId := TrimSpace(e.adminSessionId),
       targetClientId := TrimSpace(e.targetClientId), targetSessionId := TrimSpace(e.targetSessionId),
       messageId := TrimSpace(e.messageId), reason := TrimSpace(e.reason))
  }

  function ClampLimit(limit: int): (n: nat)
    ensures 1 <= n <= MAX_LIMIT
  {
    if limit <= 0 then DEFAULT_LIMIT else if limit > MAX_LIMIT then MAX_LIMIT else limit
  }

  function NormaliseQuery(q: Query): Query {
    Query(ClampLimit(q.limit), if q.cursor > MAX_CURSOR then MAX_CURSOR else q.cursor, TrimSpace(q.action),
          TrimSpace(q.result),
          TrimSpace(q.principal), TrimSpace(q.clientId), TrimSpace(q.sessionId), TrimSpace(q.messageId))
  }

  predicate ContainsAt(s: string, part: string, i: nat) {
    i + |part| <= |s| && s[i..i + |part|] == part
  }

  predicate Contains(s: string, part: string) {
    exists i: nat | i <= |s| :: ContainsAt(s, part, i)
  }

  predicate EntryMatches(e: Entry, q: Query) {
    && (q.action == "" || e.action == q.action)
    && (q.result == "" || e.result == q.result)
    && (q.principal == "" || Contains(e.principal, q.principal))
    && (q.clientId == "" || e.targetClientId == q.clientId)
    && (q.sessionId == "" || e.targetSessionId == q.sessionId || e.adminSessionId == q.sessionId)
    && (q.messageId == "" || e.messageId == q.messageId)
  }

  // ---- Recording -------------------------------------------------------------------------

  datatype Trail = Trail(entries: seq<Entry>, nextId: nat)

  datatype Submission = Submission(entry: Entry, clock: Time)

  function Stamp(s: Submission, id: nat): Entry {
    NormaliseEntry(s.entry).(id := id, recordedAt := if s.entry.recordedAt == 0 then s.clock else s.entry.recordedAt)
  }

  function RecordEffect(t: Trail, capacity: nat, s: Submission): Trail
    requires capacity > 0
  {
    var e := Stamp(s, t.nextId + 1);
    Trail(if |t.entries| >= capacity then t.entries[1..] + [e] else t.entries + [e], t.nextId + 1)
  }

  /** All that was ever recorded, numbered from 1. */
  function Log(submissions: seq<Submission>): seq<Entry> {
    Numbered(submissions, Stamp)
  }

  /** Each element turned into its image under its place, counted from 1. */
  function Numbered<T, U>(s: seq<T>, f: (T, nat) -> U): seq<U> {
    seq(|s|, i requires 0 <= i < |s| => f(s[i], i + 1))
  }

  lemma NumberedPrefix<T, U>(s: seq<T>, f: (T, nat) -> U, n: nat)
    requires n <= |s|
    ensures Numbered(s[..n], f) == Numbered(s, f)[..n]
  {
  }

  lemma NumberedGrows<T, U>(s: seq<T>, f: (T, nat) -> U)
    requires s != []
    ensures var last := |s| - 1;
            Numbered(s, f) == Numbered(s[..last], f) + [f(s[last], last + 1)]
  {
  }

  function After(capacity: nat, submissions: seq<Submission>): Trail
    requires capacity > 0
  {
    if submissions == [] then Trail([], 0)
    else RecordEffect(After(capacity, submissions[..|submissions| - 1]), capacity, submissions[|submissions| - 1])
  }

  /** The last `capacity` of the first `n` entries of a log. */
  function Held(log: seq<Entry>, n: nat, capacity: nat): seq<Entry>
    requires n <= |log|
  {
    log[(if n > capacity then n - capacity else 0)..n]
  }

  lemma {:induction false} RingIsHeld(capacity: nat, submissions: seq<Submission>)
    requires capacity > 0
    ensures After(capacity, submissions) == Trail(Held(Log(submissions), |submissions|, capacity), |submissions|)
  {
    if submissions != [] {
      var last := |submissions| - 1;
      RingIsHeld(capacity, submissions[..last]);
      NumberedGrows(submissions, Stamp);
      RingStep(Log(submissions[..last]), Stamp(submissions[last], last + 1), capacity);
    }
  }

  /** After any recordings the trail holds exactly the last of them, consecutively numbered. */
  lemma RingHoldsLast(capacity: nat, submissions: seq<Submission>)
    requires capacity > 0
    ensures var t, log := After(capacity, submissions), Log(submissions);
            && t.nextId == |submissions| && t.entries == Held(log, |log|, capacity)
            && forall i :: 0 <= i < |t.entries| ==> t.entries[i].id == t.nextId - |t.entries| + 1 + i
  {
    RingIsHeld(capacity, submissions);
    HeldNumbered(submissions, capacity);
  }

  lemma RingStep(log: seq<Entry>, e: Entry, capacity: nat)
    requires capacity > 0
    ensures var held := Held(log, |log|, capacity);
            Held(log + [e], |log| + 1, capacity) == if |held| >= capacity then held[1..] + [e] else held + [e]
  {
  }

  lemma HeldNumbered(submissions: seq<Submission>, capacity: nat)
    ensures var log := Log(submissions);
            var held := Held(log, |log|, capacity);
            forall i :: 0 <= i < |held| ==> held[i].id == |log| - |held| + 1 + i
  {
    var log := Log(submissions);
    var from := if |log| > capacity then |log| - capacity else 0;
    forall i | 0 <= i < |log| - from ensures log[from..][i].id == from + i + 1 {
      assert log[from..][i] == log[from + i];
    }
  }

  /** What the trail held when `n` of the submissions had been recorded. */
  lemma TrailWasHeld(capacity: nat, submissions: seq<Submission>, n: nat)
    requires capacity > 0 && n <= |submissions|
    ensures After(capacity, submissions[..n]).entries == Held(Log(submissions), n, capacity)
  {
    RingHoldsLast(capacity, submissions[..n]);
    NumberedPrefix(submissions, Stamp, n);
    HeldPrefix(Log(submissions), n, capacity);
  }

  lemma HeldPrefix(log: seq<Entry>, n: nat, capacity: nat)
    requires n <= |log|
    ensures Held(log[..n], n, capacity) == Held(log, n, capacity)
  {
  }

  // ---- Listing ---------------------------------------------------------------------------

  predicate Shows(e: Entry, q: Query) {
    EntryMatches(e, q) && (q.cursor == 0 || e.id < q.cursor)
  }

  /** The matching entries below the cursor, newest first. */
  function Newest(entries: seq<Entry>, q: Query): seq<Entry> {
    if entries == [] then []
    else Newest(entries[1..], q) + if Shows(entries[0], q) then [entries[0]] else []
  }

  function CountMatching(entries: seq<Entry>, q: Query): nat {
    if entries == [] then 0
    else CountMatching(entries[1..], q) + if EntryMatches(entries[0], q) then 1 else 0
  }

  datatype Result = Result(limit: nat, cursor: nat, nextCursor: nat, hasMore: bool, total: nat, entries: seq<Entry>)

  function ListOf(entries: seq<Entry>, query: Query): Result {
    var q := NormaliseQuery(query);
    var limit: nat := ClampLimit(query.limit);
    var all := Newest(entries, q);
    Result(limit, q.cursor, if |all| > limit then all[limit - 1].id else 0, |all| > limit, CountMatching(entries, q),
           Take(all, limit))
  }

  ghost predicate Ascending(entries: seq<Entry>) {
    forall i, j :: 0 <= i < j < |entries| ==> entries[i].id < entries[j].id
  }

  ghost predicate Descending(entries: seq<Entry>) {
    forall i, j :: 0 <= i < j < |entries| ==> entries[i].id > entries[j].id
  }

  lemma {:induction false} NewestIs(entries: seq<Entry>, q: Query)
    requires Ascending(entries)
    ensures Descending(Newest(entries, q))
    ensures forall e :: e in Newest(entries, q) <==> e in entries && Shows(e, q)
  {
    if entries != [] {
      NewestIs(entries[1..], q);
      assert entries == [entries[0]] + entries[1..];
      forall e | e in Newest(entries[1..], q) ensures e.id > entries[0].id {
        assert e in entries[1..];
      }
    }
  }

  // ---- Paging while entries keep coming --------------------------------------------------

  datatype Walk = Walk(shown: seq<Entry>, more: bool, next: nat)

  /** What has been shown after one page for every count: the page for `counts[k]` is taken from
      the trail as it is after that many submissions, and resumes where the page before it ended. */
  ghost function WalkOver(capacity: nat, submissions: seq<Submission>, query: Query, counts: seq<nat>): Walk
    requires capacity > 0 && forall k :: 0 <= k < |counts| ==> counts[k] <= |submissions|
  {
    if counts == [] then Walk([], true, 0)
    else
      var last := |counts| - 1;
      Turn(WalkOver(capacity, submissions, query, counts[..last]),
           After(capacity, submissions[..counts[last]]).entries, query)
  }

  function Turn(w: Walk, held: seq<Entry>, query: Query): Walk {
    if !w.more then w
    else
      var page := ListOf(held, query.(cursor := w.next));
      Walk(w.shown + page.entries, page.hasMore, page.nextCursor)
  }

  ghost predicate IsLog(log: seq<Entry>) {
    |log| <= MAX_CURSOR && forall i :: 0 <= i < |log| ==> log[i].id == i + 1
  }

  predicate Retained(x: nat, n: nat, capacity: nat) { n <= x + capacity }

  /** A matching entry among the first `n`. */
  predicate Candidate(e: Entry, log: seq<Entry>, q: Query, n: nat)
    requires n <= |log|
  {
    1 <= e.id <= n && e == log[e.id - 1] && EntryMatches(e, q)
  }

  /** `first` entries had been recorded at the first page and `n` at the latest one. Nothing is
      shown twice, only matching entries of that time are shown, and of those still retained
      all are shown down to the place where the walk stands. */
  ghost predicate Faithful(w: Walk, log: seq<Entry>, capacity: nat, q: Query, first: nat, n: nat)
    requires first <= n <= |log|
  {
    && Descending(w.shown)
    && (w.more ==> 0 < w.next <= first)
    && (forall e :: e in w.shown ==> Candidate(e, log, q, first) && (w.more ==> e.id >= w.next))
    && (forall e :: Candidate(e, log, q, first) && Retained(e.id - 1, n, capacity) && (w.more ==> e.id >= w.next) ==>
        e in w.shown)
  }

  lemma HeldIs(log: seq<Entry>, n: nat, capacity: nat)
    requires IsLog(log) && n <= |log|
    ensures Ascending(Held(log, n, capacity))
    ensures forall e :: e in Held(log, n, capacity) <==>
              1 <= e.id <= n && e == log[e.id - 1] && Retained(e.id - 1, n, capacity)
  {
    var held, from := Held(log, n, capacity), if n > capacity then n - capacity else 0;
    forall e ensures e in held <==> 1 <= e.id <= n && e == log[e.id - 1] && Retained(e.id - 1, n, capacity) {
      if e in held {
        var i :| 0 <= i < |held| && held[i] == e;
        assert e == log[from + i];
      }
      if 1 <= e.id <= n && e == log[e.id - 1] && Retained(e.id - 1, n, capacity) {
        assert held[e.id - 1 - from] == e;
      }
    }
  }

  /** What a page may show: retained matching entries below the cursor. */
  predicate Choice(e: Entry, log: seq<Entry>, n: nat, capacity: nat, q: Query, cursor: nat)
    requires n <= |log|
  {
    Candidate(e, log, q, n) && Retained(e.id - 1, n, capacity) && (cursor == 0 || e.id < cursor)
  }

  /** The page's contents: the newest of the choices, down to the next cursor. */
  ghost predicate PageIs(page: Result, log: seq<Entry>, n: nat, capacity: nat, q: Query, cursor: nat)
    requires n <= |log|
  {
    && Descending(page.entries)
    && (forall e :: e in page.entries <==>
          Choice(e, log, n, capacity, q, cursor) && (page.hasMore ==> e.id >= page.nextCursor))
    && (page.hasMore ==> 1 <= page.nextCursor <= n && (cursor == 0 || page.nextCursor < cursor))
  }

  lemma TakenPrefix(all: seq<Entry>, limit: nat, e: Entry)
    requires Descending(all) && 0 < limit < |all|
    ensures e in Take(all, limit) <==> e in all && e.id >= all[limit - 1].id
  {
    if e in all {
      var i :| 0 <= i < |all| && all[i] == e;
      if i < limit {
        assert e in all[..limit];
      }
      if e in all[..limit] {
        var j :| 0 <= j < limit && all[j] == e;
      }
    }
  }

  /** A cut of the newest entries says where it stopped. */
  lemma CutAt(all: seq<Entry>, limit: nat)
    requires Descending(all) && limit > 0
    ensures Descending(Take(all, limit))
    ensures forall e :: e in Take(all, limit) <==> e in all && (|all| > limit ==> e.id >= all[limit - 1].id)
  {
    if |all| > limit {
      forall e ensures e in Take(all, limit) <==> e in all && e.id >= all[limit - 1].id {
        TakenPrefix(all, limit, e);
      }
    }
  }

  lemma SameSelectors(query: Query, cursor: nat, e: Entry)
    requires cursor <= MAX_CURSOR
    ensures Shows(e, NormaliseQuery(query.(cursor := cursor))) <==>
              EntryMatches(e, NormaliseQuery(query)) && (cursor == 0 || e.id < cursor)
  {
  }

  /** The entries to choose the page from. */
  lemma Choices(log: seq<Entry>, n: nat, capacity: nat, query: Query, cursor: nat)
    requires IsLog(log) && n <= |log| && cursor <= |log|
    ensures var all := Newest(Held(log, n, capacity), NormaliseQuery(query.(cursor := cursor)));
            Descending(all) && forall e :: e in all <==> Choice(e, log, n, capacity, NormaliseQuery(query), cursor)
  {
    HeldIs(log, n, capacity);
    NewestIs(Held(log, n, capacity), NormaliseQuery(query.(cursor := cursor)));
    forall e ensures Shows(e, NormaliseQuery(query.(cursor := cursor))) <==>
                       EntryMatches(e, NormaliseQuery(query)) && (cursor == 0 || e.id < cursor) {
      SameSelectors(query, cursor, e);
    }
  }

  lemma ListIsPage(log: seq<Entry>, n: nat, capacity: nat, query: Query, cursor: nat)
    requires IsLog(log) && n <= |log| && cursor <= |log|
    ensures PageIs(ListOf(Held(log, n, capacity), query.(cursor := cursor)), log, n, capacity, NormaliseQuery(query),
                   cursor)
  {
    var held, at := Held(log, n, capacity), query.(cursor := cursor);
    Choices(log, n, capacity, query, cursor);
    ListedAs(held, at);
    CutIsPage(ListOf(held, at), Newest(held, NormaliseQuery(at)), ClampLimit(query.limit), log, n, capacity,
              NormaliseQuery(query), cursor);
  }

  /** The page is the first `limit` of the entries and says where it stopped. */
  predicate Cuts(page: Result, all: seq<Entry>, limit: nat)
    requires limit > 0
  {
    && page.entries == Take(all, limit) && page.hasMore == (|all| > limit)
    && (|all| > limit ==> page.nextCursor == all[limit - 1].id)
  }

  lemma ListedAs(entries: seq<Entry>, query: Query)
    ensures Cuts(ListOf(entries, query), Newest(entries, NormaliseQuery(query)), ClampLimit(query.limit))
  {
  }

  lemma CutIsPage(page: Result, all: seq<Entry>, limit: nat, log: seq<Entry>, n: nat, capacity: nat, q: Query,
                  cursor: nat)
    requires n <= |log| && limit > 0 && Descending(all) && Cuts(page, all, limit)
    requires forall e :: e in all <==> Choice(e, log, n, capacity, q, cursor)
    ensures PageIs(page, log, n, capacity, q, cursor)
  {
    CutAt(all, limit);
    if |all| > limit {
      assert all[limit - 1] in all;
    }
  }

  lemma TurnFaithful(w: Walk, log: seq<Entry>, capacity: nat, query: Query, first: nat, n: nat, now: nat)
    requires IsLog(log) && first <= n <= now <= |log|
    requires Faithful(w, log, capacity, NormaliseQuery(query), first, n)
    ensures Faithful(Turn(w, Held(log, now, capacity), query), log, capacity, NormaliseQuery(query), first, now)
  {
    if w.more {
      ListIsPage(log, now, capacity, query, w.next);
      PageFollows(w, ListOf(Held(log, now, capacity), query.(cursor := w.next)), log, capacity, NormaliseQuery(query),
                  first, n, now);
    }
  }

  lemma PageFollows(w: Walk, page: Result, log: seq<Entry>, capacity: nat, q: Query, first: nat, n: nat, now: nat)
    requires first <= n <= now <= |log| && w.more && Faithful(w, log, capacity, q, first, n)
    requires PageIs(page, log, now, capacity, q, w.next)
    ensures Faithful(Walk(w.shown + page.entries, page.hasMore, page.nextCursor), log, capacity, q, first, now)
  {
  }

  lemma FirstFaithful(log: seq<Entry>, capacity: nat, query: Query, first: nat)
    requires IsLog(log) && first <= |log|
    ensures Faithful(Turn(Walk([], true, 0), Held(log, first, capacity), query), log, capacity, NormaliseQuery(query),
                     first, first)
  {
    ListIsPage(log, first, capacity, query, 0);
  }

  ghost predicate Growing(counts: seq<nat>, bound: nat) {
    && (forall k :: 0 <= k < |counts| ==> counts[k] <= bound)
    && (forall k, l :: 0 <= k <= l < |counts| ==> counts[k] <= counts[l])
  }

  /** However many entries are recorded between the pages, the walk never repeats an entry and
      never skips a matching one that is retained throughout. */
  lemma {:induction false} PagesStable(capacity: nat, submissions: seq<Submission>, query: Query, counts: seq<nat>)
    requires capacity > 0 && |submissions| <= MAX_CURSOR && counts != [] && Growing(counts, |submissions|)
    ensures Faithful(WalkOver(capacity, submissions, query, counts), Log(submissions), capacity, NormaliseQuery(query),
                     counts[0], counts[|counts| - 1])
  {
    var last, log := |counts| - 1, Log(submissions);
    var earlier := counts[..last];
    TrailWasHeld(capacity, submissions, counts[last]);
    LogIsLog(submissions);
    if last == 0 {
      FirstFaithful(log, capacity, query, counts[0]);
    } else {
      PagesStable(capacity, submissions, query, earlier);
      assert earlier[0] == counts[0] && earlier[|earlier| - 1] == counts[last - 1];
      TurnFaithful(WalkOver(capacity, submissions, query, earlier), log, capacity, query, counts[0], counts[last - 1],
                   counts[last]);
    }
  }

  lemma LogIsLog(submissions: seq<Submission>)
    requires |submissions| <= MAX_CURSOR
    ensures IsLog(Log(submissions))
  {
  }

  // ---- The store -------------------------------------------------------------------------

  class AuditStore {
    const capacity: nat
    var nextId: nat
    var entries: seq<Entry>

    ghost predicate Valid()
      reads this
    {
      capacity > 0
    }

    ghost function State(): Trail
      reads this
    {
      Trail(entries, nextId)
    }

    constructor (capacity: int)
      ensures Valid() && State() == Trail([], 0)
      ensures this.capacity == if capacity <= 0 then DEFAULT_CAPACITY else capacity
    {
      this.capacity := if capacity <= 0 then DEFAULT_CAPACITY else capacity;
      nextId, entries := 0, [];
    }

    method RecordAdminAudit(s: Submission) returns (entry: Entry)
      requires Valid()
      modifies `nextId, `entries
      ensures Valid() && State() == RecordEffect(old(State()), capacity, s) && entry == Stamp(s, nextId)
    {
      entry := NormaliseEntry(s.entry);
      nextId := nextId + 1;
      entry := entry.(id := nextId, recordedAt := if entry.recordedAt == 0 then s.clock else entry.recordedAt);
      if |entries| >= capacity {
        entries := entries[1..] + [entry];
      } else {
        entries := entries + [entry];
      }
    }

    method List(query: Query) returns (result: Result)
      ensures result == ListOf(entries, query)
    {
      var q, limit := NormaliseQuery(query), ClampLimit(query.limit);
      var found: seq<Entry>, total, hasMore := [], 0, false;
      var i := |entries|;
      while i > 0
        invariant 0 <= i <= |entries|
        invariant total == CountMatching(entries[i..], q)
        invariant found == Take(Newest(entries[i..], q), limit) && (hasMore <==> |Newest(entries[i..], q)| > limit)
      {
        i := i - 1;
        var entry := entries[i];
        ListStep(entries, q, i);
        TakeMore(Newest(entries[i + 1..], q), entry, limit);
        if EntryMatches(entry, q) {
          total := total + 1;
          if q.cursor == 0 || entry.id < q.cursor {
            if |found| < limit {
              found := found + [entry];
            } else {
              hasMore := true;
            }
          }
        }
      }
      assert entries[0..] == entries;
      result := Result(limit, q.cursor, if hasMore then found[|found| - 1].id else 0, hasMore, total, found);
    }
  }

  lemma ListStep(entries: seq<Entry>, q: Query, i: nat)
    requires i < |entries|
    ensures Newest(entries[i..], q) == Newest(entries[i + 1..], q) + (if Shows(entries[i], q) then [entries[i]] else [])
    ensures CountMatching(entries[i..], q)
            == CountMatching(entries[i + 1..], q) + (if EntryMatches(entries[i], q) then 1 else 0)
  {
    assert entries[i..][1..] == entries[i + 1..];
  }

  lemma TakeMore(s: seq<Entry>, e: Entry, limit: nat)
    requires limit > 0
    ensures Take(s + [e], limit) == if |s| < limit then Take(s, limit) + [e] else Take(s, limit)
  {
  }

  // ---- Parsing the cursor ----------------------------------------------------------------

  ghost predicate AllDigits(s: string) {
    forall i :: 0 <= i < |s| ==> IsDigit(s[i])
  }

  lemma {:induction false} NumberGrows(s: string, i: nat)
    requires AllDigits(s) && i <= |s|
    ensures Number(s[..i]) <= Number(s)
    decreases |s| - i
  {
    if i < |s| {
      assert s[..i + 1][..i] == s[..i];
      assert IsDigit(s[i]);
      NumberGrows(s, i + 1);
    } else {
      assert s[..i] == s;
    }
  }

  lemma DigitStep(s: string, i: nat)
    requires i < |s| && AllDigits(s[..i]) && IsDigit(s[i])
    ensures AllDigits(s[..i + 1]) && Number(s[..i + 1]) == Number(s[..i]) * 10 + (s[i] as int - '0' as int)
  {
    assert s[..i + 1][..i] == s[..i] && s[..i + 1][i] == s[i];
  }

  ghost predicate Overflows(s: string) {
    AllDigits(s) && Number(s) > MAX_CURSOR
  }

  lemma NoOverflow(s: string, i: nat)
    requires i < |s| && AllDigits(s[..i]) && !IsDigit(s[i]) && Number(s[..i]) <= MAX_CURSOR
    ensures forall j :: 0 <= j < |s| ==> !Overflows(s[..j])
  {
    forall j | 0 <= j < |s| ensures !Overflows(s[..j]) {
      if j <= i {
        assert s[..i][..j] == s[..j];
        NumberGrows(s[..i], j);
      } else {
        assert s[..j][i] == s[i];
      }
    }
  }

  /** On digits the cursor is their value, or the largest cursor if that is less: the running
      value never overflows. Blank text and text with other characters give no cursor, unless
      the digits before already exceed the largest. */
  method ParseCursor(text: string) returns (cursor: nat)
    ensures cursor <= MAX_CURSOR
    ensures var raw := TrimSpace(text);
            && (AllDigits(raw) ==> cursor == if Number(raw) < MAX_CURSOR then Number(raw) else MAX_CURSOR)
            && (!AllDigits(raw) ==> cursor == if exists i :: 0 <= i < |raw| && Overflows(raw[..i]) then MAX_CURSOR
                else 0)
  {
    var raw := TrimSpace(text);
    cursor := 0;
    for i := 0 to |raw|
      invariant AllDigits(raw[..i]) && cursor == Number(raw[..i]) <= MAX_CURSOR
    {
      if raw[i] < '0' || raw[i] > '9' {
        NoOverflow(raw, i);
        return 0;
      }
      var digit := raw[i] as int - '0' as int;
      DigitStep(raw, i);
      if cursor > (MAX_CURSOR - digit) / 10 {
        assert Overflows(raw[..i + 1]);
        if AllDigits(raw) {
          NumberGrows(raw, i + 1);
        } else {
          assert i + 1 < |raw| by { assert raw[..|raw|] == raw; }
        }
        return MAX_CURSOR;
      }
      cursor := cursor * 10 + digit;
    }
    assert raw[..|raw|] == raw;
  }
}
