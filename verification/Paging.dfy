/** Listing messages of one status page by page (internal/downlink/memory_store.go and
    message_cursor.go): latest first, each page resuming after the last message shown. */
module Paging {
  import opened Messages
  import opened Ordering
  import opened Text
  import opened Fairness
  import opened StoreModel
  import opened Cursors

  const DEFAULT_LIMIT: nat := 100
  const MAX_LIMIT: nat := 1000

  function NormaliseLimit(limit: int): (n: nat)
    ensures 1 <= n <= MAX_LIMIT && (1 <= limit <= MAX_LIMIT ==> n == limit)
  {
    if limit <= 0 then DEFAULT_LIMIT else if limit > MAX_LIMIT then MAX_LIMIT else limit
  }

  /** Latest first, then by ID. */
  predicate LaterFirst(a: Message, b: Message) {
    RetentionTime(a) > RetentionTime(b) || (RetentionTime(a) == RetentionTime(b) && StrLess(a.messageId, b.messageId))
  }

  lemma ListOrder(messages: set<Message>)
    requires UniqueIds(messages)
    ensures StrictOrder(LaterFirst) && Separates(LaterFirst, messages)
  {
    forall a, b | LaterFirst(a, b) ensures !LaterFirst(b, a) {
      StrLessTotal(a.messageId, b.messageId);
    }
    forall a, b, c | LaterFirst(a, b) && LaterFirst(b, c) ensures LaterFirst(a, c) {
      if RetentionTime(a) == RetentionTime(b) == RetentionTime(c) {
        StrLessTransitive(a.messageId, b.messageId, c.messageId);
      }
    }
    forall a, b | a in messages && b in messages && a != b ensures LaterFirst(a, b) || LaterFirst(b, a) {
      StrLessTotal(a.messageId, b.messageId);
    }
  }

  predicate AfterCursor(m: Message, cursor: Cursor) {
    var c := NormaliseCursor(cursor);
    || c == START
    || RetentionTime(m) < c.updatedAt
    || (RetentionTime(m) == c.updatedAt && StrLess(c.messageId, m.messageId))
  }

  function CursorOf(m: Message): Cursor {
    NormaliseCursor(Cursor(RetentionTime(m), m.messageId))
  }

  function Remaining(messages: map<string, Message>, status: Status, cursor: Cursor): set<Message> {
    set id | id in messages && messages[id].status == status && AfterCursor(messages[id], cursor) :: messages[id]
  }

  function OfStatus(messages: map<string, Message>, status: Status): set<Message> {
    set id | id in messages && messages[id].status == status :: messages[id]
  }

  ghost function RemainingListing(messages: map<string, Message>, status: Status, cursor: Cursor): seq<Message>
    requires Keyed(messages)
  {
    ListOrder(Remaining(messages, status, cursor));
    Listing(Remaining(messages, status, cursor), LaterFirst)
  }

  /** All messages of a status, latest first. */
  ghost function FullListing(messages: map<string, Message>, status: Status): seq<Message>
    requires Keyed(messages)
  {
    ListOrder(OfStatus(messages, status));
    Listing(OfStatus(messages, status), LaterFirst)
  }

  datatype Page = Page(messages: seq<Message>, total: nat, hasMore: bool, nextCursor: Cursor)

  /** The first `n` of what remains. */
  function Cut(rest: seq<Message>, n: nat, total: nat): Page
    requires n > 0
  {
    Page(Take(rest, n), total, |rest| > n, if |rest| > n then CursorOf(rest[n - 1]) else START)
  }

  ghost function PageOf(messages: map<string, Message>, status: Status, limit: int, cursor: Cursor): Page
    requires Keyed(messages)
  {
    Cut(RemainingListing(messages, status, NormaliseCursor(cursor)), NormaliseLimit(limit),
        |OfStatus(messages, status)|)
  }

  // ---- Following the pages ---------------------------------------------------------------

  datatype Progress = Progress(shown: seq<Message>, more: bool, next: Cursor)

  function Advance(w: Progress, page: Page): Progress {
    Progress(w.shown + page.messages, page.hasMore, page.nextCursor)
  }

  /** What has been shown after `pages` pages, following each page's cursor while there is more. */
  ghost function WalkBy(pageAt: Cursor -> Page, pages: nat): Progress {
    if pages == 0 then Progress([], true, START)
    else
      var before := WalkBy(pageAt, pages - 1);
      if before.more then Advance(before, pageAt(before.next)) else before
  }

  ghost function Walk(messages: map<string, Message>, status: Status, limit: int, pages: nat): Progress
    requires Keyed(messages)
  {
    WalkBy(c => PageOf(messages, status, limit, c), pages)
  }

  /** The message's cursor is a position of its own: it has an ID without surrounding white space
      and carries a time. */
  predicate Pageable(m: Message) {
    TrimSpace(m.messageId) == m.messageId && m.messageId != "" && RetentionTime(m) != 0
  }

  ghost predicate AllPageable(messages: map<string, Message>, status: Status) {
    forall id :: id in messages && messages[id].status == status ==> Pageable(messages[id])
  }

  lemma StartIsAll(messages: map<string, Message>, status: Status)
    ensures Remaining(messages, status, START) == OfStatus(messages, status)
  {
  }

  lemma StartShowsAll(messages: map<string, Message>, status: Status)
    requires Keyed(messages)
    ensures RemainingListing(messages, status, START) == FullListing(messages, status)
  {
    StartIsAll(messages, status);
  }

  lemma AfterMessage(m: Message, x: Message)
    requires Pageable(m)
    ensures AfterCursor(x, CursorOf(m)) <==> LaterFirst(m, x)
  {
  }

  lemma ListedOf(messages: map<string, Message>, status: Status, x: Message)
    requires Keyed(messages)
    ensures x in FullListing(messages, status) <==>
              x.messageId in messages && messages[x.messageId] == x && x.status == status
  {
    assert x in FullListing(messages, status) <==> x in OfStatus(messages, status);
  }

  /** After a message's cursor come exactly the messages listed after it. */
  lemma ResumesAfter(messages: map<string, Message>, status: Status, k: nat)
    requires Keyed(messages) && AllPageable(messages, status) && k < |FullListing(messages, status)|
    ensures var all := FullListing(messages, status);
            RemainingListing(messages, status, CursorOf(all[k])) == all[k + 1..]
  {
    var all := FullListing(messages, status);
    var m := all[k];
    ListedOf(messages, status, m);
    ListOrder(OfStatus(messages, status));
    var rest := Remaining(messages, status, CursorOf(m));
    forall x ensures x in all[k + 1..] <==> x in rest {
      ListedOf(messages, status, x);
      AfterMessage(m, x);
      AfterInListing(all, k, x);
    }
    ListingUnique(RemainingListing(messages, status, CursorOf(m)), all[k + 1..], rest, LaterFirst);
  }

  lemma AfterInListing(all: seq<Message>, k: nat, x: Message)
    requires StrictOrder(LaterFirst) && Ordered(all, LaterFirst) && k < |all|
    ensures x in all[k + 1..] <==> x in all && LaterFirst(all[k], x)
  {
    if x in all && LaterFirst(all[k], x) {
      var i :| 0 <= i < |all| && all[i] == x;
      assert i > k;
      assert all[k + 1..][i - k - 1] == x;
    }
  }

  /** The first `upTo` messages have been shown, and the walk knows how to go on. */
  predicate Reached(w: Progress, all: seq<Message>, upTo: nat) {
    && w.shown == Take(all, upTo)
    && (w.more <==> |all| > upTo)
    && (w.more ==> upTo > 0 && w.next == CursorOf(all[upTo - 1]))
  }

  lemma CutSuffix(w: Progress, all: seq<Message>, n: nat, upTo: nat, total: nat)
    requires n > 0 && upTo <= |all| && w.shown == all[..upTo]
    ensures Reached(Advance(w, Cut(all[upTo..], n, total)), all, upTo + n)
  {
    var rest := all[upTo..];
    if |rest| > n {
      assert all[..upTo] + rest[..n] == all[..upTo + n];
    } else {
      assert all[..upTo] + rest == all;
    }
  }

  lemma PageAfter(messages: map<string, Message>, status: Status, limit: int, k: nat)
    requires Keyed(messages) && AllPageable(messages, status) && k < |FullListing(messages, status)|
    ensures var all := FullListing(messages, status);
            PageOf(messages, status, limit, CursorOf(all[k]))
              == Cut(all[k + 1..], NormaliseLimit(limit), |OfStatus(messages, status)|)
  {
    var m := FullListing(messages, status)[k];
    NormaliseIdempotent(Cursor(RetentionTime(m), m.messageId));
    ResumesAfter(messages, status, k);
  }

  /** Every page is the next stretch of one list. */
  ghost predicate Serves(pageAt: Cursor -> Page, all: seq<Message>, n: nat, total: nat)
    requires n > 0
  {
    pageAt(START) == Cut(all, n, total) && forall k: nat :: k < |all| ==> ServesAfter(pageAt, all, n, total, k)
  }

  ghost predicate ServesAfter(pageAt: Cursor -> Page, all: seq<Message>, n: nat, total: nat, k: nat)
    requires n > 0 && k < |all|
  {
    pageAt(CursorOf(all[k])) == Cut(all[k + 1..], n, total)
  }

  /** How many messages that many pages can show. */
  function Room(pages: nat, n: nat): nat {
    if pages == 0 then 0 else Room(pages - 1, n) + n
  }

  lemma {:induction false} RoomIsProduct(pages: nat, n: nat)
    ensures Room(pages, n) == pages * n
  {
    if pages > 0 {
      RoomIsProduct(pages - 1, n);
      assert (pages - 1) * n + n == pages * n;
    }
  }

  lemma WalkByFirst(pageAt: Cursor -> Page, all: seq<Message>, n: nat, total: nat)
    requires n > 0 && Serves(pageAt, all, n, total)
    ensures Reached(WalkBy(pageAt, 1), all, n)
  {
    assert WalkBy(pageAt, 0) == Progress([], true, START);
    assert all[0..] == all;
    CutSuffix(WalkBy(pageAt, 0), all, n, 0, total);
  }

  lemma {:induction false} WalkByPrefix(pageAt: Cursor -> Page, all: seq<Message>, n: nat, total: nat, pages: nat)
    requires n > 0 && pages > 0 && Serves(pageAt, all, n, total)
    ensures Reached(WalkBy(pageAt, pages), all, Room(pages, n))
  {
    if pages == 1 {
      WalkByFirst(pageAt, all, n, total);
    } else {
      WalkByPrefix(pageAt, all, n, total, pages - 1);
      AdvanceReaches(WalkBy(pageAt, pages - 1), WalkBy(pageAt, pages), pageAt, all, n, total, Room(pages - 1, n),
                     Room(pages, n));
    }
  }

  lemma AdvanceReaches(w: Progress, after: Progress, pageAt: Cursor -> Page, all: seq<Message>, n: nat, total: nat,
                       upTo: nat, next: nat)
    requires n > 0 && Serves(pageAt, all, n, total) && Reached(w, all, upTo)
    requires after == (if w.more then Advance(w, pageAt(w.next)) else w) && next == upTo + n
    ensures Reached(after, all, next)
  {
    if w.more {
      assert ServesAfter(pageAt, all, n, total, upTo - 1);
      CutSuffix(w, all, n, upTo, total);
    }
  }

  lemma StoreServes(messages: map<string, Message>, status: Status, limit: int)
    requires Keyed(messages) && AllPageable(messages, status)
    ensures Serves(c => PageOf(messages, status, limit, c), FullListing(messages, status), NormaliseLimit(limit),
                   |OfStatus(messages, status)|)
  {
    StartShowsAll(messages, status);
    var all, pageAt := FullListing(messages, status), c => PageOf(messages, status, limit, c);
    forall k: nat | k < |all|
      ensures ServesAfter(pageAt, all, NormaliseLimit(limit), |OfStatus(messages, status)|, k)
    {
      PageAfter(messages, status, limit, k);
    }
  }

  /** After `pages` pages the first `pages` times `limit` messages have been shown, in order and
      each once, and there is more exactly when there are more messages than that. */
  lemma WalkShowsPrefix(messages: map<string, Message>, status: Status, limit: int, pages: nat)
    requires Keyed(messages) && AllPageable(messages, status) && pages > 0
    ensures Reached(Walk(messages, status, limit, pages), FullListing(messages, status), pages * NormaliseLimit(limit))
  {
    StoreServes(messages, status, limit);
    RoomIsProduct(pages, NormaliseLimit(limit));
    WalkByPrefix(c => PageOf(messages, status, limit, c), FullListing(messages, status), NormaliseLimit(limit),
                 |OfStatus(messages, status)|, pages);
  }

  /** Following the cursors ends, and the pages together are the whole list in order. */
  lemma PagesPartition(messages: map<string, Message>, status: Status, limit: int, pages: nat)
    requires Keyed(messages) && AllPageable(messages, status)
    requires pages > 0 && pages * NormaliseLimit(limit) >= |OfStatus(messages, status)|
    ensures var w := Walk(messages, status, limit, pages);
            w.shown == FullListing(messages, status) && !w.more
  {
    WalkShowsPrefix(messages, status, limit, pages);
  }

  // ---- Reachable stores ------------------------------------------------------------------

  /** The store's clock is set and its ID generator gives an ID. */
  predicate Regular(a: Action) {
    match a
    case Save(_, _, freshId, clock) => clock != 0 && freshId != ""
    case Claim(_, _, _, _, _, _, clock) => clock != 0
    case MarkSent(_, _, _, _, clock) => clock != 0
    case MarkDelivered(_, _, _, clock) => clock != 0
    case MarkAttemptFailed(_, _, _, clock) => clock != 0
    case MarkFailed(_, _, clock) => clock != 0
    case Requeue(_, _, _, clock) => clock != 0
    case Discard(_, _, _, clock) => clock != 0
    case _ => true
  }

  predicate Stamped(m: Message) { m.messageId != "" && m.updatedAt != 0 }

  ghost predicate AllStamped(st: Store) {
    forall id :: id in st.messages ==> Stamped(st.messages[id])
  }

  lemma QueueStamps(st: Store, a: Action)
    requires WellFormed(st) && AllStamped(st) && Regular(a) && (a.Save? || a.Claim? || a.Requeue? || a.DeleteExpired?)
    ensures AllStamped(Step(st, a))
  {
  }

  lemma DeliveryStamps(st: Store, a: Action)
    requires WellFormed(st) && AllStamped(st) && Regular(a) && (a.MarkSent? || a.MarkDelivered? || a.MarkAttemptFailed?)
    ensures AllStamped(Step(st, a))
  {
  }

  lemma FailedStamps(st: Store, id: string, transition: TerminalTransition, clock: Time)
    requires WellFormed(st) && AllStamped(st) && clock != 0
    ensures AllStamped(FailedEffect(st, id, transition, clock))
  {
  }

  lemma DiscardStamps(st: Store, id: string, reason: string, transition: TerminalTransition, clock: Time)
    requires WellFormed(st) && AllStamped(st) && clock != 0
    ensures AllStamped(DiscardEffect(st, id, reason, transition, clock))
  {
  }

  lemma PublishStamps(st: Store, a: Action)
    requires WellFormed(st) && AllStamped(st) && (a.ClaimTerminal? || a.MarkPublished? || a.MarkPublishFailed?)
    ensures AllStamped(Step(st, a))
  {
  }

  lemma StepStamps(st: Store, a: Action)
    requires WellFormed(st) && AllStamped(st) && Regular(a)
    ensures AllStamped(Step(st, a))
  {
    match a
    case MarkFailed(id, transition, clock) => FailedStamps(st, id, transition, clock);
    case Discard(id, reason, transition, clock) => DiscardStamps(st, id, reason, transition, clock);
    case MarkSent(_, _, _, _, _) => DeliveryStamps(st, a);
    case MarkDelivered(_, _, _, _) => DeliveryStamps(st, a);
    case MarkAttemptFailed(_, _, _, _) => DeliveryStamps(st, a);
    case ClaimTerminal(_, _, _, _, _) => PublishStamps(st, a);
    case MarkPublished(_, _, _, _) => PublishStamps(st, a);
    case MarkPublishFailed(_, _, _, _) => PublishStamps(st, a);
    case _ => QueueStamps(st, a);
  }

  /** Every message a run stores has an ID and a time. */
  lemma {:induction false} RunStamps(actions: seq<Action>)
    requires forall i :: 0 <= i < |actions| ==> Regular(actions[i])
    ensures AllStamped(Run(EMPTY, actions))
  {
    if actions != [] {
      var last := |actions| - 1;
      RunStamps(actions[..last]);
      StepStamps(Run(EMPTY, actions[..last]), actions[last]);
    }
  }

  ghost predicate Trimmed(messages: map<string, Message>, status: Status) {
    forall id :: id in messages && messages[id].status == status ==> TrimSpace(id) == id
  }

  /** After every run, if the IDs of that status carry no surrounding white space, following the
      cursors ends and the pages together are the whole list. */
  lemma ReachablePagesPartition(actions: seq<Action>, status: Status, limit: int, pages: nat)
    requires forall i :: 0 <= i < |actions| ==> Regular(actions[i])
    requires Trimmed(Run(EMPTY, actions).messages, status)
    requires pages > 0 && pages * NormaliseLimit(limit) >= |OfStatus(Run(EMPTY, actions).messages, status)|
    ensures var messages := Run(EMPTY, actions).messages;
            var w := Walk(messages, status, limit, pages);
            w.shown == FullListing(messages, status) && !w.more
  {
    RunStamps(actions);
    PagesPartition(Run(EMPTY, actions).messages, status, limit, pages);
  }

  // ---- IDs with surrounding white space --------------------------------------------------

  lemma PairListing(a: Message, b: Message)
    requires a.messageId != b.messageId && a.status == b.status && LaterFirst(a, b)
    ensures var messages := map[a.messageId := a, b.messageId := b];
            Keyed(messages) && OfStatus(messages, a.status) == {a, b} && FullListing(messages, a.status) == [a, b]
  {
    var messages := map[a.messageId := a, b.messageId := b];
    assert messages[a.messageId] == a && messages[b.messageId] == b;
    assert OfStatus(messages, a.status) == {a, b};
    ListOrder({a, b});
    ListingUnique(FullListing(messages, a.status), [a, b], {a, b}, LaterFirst);
  }

  /** If the first message's cursor does not stand between the two, the second page is not the
      second message. */
  lemma PairPages(a: Message, b: Message)
    requires a.messageId != b.messageId && a.status == b.status && LaterFirst(a, b)
    requires AfterCursor(a, CursorOf(a)) || !AfterCursor(b, CursorOf(a))
    ensures var messages := map[a.messageId := a, b.messageId := b];
            && Keyed(messages) && |FullListing(messages, a.status)| == 2
            && Walk(messages, a.status, 1, 2).shown != FullListing(messages, a.status)
  {
    var messages := map[a.messageId := a, b.messageId := b];
    PairListing(a, b);
    StartShowsAll(messages, a.status);
    NormaliseIdempotent(Cursor(RetentionTime(a), a.messageId));
    var first := PageOf(messages, a.status, 1, START);
    assert first == Page([a], 2, true, CursorOf(a));
    assert Walk(messages, a.status, 1, 1) == Progress([a], true, CursorOf(a)) by {
      assert Walk(messages, a.status, 1, 0) == Progress([], true, START);
    }
    var second := PageOf(messages, a.status, 1, CursorOf(a));
    assert Walk(messages, a.status, 1, 2).shown == [a] + second.messages;
    assert second.messages == [b] ==> |second.messages| == 1 && second.messages[0] == b;
    SecondPage(messages, a, b);
  }

  lemma SecondPage(messages: map<string, Message>, a: Message, b: Message)
    requires a.messageId != b.messageId && a.status == b.status && LaterFirst(a, b)
    requires messages == map[a.messageId := a, b.messageId := b] && Keyed(messages)
    requires AfterCursor(a, CursorOf(a)) || !AfterCursor(b, CursorOf(a))
    ensures PageOf(messages, a.status, 1, CursorOf(a)).messages != [b]
  {
    NormaliseIdempotent(Cursor(RetentionTime(a), a.messageId));
    RemainsOf(messages, a, b, CursorOf(a));
    ListOrder(Remaining(messages, a.status, CursorOf(a)));
    NotFirst(RemainingListing(messages, a.status, CursorOf(a)), a, b);
  }

  lemma RemainsOf(messages: map<string, Message>, a: Message, b: Message, c: Cursor)
    requires a.messageId != b.messageId && a.status == b.status
    requires messages == map[a.messageId := a, b.messageId := b] && Keyed(messages)
    ensures forall x :: x in RemainingListing(messages, a.status, c) <==> x in {a, b} && AfterCursor(x, c)
  {
    assert messages[a.messageId] == a && messages[b.messageId] == b;
    forall x ensures x in Remaining(messages, a.status, c) <==> x in {a, b} && AfterCursor(x, c) {
    }
  }

  lemma NotFirst(listing: seq<Message>, a: Message, b: Message)
    requires StrictOrder(LaterFirst) && Ordered(listing, LaterFirst) && LaterFirst(a, b)
             && (a in listing || b !in listing)
    ensures Take(listing, 1) != [b]
  {
    assert listing != [] && listing[0] == b ==> b in listing;
  }

  lemma {:induction false} LongerIsLater(s: string, c: char)
    ensures StrLess(s, s + [c])
  {
    if s != [] {
      LongerIsLater(s[1..], c);
      assert (s + [c])[1..] == s[1..] + [c];
    }
  }

  /** Two saves into the empty store. */
  ghost function TwoSaves(m: Message, one: string, other: string, clock: Time): seq<Action> {
    [Save(m.(messageId := one), QueueCapacity(0, 0), "fresh", clock),
     Save(m.(messageId := other), QueueCapacity(0, 0), "fresh", clock)]
  }

  lemma TwoSaved(m: Message, one: string, other: string, clock: Time)
    requires one != "" && other != "" && one != other
    ensures Run(EMPTY, TwoSaves(m, one, other, clock)).messages ==
              map[one := Prepared(m.(messageId := one), "fresh", clock),
                  other := Prepared(m.(messageId := other), "fresh", clock)]
  {
    var saves := TwoSaves(m, one, other, clock);
    SavedAlone(EMPTY, saves[0]);
    assert saves[..1][..0] == [] && Run(EMPTY, []) == EMPTY;
    assert Run(EMPTY, saves[..1]) == Step(EMPTY, saves[0]);
    SavedAlone(Step(EMPTY, saves[0]), saves[1]);
    assert Run(EMPTY, saves) == Step(Run(EMPTY, saves[..1]), saves[1]);
  }

  lemma SavedAlone(st: Store, a: Action)
    requires WellFormed(st) && a.Save? && a.capacity == QueueCapacity(0, 0) && a.message.messageId != ""
    requires a.message.messageId !in st.messages
    ensures Step(st, a).messages == st.messages[a.message.messageId := Prepared(a.message, a.freshId, a.clock)]
  {
  }

  /** For every ID with surrounding white space there is another such that, once a message of
      each is saved, the pages of one message are not the list. */
  lemma UntrimmedIdMispages(m: Message, id: string, clock: Time) returns (other: string)
    requires TrimSpace(id) != id && clock != 0
    ensures other != "" && other != id
    ensures var messages := Run(EMPTY, TwoSaves(m, id, other, clock)).messages;
            && id in messages
            && var status := messages[id].status;
               && |FullListing(messages, status)| == 2
               && Walk(messages, status, 1, 2).shown != FullListing(messages, status)
  {
    var t := TrimSpace(id);
    StrLessTotal(t, id);
    StrLessTotal(t, t);
    TrimIdempotent(id);
    LongerIsLater(id, 'x');
    other := if t != "" && StrLess(id, t) then t else id + "x";
    TwoSaved(m, id, other, clock);
    PairPages(Prepared(m.(messageId := id), "fresh", clock), Prepared(m.(messageId := other), "fresh", clock));
  }
}
