/** The claim query of internal/downlink/postgres_store.go as a specification of the memory store's
    fair scan: the same rows, in the same order, including its WHERE clause. */
module RetryQuery {
  import opened Messages
  import opened Fairness
  import opened FairnessProperties
  import opened StoreModel
  import opened MemoryStores

  /** Zero times are written as NULL. */
  function Column(t: Time): Option<Time> {
    if t == 0 then None else Some(t)
  }

  /** `column <= t` is true; with NULL it is not. */
  predicate NotAfter(column: Option<Time>, t: Time) {
    column.Some? && column.value <= t
  }

  predicate Where(m: Message, now: Time, ackTimeout: Duration) {
    var nextRetryAt, sentAt, claimUntil := Column(m.nextRetryAt), Column(m.sentAt), Column(m.claimUntil);
    var includeAckTimeout, ackDeadline := ackTimeout > 0, now - ackTimeout;
    && (|| (m.status == Pending && (nextRetryAt.None? || NotAfter(nextRetryAt, now)))
        || (m.status == Sent && m.ackRequired
            && (|| (nextRetryAt.Some? && NotAfter(nextRetryAt, now))
                || (nextRetryAt.None? && includeAckTimeout && sentAt.Some? && NotAfter(sentAt, ackDeadline)))))
    && (claimUntil.None? || NotAfter(claimUntil, now))
  }

  /** The rows of the table that the WHERE clause keeps. */
  function Matching(messages: map<string, Message>, now: Time, ackTimeout: Duration): set<Message> {
    set id | id in messages && Where(messages[id], now, ackTimeout) :: messages[id]
  }

  lemma MatchingIsDue(messages: map<string, Message>, now: Time, ackTimeout: Duration)
    ensures Matching(messages, now, ackTimeout) == DueSet(messages, now, ackTimeout)
  {
    forall id | id in messages
      ensures Where(messages[id], now, ackTimeout) <==> DueForRetry(messages[id], now, ackTimeout)
    {
      assert ackTimeout > 0 ==> (messages[id].sentAt <= now - ackTimeout <==> messages[id].sentAt + ackTimeout <= now);
    }
  }

  /** What a fair scan of the memory store returns is what the query's `selected` rows are, for
      every table, limit, window and acknowledgement timeout. */
  lemma SelectionMatchesQuery(messages: map<string, Message>, now: Time, ackTimeout: Duration, limit: int,
                              candidateLimit: int)
    requires Keyed(messages)
    ensures var rows := Matching(messages, now, ackTimeout);
            && UniqueIds(rows)
            && RetryChoice(messages, now, ackTimeout, limit, candidateLimit)
               == SelectedRows(rows, CandidateBound(limit, candidateLimit), ScanLimit(limit))
  {
    MatchingIsDue(messages, now, ackTimeout);
    DueUnique(messages, now, ackTimeout);
    RoundsMatchRows(DueSet(messages, now, ackTimeout), CandidateBound(limit, candidateLimit), ScanLimit(limit));
  }

  // ---- The plain listing -----------------------------------------------------------------

  /** The rows of the listing query: ORDER BY created_at, message_id LIMIT limit, 100 by default. */
  ghost function ListedRows(messages: map<string, Message>, now: Time, ackTimeout: Duration, limit: int): seq<Message>
    requires Keyed(messages)
  {
    MatchingIsDue(messages, now, ackTimeout);
    DueUnique(messages, now, ackTimeout);
    Window(Matching(messages, now, ackTimeout), if limit <= 0 then 100 else limit)
  }

  /** The memory store's plain listing is the query's if and only if a positive limit is given or no
      more than the query's default is due: without a limit the memory store lists everything. */
  lemma ListingMatchesQueryExactly(messages: map<string, Message>, now: Time, ackTimeout: Duration, limit: int)
    requires Keyed(messages)
    ensures Limited(DueListing(messages, now, ackTimeout), limit) == ListedRows(messages, now, ackTimeout, limit)
            <==> limit > 0 || |DueSet(messages, now, ackTimeout)| <= 100
  {
    MatchingIsDue(messages, now, ackTimeout);
    DueUnique(messages, now, ackTimeout);
    CreatedOrder(DueSet(messages, now, ackTimeout));
  }
}
