/** internal/pipeline/quota_store_local.go as an object: the bucket table and the list that
    keeps the most recently seen key in front. */
module QuotaStores {

  import opened Messages
  import opened Ordering
  import opened Quota

  /** The list names every bucket once. */
  ghost predicate Names(keys: seq<Key>, buckets: Buckets) {
    AllDifferent(keys) && forall k :: k in keys <==> k in buckets
  }

  /** The list runs from the latest seen bucket to the earliest. */
  ghost predicate LatestFirst(keys: seq<Key>, buckets: Buckets) {
    forall i, j :: 0 <= i < j < |keys| && keys[i] in buckets && keys[j] in buckets ==>
      buckets[keys[i]].lastSeen >= buckets[keys[j]].lastSeen
  }

  ghost predicate SeenBy(buckets: Buckets, now: Time) {
    forall k :: k in buckets ==> buckets[k].lastSeen <= now
  }

  // ---- The list under its three updates --------------------------------------------------

  function RemoveAt(keys: seq<Key>, i: nat): seq<Key>
    requires i < |keys|
  {
    keys[..i] + keys[i + 1..]
  }

  lemma RemovedAt(keys: seq<Key>, i: nat, k: Key)
    requires AllDifferent(keys) && i < |keys|
    ensures k in RemoveAt(keys, i) <==> k in keys && k != keys[i]
  {
    assert keys == keys[..i] + [keys[i]] + keys[i + 1..];
  }

  lemma DropLast(keys: seq<Key>, buckets: Buckets)
    requires Names(keys, buckets) && keys != []
    ensures var last := |keys| - 1;
            && Names(keys[..last], buckets - {keys[last]})
            && |buckets - {keys[last]}| < |buckets|
            && (LatestFirst(keys, buckets) ==> LatestFirst(keys[..last], buckets - {keys[last]}))
  {
    var last := |keys| - 1;
    assert RemoveAt(keys, last) == keys[..last];
    forall k ensures k in keys[..last] <==> k in keys && k != keys[last] {
      RemovedAt(keys, last, k);
    }
    assert buckets.Keys == (buckets - {keys[last]}).Keys + {keys[last]};
  }

  lemma DropIdle(buckets: Buckets, key: Key, idleTTL: Duration, now: Time)
    requires key in buckets && now - buckets[key].lastSeen >= idleTTL
    ensures Live(buckets - {key}, idleTTL, now) == Live(buckets, idleTTL, now)
  {
  }

  lemma PushFront(keys: seq<Key>, buckets: Buckets, key: Key, b: Bucket)
    requires Names(keys, buckets) && key !in buckets
    ensures Names([key] + keys, buckets[key := b]) && |buckets[key := b]| == |buckets| + 1
    ensures LatestFirst(keys, buckets) && SeenBy(buckets, b.lastSeen) ==> LatestFirst([key] + keys, buckets[key := b])
  {
  }

  lemma MoveToFront(keys: seq<Key>, buckets: Buckets, i: nat, b: Bucket)
    requires Names(keys, buckets) && i < |keys|
    ensures Names([keys[i]] + RemoveAt(keys, i), buckets[keys[i] := b]) && |buckets[keys[i] := b]| == |buckets|
    ensures LatestFirst(keys, buckets) && SeenBy(buckets, b.lastSeen) ==>
              LatestFirst([keys[i]] + RemoveAt(keys, i), buckets[keys[i] := b])
  {
    RemoveNames(keys, buckets, i);
    if LatestFirst(keys, buckets) {
      RemoveOrder(keys, buckets, i);
    }
    PushFront(RemoveAt(keys, i), buckets - {keys[i]}, keys[i], b);
    PutBack(buckets, keys[i], b);
  }

  lemma PutBack(buckets: Buckets, key: Key, b: Bucket)
    requires key in buckets
    ensures (buckets - {key})[key := b] == buckets[key := b] && |buckets[key := b]| == |buckets|
  {
    assert buckets[key := b].Keys == buckets.Keys;
  }

  lemma RemoveNames(keys: seq<Key>, buckets: Buckets, i: nat)
    requires Names(keys, buckets) && i < |keys|
    ensures Names(RemoveAt(keys, i), buckets - {keys[i]})
  {
    forall k ensures k in RemoveAt(keys, i) <==> k in keys && k != keys[i] {
      RemovedAt(keys, i, k);
    }
  }

  lemma RemoveOrder(keys: seq<Key>, buckets: Buckets, i: nat)
    requires Names(keys, buckets) && i < |keys| && LatestFirst(keys, buckets)
    ensures LatestFirst(RemoveAt(keys, i), buckets - {keys[i]})
  {
    var rest := RemoveAt(keys, i);
    forall a, b | 0 <= a < b < |rest| && rest[a] in buckets && rest[b] in buckets
      ensures buckets[rest[a]].lastSeen >= buckets[rest[b]].lastSeen
    {
      var x, y := if a < i then a else a + 1, if b < i then b else b + 1;
      assert rest[a] == keys[x] && rest[b] == keys[y];
    }
  }

  /** If the last of the list is live, all are. */
  lemma AllLive(keys: seq<Key>, buckets: Buckets, idleTTL: Duration, now: Time)
    requires Names(keys, buckets) && LatestFirst(keys, buckets) && keys != []
    requires now - buckets[keys[|keys| - 1]].lastSeen < idleTTL
    ensures Live(buckets, idleTTL, now) == buckets
  {
    forall k | k in buckets ensures now - buckets[k].lastSeen < idleTTL {
      var i :| 0 <= i < |keys| && keys[i] == k;
    }
  }

  /** Dropping from the back has kept the list right and lost nothing live. */
  ghost predicate Swept(keys: seq<Key>, table: Buckets, lru: seq<Key>, buckets: Buckets, idleTTL: Duration, now: Time) {
    && Names(lru, buckets) && |buckets| <= |table|
    && Live(buckets, idleTTL, now) == Live(table, idleTTL, now)
    && (LatestFirst(keys, table) ==> LatestFirst(lru, buckets))
  }

  lemma SweepDrops(keys: seq<Key>, table: Buckets, lru: seq<Key>, buckets: Buckets, idleTTL: Duration, now: Time)
    requires Swept(keys, table, lru, buckets, idleTTL, now) && lru != []
    requires now - buckets[lru[|lru| - 1]].lastSeen >= idleTTL
    ensures Swept(keys, table, lru[..|lru| - 1], buckets - {lru[|lru| - 1]}, idleTTL, now)
  {
    DropLast(lru, buckets);
    DropIdle(buckets, lru[|lru| - 1], idleTTL, now);
  }

  lemma SweepEnds(keys: seq<Key>, table: Buckets, lru: seq<Key>, buckets: Buckets, idleTTL: Duration, now: Time)
    requires Swept(keys, table, lru, buckets, idleTTL, now)
    requires lru == [] || now - buckets[lru[|lru| - 1]].lastSeen < idleTTL
    ensures LatestFirst(keys, table) ==> buckets == Live(table, idleTTL, now)
  {
    if lru == [] {
      assert buckets == map[];
      assert Live(buckets, idleTTL, now) == map[];
    } else if LatestFirst(keys, table) {
      AllLive(lru, buckets, idleTTL, now);
    }
  }

  method IndexOf(keys: seq<Key>, key: Key) returns (i: nat)
    requires key in keys
    ensures i < |keys| && keys[i] == key
  {
    i := 0;
    while keys[i] != key
      invariant i < |keys| && key !in keys[..i]
      decreases |keys| - i
    {
      i := i + 1;
    }
  }

  // ---- The store -------------------------------------------------------------------------

  class LocalQuotaStore {
    const maxKeys: int
    const idleTTL: Duration
    var buckets: Buckets
    var lru: seq<Key>

    ghost predicate Valid()
      reads this
    {
      Names(lru, buckets) && (maxKeys > 0 ==> |buckets| <= maxKeys)
    }

    constructor (maxKeys: int, idleTTL: Duration)
      ensures Valid() && buckets == map[] && this.maxKeys == maxKeys && this.idleTTL == idleTTL
    {
      this.maxKeys, this.idleTTL, buckets, lru := maxKeys, idleTTL, map[], [];
    }

    /** Drops buckets from the back of the list until one is still live. When the list is in
        order this drops exactly the idle ones, although it does not look at the rest. */
    method RemoveIdleBuckets(now: Time)
      requires Valid()
      modifies `buckets, `lru
      ensures Valid() && Swept(old(lru), old(buckets), lru, buckets, idleTTL, now)
      ensures LatestFirst(old(lru), old(buckets)) ==> buckets == Live(old(buckets), idleTTL, now)
    {
      ghost var keys, table := lru, buckets;
      while lru != []
        invariant Swept(keys, table, lru, buckets, idleTTL, now)
        decreases |lru|
      {
        var last := |lru| - 1;
        if now - buckets[lru[last]].lastSeen < idleTTL {
          break;
        }
        SweepDrops(keys, table, lru, buckets, idleTTL, now);
        buckets, lru := buckets - {lru[last]}, lru[..last];
      }
      SweepEnds(keys, table, lru, buckets, idleTTL, now);
    }

    /** The bucket the request draws from, in front of the list. */
    method Refill(r: Request, now: Time)
      requires Valid() && ValidRequest(r) && (r.key in buckets || |buckets| < maxKeys)
      modifies `buckets, `lru
      ensures Valid() && buckets == old(buckets)[r.key := Ready(old(buckets), r, now)]
      ensures old(LatestFirst(lru, buckets) && SeenBy(buckets, now)) ==> LatestFirst(lru, buckets)
    {
      if r.key !in buckets {
        var b := Bucket(r.config.capacity as real, now, now);
        PushFront(lru, buckets, r.key, b);
        buckets, lru := buckets[r.key := b], [r.key] + lru;
      } else {
        var b := Refilled(buckets[r.key], r.config, now).(lastSeen := now);
        var i := IndexOf(lru, r.key);
        MoveToFront(lru, buckets, i, b);
        buckets, lru := buckets[r.key := b], [r.key] + RemoveAt(lru, i);
      }
    }

    /** Every answer and the whole new table are those of the specification whenever the list
        is in order and the clock has not gone back behind a bucket; and the list stays in
        order. Without that, the number of keys is still bounded. */
    method Admit(r: Request, now: Time) returns (decision: Decision)
      requires Valid()
      modifies `buckets, `lru
      ensures Valid()
      ensures decision.Unavailable? <==> maxKeys <= 0 || idleTTL <= 0 || !ValidRequest(r)
      ensures decision.Unavailable? ==> buckets == old(buckets) && lru == old(lru)
      ensures decision.Overloaded? ==> |buckets| == maxKeys && r.key !in buckets
      ensures !decision.Unavailable? && old(LatestFirst(lru, buckets) && SeenBy(buckets, now)) ==>
                && (buckets, decision) == Quota.Admit(old(buckets), maxKeys, idleTTL, r, now)
                && LatestFirst(lru, buckets) && SeenBy(buckets, now)
    {
      if maxKeys <= 0 || idleTTL <= 0 || !ValidRequest(r) {
        return Unavailable;
      }
      ghost var inOrder, before := LatestFirst(lru, buckets) && SeenBy(buckets, now), buckets;
      RemoveIdleBuckets(now);
      if inOrder {
        LiveSeenBy(before, idleTTL, now);
      }
      if r.key !in buckets && |buckets| >= maxKeys {
        return Overloaded;
      }
      ghost var live := buckets;
      Refill(r, now);
      decision := Draw(r.key);
      if inOrder {
        ServedIs(before, live, buckets, maxKeys, idleTTL, r, now);
      }
    }

    /** Takes one token if there is one. */
    method Draw(key: Key) returns (decision: Decision)
      requires Valid() && key in buckets
      modifies `buckets
      ensures Valid() && (LatestFirst(old(lru), old(buckets)) ==> LatestFirst(lru, buckets))
      ensures key in buckets && (buckets[key], decision) == Quota.Draw(old(buckets)[key])
      ensures buckets == old(buckets)[key := buckets[key]]
    {
      var b := buckets[key];
      if b.tokens < 1.0 {
        return RateLimited;
      }
      SameOrder(lru, buckets, key, b.(tokens := b.tokens - 1.0));
      buckets := buckets[key := b.(tokens := b.tokens - 1.0)];
      return Allowed;
    }
  }

  lemma LiveSeenBy(buckets: Buckets, idleTTL: Duration, now: Time)
    requires SeenBy(buckets, now)
    ensures SeenBy(Live(buckets, idleTTL, now), now)
  {
  }

  lemma ServedIs(before: Buckets, live: Buckets, after: Buckets, maxKeys: int, idleTTL: Duration, r: Request, now: Time)
    requires ValidRequest(r) && SeenBy(live, now) && live == Live(before, idleTTL, now)
             && (r.key in live || |live| < maxKeys)
    requires after == live[r.key := Quota.Draw(Ready(live, r, now)).0]
    ensures (after, Quota.Draw(Ready(live, r, now)).1) == Quota.Admit(before, maxKeys, idleTTL, r, now)
    ensures SeenBy(after, now)
  {
  }

  lemma SameOrder(keys: seq<Key>, buckets: Buckets, key: Key, b: Bucket)
    requires Names(keys, buckets) && key in buckets && b.lastSeen == buckets[key].lastSeen
    ensures Names(keys, buckets[key := b]) && |buckets[key := b]| == |buckets|
    ensures LatestFirst(keys, buckets) ==> LatestFirst(keys, buckets[key := b])
  {
    assert buckets[key := b].Keys == buckets.Keys;
  }
}
