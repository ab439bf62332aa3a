/** internal/auth/cache.go: the verifier with its table updated in place.  The delegate's answer
    and the two clock readings of a verification are parameters. */
module CachedVerifiers {
  import opened Messages
  import opened AuthCache

  class CachedVerifier {
    const config: Config
    var entries: map<Digest, Entry>
    var sequence: nat

    ghost function State(): Cache
      reads this
    {
      Cache(entries, sequence)
    }

    ghost predicate Valid()
      reads this
    {
      ValidConfig(config) && WellFormed(State(), config)
    }

    constructor (config: Config)
      requires ValidConfig(config)
      ensures Valid() && State() == EMPTY && this.config == config
    {
      this.config, entries, sequence := config, map[], 0;
    }

    method Load(token: string, now: Time) returns (entry: Option<Entry>)
      requires Valid()
      modifies `entries
      ensures entry == LoadReply(old(State()), token, now)
      ensures Valid() && State() == LoadEffect(old(State()), token, now)
    {
      ghost var before := State();
      LoadWellFormed(before, config, token, now);
      var key := KeyOf(token);
      if key !in entries {
        return None;
      }
      if now >= entries[key].expiresAt {
        entries := entries - {key};
        return None;
      }
      return Some(entries[key]);
    }

    /** Finds the entry with the least sequence number and drops it. */
    method EvictOldest()
      requires Valid() && entries != map[]
      modifies `entries
      ensures entries == old(entries) - {Oldest(old(State()))}
    {
      var rest := entries.Keys;
      var oldestKey :| oldestKey in entries;
      var oldestSequence := entries[oldestKey].sequence;
      rest := rest - {oldestKey};
      while rest != {}
        invariant rest <= entries.Keys && oldestKey in entries && oldestSequence == entries[oldestKey].sequence
        invariant forall k :: k in entries && k !in rest && k != oldestKey ==> oldestSequence < entries[k].sequence
        decreases |rest|
      {
        var key :| key in rest;
        rest := rest - {key};
        if entries[key].sequence < oldestSequence {
          oldestKey, oldestSequence := key, entries[key].sequence;
        }
      }
      OldestUnique(entries, oldestKey, Oldest(State()));
      entries := entries - {oldestKey};
    }

    method MakeRoom(key: Digest)
      requires Valid()
      modifies `entries
      ensures entries == WithRoom(old(State()), config, key)
    {
      if key !in entries && |entries| >= config.maxEntries {
        EvictOldest();
      }
    }

    method Store(token: string, outcome: Outcome, now: Time)
      requires Valid()
      modifies `entries, `sequence
      ensures Valid() && State() == SaveEffect(old(State()), config, token, outcome, now)
    {
      ghost var before := State();
      ghost var after := SaveEffect(before, config, token, outcome, now);
      SaveWellFormed(before, config, token, outcome, now);
      var entry := NewEntry(config, outcome, now, sequence + 1);
      if entry.Some? {
        MakeRoom(KeyOf(token));
        assert after == Cache(entries[KeyOf(token) := entry.value], sequence + 1);
        sequence := sequence + 1;
        entries := entries[KeyOf(token) := entry.value];
      }
      assert State() == after;
    }

    /** One verification with nothing in between: a hit answers without the delegate, a miss
        answers what the delegate says; either way the table takes the two steps. */
    method Verify(token: string, now: Time, delegated: Outcome, later: Time) returns (answer: Outcome)
      requires Valid()
      modifies `entries, `sequence
      ensures var hit := LoadReply(old(State()), token, now);
              answer == if hit.None? then delegated
                else if hit.value.answer.Positive? then Verified(hit.value.answer.principal) else InvalidToken
      ensures Valid()
      ensures State() == if LoadReply(old(State()), token, now).Some? then old(State())
                         else SaveEffect(LoadEffect(old(State()), token, now), config, token, delegated, later)
    {
      var entry := Load(token, now);
      if entry.Some? {
        match entry.value.answer {
          case Negative => return InvalidToken;
          case Positive(p) => return Verified(p);
        }
      }
      Store(token, delegated, later);
      return delegated;
    }
  }
}
