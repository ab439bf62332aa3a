/** internal/auth/cache.go: verified tokens remembered for a while.  A verification loads and
    stores in two separate critical sections, with the delegate's call between them, so runs
    are arbitrary interleavings of loads and stores. */
module AuthCache {
  import opened Messages
  import opened Ordering

  datatype Principal = Principal(clientId: string, tokenId: string, subject: string, scopes: seq<string>,
                                 expiresAt: Time)

  /** What the delegate can answer. */
  datatype Outcome = Verified(principal: Principal) | NoPrincipal | InvalidToken | Failed(error: string)

  datatype Answer = Positive(principal: Principal) | Negative

  datatype Entry = Entry(answer: Answer, expiresAt: Time, sequence: nat)

  datatype Config = Config(maxEntries: int, positiveTTL: Duration, negativeTTL: Duration)

  datatype Cache = Cache(entries: map<Digest, Entry>, sequence: nat)

  const EMPTY := Cache(map[], 0)

  predicate ValidConfig(c: Config) {
    c.maxEntries > 0 && c.positiveTTL > 0 && c.negativeTTL > 0
  }

  /** The hash of a token; different tokens have different hashes. */
  function KeyOf(token: string): Digest { OfBytes(token) }

  // ---- The two critical sections ---------------------------------------------------------

  function NewEntry(c: Config, outcome: Outcome, now: Time, sequence: nat): Option<Entry> {
    match outcome
    case Verified(p) =>
      var own := p.expiresAt != 0 && p.expiresAt < now + c.positiveTTL;
      var expiresAt := if own then p.expiresAt else now + c.positiveTTL;
      if expiresAt > now then Some(Entry(Positive(p), expiresAt, sequence)) else None
    case InvalidToken => Some(Entry(Negative, now + c.negativeTTL, sequence))
    case _ => None
  }

  predicate Cacheable(c: Config, outcome: Outcome, now: Time) {
    NewEntry(c, outcome, now, 0).Some?
  }

  function LoadReply(cache: Cache, token: string, now: Time): Option<Entry> {
    var key := KeyOf(token);
    if key in cache.entries && now < cache.entries[key].expiresAt then Some(cache.entries[key]) else None
  }

  function LoadEffect(cache: Cache, token: string, now: Time): Cache {
    var key := KeyOf(token);
    if key in cache.entries && now >= cache.entries[key].expiresAt then cache.(entries := cache.entries - {key})
    else cache
  }

  predicate IsOldest(entries: map<Digest, Entry>, key: Digest) {
    key in entries && forall k :: k in entries && k != key ==> entries[key].sequence < entries[k].sequence
  }

  /** Every entry has its own sequence number, none above the counter. */
  ghost predicate Sequenced(cache: Cache) {
    && (forall k :: k in cache.entries ==> cache.entries[k].sequence <= cache.sequence && k.OfBytes?)
    && (forall k, l :: k in cache.entries && l in cache.entries && k != l ==>
        cache.entries[k].sequence != cache.entries[l].sequence)
  }

  ghost predicate WellFormed(cache: Cache, c: Config) {
    Sequenced(cache) && |cache.entries| <= c.maxEntries
  }

  lemma {:induction false} OldestExists(entries: map<Digest, Entry>) returns (key: Digest)
    requires entries != map[]
    requires forall k, l :: k in entries && l in entries && k != l ==> entries[k].sequence != entries[l].sequence
    ensures IsOldest(entries, key)
    decreases |entries|
  {
    var k :| k in entries;
    var rest := entries - {k};
    assert entries.Keys == rest.Keys + {k};
    if rest == map[] {
      key := k;
    } else {
      var l := OldestExists(rest);
      key := if entries[k].sequence < entries[l].sequence then k else l;
      forall x | x in entries && x != key ensures entries[key].sequence < entries[x].sequence {
        assert x == k || x in rest;
      }
    }
  }

  lemma OldestUnique(entries: map<Digest, Entry>, k: Digest, l: Digest)
    requires IsOldest(entries, k) && IsOldest(entries, l)
    ensures k == l
  {
  }

  ghost function Oldest(cache: Cache): (key: Digest)
    requires Sequenced(cache) && cache.entries != map[]
    ensures IsOldest(cache.entries, key)
  {
    assert exists key :: IsOldest(cache.entries, key) by {
      var key := OldestExists(cache.entries);
    }
    var key :| IsOldest(cache.entries, key);
    key
  }

  ghost function SaveEffect(cache: Cache, c: Config, token: string, outcome: Outcome, now: Time): Cache
    requires ValidConfig(c) && WellFormed(cache, c)
  {
    var entry := NewEntry(c, outcome, now, cache.sequence + 1);
    if entry.None? then cache
    else Cache(WithRoom(cache, c, KeyOf(token))[KeyOf(token) := entry.value], cache.sequence + 1)
  }

  /** The entries, without the oldest if the key needs its place. */
  ghost function WithRoom(cache: Cache, c: Config, key: Digest): map<Digest, Entry>
    requires ValidConfig(c) && WellFormed(cache, c)
  {
    if key !in cache.entries && |cache.entries| >= c.maxEntries then cache.entries - {Oldest(cache)} else cache.entries
  }

  lemma RoomMade(cache: Cache, c: Config, key: Digest)
    requires ValidConfig(c) && WellFormed(cache, c)
    ensures var kept := WithRoom(cache, c, key);
            && (key in kept ==> |kept| <= c.maxEntries) && (key !in kept ==> |kept| < c.maxEntries)
            && (forall k :: k in kept ==> k in cache.entries && kept[k] == cache.entries[k])
            && (key in cache.entries ==> kept == cache.entries)
  {
    if key !in cache.entries && |cache.entries| >= c.maxEntries {
      SizeAfterRemoval(cache.entries, Oldest(cache));
    }
  }

  // ---- Runs ------------------------------------------------------------------------------

  datatype Step = Load(token: string, now: Time) | Save(token: string, outcome: Outcome, now: Time)

  ghost function Apply(cache: Cache, c: Config, step: Step): (after: Cache)
    requires ValidConfig(c) && WellFormed(cache, c)
  {
    match step
    case Load(token, now) => LoadEffect(cache, token, now)
    case Save(token, outcome, now) => SaveEffect(cache, c, token, outcome, now)
  }

  lemma SizeAfterRemoval(entries: map<Digest, Entry>, key: Digest)
    requires key in entries
    ensures |entries - {key}| == |entries| - 1
  {
    assert entries.Keys == (entries - {key}).Keys + {key};
  }

  lemma SizeAfterUpdate(entries: map<Digest, Entry>, key: Digest, e: Entry)
    ensures |entries[key := e]| == |entries| + if key in entries then 0 else 1
  {
    assert entries[key := e].Keys == entries.Keys + {key};
  }

  lemma LoadWellFormed(cache: Cache, c: Config, token: string, now: Time)
    requires WellFormed(cache, c)
    ensures WellFormed(LoadEffect(cache, token, now), c)
  {
    if KeyOf(token) in cache.entries {
      SizeAfterRemoval(cache.entries, KeyOf(token));
    }
  }

  lemma SaveWellFormed(cache: Cache, c: Config, token: string, outcome: Outcome, now: Time)
    requires ValidConfig(c) && WellFormed(cache, c)
    ensures WellFormed(SaveEffect(cache, c, token, outcome, now), c)
  {
    var entry := NewEntry(c, outcome, now, cache.sequence + 1);
    if entry.Some? {
      StoredWellFormed(cache, c, KeyOf(token), entry.value, SaveEffect(cache, c, token, outcome, now));
    }
  }

  lemma StoredWellFormed(cache: Cache, c: Config, key: Digest, e: Entry, after: Cache)
    requires ValidConfig(c) && WellFormed(cache, c) && key.OfBytes? && e.sequence == cache.sequence + 1
    requires after == Cache(WithRoom(cache, c, key)[key := e], cache.sequence + 1)
    ensures WellFormed(after, c)
  {
    var kept := WithRoom(cache, c, key);
    RoomMade(cache, c, key);
    SizeAfterUpdate(kept, key, e);
    SequencedUpdate(cache, kept, key, e);
  }

  lemma SequencedUpdate(cache: Cache, kept: map<Digest, Entry>, key: Digest, e: Entry)
    requires Sequenced(cache) && key.OfBytes? && e.sequence == cache.sequence + 1
    requires forall k :: k in kept ==> k in cache.entries && kept[k] == cache.entries[k]
    ensures Sequenced(Cache(kept[key := e], cache.sequence + 1))
  {
  }

  /** No interleaving of loads and stores exceeds the configured size. */
  lemma ApplyWellFormed(cache: Cache, c: Config, step: Step)
    requires ValidConfig(c) && WellFormed(cache, c)
    ensures WellFormed(Apply(cache, c, step), c)
  {
    match step
    case Load(token, now) => LoadWellFormed(cache, c, token, now);
    case Save(token, outcome, now) => SaveWellFormed(cache, c, token, outcome, now);
  }

  ghost function RunFrom(cache: Cache, c: Config, steps: seq<Step>): (after: Cache)
    requires ValidConfig(c) && WellFormed(cache, c)
    ensures WellFormed(after, c)
  {
    if steps == [] then cache
    else
      var before := RunFrom(cache, c, steps[..|steps| - 1]);
      ApplyWellFormed(before, c, steps[|steps| - 1]);
      Apply(before, c, steps[|steps| - 1])
  }

  ghost function Run(c: Config, steps: seq<Step>): Cache
    requires ValidConfig(c)
  {
    RunFrom(EMPTY, c, steps)
  }

  predicate Stores(step: Step, c: Config, token: string) {
    step.Save? && step.token == token && Cacheable(c, step.outcome, step.now)
  }

  /** Step `i` is the latest to store an answer for the token, and this is what it stored. */
  ghost predicate StoredBy(steps: seq<Step>, c: Config, token: string, entry: Entry, i: nat) {
    && i < |steps| && Stores(steps[i], c, token)
    && NewEntry(c, steps[i].outcome, steps[i].now, entry.sequence) == Some(entry)
    && forall j :: i < j < |steps| ==> !Stores(steps[j], c, token)
  }

  ghost predicate Explained(steps: seq<Step>, c: Config, token: string, entry: Entry) {
    exists i :: StoredBy(steps, c, token, entry, i)
  }

  lemma ExplainedLater(steps: seq<Step>, step: Step, c: Config, token: string, entry: Entry)
    requires Explained(steps, c, token, entry) && !Stores(step, c, token)
    ensures Explained(steps + [step], c, token, entry)
  {
    var i: nat :| StoredBy(steps, c, token, entry, i);
    assert StoredBy(steps + [step], c, token, entry, i);
  }

  lemma ExplainedNow(steps: seq<Step>, step: Step, c: Config, token: string, entry: Entry)
    requires Stores(step, c, token) && NewEntry(c, step.outcome, step.now, entry.sequence) == Some(entry)
    ensures Explained(steps + [step], c, token, entry)
  {
    assert (steps + [step])[|steps|] == step;
    assert StoredBy(steps + [step], c, token, entry, |steps|);
  }

  lemma EntryUntouched(cache: Cache, c: Config, step: Step, token: string)
    requires ValidConfig(c) && WellFormed(cache, c) && !Stores(step, c, token)
             && KeyOf(token) in Apply(cache, c, step).entries
    ensures KeyOf(token) in cache.entries && cache.entries[KeyOf(token)] == Apply(cache, c, step).entries[KeyOf(token)]
  {
    RoomMade(cache, c, KeyOf(step.token));
  }

  lemma EntryWritten(cache: Cache, c: Config, step: Step)
    requires ValidConfig(c) && WellFormed(cache, c) && step.Save? && Cacheable(c, step.outcome, step.now)
    ensures var after, key := Apply(cache, c, step), KeyOf(step.token);
            key in after.entries
              && NewEntry(c, step.outcome, step.now, after.entries[key].sequence) == Some(after.entries[key])
  {
  }

  lemma {:induction false} EntriesExplained(c: Config, steps: seq<Step>, token: string)
    requires ValidConfig(c) && KeyOf(token) in Run(c, steps).entries
    ensures Explained(steps, c, token, Run(c, steps).entries[KeyOf(token)])
  {
    if steps != [] {
      var last, earlier := steps[|steps| - 1], steps[..|steps| - 1];
      assert steps == earlier + [last];
      var before, after := Run(c, earlier), Run(c, steps);
      if Stores(last, c, token) {
        EntryWritten(before, c, last);
        ExplainedNow(earlier, last, c, token, after.entries[KeyOf(token)]);
      } else {
        EntryUntouched(before, c, last, token);
        EntriesExplained(c, earlier, token);
        ExplainedLater(earlier, last, c, token, after.entries[KeyOf(token)]);
      }
    }
  }

  /** The step that a hit repeats: the latest to store an answer for this token, made at a time
      from which the answer is still good. */
  ghost predicate Justifies(step: Step, c: Config, token: string, answer: Answer, t: Time) {
    && step.Save? && step.token == token
    && match answer
       case Positive(p) => step.outcome == Verified(p) && t < step.now + c.positiveTTL
         && (p.expiresAt == 0 || t < p.expiresAt)
       case Negative => step.outcome == InvalidToken && t < step.now + c.negativeTTL
  }

  /** Every hit, after every interleaving: the delegate earlier gave that very answer for that
      token, its time to live has not run out and neither has the principal; nothing else is
      remembered as a refusal than an invalid token; and no newer answer was stored since. */
  lemma HitsJustified(c: Config, steps: seq<Step>, token: string, t: Time)
    requires ValidConfig(c) && LoadReply(Run(c, steps), token, t).Some?
    ensures exists i :: && 0 <= i < |steps|
                        && Justifies(steps[i], c, token, LoadReply(Run(c, steps), token, t).value.answer, t)
                        && forall j :: i < j < |steps| ==> !Stores(steps[j], c, token)
  {
    EntriesExplained(c, steps, token);
    var entry := LoadReply(Run(c, steps), token, t).value;
    var i: nat :| StoredBy(steps, c, token, entry, i);
    StillGood(steps[i], c, token, entry, t);
  }

  lemma StillGood(step: Step, c: Config, token: string, entry: Entry, t: Time)
    requires Stores(step, c, token) && NewEntry(c, step.outcome, step.now, entry.sequence) == Some(entry)
             && t < entry.expiresAt
    ensures Justifies(step, c, token, entry.answer, t)
  {
  }

  // ---- How long an answer is kept --------------------------------------------------------

  /** The tokens for which an answer was stored. */
  function StoredTokens(steps: seq<Step>, c: Config): set<string> {
    if steps == [] then {}
    else
      var last := steps[|steps| - 1];
      StoredTokens(steps[..|steps| - 1], c)
      + if last.Save? && Cacheable(c, last.outcome, last.now) then {last.token} else {}
  }

  /** Still there, and everything stored since is younger. */
  ghost predicate Keeps(cache: Cache, key: Digest, entry: Entry, younger: set<string>) {
    && key in cache.entries && cache.entries[key] == entry
    && forall k :: k in cache.entries && cache.entries[k].sequence > entry.sequence ==> k.OfBytes? && k.bytes in younger
  }

  lemma {:induction false} DigestsOf(keys: set<Digest>, tokens: set<string>)
    requires forall k :: k in keys ==> k.OfBytes? && k.bytes in tokens
    ensures |keys| <= |tokens|
    decreases |keys|
  {
    if keys != {} {
      var k :| k in keys;
      DigestsOf(keys - {k}, tokens - {k.bytes});
    }
  }

  /** The oldest entry goes only if as many younger tokens are there as fit beside the new one. */
  lemma EvictionNeedsMany(cache: Cache, c: Config, entry: Entry, key: Digest, token: string, younger: set<string>)
    requires ValidConfig(c) && WellFormed(cache, c) && Keeps(cache, key, entry, younger) && token in younger
    requires KeyOf(token) !in cache.entries && |cache.entries| >= c.maxEntries && |younger| < c.maxEntries
    ensures !IsOldest(cache.entries, key)
  {
    if IsOldest(cache.entries, key) {
      var others := cache.entries.Keys - {key};
      assert |others| == c.maxEntries - 1;
      DigestsOf(others, younger - {token});
      assert false;
    }
  }

  lemma KeepsStep(cache: Cache, c: Config, token: string, entry: Entry, step: Step, earlier: set<string>,
                  younger: set<string>)
    requires ValidConfig(c) && WellFormed(cache, c) && Keeps(cache, KeyOf(token), entry, earlier) && earlier <= younger
    requires |younger| < c.maxEntries && !Stores(step, c, token)
             && (step == Load(token, step.now) ==> step.now < entry.expiresAt)
    requires step.Save? && Cacheable(c, step.outcome, step.now) ==> step.token in younger
    ensures Keeps(Apply(cache, c, step), KeyOf(token), entry, younger)
  {
    if step.Save? && Cacheable(c, step.outcome, step.now) {
      if KeyOf(step.token) !in cache.entries && |cache.entries| >= c.maxEntries {
        EvictionNeedsMany(cache, c, entry, KeyOf(token), step.token, younger);
      }
    }
  }

  /** A stored answer is still there as long as fewer than `maxEntries` tokens have had one
      stored since, unless it expired or was replaced. */
  lemma {:induction false} AnswerKept(cache: Cache, c: Config, token: string, steps: seq<Step>)
    requires ValidConfig(c) && WellFormed(cache, c) && KeyOf(token) in cache.entries
    requires cache.entries[KeyOf(token)].sequence == cache.sequence
    requires |StoredTokens(steps, c)| < c.maxEntries && token !in StoredTokens(steps, c)
    requires forall i :: 0 <= i < |steps| && steps[i] == Load(token, steps[i].now) ==>
               steps[i].now < cache.entries[KeyOf(token)].expiresAt
    ensures Keeps(RunFrom(cache, c, steps), KeyOf(token), cache.entries[KeyOf(token)], StoredTokens(steps, c))
  {
    if steps != [] {
      var last, earlier := steps[|steps| - 1], steps[..|steps| - 1];
      assert StoredTokens(earlier, c) <= StoredTokens(steps, c);
      SubsetSize(StoredTokens(earlier, c), StoredTokens(steps, c));
      AnswerKept(cache, c, token, earlier);
      KeepsStep(RunFrom(cache, c, earlier), c, token, cache.entries[KeyOf(token)], last, StoredTokens(earlier, c),
                StoredTokens(steps, c));
    }
  }
}
