/** internal/downlink/policy.go and the backoff of internal/downlink/service.go: which
    delivery policy governs a message, and how long its retries wait. */
module DeliveryPolicies {
  import opened Messages
  import opened Ordering
  import opened Text

  datatype Rule = Rule(policy: DeliveryPolicy, msgIdMin: nat, msgIdMax: nat)

  datatype PolicySet = PolicySet(defaultPolicy: DeliveryPolicy, rules: seq<Rule>, byName: map<string, DeliveryPolicy>)

  // ---- Validation ------------------------------------------------------------------------

  predicate NameChar(c: char) {
    c == '_' || c == '-' || 'a' <= c <= 'z' || '0' <= c <= '9'
  }

  predicate ValidName(name: string) {
    && 0 < |name| <= 64
    && 'a' <= name[0] <= 'z'
    && forall i :: 1 <= i < |name| ==> NameChar(name[i])
  }

  method ValidDeliveryPolicyName(name: string) returns (valid: bool)
    ensures valid <==> ValidName(name)
  {
    if |name| == 0 || |name| > 64 || name[0] < 'a' || name[0] > 'z' {
      return false;
    }
    for index := 1 to |name|
      invariant forall i :: 1 <= i < index ==> NameChar(name[i])
    {
      var c := name[index];
      if !(c == '_' || c == '-' || 'a' <= c <= 'z' || '0' <= c <= '9') {
        return false;
      }
    }
    valid := true;
  }

  predicate ValidPolicy(p: DeliveryPolicy) {
    && ValidName(p.name)
    && p.maxAttempts > 0
    && p.maxAge >= 0
    && p.ackTimeout > 0
    && p.initialRetryDelay > 0
    && p.backoffMultiplier >= 1.0
    && p.maxRetryDelay >= p.initialRetryDelay
    && p.retryJitter >= 0
  }

  function Named(p: DeliveryPolicy): DeliveryPolicy {
    p.(name := TrimSpace(p.name))
  }

  function NamedDefault(p: DeliveryPolicy): DeliveryPolicy {
    p.(name := if TrimSpace(p.name) == "" then DEFAULT_POLICY_NAME else TrimSpace(p.name))
  }

  function Normalised(r: Rule): Rule {
    Rule(Named(r.policy), r.msgIdMin, if r.msgIdMax == 0 then r.msgIdMin else r.msgIdMax)
  }

  predicate Covers(r: Rule, msgId: nat) {
    r.msgIdMin <= msgId <= r.msgIdMax
  }

  predicate RuleOk(r: Rule) {
    var n := Normalised(r);
    && n.policy.name != DEFAULT_POLICY_NAME
    && ValidPolicy(n.policy)
    && 0 < n.msgIdMin <= n.msgIdMax
  }

  predicate DefaultOk(p: DeliveryPolicy) {
    NamedDefault(p).name == DEFAULT_POLICY_NAME && ValidPolicy(NamedDefault(p))
  }

  /** No message type falls under two rules. */
  ghost predicate Disjoint(rules: seq<Rule>) {
    forall i, j, id: nat :: 0 <= i < j < |rules| ==> !(Covers(rules[i], id) && Covers(rules[j], id))
  }

  ghost predicate DistinctNames(rules: seq<Rule>) {
    forall i, j :: 0 <= i < j < |rules| ==> rules[i].policy.name != rules[j].policy.name
  }

  function NormalisedAll(rules: seq<Rule>): seq<Rule> {
    seq(|rules|, i requires 0 <= i < |rules| => Normalised(rules[i]))
  }

  ghost predicate Acceptable(defaultPolicy: DeliveryPolicy, rules: seq<Rule>) {
    && DefaultOk(defaultPolicy)
    && (forall i :: 0 <= i < |rules| ==> RuleOk(rules[i]))
    && DistinctNames(NormalisedAll(rules))
    && Disjoint(NormalisedAll(rules))
  }

  // ---- The rule order --------------------------------------------------------------------

  predicate RuleBefore(a: Rule, b: Rule) {
    if a.msgIdMin == b.msgIdMin then
      if a.msgIdMax == b.msgIdMax then StrLess(a.policy.name, b.policy.name) else a.msgIdMax < b.msgIdMax
    else a.msgIdMin < b.msgIdMin
  }

  lemma RuleOrder()
    ensures StrictOrder(RuleBefore)
  {
    forall a: Rule, b: Rule
      ensures RuleBefore(a, b) ==> !RuleBefore(b, a)
    {
      StrLessTotal(a.policy.name, b.policy.name);
    }
    forall a: Rule, b: Rule, c: Rule | RuleBefore(a, b) && RuleBefore(b, c)
      ensures RuleBefore(a, c)
    {
      if a.msgIdMin == b.msgIdMin == c.msgIdMin && a.msgIdMax == b.msgIdMax == c.msgIdMax {
        StrLessTransitive(a.policy.name, b.policy.name, c.policy.name);
      }
    }
  }

  lemma NamesDistinguish(rules: seq<Rule>)
    requires DistinctNames(rules)
    ensures Distinguishable(rules, RuleBefore)
  {
    forall i, j | 0 <= i < j < |rules|
      ensures RuleBefore(rules[i], rules[j]) || RuleBefore(rules[j], rules[i])
    {
      StrLessTotal(rules[i].policy.name, rules[j].policy.name);
    }
  }

  predicate AdjacentDisjoint(rules: seq<Rule>) {
    forall k :: 1 <= k < |rules| ==> rules[k - 1].msgIdMax < rules[k].msgIdMin
  }

  lemma RulesApart(rules: seq<Rule>, i: nat, j: nat)
    requires AdjacentDisjoint(rules) && i < j < |rules|
    requires forall k :: 0 <= k < |rules| ==> rules[k].msgIdMin <= rules[k].msgIdMax
    ensures rules[i].msgIdMax < rules[j].msgIdMin
  {
    ApartFrom(rules, (r: Rule) => r.msgIdMin, (r: Rule) => r.msgIdMax, i, j);
  }

  /** On sorted ranges it is enough to compare neighbours. */
  lemma AdjacentIsEnough(rules: seq<Rule>)
    requires Ordered(rules, RuleBefore)
    requires forall k :: 0 <= k < |rules| ==> rules[k].msgIdMin <= rules[k].msgIdMax
    ensures AdjacentDisjoint(rules) <==> Disjoint(rules)
  {
    if AdjacentDisjoint(rules) {
      forall i, j, id: nat | 0 <= i < j < |rules|
        ensures !(Covers(rules[i], id) && Covers(rules[j], id))
      {
        RulesApart(rules, i, j);
      }
    }
    if Disjoint(rules) {
      forall k | 1 <= k < |rules|
        ensures rules[k - 1].msgIdMax < rules[k].msgIdMin
      {
        assert RuleBefore(rules[k - 1], rules[k]);
        assert !(Covers(rules[k - 1], rules[k].msgIdMin) && Covers(rules[k], rules[k].msgIdMin));
      }
    }
  }

  /** Disjointness is about the rules, not about the order they come in. */
  lemma DisjointReordered(a: seq<Rule>, b: seq<Rule>)
    requires multiset(a) == multiset(b) && Disjoint(a)
    ensures Disjoint(b)
  {
    forall i, j, id: nat | 0 <= i < j < |b|
      ensures !(Covers(b[i], id) && Covers(b[j], id))
    {
      var x, y := Relocate(b, a, i, j);
      assert x < y || y < x;
      assert !(Covers(a[x], id) && Covers(a[y], id));
    }
  }

  function Without<T>(s: seq<T>, i: nat): seq<T>
    requires i < |s|
  {
    s[..i] + s[i + 1..]
  }

  lemma WithoutOne<T>(s: seq<T>, i: nat)
    requires i < |s|
    ensures multiset(Without(s, i)) == multiset(s) - multiset{s[i]}
  {
    assert s == s[..i] + [s[i]] + s[i + 1..];
  }

  /** Two places of a sequence have counterparts, again two, in any reordering. */
  lemma Relocate<T>(a: seq<T>, b: seq<T>, i: nat, j: nat) returns (x: nat, y: nat)
    requires multiset(a) == multiset(b) && i < j < |a|
    ensures x < |b| && y < |b| && x != y && b[x] == a[i] && b[y] == a[j]
  {
    x := PlaceOf(a, b, i);
    WithoutOne(a, i);
    WithoutOne(b, x);
    var z := PlaceOf(Without(a, i), Without(b, x), j - 1);
    y := if z < x then z else z + 1;
  }

  lemma PlaceOf<T>(a: seq<T>, b: seq<T>, i: nat) returns (x: nat)
    requires multiset(a) == multiset(b) && i < |a|
    ensures x < |b| && b[x] == a[i]
  {
    assert a[i] in multiset(a);
    assert a[i] in b;
    x :| x < |b| && b[x] == a[i];
  }

  predicate Usable(r: Rule) {
    ValidPolicy(r.policy) && r.msgIdMin <= r.msgIdMax
  }

  lemma OkRulesUsable(rules: seq<Rule>)
    requires forall i :: 0 <= i < |rules| ==> RuleOk(rules[i])
    ensures forall k :: 0 <= k < |NormalisedAll(rules)| ==> Usable(NormalisedAll(rules)[k])
  {
  }

  lemma SortedRules(rules: seq<Rule>)
    requires DistinctNames(rules)
    requires forall k :: 0 <= k < |rules| ==> Usable(rules[k])
    ensures var sorted := SortBy(rules, RuleBefore);
            && Ordered(sorted, RuleBefore)
            && (forall k :: 0 <= k < |sorted| ==> Usable(sorted[k]))
            && (AdjacentDisjoint(sorted) <==> Disjoint(rules))
  {
    var sorted := SortBy(rules, RuleBefore);
    RuleOrder();
    NamesDistinguish(rules);
    SortByOrdered(rules, RuleBefore);
    forall k | 0 <= k < |sorted|
      ensures Usable(sorted[k])
    {
      var x := PlaceOf(sorted, rules, k);
    }
    AdjacentIsEnough(sorted);
    if Disjoint(sorted) { DisjointReordered(sorted, rules); }
    if Disjoint(rules) { DisjointReordered(rules, sorted); }
  }

  // ---- NewDeliveryPolicySet --------------------------------------------------------------

  ghost predicate BuiltFrom(s: PolicySet, defaultPolicy: DeliveryPolicy, rules: seq<Rule>) {
    && s.defaultPolicy == NamedDefault(defaultPolicy)
    && multiset(s.rules) == multiset(NormalisedAll(rules))
    && Ordered(s.rules, RuleBefore)
    && Indexed(s.byName, s.defaultPolicy, NormalisedAll(rules))
  }

  /** The default and every rule's policy are found under their names, and nothing else is. */
  ghost predicate Indexed(byName: map<string, DeliveryPolicy>, named: DeliveryPolicy, rules: seq<Rule>) {
    && byName.Keys == Names(rules) + {named.name}
    && byName[named.name] == named
    && forall k :: 0 <= k < |rules| ==>
         rules[k].policy.name in byName && byName[rules[k].policy.name] == rules[k].policy
  }

  /** What acceptance leaves behind: valid policies on separated, ascending ranges. */
  predicate Sound(s: PolicySet) {
    && ValidPolicy(s.defaultPolicy)
    && AdjacentDisjoint(s.rules)
    && forall k :: 0 <= k < |s.rules| ==> Usable(s.rules[k])
  }

  /** The sort and the check of neighbours accept exactly the rule sets in which no message
      type is claimed twice. */
  method NewDeliveryPolicySet(defaultPolicy: DeliveryPolicy, rules: seq<Rule>) returns (r: Option<PolicySet>)
    ensures r.Some? <==> Acceptable(defaultPolicy, rules)
    ensures r.Some? ==> BuiltFrom(r.value, defaultPolicy, rules) && Sound(r.value)
  {
    var named := NamedDefault(defaultPolicy);
    if named.name != DEFAULT_POLICY_NAME || !ValidPolicy(named) {
      return None;
    }
    var normalised, byName, ok := NormaliseRules(named, rules);
    if !ok {
      return None;
    }
    var sorted := SortBy(normalised, RuleBefore);
    OkRulesUsable(rules);
    SortedRules(normalised);
    var apart := NeighboursApart(sorted);
    r := if apart then Some(PolicySet(named, sorted, byName)) else None;
  }

  method NeighboursApart(sorted: seq<Rule>) returns (apart: bool)
    ensures apart <==> AdjacentDisjoint(sorted)
  {
    var index := 1;
    while index < |sorted|
      invariant forall k :: 1 <= k < index && k < |sorted| ==> sorted[k - 1].msgIdMax < sorted[k].msgIdMin
    {
      if sorted[index].msgIdMin <= sorted[index - 1].msgIdMax {
        return false;
      }
      index := index + 1;
    }
    apart := true;
  }

  ghost predicate AllOk(rules: seq<Rule>, n: nat)
    requires n <= |rules|
  {
    forall i :: 0 <= i < n ==> RuleOk(rules[i])
  }

  method NormaliseRules(named: DeliveryPolicy, rules: seq<Rule>)
    returns (normalised: seq<Rule>, byName: map<string, DeliveryPolicy>, ok: bool)
    requires named.name == DEFAULT_POLICY_NAME
    ensures ok <==> AllOk(rules, |rules|) && DistinctNames(NormalisedAll(rules))
    ensures ok ==> normalised == NormalisedAll(rules) && Indexed(byName, named, normalised)
  {
    normalised, byName, ok := [], map[named.name := named], true;
    for index := 0 to |rules|
      invariant Collected(rules, index, normalised) && Indexed(byName, named, normalised)
    {
      var rule := NormaliseRule(rules[index]);
      if rule.None? {
        assert !RuleOk(rules[index]);
        return normalised, byName, false;
      }
      if rule.value.policy.name in byName {
        Repeated(rules, index, rule.value.policy.name);
        return normalised, byName, false;
      }
      CollectedMore(rules, index, normalised);
      IndexedMore(byName, named, normalised, rule.value);
      byName := byName[rule.value.policy.name := rule.value.policy];
      normalised := normalised + [rule.value];
    }
    assert NormalisedAll(rules)[..|rules|] == NormalisedAll(rules);
  }

  /** The first rules have passed, under names all different. */
  ghost predicate Collected(rules: seq<Rule>, n: nat, normalised: seq<Rule>)
    requires n <= |rules|
  {
    normalised == NormalisedAll(rules)[..n] && AllOk(rules, n) && DistinctNames(normalised)
  }

  lemma CollectedMore(rules: seq<Rule>, n: nat, normalised: seq<Rule>)
    requires n < |rules| && Collected(rules, n, normalised) && RuleOk(rules[n])
             && Normalised(rules[n]).policy.name !in Names(normalised)
    ensures Collected(rules, n + 1, normalised + [Normalised(rules[n])])
  {
    AddName(normalised, Normalised(rules[n]));
    PrefixGrows(NormalisedAll(rules), n);
  }

  lemma IndexedMore(byName: map<string, DeliveryPolicy>, named: DeliveryPolicy, rules: seq<Rule>, r: Rule)
    requires Indexed(byName, named, rules) && DistinctNames(rules) && r.policy.name !in byName
    ensures Indexed(byName[r.policy.name := r.policy], named, rules + [r])
  {
    AddName(rules, r);
  }

  /** One rule with its name trimmed and its upper end filled in, if it passes the checks. */
  method NormaliseRule(raw: Rule) returns (r: Option<Rule>)
    ensures r.Some? <==> RuleOk(raw)
    ensures r.Some? ==> r.value == Normalised(raw) && r.value.policy.name != DEFAULT_POLICY_NAME
  {
    var rule := raw.(policy := Named(raw.policy));
    if rule.policy.name == DEFAULT_POLICY_NAME || !ValidPolicy(rule.policy) || rule.msgIdMin == 0 {
      return None;
    }
    if rule.msgIdMax == 0 {
      rule := rule.(msgIdMax := rule.msgIdMin);
    }
    if rule.msgIdMax < rule.msgIdMin {
      return None;
    }
    r := Some(rule);
  }

  lemma PrefixGrows(s: seq<Rule>, n: nat)
    requires n < |s|
    ensures s[..n] + [s[n]] == s[..n + 1]
  {
  }

  function Names(rules: seq<Rule>): set<string> {
    set i | 0 <= i < |rules| :: rules[i].policy.name
  }

  lemma AddName(rules: seq<Rule>, r: Rule)
    requires DistinctNames(rules) && r.policy.name !in Names(rules)
    ensures DistinctNames(rules + [r]) && Names(rules + [r]) == Names(rules) + {r.policy.name}
  {
    var more := rules + [r];
    assert more[|rules|] == r;
    forall name | name in Names(rules)
      ensures name in Names(more)
    {
      var i :| 0 <= i < |rules| && rules[i].policy.name == name;
      assert more[i].policy.name == name;
    }
  }

  lemma Repeated(rules: seq<Rule>, n: nat, name: string)
    requires n < |rules| && Normalised(rules[n]).policy.name == name && name in Names(NormalisedAll(rules)[..n])
    ensures !DistinctNames(NormalisedAll(rules))
  {
    var i :| 0 <= i < n && NormalisedAll(rules)[..n][i].policy.name == name;
    assert NormalisedAll(rules)[i].policy.name == NormalisedAll(rules)[n].policy.name;
  }

  // ---- Resolve ---------------------------------------------------------------------------

  /** What resolution means, without any order: the rule that covers the message type, if
      there is one, and the default otherwise. */
  ghost predicate Governs(p: DeliveryPolicy, msgId: nat, defaultPolicy: DeliveryPolicy, rules: seq<Rule>) {
    || (exists i :: 0 <= i < |rules| && Covers(rules[i], msgId) && p == rules[i].policy)
    || ((forall i :: 0 <= i < |rules| ==> !Covers(rules[i], msgId)) && p == defaultPolicy)
  }

  lemma GovernsUnique(p: DeliveryPolicy, q: DeliveryPolicy, msgId: nat, defaultPolicy: DeliveryPolicy, rules: seq<Rule>)
    requires Disjoint(rules) && Governs(p, msgId, defaultPolicy, rules) && Governs(q, msgId, defaultPolicy, rules)
    ensures p == q
  {
    if i, j :| 0 <= i < |rules| && 0 <= j < |rules| && Covers(rules[i], msgId) && Covers(rules[j], msgId)
               && p == rules[i].policy && q == rules[j].policy {
      assert !(i < j) && !(j < i);
    }
  }

  /** The scan stops early at the first rule above the message type, and misses nothing. */
  method Resolve(s: PolicySet, msgId: nat) returns (p: DeliveryPolicy)
    requires Sound(s)
    ensures Governs(p, msgId, s.defaultPolicy, s.rules)
    ensures p == Resolved(s, msgId)
  {
    for index := 0 to |s.rules|
      invariant forall k :: 0 <= k < index ==> s.rules[k].msgIdMax < msgId
      invariant Resolved(s, msgId) == ResolvedFrom(s, msgId, index)
    {
      var rule := s.rules[index];
      if msgId < rule.msgIdMin {
        forall k | index < k < |s.rules|
          ensures !Covers(s.rules[k], msgId)
        {
          RulesApart(s.rules, index, k);
        }
        return s.defaultPolicy;
      }
      if msgId <= rule.msgIdMax {
        return rule.policy;
      }
    }
    p := s.defaultPolicy;
  }

  /** `DeliveryPolicySet.Resolve` as a function, for use in specifications. */
  function Resolved(s: PolicySet, msgId: nat): DeliveryPolicy {
    ResolvedFrom(s, msgId, 0)
  }

  function ResolvedFrom(s: PolicySet, msgId: nat, index: nat): DeliveryPolicy
    requires index <= |s.rules|
    decreases |s.rules| - index
  {
    if index == |s.rules| || msgId < s.rules[index].msgIdMin then s.defaultPolicy
    else if msgId <= s.rules[index].msgIdMax then s.rules[index].policy
    else ResolvedFrom(s, msgId, index + 1)
  }

  /** The answer is the one, and the only one, the configured rules name, in whatever order they
      were given. */
  lemma ResolvesAsConfigured(s: PolicySet, d: DeliveryPolicy, rules: seq<Rule>, msgId: nat, p: DeliveryPolicy)
    requires Acceptable(d, rules) && BuiltFrom(s, d, rules) && Governs(p, msgId, s.defaultPolicy, s.rules)
    ensures forall q :: Governs(q, msgId, NamedDefault(d), NormalisedAll(rules)) <==> q == p
  {
    var given := NormalisedAll(rules);
    if i :| 0 <= i < |s.rules| && Covers(s.rules[i], msgId) && p == s.rules[i].policy {
      var x := PlaceOf(s.rules, given, i);
    } else {
      forall i | 0 <= i < |given|
        ensures !Covers(given[i], msgId)
      {
        var x := PlaceOf(given, s.rules, i);
      }
    }
    assert Governs(p, msgId, NamedDefault(d), given);
    forall q | Governs(q, msgId, NamedDefault(d), given)
      ensures q == p
    {
      GovernsUnique(q, p, msgId, NamedDefault(d), given);
    }
  }

  /** Rules may be written in any order and are accepted or refused alike. */
  lemma AcceptedInAnyOrder(d: DeliveryPolicy, a: seq<Rule>, b: seq<Rule>)
    requires multiset(a) == multiset(b)
    ensures Acceptable(d, a) <==> Acceptable(d, b)
  {
    if Acceptable(d, a) {
      AcceptedReordered(d, a, b);
    }
    if Acceptable(d, b) {
      AcceptedReordered(d, b, a);
    }
  }

  lemma AcceptedReordered(d: DeliveryPolicy, a: seq<Rule>, b: seq<Rule>)
    requires multiset(a) == multiset(b) && Acceptable(d, a)
    ensures Acceptable(d, b)
  {
    forall i | 0 <= i < |b|
      ensures RuleOk(b[i])
    {
      var x := PlaceOf(b, a, i);
    }
    var given, other := NormalisedAll(a), NormalisedAll(b);
    forall i, j | 0 <= i < j < |b|
      ensures other[i].policy.name != other[j].policy.name
      ensures forall id: nat :: !(Covers(other[i], id) && Covers(other[j], id))
    {
      var x, y := Relocate(b, a, i, j);
      assert given[x] == other[i] && given[y] == other[j];
      assert x < y || y < x;
    }
  }

  /** And the set built from them resolves alike. */
  lemma OrderOfRulesIrrelevant(d: DeliveryPolicy, a: seq<Rule>, b: seq<Rule>, s: PolicySet, t: PolicySet)
    requires multiset(a) == multiset(b)
    requires BuiltFrom(s, d, a) && BuiltFrom(t, d, b)
    ensures s == t
    ensures forall msgId: nat :: Resolved(s, msgId) == Resolved(t, msgId)
  {
    RuleOrder();
    var elems := set i | 0 <= i < |s.rules| :: s.rules[i];
    forall x
      ensures x in s.rules <==> x in t.rules
    {
      SameRules(a, b, s, t, d, x);
      SameRules(b, a, t, s, d, x);
    }
    ListingUnique(s.rules, t.rules, elems, RuleBefore);
    SameIndex(a, b, s.byName, t.byName, s.defaultPolicy);
  }

  lemma SameRules(a: seq<Rule>, b: seq<Rule>, s: PolicySet, t: PolicySet, d: DeliveryPolicy, r: Rule)
    requires multiset(a) == multiset(b) && BuiltFrom(s, d, a) && BuiltFrom(t, d, b)
    ensures r in s.rules ==> r in t.rules
  {
    if r in s.rules {
      var i: nat :| i < |s.rules| && s.rules[i] == r;
      var x := PlaceOf(s.rules, NormalisedAll(a), i);
      var y := PlaceOf(a, b, x);
      var z := PlaceOf(NormalisedAll(b), t.rules, y);
    }
  }

  lemma SameIndex(a: seq<Rule>, b: seq<Rule>, m: map<string, DeliveryPolicy>, n: map<string, DeliveryPolicy>,
                  named: DeliveryPolicy)
    requires multiset(a) == multiset(b)
    requires Indexed(m, named, NormalisedAll(a)) && Indexed(n, named, NormalisedAll(b))
    ensures m == n
  {
    forall name
      ensures name in m ==> name in n && n[name] == m[name]
      ensures name in n ==> name in m
    {
      IndexReordered(a, b, m, n, named, name);
      IndexReordered(b, a, n, m, named, name);
    }
  }

  lemma IndexReordered(a: seq<Rule>, b: seq<Rule>, m: map<string, DeliveryPolicy>, n: map<string, DeliveryPolicy>,
                       named: DeliveryPolicy, name: string)
    requires multiset(a) == multiset(b)
    requires Indexed(m, named, NormalisedAll(a)) && Indexed(n, named, NormalisedAll(b))
    ensures name in m ==> name in n && n[name] == m[name]
  {
    if name in m && name != named.name {
      var i: nat :| i < |a| && NormalisedAll(a)[i].policy.name == name;
      var x := PlaceOf(a, b, i);
      assert NormalisedAll(b)[x] == NormalisedAll(a)[i];
    }
  }

  // ---- Backoff ---------------------------------------------------------------------------

  function Pow(base: real, n: nat): real {
    if n == 0 then 1.0 else base * Pow(base, n - 1)
  }

  /** The delay before the next attempt, with the floating-point product taken as exact. */
  function Backoff(initial: Duration, multiplier: real, max: Duration, attempts: int): Duration {
    var n := if attempts < 0 then 0 else attempts;
    Clamped(Times(initial as real, Pow(multiplier, n)), initial, max)
  }

  /** `retryDelayForAttempt`. */
  function RetryDelay(p: DeliveryPolicy, attempts: int): Duration {
    Backoff(p.initialRetryDelay, p.backoffMultiplier, p.maxRetryDelay, attempts)
  }

  function Clamped(delay: real, initial: Duration, max: Duration): Duration {
    if delay >= max as real then max else if delay <= 0.0 then initial else delay.Floor
  }

  function Times(k: real, x: real): real { k * x }

  lemma ClampedMonotone(x: real, y: real, initial: Duration, max: Duration)
    requires 0 < initial && 0 < max && initial as real <= x <= y
    ensures (if initial < max then initial else max) <= Clamped(x, initial, max) <= Clamped(y, initial, max) <= max
  {
  }

  lemma TimesMonotone(k: real, x: real, y: real)
    requires k > 0.0 && 1.0 <= x <= y
    ensures k <= Times(k, x) <= Times(k, y)
  {
    assert k * (x - 1.0) >= 0.0 && k * (y - x) >= 0.0;
    assert k * x == k * (x - 1.0) + k;
    assert k * y == k * (y - x) + k * x;
  }

  lemma {:induction false} PowGrows(base: real, n: nat)
    requires base >= 1.0
    ensures 1.0 <= Pow(base, n) <= Pow(base, n + 1)
  {
    if n > 0 {
      PowGrows(base, n - 1);
    }
    RealMulGrows(base, Pow(base, n));
  }

  lemma RealMulGrows(base: real, x: real)
    requires base >= 1.0 && x >= 1.0
    ensures x <= base * x
  {
    assert (base - 1.0) * x >= 0.0;
  }

  /** Waits lie between the initial delay, or the largest if that is less, and the largest one,
      and never get shorter. */
  lemma BackoffBetween(initial: Duration, multiplier: real, max: Duration, attempts: int)
    requires initial > 0 && max > 0 && multiplier >= 1.0
    ensures (if initial < max then initial else max) <= Backoff(initial, multiplier, max, attempts) <= max
    ensures Backoff(initial, multiplier, max, attempts) <= Backoff(initial, multiplier, max, attempts + 1)
  {
    var n := if attempts < 0 then 0 else attempts;
    var x, y := Pow(multiplier, n), Pow(multiplier, n + 1);
    PowGrows(multiplier, n);
    TimesMonotone(initial as real, x, y);
    ClampedMonotone(Times(initial as real, x), Times(initial as real, y), initial, max);
  }

  /** Under a valid policy every wait lies between the initial and the maximal delay, and
      waits never get shorter. */
  lemma BackoffBounded(p: DeliveryPolicy, attempts: int)
    requires ValidPolicy(p)
    ensures p.initialRetryDelay <= RetryDelay(p, attempts) <= p.maxRetryDelay
    ensures RetryDelay(p, attempts) <= RetryDelay(p, attempts + 1)
  {
    BackoffBetween(p.initialRetryDelay, p.backoffMultiplier, p.maxRetryDelay, attempts);
  }
}
