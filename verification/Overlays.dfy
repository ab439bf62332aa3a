/** Maps in which entries under different keys are replaced one after the other. */
module Overlays {
  import opened Ordering

  /** A map with the first `n` of these entries put into it, one after the other. */
  function Overlaid<K, V>(m: map<K, V>, keys: seq<K>, values: seq<V>, n: nat): map<K, V>
    requires n <= |keys| == |values|
  {
    if n == 0 then m else Overlaid(m, keys, values, n - 1)[keys[n - 1] := values[n - 1]]
  }

  lemma {:induction false} OverlaidAt<K, V>(m: map<K, V>, keys: seq<K>, values: seq<V>, n: nat, k: nat)
    requires n <= |keys| == |values| && k < |keys| && keys[k] in m && AllDifferent(keys)
    ensures var after := Overlaid(m, keys, values, n);
            keys[k] in after && after[keys[k]] == if k < n then values[k] else m[keys[k]]
  {
    if n > 0 {
      OverlaidAt(m, keys, values, n - 1, k);
      assert k != n - 1 ==> keys[k] != keys[n - 1];
    }
  }

  lemma {:induction false} OverlaidElse<K, V>(m: map<K, V>, keys: seq<K>, values: seq<V>, n: nat, key: K)
    requires n <= |keys| == |values| && key !in keys
    ensures var after := Overlaid(m, keys, values, n);
            (key in after <==> key in m) && (key in after ==> after[key] == m[key])
  {
    if n > 0 {
      OverlaidElse(m, keys, values, n - 1, key);
    }
  }

  lemma OverlaidAll<K(!new), V>(m: map<K, V>, keys: seq<K>, values: seq<V>, after: map<K, V>)
    requires |keys| == |values| && AllDifferent(keys) && after == Overlaid(m, keys, values, |keys|)
    requires forall i :: 0 <= i < |keys| ==> keys[i] in m
    ensures forall k :: 0 <= k < |keys| ==> keys[k] in after && after[keys[k]] == values[k]
    ensures forall key :: key !in keys ==> (key in after <==> key in m) && (key in after ==> after[key] == m[key])
  {
    forall k | 0 <= k < |keys|
      ensures keys[k] in after && after[keys[k]] == values[k]
    {
      OverlaidAt(m, keys, values, |keys|, k);
    }
    forall key | key !in keys
      ensures (key in after <==> key in m) && (key in after ==> after[key] == m[key])
    {
      OverlaidElse(m, keys, values, |keys|, key);
    }
  }

  /** The entry is replaced, if it is there. */
  ghost predicate Puts<K, V>(m: map<K, V>, m': map<K, V>, key: K, old': V, value: V) {
    key in m && m[key] == old' ==> m' == m[key := value]
  }

  /** Replacing different entries one after the other. */
  lemma {:induction false} PutsOverlay<K, V>(states: seq<map<K, V>>, keys: seq<K>, olds: seq<V>, values: seq<V>, n: nat)
    requires |states| == |keys| + 1 && |keys| == |olds| == |values| && n <= |keys| && AllDifferent(keys)
    requires forall i :: 0 <= i < |keys| ==> keys[i] in states[0] && states[0][keys[i]] == olds[i]
    requires forall i :: 0 <= i < |keys| ==> Puts(states[i], states[i + 1], keys[i], olds[i], values[i])
    ensures states[n] == Overlaid(states[0], keys, values, n)
  {
    if n > 0 {
      PutsOverlay(states, keys, olds, values, n - 1);
      OverlaidAt(states[0], keys, values, n - 1, n - 1);
      assert Puts(states[n - 1], states[n - 1 + 1], keys[n - 1], olds[n - 1], values[n - 1]);
    }
  }
}
