/** Go's string order, and `sort.Slice` as a verified sort.

    A comparator is a strict order `less`.  A sequence is `Ordered` when every earlier
    element is below every later one; on elements that `less` can tell apart, the ordered
    sequence with given contents is unique, so it is a specification of any sort. */
module Ordering {

  /** Go's `<` on strings: lexicographic. */
  predicate StrLess(a: string, b: string)
    decreases |a|
  {
    if b == [] then false
    else if a == [] then true
    else if a[0] != b[0] then a[0] < b[0]
    else StrLess(a[1..], b[1..])
  }

  lemma {:induction false} StrLessTotal(a: string, b: string)
    ensures StrLess(a, b) || StrLess(b, a) || a == b
    ensures !(StrLess(a, b) && StrLess(b, a))
    ensures !StrLess(a, a)
    decreases |a|
  {
    if a != [] {
      StrLessTotal(a[1..], a[1..]);
      if b != [] {
        StrLessTotal(a[1..], b[1..]);
        if a[0] == b[0] && a[1..] == b[1..] {
          assert a == [a[0]] + a[1..] == b;
        }
      }
    }
  }

  lemma {:induction false} StrLessTransitive(a: string, b: string, c: string)
    requires StrLess(a, b) && StrLess(b, c)
    ensures StrLess(a, c)
    decreases |a|
  {
    if a != [] && a[0] == b[0] && b[0] == c[0] {
      StrLessTransitive(a[1..], b[1..], c[1..]);
    }
  }

  ghost predicate StrictOrder<T(!new)>(less: (T, T) -> bool) {
    && (forall x, y :: less(x, y) ==> !less(y, x))
    && (forall x, y, z :: less(x, y) && less(y, z) ==> less(x, z))
  }

  /** `less` tells any two different elements of `elems` apart. */
  ghost predicate Separates<T(!new)>(less: (T, T) -> bool, elems: set<T>) {
    forall x, y :: x in elems && y in elems && x != y ==> less(x, y) || less(y, x)
  }

  ghost predicate Ordered<T>(s: seq<T>, less: (T, T) -> bool) {
    forall i, j :: 0 <= i < j < |s| ==> less(s[i], s[j])
  }

  ghost predicate IsListing<T(!new)>(s: seq<T>, elems: set<T>, less: (T, T) -> bool) {
    && Ordered(s, less)
    && (forall x :: x in s <==> x in elems)
  }

  lemma {:induction false} ListingUnique<T(!new)>(s: seq<T>, t: seq<T>, elems: set<T>, less: (T, T) -> bool)
    requires StrictOrder(less)
    requires IsListing(s, elems, less) && IsListing(t, elems, less)
    ensures s == t
    decreases |s|
  {
    if s == [] {
      EmptyListing(t, s);
    } else {
      EmptyListing(s, t);
      assert s[0] in s && t[0] in t;
      assert s[0] == t[0] by {
        var i :| 0 <= i < |s| && s[i] == t[0];
        var j :| 0 <= j < |t| && t[j] == s[0];
      }
      TailListing(s, elems, less);
      TailListing(t, elems, less);
      ListingUnique(s[1..], t[1..], elems - {s[0]}, less);
      assert s == [s[0]] + s[1..];
      assert t == [t[0]] + t[1..];
    }
  }

  lemma EmptyListing<T(!new)>(s: seq<T>, t: seq<T>)
    requires forall x :: x in s <==> x in t
    ensures s == [] <==> t == []
  {
    assert s != [] ==> s[0] in s;
    assert t != [] ==> t[0] in t;
  }

  lemma TailListing<T(!new)>(s: seq<T>, elems: set<T>, less: (T, T) -> bool)
    requires StrictOrder(less) && IsListing(s, elems, less) && s != []
    ensures IsListing(s[1..], elems - {s[0]}, less)
  {
    assert s == [s[0]] + s[1..];
    forall x | x in s[1..]
      ensures x in elems && x != s[0]
    {
      assert x in s;
    }
  }

  /** `s` enumerates `elems` without repetition, in any order: what ranging over a map gives. */
  ghost predicate Gathered<T(!new)>(s: seq<T>, elems: set<T>) {
    && (forall x :: x in s <==> x in elems)
    && (forall i, j :: 0 <= i < j < |s| ==> s[i] != s[j])
  }

  lemma GatheredMore<T(!new)>(s: seq<T>, elems: set<T>, x: T)
    requires Gathered(s, elems) && x !in elems
    ensures Gathered(s + [x], elems + {x})
  {
  }

  ghost predicate AllDifferent<T>(s: seq<T>) {
    forall i, j :: 0 <= i < j < |s| ==> s[i] != s[j]
  }

  lemma {:induction false} SubsetSize<T>(a: set<T>, b: set<T>)
    requires a <= b
    ensures |a| <= |b|
  {
    if a != {} {
      var x :| x in a;
      SubsetSize(a - {x}, b - {x});
    }
  }

  /** Stretches that are apart from their neighbours are apart from each other. */
  lemma {:induction false} ApartFrom<T>(s: seq<T>, low: T -> int, high: T -> int, i: nat, j: nat)
    requires i < j < |s|
    requires forall k :: 0 < k < |s| ==> high(s[k - 1]) < low(s[k])
    requires forall k :: 0 <= k < |s| ==> low(s[k]) <= high(s[k])
    ensures high(s[i]) < low(s[j])
  {
    if i + 1 < j {
      ApartFrom(s, low, high, i, j - 1);
    }
  }

  function Insert<T>(x: T, s: seq<T>, less: (T, T) -> bool): (r: seq<T>)
    ensures multiset(r) == multiset{x} + multiset(s)
    ensures |r| == |s| + 1
  {
    if s == [] then [x]
    else if less(x, s[0]) then [x] + s
    else
      assert s == [s[0]] + s[1..];
      [s[0]] + Insert(x, s[1..], less)
  }

  /** Insertion sort, standing for `sort.Slice`. */
  function SortBy<T>(s: seq<T>, less: (T, T) -> bool): (r: seq<T>)
    ensures multiset(r) == multiset(s)
    ensures |r| == |s|
  {
    if s == [] then []
    else
      assert s == [s[0]] + s[1..];
      Insert(s[0], SortBy(s[1..], less), less)
  }

  lemma {:induction false} InsertOrdered<T(!new)>(x: T, s: seq<T>, less: (T, T) -> bool)
    requires StrictOrder(less) && Ordered(s, less)
    requires forall y :: y in s ==> less(x, y) || less(y, x)
    ensures Ordered(Insert(x, s, less), less)
  {
    if s != [] && !less(x, s[0]) {
      InsertOrdered(x, s[1..], less);
      var r := Insert(x, s[1..], less);
      forall y | y in r
        ensures less(s[0], y)
      {
        assert y in multiset(r);
        assert y == x || y in s[1..];
      }
    } else if s != [] {
      forall y | y in s
        ensures less(x, y)
      {
      }
    }
  }

  /** Elements are pairwise distinguishable, so no two of them can be swapped unnoticed. */
  ghost predicate Distinguishable<T>(s: seq<T>, less: (T, T) -> bool) {
    forall i, j :: 0 <= i < j < |s| ==> less(s[i], s[j]) || less(s[j], s[i])
  }

  lemma {:induction false} SortByOrdered<T(!new)>(s: seq<T>, less: (T, T) -> bool)
    requires StrictOrder(less) && Distinguishable(s, less)
    ensures Ordered(SortBy(s, less), less)
    ensures forall x :: x in SortBy(s, less) <==> x in s
  {
    if s != [] {
      SortByOrdered(s[1..], less);
      InsertOrdered(s[0], SortBy(s[1..], less), less);
    }
    forall x
      ensures x in SortBy(s, less) <==> x in s
    {
      assert x in SortBy(s, less) <==> x in multiset(SortBy(s, less));
      assert x in s <==> x in multiset(s);
    }
  }

  /** Sorting a duplicate-free sequence yields the listing of its elements, in whatever
      order it was built. */
  lemma SortByIsListing<T(!new)>(s: seq<T>, elems: set<T>, less: (T, T) -> bool)
    requires StrictOrder(less) && Separates(less, elems)
    requires forall i, j :: 0 <= i < j < |s| ==> s[i] != s[j]
    requires forall x :: x in s <==> x in elems
    ensures IsListing(SortBy(s, less), elems, less)
    ensures SortBy(s, less) == Listing(elems, less)
  {
    assert Distinguishable(s, less) by {
      forall i, j | 0 <= i < j < |s|
        ensures less(s[i], s[j]) || less(s[j], s[i])
      {
        assert s[i] in s && s[j] in s;
      }
    }
    SortByOrdered(s, less);
    ListingUnique(SortBy(s, less), Listing(elems, less), elems, less);
  }

  lemma {:induction false} ListingExists<T(!new)>(elems: set<T>, less: (T, T) -> bool)
    returns (s: seq<T>)
    requires StrictOrder(less) && Separates(less, elems)
    ensures IsListing(s, elems, less)
    ensures |s| == |elems|
    decreases |elems|
  {
    if elems == {} {
      s := [];
    } else {
      var x :| x in elems;
      var rest := ListingExists(elems - {x}, less);
      s := Insert(x, rest, less);
      InsertOrdered(x, rest, less);
      forall y
        ensures y in s <==> y in elems
      {
        assert y in s <==> y in multiset(s);
        assert y in rest <==> y in multiset(rest);
      }
    }
  }

  /** The elements of a set in ascending order. */
  ghost function Listing<T(!new)>(elems: set<T>, less: (T, T) -> bool): (s: seq<T>)
    requires StrictOrder(less) && Separates(less, elems)
    ensures IsListing(s, elems, less)
    ensures |s| == |elems|
  {
    assert exists s :: IsListing(s, elems, less) && |s| == |elems| by {
      var s := ListingExists(elems, less);
    }
    var s :| IsListing(s, elems, less) && |s| == |elems|;
    s
  }

  /** The first `n` elements, or all of them. */
  function Take<T>(s: seq<T>, n: nat): (r: seq<T>)
    ensures |r| <= n && |r| <= |s|
    ensures |s| <= n ==> r == s
    ensures n <= |s| ==> r == s[..n]
  {
    if n < |s| then s[..n] else s
  }
}
