/**
 Go's string order and the library sort, as far as the repository relies on them: what its
 comparisons must satisfy, and that a strictly sorted sequence is unique.
 */
module Ordering {

  /** `a < b` on Go strings: the first difference decides, a proper prefix comes first. */
  predicate Less(a: string, b: string) {
    if b == "" then false
    else if a == "" then true
    else if a[0] != b[0] then a[0] < b[0]
    else Less(a[1..], b[1..])
  }

  lemma {:induction false} LessTransitive(a: string, b: string, c: string)
    requires Less(a, b) && Less(b, c)
    ensures Less(a, c)
  {
    if a != "" && a[0] == b[0] == c[0] {
      LessTransitive(a[1..], b[1..], c[1..]);
    }
  }

  lemma {:induction false} LessTrichotomy(a: string, b: string)
    ensures a == b ==> !Less(a, b)
    ensures Less(a, b) ==> !Less(b, a)
    ensures Less(a, b) || a == b || Less(b, a)
  {
    if a != "" && b != "" && a[0] == b[0] {
      assert a == [a[0]] + a[1..] && b == [b[0]] + b[1..];
      LessTrichotomy(a[1..], b[1..]);
    }
  }

  // ---- Sorting by a comparison ------------------------------------------

  /** What `sort.Slice` asks of its comparison. */
  ghost predicate StrictWeakOrder<T(!new)>(less: (T, T) -> bool) {
    && (forall a :: !less(a, a))
    && (forall a, b, c :: less(a, b) && less(b, c) ==> less(a, c))
    && (forall a, b, c :: less(a, c) ==> less(a, b) || less(b, c))
  }

  ghost predicate Sorted<T>(less: (T, T) -> bool, s: seq<T>) {
    forall i, j :: 0 <= i < j < |s| ==> !less(s[j], s[i])
  }

  ghost predicate StrictlySorted<T>(less: (T, T) -> bool, s: seq<T>) {
    forall i, j :: 0 <= i < j < |s| ==> less(s[i], s[j])
  }

  ghost predicate Distinct<T>(s: seq<T>) {
    forall i, j :: 0 <= i < j < |s| ==> s[i] != s[j]
  }

  /** Insert after every element that is not greater, which keeps equal elements in order. */
  method InsertSorted<T(!new)>(less: (T, T) -> bool, s: seq<T>, x: T) returns (r: seq<T>)
    requires StrictWeakOrder(less) && Sorted(less, s)
    ensures Sorted(less, r) && multiset(r) == multiset(s) + multiset{x}
  {
    var i := |s|;
    while i > 0 && less(x, s[i - 1])
      invariant 0 <= i <= |s|
      invariant forall j :: i <= j < |s| ==> less(x, s[j])
    {
      i := i - 1;
    }
    r := s[..i] + [x] + s[i..];
    assert s == s[..i] + s[i..];
    SortedAround(less, s[..i], x, s[i..]);
  }

  lemma SortedAround<T(!new)>(less: (T, T) -> bool, a: seq<T>, x: T, b: seq<T>)
    requires StrictWeakOrder(less) && Sorted(less, a + b)
    requires a != [] ==> !less(x, a[|a| - 1])
    requires forall y <- b :: less(x, y)
    ensures Sorted(less, a + [x] + b)
  {
    var s, r := a + b, a + [x] + b;
    forall j, k | 0 <= j < k < |r|
      ensures !less(r[k], r[j])
    {
      if k < |a| {
        assert r[j] == s[j] && r[k] == s[k];
      } else if k == |a| {
        var last := |a| - 1;
        assert r[j] == s[j];
        assert j == last || !less(s[last], s[j]);
      } else if j == |a| {
        assert r[k] in b;
      } else {
        assert r[k] == s[k - 1] && r[j] == if j < |a| then s[j] else s[j - 1];
      }
    }
  }

  method Sort<T(!new)>(less: (T, T) -> bool, s: seq<T>) returns (r: seq<T>)
    requires StrictWeakOrder(less)
    ensures Sorted(less, r) && multiset(r) == multiset(s)
  {
    r := [];
    for i := 0 to |s|
      invariant Sorted(less, r) && multiset(r) == multiset(s[..i])
    {
      r := InsertSorted(less, r, s[i]);
      assert s[..i + 1] == s[..i] + [s[i]];
    }
    assert s[..|s|] == s;
  }

  lemma HasElement<T>(s: seq<T>)
    ensures s == [] <==> forall i :: 0 <= i < |s| ==> s[i] !in s
  {
    assert s != [] ==> s[0] in s;
  }

  /** A strictly sorted sequence is determined by its elements. */
  lemma {:induction false} SortedUnique<T(!new)>(less: (T, T) -> bool, s: seq<T>, t: seq<T>)
    requires StrictWeakOrder(less)
    requires StrictlySorted(less, s) && StrictlySorted(less, t)
    requires forall x :: x in s <==> x in t
    ensures s == t
  {
    if s == [] || t == [] {
      HasElement(s);
      HasElement(t);
    } else {
      assert s[0] in t && t[0] in s;
      assert s[0] == t[0];
      forall x
        ensures x in s[1..] <==> x in t[1..]
      {
        assert s == [s[0]] + s[1..] && t == [t[0]] + t[1..];
        assert x in s <==> x == s[0] || x in s[1..];
        assert x in t <==> x == t[0] || x in t[1..];
        if x in s[1..] { assert less(s[0], x); }
        if x in t[1..] { assert less(t[0], x); }
      }
      SortedUnique(less, s[1..], t[1..]);
      assert s == [s[0]] + s[1..] && t == [t[0]] + t[1..];
    }
  }

  lemma LessIsStrictWeakOrder()
    ensures StrictWeakOrder(Less)
  {
    forall a: string
      ensures !Less(a, a)
    {
      LessTrichotomy(a, a);
    }
    forall a: string, b: string, c: string
      ensures Less(a, b) && Less(b, c) ==> Less(a, c)
      ensures Less(a, c) ==> Less(a, b) || Less(b, c)
    {
      if Less(a, b) && Less(b, c) { LessTransitive(a, b, c); }
      LessTrichotomy(a, b);
      LessTrichotomy(b, c);
      if Less(a, c) && Less(b, a) { LessTransitive(b, a, c); }
    }
  }

  /** The keys of a map, in increasing order. */
  method SortedKeys<V>(m: map<string, V>) returns (keys: seq<string>)
    ensures StrictlySorted(Less, keys)
    ensures forall k :: k in keys <==> k in m
  {
    LessIsStrictWeakOrder();
    keys := [];
    var rest := m.Keys;
    while rest != {}
      invariant rest <= m.Keys
      invariant Sorted(Less, keys)
      invariant forall k :: k in multiset(keys) <==> k in m.Keys - rest
      invariant forall k :: multiset(keys)[k] <= 1
      decreases rest
    {
      var k :| k in rest;
      assert k !in multiset(keys);
      keys := InsertSorted(Less, keys, k);
      rest := rest - {k};
    }
    SortedDistinct(keys);
  }

  lemma SortedDistinct(keys: seq<string>)
    requires Sorted(Less, keys) && forall k :: multiset(keys)[k] <= 1
    ensures StrictlySorted(Less, keys)
    ensures forall k :: k in keys <==> k in multiset(keys)
  {
    forall i, j | 0 <= i < j < |keys|
      ensures Less(keys[i], keys[j])
    {
      LessTrichotomy(keys[i], keys[j]);
      RepeatCounts(keys, i, j);
    }
  }

  lemma RepeatCounts<T>(s: seq<T>, i: int, j: int)
    requires 0 <= i < j < |s|
    ensures s[i] == s[j] ==> multiset(s)[s[j]] >= 2
  {
    assert s == s[..j] + [s[j]] + s[j + 1..];
    assert s[..j][i] in multiset(s[..j]);
    assert multiset(s) == multiset(s[..j]) + multiset{s[j]} + multiset(s[j + 1..]);
  }

  /** A set of strings, in increasing order. */
  ghost function InOrder(keys: set<string>): (s: seq<string>)
    ensures StrictlySorted(Less, s)
    ensures forall k :: k in s <==> k in keys
  {
    if keys == {} then []
    else
      var x :| x in keys;
      InsertKeeps(InOrder(keys - {x}), x);
      Insert(InOrder(keys - {x}), x)
  }

  function Insert(s: seq<string>, x: string): seq<string> {
    if s == [] || Less(x, s[0]) then [x] + s else [s[0]] + Insert(s[1..], x)
  }

  lemma {:induction false} InsertKeeps(s: seq<string>, x: string)
    requires StrictlySorted(Less, s) && x !in s
    ensures StrictlySorted(Less, Insert(s, x))
    ensures forall k :: k in Insert(s, x) <==> k == x || k in s
  {
    hide Less;
    LessIsStrictWeakOrder();
    if s != [] {
      LessTrichotomy(x, s[0]);
      assert s == [s[0]] + s[1..];
      if Less(x, s[0]) {
        assert forall i :: 0 < i < |s| ==> Less(s[0], s[i]);
      } else {
        InsertKeeps(s[1..], x);
        var t := Insert(s[1..], x);
        forall j | 0 <= j < |t|
          ensures Less(s[0], t[j])
        {
          assert t[j] in t;
          assert t[j] == x || t[j] in s[1..];
        }
      }
    }
  }
}
