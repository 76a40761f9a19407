/**
 * Order-preserving filtering and mapping, and stable sorting by a string key:
 * the order both of `Array.prototype.sort` with a key comparator and of a
 * Convex index scan (ties keep table order).
 */
module Sequences {
  import opened Text

  /** `s.filter(p)`. */
  function Filter<T>(s: seq<T>, p: T -> bool): (r: seq<T>)
    ensures |r| <= |s|
    ensures forall i :: 0 <= i < |r| ==> p(r[i])
  {
    if s == [] then [] else (if p(s[0]) then [s[0]] else []) + Filter(s[1..], p)
  }

  /** An element is kept exactly when it is in the input and passes the test. */
  lemma {:induction false} FilterMember<T>(s: seq<T>, p: T -> bool, x: T)
    ensures x in Filter(s, p) <==> x in s && p(x)
  {
    if s != [] {
      FilterMember(s[1..], p, x);
      assert s == [s[0]] + s[1..];
    }
  }

  lemma {:induction false} FilterAll<T>(s: seq<T>, p: T -> bool)
    requires forall i :: 0 <= i < |s| ==> p(s[i])
    ensures Filter(s, p) == s
  {
    if s != [] {
      FilterAll(s[1..], p);
    }
  }

  /** Filtering distributes over concatenation. */
  lemma {:induction false} FilterAppend<T>(a: seq<T>, b: seq<T>, p: T -> bool)
    ensures Filter(a + b, p) == Filter(a, p) + Filter(b, p)
  {
    if a == [] {
      assert a + b == b;
    } else {
      assert (a + b)[1..] == a[1..] + b;
      FilterAppend(a[1..], b, p);
    }
  }

  /** Filtering keeps the order: a strictly increasing measure stays strictly increasing. */
  lemma {:induction false} FilterIncreasing<T>(s: seq<T>, p: T -> bool, f: T -> int)
    requires forall j, k :: 0 <= j < k < |s| ==> f(s[j]) < f(s[k])
    ensures forall j, k :: 0 <= j < k < |Filter(s, p)| ==> f(Filter(s, p)[j]) < f(Filter(s, p)[k])
  {
    if s != [] {
      FilterIncreasing(s[1..], p, f);
      var r := Filter(s, p);
      if p(s[0]) {
        forall k | 0 < k < |r| ensures f(r[0]) < f(r[k]) {
          var y := r[k];
          assert y == Filter(s[1..], p)[k - 1];
          assert y in Filter(s[1..], p);
          FilterMember(s[1..], p, y);
          var j :| 0 <= j < |s[1..]| && s[1..][j] == y;
          assert s[j + 1] == y;
        }
      }
    }
  }

  /** `s.map(f)`. */
  function Map<A, B>(s: seq<A>, f: A -> B): (r: seq<B>)
    ensures |r| == |s| && forall i :: 0 <= i < |s| ==> r[i] == f(s[i])
  {
    seq(|s|, i requires 0 <= i < |s| => f(s[i]))
  }

  lemma MapAppend<A, B>(a: seq<A>, b: seq<A>, f: A -> B)
    ensures Map(a + b, f) == Map(a, f) + Map(b, f)
  {
  }

  /** An output of Map is the image of some input. */
  lemma MapMembers<A, B>(s: seq<A>, f: A -> B, y: B)
    ensures y in Map(s, f) <==> exists x :: x in s && y == f(x)
  {
    if y in Map(s, f) {
      var i :| 0 <= i < |s| && Map(s, f)[i] == y;
      assert s[i] in s;
    }
    if exists x :: x in s && y == f(x) {
      var x :| x in s && y == f(x);
      var i :| 0 <= i < |s| && s[i] == x;
      assert Map(s, f)[i] == y;
    }
  }

  /** `s.some(p)`. */
  function Any<T>(s: seq<T>, p: T -> bool): bool {
    if s == [] then false else p(s[0]) || Any(s[1..], p)
  }

  lemma {:induction false} AnySpec<T>(s: seq<T>, p: T -> bool)
    ensures Any(s, p) <==> exists i :: 0 <= i < |s| && p(s[i])
  {
    if s != [] {
      AnySpec(s[1..], p);
      if exists i :: 0 <= i < |s| && p(s[i]) {
        var i :| 0 <= i < |s| && p(s[i]);
        if i > 0 {
          assert s[1..][i - 1] == s[i];
        }
      }
      if exists i :: 0 <= i < |s[1..]| && p(s[1..][i]) {
        var i :| 0 <= i < |s[1..]| && p(s[1..][i]);
        assert s[i + 1] == s[1..][i];
      }
    }
  }

  /** Mapping and then filtering leaves nothing exactly when no element passes the composed test. */
  lemma {:induction false} FilterMapEmpty<A, B>(s: seq<A>, f: A -> B, q: B -> bool, p: A -> bool)
    requires forall x :: q(f(x)) == p(x)
    ensures Filter(Map(s, f), q) == [] <==> !Any(s, p)
  {
    if s != [] {
      assert Map(s, f)[1..] == Map(s[1..], f);
      FilterMapEmpty(s[1..], f, q, p);
    }
  }

  /** The elements of s whose key is k, in their order in s. */
  function FilterKey<T>(s: seq<T>, key: T -> string, k: string): (r: seq<T>)
    ensures |r| <= |s|
    ensures forall i :: 0 <= i < |r| ==> key(r[i]) == k
  {
    if s == [] then [] else (if key(s[0]) == k then [s[0]] else []) + FilterKey(s[1..], key, k)
  }

  lemma {:induction false} FilterKeyAppend<T>(a: seq<T>, b: seq<T>, key: T -> string, k: string)
    ensures FilterKey(a + b, key, k) == FilterKey(a, key, k) + FilterKey(b, key, k)
  {
    if a == [] {
      assert a + b == b;
    } else {
      assert (a + b)[1..] == a[1..] + b;
      FilterKeyAppend(a[1..], b, key, k);
    }
  }

  lemma {:induction false} FilterKeyNone<T>(s: seq<T>, key: T -> string, k: string)
    requires forall i :: 0 <= i < |s| ==> key(s[i]) != k
    ensures FilterKey(s, key, k) == []
  {
    if s != [] {
      FilterKeyNone(s[1..], key, k);
    }
  }

  /** An element is in the bucket of k exactly when it is in s with key k. */
  lemma {:induction false} FilterKeyMember<T>(s: seq<T>, key: T -> string, k: string, x: T)
    ensures x in FilterKey(s, key, k) <==> x in s && key(x) == k
  {
    if s != [] {
      FilterKeyMember(s[1..], key, k, x);
      assert s == [s[0]] + s[1..];
    }
  }

  /** Appending one element extends only the bucket of its own key. */
  lemma FilterKeySnoc<T>(s: seq<T>, x: T, key: T -> string, k: string)
    ensures FilterKey(s + [x], key, k) == FilterKey(s, key, k) + (if key(x) == k then [x] else [])
  {
    FilterKeyAppend(s, [x], key, k);
    assert FilterKey([x], key, k) == (if key(x) == k then [x] else []) + FilterKey([], key, k);
  }

  /** Keys never decrease along s. */
  predicate SortedBy<T>(s: seq<T>, key: T -> string) {
    forall i, j :: 0 <= i < j < |s| ==> LexLe(key(s[i]), key(s[j]))
  }

  /** Inserting x into a sorted sequence after every element whose key is not above x's. */
  function Insert<T>(x: T, s: seq<T>, key: T -> string): (r: seq<T>)
    ensures |r| == |s| + 1
  {
    if s == [] then [x]
    else if LexLess(key(x), key(s[0])) then [x] + s
    else [s[0]] + Insert(x, s[1..], key)
  }

  lemma {:induction false} InsertPermutation<T>(x: T, s: seq<T>, key: T -> string)
    ensures multiset(Insert(x, s, key)) == multiset(s) + multiset{x}
  {
    if s != [] && !LexLess(key(x), key(s[0])) {
      InsertPermutation(x, s[1..], key);
      assert s == [s[0]] + s[1..];
    }
  }

  lemma {:induction false} InsertSorted<T>(x: T, s: seq<T>, key: T -> string)
    requires SortedBy(s, key)
    ensures SortedBy(Insert(x, s, key), key)
  {
    if s != [] && !LexLess(key(x), key(s[0])) {
      InsertSorted(x, s[1..], key);
      InsertPermutation(x, s[1..], key);
      var r := Insert(x, s, key);
      LexLessTotal(key(x), key(s[0]));
      forall j | 0 < j < |r| ensures LexLe(key(r[0]), key(r[j])) {
        var y := r[j];
        assert y in multiset(r);
        assert y in multiset(Insert(x, s[1..], key)) by {
          assert r[1..] == Insert(x, s[1..], key);
          assert y in r[1..];
        }
        if y != x {
          assert y in multiset(s[1..]);
          var i :| 0 <= i < |s[1..]| && s[1..][i] == y;
          assert s[i + 1] == y;
        }
      }
    } else if s != [] {
      forall i, j | 0 <= i < j < |[x] + s| ensures LexLe(key(([x] + s)[i]), key(([x] + s)[j])) {
        if i == 0 {
          assert ([x] + s)[j] == s[j - 1];
          if j > 1 {
            LexLessLeTransitive(key(x), key(s[0]), key(s[j - 1]));
          }
        } else {
          assert ([x] + s)[i] == s[i - 1] && ([x] + s)[j] == s[j - 1];
        }
      }
    }
  }

  /** Inserting keeps, for every key, the earlier elements first and x last. */
  lemma {:induction false} InsertStable<T>(x: T, s: seq<T>, key: T -> string, k: string)
    requires SortedBy(s, key)
    ensures FilterKey(Insert(x, s, key), key, k) == FilterKey(s, key, k) + (if key(x) == k then [x] else [])
  {
    if s == [] {
      assert FilterKey([x], key, k) == (if key(x) == k then [x] else []) + FilterKey([], key, k);
    } else if LexLess(key(x), key(s[0])) {
      assert Insert(x, s, key) == [x] + s;
      InsertFrontStable(x, s, key, k);
    } else {
      var rest := Insert(x, s[1..], key);
      assert Insert(x, s, key) == [s[0]] + rest;
      InsertStable(x, s[1..], key, k);
      FilterKeyAppend([s[0]], rest, key, k);
      assert s == [s[0]] + s[1..];
      FilterKeyAppend([s[0]], s[1..], key, k);
    }
  }

  /** Putting x in front of a sorted s whose keys all exceed x's adds x to its own key's filter only. */
  lemma InsertFrontStable<T>(x: T, s: seq<T>, key: T -> string, k: string)
    requires SortedBy(s, key) && s != [] && LexLess(key(x), key(s[0]))
    ensures FilterKey([x] + s, key, k) == FilterKey(s, key, k) + (if key(x) == k then [x] else [])
  {
    FilterKeyAppend([x], s, key, k);
    assert FilterKey([x], key, k) == (if key(x) == k then [x] else []) + FilterKey([], key, k);
    if key(x) == k {
      forall i | 0 <= i < |s| ensures key(s[i]) != k {
        if i > 0 {
          LexLessLeTransitive(key(x), key(s[0]), key(s[i]));
        }
        LexLessIrreflexive(k);
      }
      FilterKeyNone(s, key, k);
    }
  }

  /** Insertion sort; equal keys keep their input order. */
  function SortBy<T>(s: seq<T>, key: T -> string): (r: seq<T>)
    ensures |r| == |s|
    ensures SortedBy(r, key)
  {
    if s == [] then []
    else
      var init := SortBy(s[..|s| - 1], key);
      InsertSorted(s[|s| - 1], init, key);
      Insert(s[|s| - 1], init, key)
  }

  /** No two elements of s share an id. */
  predicate DistinctBy<T>(s: seq<T>, id: T -> int) {
    forall j, k :: 0 <= j < k < |s| ==> id(s[j]) != id(s[k])
  }

  lemma {:induction false} InsertDistinct<T>(x: T, s: seq<T>, key: T -> string, id: T -> int)
    requires DistinctBy(s, id)
    requires forall i :: 0 <= i < |s| ==> id(s[i]) != id(x)
    ensures DistinctBy(Insert(x, s, key), id)
  {
    if s != [] && !LexLess(key(x), key(s[0])) {
      InsertDistinct(x, s[1..], key, id);
      var tail := Insert(x, s[1..], key);
      forall i | 0 <= i < |tail| ensures id(tail[i]) != id(s[0]) {
        InsertPermutation(x, s[1..], key);
        assert tail[i] in multiset(s[1..]) + multiset{x};
      }
    }
  }

  /** The sort never makes two elements share an id. */
  lemma {:induction false} SortDistinct<T>(s: seq<T>, key: T -> string, id: T -> int)
    requires DistinctBy(s, id)
    ensures DistinctBy(SortBy(s, key), id)
  {
    if s != [] {
      var n := |s| - 1;
      var init := SortBy(s[..n], key);
      SortDistinct(s[..n], key, id);
      forall i | 0 <= i < |init| ensures id(init[i]) != id(s[n]) {
        SortMember(s[..n], key, init[i]);
      }
      InsertDistinct(s[n], init, key, id);
    }
  }

  /** A bucket never makes two elements share an id. */
  lemma {:induction false} FilterKeyDistinct<T>(s: seq<T>, key: T -> string, k: string, id: T -> int)
    requires DistinctBy(s, id)
    ensures DistinctBy(FilterKey(s, key, k), id)
  {
    if s != [] {
      FilterKeyDistinct(s[1..], key, k, id);
      var tail := FilterKey(s[1..], key, k);
      forall i | 0 <= i < |tail| ensures id(tail[i]) != id(s[0]) {
        FilterKeyMember(s[1..], key, k, tail[i]);
      }
    }
  }

  /** The sort is a permutation of its input. */
  lemma {:induction false} SortPermutation<T>(s: seq<T>, key: T -> string)
    ensures multiset(SortBy(s, key)) == multiset(s)
  {
    if s != [] {
      var init, x := s[..|s| - 1], s[|s| - 1];
      assert SortBy(s, key) == Insert(x, SortBy(init, key), key);
      SortPermutation(init, key);
      InsertPermutation(x, SortBy(init, key), key);
      assert s == init + [x];
    }
  }

  lemma SortMember<T>(s: seq<T>, key: T -> string, x: T)
    ensures x in SortBy(s, key) <==> x in s
  {
    SortPermutation(s, key);
    assert x in SortBy(s, key) <==> x in multiset(SortBy(s, key));
    assert x in s <==> x in multiset(s);
  }

  /** The sort is stable: for every key, the elements with that key keep their relative order. */
  lemma {:induction false} SortStable<T>(s: seq<T>, key: T -> string, k: string)
    ensures FilterKey(SortBy(s, key), key, k) == FilterKey(s, key, k)
  {
    if s != [] {
      var init, x := s[..|s| - 1], s[|s| - 1];
      assert SortBy(s, key) == Insert(x, SortBy(init, key), key);
      SortStable(init, key, k);
      InsertStable(x, SortBy(init, key), key, k);
      assert s == init + [x];
      FilterKeyAppend(init, [x], key, k);
      assert FilterKey([x], key, k) == (if key(x) == k then [x] else []) + FilterKey([], key, k);
    }
  }

  /** Sorting a sequence that is already sorted gives it back unchanged. */
  lemma {:induction false} SortSortedIdentity<T>(s: seq<T>, key: T -> string)
    requires SortedBy(s, key)
    ensures SortBy(s, key) == s
  {
    if s != [] {
      var init, x := s[..|s| - 1], s[|s| - 1];
      assert SortBy(s, key) == Insert(x, SortBy(init, key), key);
      assert SortedBy(init, key);
      SortSortedIdentity(init, key);
      InsertAtEnd(x, init, key);
      assert s == init + [x];
    }
  }

  lemma {:induction false} InsertAtEnd<T>(x: T, s: seq<T>, key: T -> string)
    requires forall i :: 0 <= i < |s| ==> LexLe(key(s[i]), key(x))
    ensures Insert(x, s, key) == s + [x]
  {
    if s != [] {
      if LexLess(key(x), key(s[0])) {
        LexLessLeTransitive(key(x), key(s[0]), key(x));
        LexLessIrreflexive(key(x));
      }
      InsertAtEnd(x, s[1..], key);
      assert [s[0]] + (s[1..] + [x]) == s + [x];
    }
  }
}
