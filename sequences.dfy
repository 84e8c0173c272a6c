/**
 * Sequence operations the display code takes from Python's built-ins:
 * the stable `sorted(..., key=...)` over a real-valued key and the
 * filtering list comprehension `[x for x in s if p(x)]`.
 *
 * Stability is stated through `WithKey`: for every key value k, the
 * elements whose key is k appear in the output in the same order as in
 * the input. `StableSortUnique` shows that a sorted sequence with that
 * property is unique, so `SortBy` is the result of any stable sort.
 */
module Sequences {

  /** `s` is non-decreasing under `key`. */
  predicate SortedBy<T>(s: seq<T>, key: T -> real)
  {
    forall i, j :: 0 <= i < j < |s| ==> key(s[i]) <= key(s[j])
  }

  /** The elements of `s` satisfying `p`, in their order in `s`. */
  function Filter<T>(s: seq<T>, p: T -> bool): (r: seq<T>)
    ensures |r| <= |s|
  {
    if |s| == 0 then []
    else (if p(s[0]) then [s[0]] else []) + Filter(s[1..], p)
  }

  /** The elements of `s` whose key is exactly `k`, in their order in `s`. */
  function WithKey<T>(s: seq<T>, key: T -> real, k: real): (r: seq<T>)
    ensures |r| <= |s|
  {
    if |s| == 0 then []
    else (if key(s[0]) == k then [s[0]] else []) + WithKey(s[1..], key, k)
  }

  /** Places `x` in front of the first element whose key is not smaller. */
  function Insert<T>(x: T, s: seq<T>, key: T -> real): (r: seq<T>)
    ensures |r| == |s| + 1
  {
    if |s| == 0 then [x]
    else if key(x) <= key(s[0]) then [x] + s
    else [s[0]] + Insert(x, s[1..], key)
  }

  /** Stable insertion sort by `key`. */
  function SortBy<T>(s: seq<T>, key: T -> real): (r: seq<T>)
    ensures |r| == |s|
  {
    if |s| == 0 then [] else Insert(s[0], SortBy(s[1..], key), key)
  }

  // ---------------------------------------------------------------------
  // Filter

  lemma {:induction false} FilterMembers<T>(s: seq<T>, p: T -> bool)
    ensures forall x :: x in Filter(s, p) <==> x in s && p(x)
  {
    if |s| > 0 {
      FilterMembers(s[1..], p);
      assert s == [s[0]] + s[1..];
    }
  }

  lemma {:induction false} FilterMultiset<T>(s: seq<T>, p: T -> bool)
    ensures multiset(Filter(s, p)) <= multiset(s)
  {
    if |s| > 0 {
      FilterMultiset(s[1..], p);
      assert s == [s[0]] + s[1..];
    }
  }

  /** Filtering distributes over concatenation: it keeps relative order. */
  lemma {:induction false} FilterAppend<T>(a: seq<T>, b: seq<T>, p: T -> bool)
    ensures Filter(a + b, p) == Filter(a, p) + Filter(b, p)
  {
    if |a| == 0 {
      assert a + b == b;
    } else {
      var head := if p(a[0]) then [a[0]] else [];
      assert (a + b)[0] == a[0];
      assert (a + b)[1..] == a[1..] + b;
      assert Filter(a + b, p) == head + Filter(a[1..] + b, p);
      FilterAppend(a[1..], b, p);
      assert Filter(a, p) == head + Filter(a[1..], p);
    }
  }

  lemma {:induction false} FilterSorted<T>(s: seq<T>, p: T -> bool, key: T -> real)
    requires SortedBy(s, key)
    ensures SortedBy(Filter(s, p), key)
  {
    if |s| > 0 {
      FilterSorted(s[1..], p, key);
      FilterLowerBound(s[1..], p, key, key(s[0]));
    }
  }

  /** A lower bound on the keys of `s` is one on the keys of any filtering of it. */
  lemma {:induction false} FilterLowerBound<T>(s: seq<T>, p: T -> bool, key: T -> real, lo: real)
    requires forall m :: 0 <= m < |s| ==> lo <= key(s[m])
    ensures forall i :: 0 <= i < |Filter(s, p)| ==> lo <= key(Filter(s, p)[i])
  {
    if |s| > 0 {
      FilterLowerBound(s[1..], p, key, lo);
    }
  }

  // ---------------------------------------------------------------------
  // WithKey

  /** A non-empty key class has a witness in the sequence. */
  lemma {:induction false} WithKeyWitness<T>(s: seq<T>, key: T -> real, k: real)
    requires |WithKey(s, key, k)| > 0
    ensures exists i :: 0 <= i < |s| && key(s[i]) == k
  {
    if key(s[0]) != k {
      WithKeyWitness(s[1..], key, k);
      var i :| 0 <= i < |s[1..]| && key(s[1..][i]) == k;
      assert key(s[i + 1]) == k;
    }
  }

  /** Selecting a key class commutes with filtering. */
  lemma {:induction false} WithKeyFilter<T>(s: seq<T>, p: T -> bool, key: T -> real, k: real)
    ensures WithKey(Filter(s, p), key, k) == Filter(WithKey(s, key, k), p)
  {
    if |s| > 0 {
      WithKeyFilter(s[1..], p, key, k);
      var head := if p(s[0]) then [s[0]] else [];
      WithKeyAppend(head, Filter(s[1..], p), key, k);
      var kh := if key(s[0]) == k then [s[0]] else [];
      FilterAppend(kh, WithKey(s[1..], key, k), p);
    }
  }

  /** The head of a non-empty sequence leads its own key class. */
  lemma WithKeyHead<T>(s: seq<T>, key: T -> real)
    requires |s| > 0
    ensures WithKey(s, key, key(s[0])) == [s[0]] + WithKey(s[1..], key, key(s[0]))
  {
  }

  lemma {:induction false} WithKeyAppend<T>(a: seq<T>, b: seq<T>, key: T -> real, k: real)
    ensures WithKey(a + b, key, k) == WithKey(a, key, k) + WithKey(b, key, k)
  {
    if |a| == 0 {
      assert a + b == b;
    } else {
      var head := if key(a[0]) == k then [a[0]] else [];
      assert (a + b)[0] == a[0];
      assert (a + b)[1..] == a[1..] + b;
      assert WithKey(a + b, key, k) == head + WithKey(a[1..] + b, key, k);
      WithKeyAppend(a[1..], b, key, k);
      assert WithKey(a, key, k) == head + WithKey(a[1..], key, k);
    }
  }

  // ---------------------------------------------------------------------
  // Insertion

  lemma {:induction false} InsertSorted<T>(x: T, s: seq<T>, key: T -> real)
    requires SortedBy(s, key)
    ensures SortedBy(Insert(x, s, key), key)
    ensures forall i :: 0 <= i < |Insert(x, s, key)| ==>
      key(Insert(x, s, key)[i]) == key(x) || exists m :: 0 <= m < |s| && key(Insert(x, s, key)[i]) == key(s[m])
  {
    if |s| > 0 && key(x) > key(s[0]) {
      InsertSorted(x, s[1..], key);
      var rest := Insert(x, s[1..], key);
      var r := Insert(x, s, key);
      assert r == [s[0]] + rest;
      forall i | 0 < i < |r| ensures key(r[0]) <= key(r[i]) {
        assert r[i] == rest[i - 1];
        if key(rest[i - 1]) != key(x) {
          var m :| 0 <= m < |s[1..]| && key(rest[i - 1]) == key(s[1..][m]);
          assert key(rest[i - 1]) == key(s[m + 1]);
        }
      }
      forall i | 0 < i < |r|
        ensures key(r[i]) == key(x) || exists m :: 0 <= m < |s| && key(r[i]) == key(s[m])
      {
        assert r[i] == rest[i - 1];
        if key(rest[i - 1]) != key(x) {
          var m :| 0 <= m < |s[1..]| && key(rest[i - 1]) == key(s[1..][m]);
          assert key(r[i]) == key(s[m + 1]);
        }
      }
    }
  }

  lemma {:induction false} InsertMultiset<T>(x: T, s: seq<T>, key: T -> real)
    ensures multiset(Insert(x, s, key)) == multiset(s) + multiset{x}
  {
    if |s| > 0 && key(x) > key(s[0]) {
      InsertMultiset(x, s[1..], key);
      assert s == [s[0]] + s[1..];
    }
  }

  /** `x` goes in front of every element of its own key class. */
  lemma {:induction false} InsertWithKey<T>(x: T, s: seq<T>, key: T -> real, k: real)
    requires SortedBy(s, key)
    ensures WithKey(Insert(x, s, key), key, k)
         == (if key(x) == k then [x] else []) + WithKey(s, key, k)
  {
    var hx := if key(x) == k then [x] else [];
    if |s| == 0 {
      assert Insert(x, s, key) == [x];
      assert WithKey([x], key, k) == hx + WithKey([x][1..], key, k);
    } else if key(x) <= key(s[0]) {
      var r := [x] + s;
      assert Insert(x, s, key) == r;
      assert r[0] == x && r[1..] == s;
      assert WithKey(r, key, k) == hx + WithKey(s, key, k);
    } else {
      var hs := if key(s[0]) == k then [s[0]] else [];
      var rest := Insert(x, s[1..], key);
      var r := [s[0]] + rest;
      assert Insert(x, s, key) == r;
      assert SortedBy(s[1..], key);
      InsertWithKey(x, s[1..], key, k);
      assert r[0] == s[0] && r[1..] == rest;
      assert WithKey(rest, key, k) == hx + WithKey(s[1..], key, k);
      assert WithKey(r, key, k) == hs + WithKey(rest, key, k);
      assert WithKey(s, key, k) == hs + WithKey(s[1..], key, k);
      if key(x) == k {
        assert hs == [];
        assert WithKey(s, key, k) == WithKey(s[1..], key, k);
        assert WithKey(r, key, k) == WithKey(rest, key, k);
      } else {
        assert hx == [];
        assert WithKey(rest, key, k) == WithKey(s[1..], key, k);
        assert WithKey(r, key, k) == WithKey(s, key, k);
      }
      assert WithKey(Insert(x, s, key), key, k) == hx + WithKey(s, key, k);
    }
  }

  // ---------------------------------------------------------------------
  // Sorting

  lemma {:induction false} SortBySorted<T>(s: seq<T>, key: T -> real)
    ensures SortedBy(SortBy(s, key), key)
  {
    if |s| > 0 {
      SortBySorted(s[1..], key);
      InsertSorted(s[0], SortBy(s[1..], key), key);
    }
  }

  lemma {:induction false} SortByMultiset<T>(s: seq<T>, key: T -> real)
    ensures multiset(SortBy(s, key)) == multiset(s)
  {
    if |s| > 0 {
      SortByMultiset(s[1..], key);
      InsertMultiset(s[0], SortBy(s[1..], key), key);
      assert s == [s[0]] + s[1..];
    }
  }

  /** Stability: each key class keeps its input order. */
  lemma {:induction false} SortByStable<T>(s: seq<T>, key: T -> real)
    ensures forall k :: WithKey(SortBy(s, key), key, k) == WithKey(s, key, k)
  {
    if |s| > 0 {
      SortByStable(s[1..], key);
      SortBySorted(s[1..], key);
      forall k ensures WithKey(SortBy(s, key), key, k) == WithKey(s, key, k) {
        InsertWithKey(s[0], SortBy(s[1..], key), key, k);
      }
    }
  }

  /** Two sorted sequences that agree on every key class are equal. */
  lemma {:induction false} StableSortUnique<T>(a: seq<T>, b: seq<T>, key: T -> real)
    requires SortedBy(a, key) && SortedBy(b, key)
    requires forall k :: WithKey(a, key, k) == WithKey(b, key, k)
    ensures a == b
  {
    if |a| == 0 {
      if |b| > 0 {
        WithKeyHead(b, key);
        assert false;
      }
    } else {
      WithKeyHead(a, key);
      assert |WithKey(b, key, key(a[0]))| > 0;
      HeadsAgree(a, b, key);
      TailsAgree(a, b, key);
      StableSortUnique(a[1..], b[1..], key);
      assert a == [a[0]] + a[1..];
      assert b == [b[0]] + b[1..];
    }
  }

  /** Sorted sequences agreeing on every key class share their head. */
  lemma HeadsAgree<T>(a: seq<T>, b: seq<T>, key: T -> real)
    requires |a| > 0 && |b| > 0
    requires SortedBy(a, key) && SortedBy(b, key)
    requires forall k :: WithKey(a, key, k) == WithKey(b, key, k)
    ensures a[0] == b[0]
  {
    var ka, kb := key(a[0]), key(b[0]);
    WithKeyHead(a, key);
    WithKeyHead(b, key);
    assert WithKey(a, key, ka) == WithKey(b, key, ka);
    assert WithKey(a, key, kb) == WithKey(b, key, kb);
    WithKeyWitness(b, key, ka);
    WithKeyWitness(a, key, kb);
    var i :| 0 <= i < |b| && key(b[i]) == ka;
    var j :| 0 <= j < |a| && key(a[j]) == kb;
    assert kb <= ka by { assert i == 0 || key(b[0]) <= key(b[i]); }
    assert ka <= kb by { assert j == 0 || key(a[0]) <= key(a[j]); }
    assert WithKey(a, key, ka)[0] == a[0];
    assert WithKey(b, key, kb)[0] == b[0];
  }

  /** Once the heads agree, so do the tails' key classes, and the tails stay sorted. */
  lemma TailsAgree<T>(a: seq<T>, b: seq<T>, key: T -> real)
    requires |a| > 0 && |b| > 0 && a[0] == b[0]
    requires SortedBy(a, key) && SortedBy(b, key)
    requires forall k :: WithKey(a, key, k) == WithKey(b, key, k)
    ensures SortedBy(a[1..], key) && SortedBy(b[1..], key)
    ensures forall k :: WithKey(a[1..], key, k) == WithKey(b[1..], key, k)
  {
    forall k ensures WithKey(a[1..], key, k) == WithKey(b[1..], key, k) {
      var h := if key(a[0]) == k then [a[0]] else [];
      assert WithKey(a, key, k) == WithKey(b, key, k);
      assert WithKey(a, key, k) == h + WithKey(a[1..], key, k);
      assert WithKey(b, key, k) == h + WithKey(b[1..], key, k);
      assert WithKey(a[1..], key, k) == WithKey(a, key, k)[|h|..];
      assert WithKey(b[1..], key, k) == WithKey(b, key, k)[|h|..];
    }
  }

  /** Filtering a stably sorted sequence gives the stable sort of the filtered input. */
  lemma FilterSortBy<T>(s: seq<T>, p: T -> bool, key: T -> real)
    ensures Filter(SortBy(s, key), p) == SortBy(Filter(s, p), key)
  {
    var lhs, rhs := Filter(SortBy(s, key), p), SortBy(Filter(s, p), key);
    SortBySorted(s, key);
    FilterSorted(SortBy(s, key), p, key);
    SortBySorted(Filter(s, p), key);
    SortByStable(s, key);
    SortByStable(Filter(s, p), key);
    forall k ensures WithKey(lhs, key, k) == WithKey(rhs, key, k) {
      WithKeyFilter(SortBy(s, key), p, key, k);
      WithKeyFilter(s, p, key, k);
    }
    StableSortUnique(lhs, rhs, key);
  }
}
