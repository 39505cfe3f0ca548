/** The stable sort behind JavaScript's `Array.prototype.sort`, by a pair of integers.

    Sorting is defined by insertion and then characterised three ways: the result is sorted, it is a
    permutation of the input, and elements that compare equal keep their order.  When no two
    elements compare equal there is only one such result, so the order they came in is forgotten.

    The folds that sort in place do so on a sequence of their own, which nothing else refers to;
    the comparators of the source subtract two numbers, or compare two pairs of numbers, and a
    descending comparator is an ascending one by the negated key. */
module Sorting {

  datatype Key = Key(major: int, minor: int)

  predicate Le(a: Key, b: Key) {
    a.major < b.major || (a.major == b.major && a.minor <= b.minor)
  }

  /** Inserts `e` after every element of the sorted sequence `s` that is not above it. */
  function Insert<T>(s: seq<T>, e: T, key: T -> Key): (r: seq<T>)
    ensures |r| == |s| + 1
  {
    if s == [] || Le(key(s[|s|-1]), key(e)) then s + [e]
    else Insert(s[..|s|-1], e, key) + [s[|s|-1]]
  }

  function Sort<T>(xs: seq<T>, key: T -> Key): (r: seq<T>)
    ensures |r| == |xs|
  {
    if xs == [] then [] else Insert(Sort(xs[..|xs|-1], key), xs[|xs|-1], key)
  }

  ghost predicate Sorted<T>(s: seq<T>, key: T -> Key) {
    forall i, j :: 0 <= i < j < |s| ==> Le(key(s[i]), key(s[j]))
  }

  /** The elements with key `k`, in order. */
  function WithKey<T>(s: seq<T>, k: Key, key: T -> Key): seq<T> {
    if s == [] then [] else WithKey(s[..|s|-1], k, key) + if key(s[|s|-1]) == k then [s[|s|-1]] else []
  }

  lemma {:induction false} InsertPermutes<T>(s: seq<T>, e: T, key: T -> Key)
    ensures multiset(Insert(s, e, key)) == multiset(s) + multiset{e}
  {
    if s != [] && !Le(key(s[|s|-1]), key(e)) {
      InsertPermutes(s[..|s|-1], e, key);
      assert s == s[..|s|-1] + [s[|s|-1]];
    }
  }

  lemma {:induction false} SortPermutes<T>(xs: seq<T>, key: T -> Key)
    ensures multiset(Sort(xs, key)) == multiset(xs)
  {
    if xs != [] {
      SortPermutes(xs[..|xs|-1], key);
      InsertPermutes(Sort(xs[..|xs|-1], key), xs[|xs|-1], key);
      assert xs == xs[..|xs|-1] + [xs[|xs|-1]];
    }
  }

  lemma {:induction false} InsertSorted<T>(s: seq<T>, e: T, key: T -> Key)
    requires Sorted(s, key)
    ensures Sorted(Insert(s, e, key), key)
  {
    if s != [] && !Le(key(s[|s|-1]), key(e)) {
      var front := Insert(s[..|s|-1], e, key);
      InsertSorted(s[..|s|-1], e, key);
      InsertPermutes(s[..|s|-1], e, key);
      forall i | 0 <= i < |front| ensures Le(key(front[i]), key(s[|s|-1])) {
        assert front[i] in multiset(front);
      }
    }
  }

  lemma {:induction false} SortSorts<T>(xs: seq<T>, key: T -> Key)
    ensures Sorted(Sort(xs, key), key)
  {
    if xs != [] {
      SortSorts(xs[..|xs|-1], key);
      InsertSorted(Sort(xs[..|xs|-1], key), xs[|xs|-1], key);
    }
  }

  lemma {:induction false} InsertStable<T>(s: seq<T>, e: T, k: Key, key: T -> Key)
    ensures WithKey(Insert(s, e, key), k, key) == WithKey(s, k, key) + if key(e) == k then [e] else []
  {
    if s != [] && !Le(key(s[|s|-1]), key(e)) {
      InsertStable(s[..|s|-1], e, k, key);
      var r := Insert(s, e, key);
      assert r[..|r|-1] == Insert(s[..|s|-1], e, key);
    } else {
      assert (s + [e])[..|s|] == s;
    }
  }

  /** Elements that compare equal keep their order. */
  lemma {:induction false} SortStable<T>(xs: seq<T>, k: Key, key: T -> Key)
    ensures WithKey(Sort(xs, key), k, key) == WithKey(xs, k, key)
  {
    if xs != [] {
      SortStable(xs[..|xs|-1], k, key);
      InsertStable(Sort(xs[..|xs|-1], key), xs[|xs|-1], k, key);
    }
  }

  ghost predicate DistinctKeys<T>(xs: seq<T>, key: T -> Key) {
    forall i, j :: 0 <= i < j < |xs| ==> key(xs[i]) != key(xs[j])
  }

  lemma LastsAgree<T>(s: seq<T>, t: seq<T>, key: T -> Key)
    requires Sorted(s, key) && Sorted(t, key) && multiset(s) == multiset(t)
    requires DistinctKeys(s, key) && s != [] && |s| == |t|
    ensures s[|s|-1] == t[|t|-1]
  {
    var x, y := s[|s|-1], t[|t|-1];
    assert y in multiset(t) && x in multiset(s);
  }

  lemma FrontsAgree<T>(s: seq<T>, t: seq<T>)
    requires |s| == |t| > 0 && multiset(s) == multiset(t) && s[|s|-1] == t[|t|-1]
    ensures multiset(s[..|s|-1]) == multiset(t[..|t|-1])
  {
    FrontMultiset(s);
    FrontMultiset(t);
  }

  lemma FrontMultiset<T>(s: seq<T>)
    requires s != []
    ensures multiset(s[..|s|-1]) == multiset(s) - multiset{s[|s|-1]}
  {
    assert s == s[..|s|-1] + [s[|s|-1]];
  }

  /** Elements with different keys have only one sorted order. */
  lemma {:induction false} SortedUnique<T>(s: seq<T>, t: seq<T>, key: T -> Key)
    requires Sorted(s, key) && Sorted(t, key) && multiset(s) == multiset(t)
    requires DistinctKeys(s, key)
    ensures s == t
    decreases |s|
  {
    assert |s| == |multiset(s)| == |multiset(t)| == |t|;
    if s != [] {
      var n := |s| - 1;
      LastsAgree(s, t, key);
      FrontsAgree(s, t);
      SortedUnique(s[..n], t[..n], key);
      assert s == s[..n] + [s[n]] && t == t[..n] + [t[n]];
    }
  }

  /** Sorting elements with different keys forgets the order they came in. */
  lemma SortForgetsOrder<T>(xs: seq<T>, ys: seq<T>, key: T -> Key)
    requires multiset(xs) == multiset(ys) && DistinctKeys(xs, key)
    ensures Sort(xs, key) == Sort(ys, key)
  {
    SortSorts(xs, key);
    SortSorts(ys, key);
    SortPermutes(xs, key);
    SortPermutes(ys, key);
    SortDistinct(xs, key);
    SortedUnique(Sort(xs, key), Sort(ys, key), key);
  }

  lemma {:induction false} InsertDistinct<T>(s: seq<T>, e: T, key: T -> Key)
    requires DistinctKeys(s, key) && forall i :: 0 <= i < |s| ==> key(s[i]) != key(e)
    ensures DistinctKeys(Insert(s, e, key), key)
  {
    if s != [] && !Le(key(s[|s|-1]), key(e)) {
      var n := |s| - 1;
      InsertDistinct(s[..n], e, key);
      InsertPermutes(s[..n], e, key);
      var front := Insert(s[..n], e, key);
      forall i | 0 <= i < |front| ensures key(front[i]) != key(s[n]) {
        assert front[i] in multiset(front);
        assert front[i] == e || front[i] in s[..n];
      }
    }
  }

  lemma {:induction false} SortDistinct<T>(xs: seq<T>, key: T -> Key)
    requires DistinctKeys(xs, key)
    ensures DistinctKeys(Sort(xs, key), key)
  {
    if xs != [] {
      var n := |xs| - 1;
      var front := Sort(xs[..n], key);
      SortDistinct(xs[..n], key);
      SortPermutes(xs[..n], key);
      forall i | 0 <= i < |front| ensures key(front[i]) != key(xs[n]) {
        assert front[i] in multiset(front);
        assert front[i] in xs[..n];
      }
      InsertDistinct(front, xs[n], key);
    }
  }

  lemma {:induction false} SortOfSorted<T>(s: seq<T>, key: T -> Key)
    requires Sorted(s, key)
    ensures Sort(s, key) == s
  {
    if s != [] {
      SortOfSorted(s[..|s|-1], key);
      assert s == s[..|s|-1] + [s[|s|-1]];
    }
  }
}
