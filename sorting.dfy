/** `Array.prototype.sort` with a numeric comparator, which the stores use to order their
    listings. The ECMAScript sort is stable, so it is modelled as a stable insertion sort on
    an integer key: elements with equal keys keep their input order. */
module Sorting {

  /** Keys never decrease from left to right. */
  predicate SortedBy<T>(s: seq<T>, key: T -> int) {
    forall i, j :: 0 <= i < j < |s| ==> key(s[i]) <= key(s[j])
  }

  /** The elements of `s` whose key is `k`, in their order in `s`. */
  function WithKey<T>(s: seq<T>, key: T -> int, k: int): seq<T> {
    if s == [] then []
    else WithKey(s[..|s| - 1], key, k) + (if key(s[|s| - 1]) == k then [s[|s| - 1]] else [])
  }

  /** Places `x` after every element of `t` whose key is at most `x`'s. */
  function Insert<T>(t: seq<T>, x: T, key: T -> int): seq<T>
  {
    if t == [] || key(t[|t| - 1]) <= key(x) then t + [x]
    else Insert(t[..|t| - 1], x, key) + [t[|t| - 1]]
  }

  /** The sorted order of `s` by ascending `key`, ties in input order. */
  function SortByKey<T>(s: seq<T>, key: T -> int): seq<T>
  {
    if s == [] then [] else Insert(SortByKey(s[..|s| - 1], key), s[|s| - 1], key)
  }

  lemma {:induction false} InsertPermutes<T>(t: seq<T>, x: T, key: T -> int)
    ensures multiset(Insert(t, x, key)) == multiset(t) + multiset{x}
    decreases |t|
  {
    if t != [] && key(t[|t| - 1]) > key(x) {
      var init, last := t[..|t| - 1], t[|t| - 1];
      assert t == init + [last];
      InsertPermutes(init, x, key);
    }
  }

  lemma {:induction false} InsertSorted<T>(t: seq<T>, x: T, key: T -> int)
    requires SortedBy(t, key)
    ensures SortedBy(Insert(t, x, key), key)
    decreases |t|
  {
    if t != [] && key(t[|t| - 1]) > key(x) {
      var init, last := t[..|t| - 1], t[|t| - 1];
      InsertSorted(init, x, key);
      InsertPermutes(init, x, key);
      var r := Insert(init, x, key);
      forall i | 0 <= i < |r| ensures key(r[i]) <= key(last) {
        assert r[i] in multiset(init) + multiset{x};
        if r[i] in init {
          var j :| 0 <= j < |init| && init[j] == r[i];
          assert t[j] == init[j];
        }
      }
      var rs := r + [last];
      forall i, j | 0 <= i < j < |rs| ensures key(rs[i]) <= key(rs[j]) {
        if j < |r| {
          assert rs[i] == r[i] && rs[j] == r[j];
        } else {
          assert rs[i] == r[i];
        }
      }
    }
  }

  lemma {:induction false} InsertWithKey<T>(t: seq<T>, x: T, key: T -> int, k: int)
    requires SortedBy(t, key)
    ensures WithKey(Insert(t, x, key), key, k) == WithKey(t, key, k) + (if key(x) == k then [x] else [])
    decreases |t|
  {
    if t == [] || key(t[|t| - 1]) <= key(x) {
      assert (t + [x])[..|t|] == t;
    } else {
      var init, last := t[..|t| - 1], t[|t| - 1];
      assert SortedBy(init, key);
      InsertWithKey(init, x, key, k);
      var r := Insert(init, x, key);
      assert (r + [last])[..|r|] == r;
      assert WithKey(r + [last], key, k) == WithKey(r, key, k) + (if key(last) == k then [last] else []);
    }
  }

  /** The sort returns a permutation of its input. */
  lemma {:induction false} SortPermutes<T>(s: seq<T>, key: T -> int)
    ensures multiset(SortByKey(s, key)) == multiset(s)
  {
    if s != [] {
      var init, last := s[..|s| - 1], s[|s| - 1];
      assert s == init + [last];
      SortPermutes(init, key);
      InsertPermutes(SortByKey(init, key), last, key);
    }
  }

  /** The sort returns its input in ascending key order. */
  lemma {:induction false} SortSorted<T>(s: seq<T>, key: T -> int)
    ensures SortedBy(SortByKey(s, key), key)
  {
    if s != [] {
      SortSorted(s[..|s| - 1], key);
      InsertSorted(SortByKey(s[..|s| - 1], key), s[|s| - 1], key);
    }
  }

  /** The sort is stable: for every key, the elements carrying that key appear in the result
      in the same order as in the input. */
  lemma {:induction false} SortStable<T>(s: seq<T>, key: T -> int, k: int)
    ensures WithKey(SortByKey(s, key), key, k) == WithKey(s, key, k)
  {
    if s != [] {
      var init, last := s[..|s| - 1], s[|s| - 1];
      SortStable(init, key, k);
      SortSorted(init, key);
      InsertWithKey(SortByKey(init, key), last, key, k);
    }
  }

  /** The sort keeps the length, and an element is in the result exactly when it is in the
      input. */
  lemma SortSameElements<T>(s: seq<T>, key: T -> int)
    ensures |SortByKey(s, key)| == |s|
    ensures forall x :: x in SortByKey(s, key) <==> x in s
  {
    SortPermutes(s, key);
    var r := SortByKey(s, key);
    assert |r| == |multiset(r)| == |multiset(s)| == |s|;
    forall x ensures x in r <==> x in s {
      assert x in r <==> x in multiset(r);
      assert x in s <==> x in multiset(s);
    }
  }
}
