/** `Array.prototype.sort` with a comparator of the form `(a, b) => key(a) - key(b)`.
    The language has required a stable sort since ES2019, and a stable sort's
    output is determined by the keys alone, so an insertion sort that places
    each element after every element whose key is not larger stands for it. */
module Sorting {

  ghost predicate SortedBy<T>(s: seq<T>, key: T -> int)
  {
    forall i, j :: 0 <= i < j < |s| ==> key(s[i]) <= key(s[j])
  }

  /** Places `x` into the sorted `s` after every element whose key is at most
      `key(x)`. */
  function Insert<T>(x: T, s: seq<T>, key: T -> int): seq<T>
    decreases |s|
  {
    if s == [] || key(s[|s| - 1]) <= key(x) then s + [x]
    else Insert(x, s[..|s| - 1], key) + [s[|s| - 1]]
  }

  function SortBy<T>(s: seq<T>, key: T -> int): seq<T>
    decreases |s|
  {
    if s == [] then [] else Insert(s[|s| - 1], SortBy(s[..|s| - 1], key), key)
  }

  /** The elements of `s` whose key is `k`, in their order in `s`. */
  function WithKey<T>(s: seq<T>, key: T -> int, k: int): seq<T>
    decreases |s|
  {
    if s == [] then []
    else WithKey(s[..|s| - 1], key, k) + (if key(s[|s| - 1]) == k then [s[|s| - 1]] else [])
  }

  lemma {:induction false} InsertPermutes<T>(x: T, s: seq<T>, key: T -> int)
    ensures multiset(Insert(x, s, key)) == multiset(s) + multiset{x}
    decreases |s|
  {
    if !(s == [] || key(s[|s| - 1]) <= key(x)) {
      var init := s[..|s| - 1];
      assert s == init + [s[|s| - 1]];
      InsertPermutes(x, init, key);
    }
  }

  lemma {:induction false} InsertSorted<T>(x: T, s: seq<T>, key: T -> int)
    requires SortedBy(s, key)
    ensures SortedBy(Insert(x, s, key), key)
    decreases |s|
  {
    if !(s == [] || key(s[|s| - 1]) <= key(x)) {
      var init, last := s[..|s| - 1], s[|s| - 1];
      assert s == init + [last];
      InsertSorted(x, init, key);
      InsertPermutes(x, init, key);
      var r' := Insert(x, init, key);
      forall i | 0 <= i < |r'| ensures key(r'[i]) <= key(last) {
        assert r'[i] in multiset(r');
        if r'[i] != x {
          assert r'[i] in multiset(init);
          var j :| 0 <= j < |init| && init[j] == r'[i];
          assert s[j] == init[j];
        }
      }
      assert Insert(x, s, key) == r' + [last];
    }
  }

  lemma {:induction false} InsertKeepsOrderOfEqualKeys<T>(x: T, s: seq<T>, key: T -> int, k: int)
    ensures WithKey(Insert(x, s, key), key, k) == WithKey(s, key, k) + (if key(x) == k then [x] else [])
    decreases |s|
  {
    var r := Insert(x, s, key);
    if s == [] || key(s[|s| - 1]) <= key(x) {
      assert r[..|r| - 1] == s;
    } else {
      var init, last := s[..|s| - 1], s[|s| - 1];
      InsertKeepsOrderOfEqualKeys(x, init, key, k);
      var r' := Insert(x, init, key);
      assert r == r' + [last] && r[..|r| - 1] == r';
    }
  }

  /** The sort orders by key, permutes its input, and keeps the input order
      among elements with equal keys. */
  lemma {:induction false} SortByProperties<T>(s: seq<T>, key: T -> int)
    ensures SortedBy(SortBy(s, key), key)
    ensures multiset(SortBy(s, key)) == multiset(s)
    ensures forall k :: WithKey(SortBy(s, key), key, k) == WithKey(s, key, k)
    decreases |s|
  {
    if s != [] {
      var init, last := s[..|s| - 1], s[|s| - 1];
      assert s == init + [last];
      SortByProperties(init, key);
      InsertSorted(last, SortBy(init, key), key);
      InsertPermutes(last, SortBy(init, key), key);
      forall k ensures WithKey(SortBy(s, key), key, k) == WithKey(s, key, k) {
        InsertKeepsOrderOfEqualKeys(last, SortBy(init, key), key, k);
      }
    }
  }

  /** `SortBy` does not change the length. */
  lemma SortByLength<T>(s: seq<T>, key: T -> int)
    ensures |SortBy(s, key)| == |s|
  {
    SortByProperties(s, key);
    assert |multiset(SortBy(s, key))| == |multiset(s)|;
  }

  /** A sorted sequence whose keys are only 0 and 1 is every 0-keyed element
      followed by every 1-keyed element. */
  lemma {:induction false} SortedTwoKeys<T>(s: seq<T>, key: T -> int)
    requires SortedBy(s, key)
    requires forall i :: 0 <= i < |s| ==> key(s[i]) == 0 || key(s[i]) == 1
    ensures s == WithKey(s, key, 0) + WithKey(s, key, 1)
    decreases |s|
  {
    if s != [] {
      var init, last := s[..|s| - 1], s[|s| - 1];
      assert forall i :: 0 <= i < |init| ==> init[i] == s[i];
      SortedTwoKeys(init, key);
      var w0, w1 := WithKey(init, key, 0), WithKey(init, key, 1);
      if key(last) == 0 {
        forall i | 0 <= i < |init| ensures key(init[i]) != 1 {
          assert key(s[i]) <= key(s[|s| - 1]);
        }
        NoneWithKey(init, key, 1);
        assert WithKey(s, key, 0) == w0 + [last];
        assert WithKey(s, key, 1) == w1;
        assert s == init + [last] == w0 + [last];
      } else {
        assert WithKey(s, key, 0) == w0;
        assert WithKey(s, key, 1) == w1 + [last];
        assert s == init + [last] == w0 + w1 + [last];
      }
    }
  }

  lemma {:induction false} NoneWithKey<T>(s: seq<T>, key: T -> int, k: int)
    requires forall i :: 0 <= i < |s| ==> key(s[i]) != k
    ensures WithKey(s, key, k) == []
    decreases |s|
  {
    if s != [] {
      NoneWithKey(s[..|s| - 1], key, k);
    }
  }
}
