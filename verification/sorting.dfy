/**
 * Python's `sorted(s, key=...)` and `list.sort(key=..., reverse=...)`: a
 * stable sort by an integer key. Stability pins the result down completely,
 * so one stable algorithm (insertion) stands for Timsort.
 */
module Sorting {

  /** Every pair of positions is in key order. */
  ghost predicate SortedBy<T>(s: seq<T>, key: T -> int) {
    forall i, j :: 0 <= i < j < |s| ==> key(s[i]) <= key(s[j])
  }

  /** The elements of `s` whose key is `v`, in their order in `s`. */
  function WithKey<T>(s: seq<T>, key: T -> int, v: int): seq<T> {
    if s == [] then []
    else WithKey(s[..|s| - 1], key, v) + (if key(s[|s| - 1]) == v then [s[|s| - 1]] else [])
  }

  /** Places `x` after every element of `t` whose key is at most `key(x)`. */
  function InsertByKey<T>(t: seq<T>, x: T, key: T -> int): (r: seq<T>)
    ensures multiset(r) == multiset(t) + multiset{x} && |r| == |t| + 1
    decreases |t|
  {
    if t == [] || key(t[|t| - 1]) <= key(x) then t + [x]
    else
      assert t == t[..|t| - 1] + [t[|t| - 1]];
      InsertByKey(t[..|t| - 1], x, key) + [t[|t| - 1]]
  }

  /** `sorted(s, key=key)`. */
  function SortBy<T>(s: seq<T>, key: T -> int): (r: seq<T>)
    ensures multiset(r) == multiset(s) && |r| == |s|
  {
    if s == [] then []
    else
      assert s == s[..|s| - 1] + [s[|s| - 1]];
      InsertByKey(SortBy(s[..|s| - 1], key), s[|s| - 1], key)
  }

  /** `sorted(s, key=key, reverse=True)`: Python keeps equal keys in input order. */
  function SortByDesc<T>(s: seq<T>, key: T -> int): (r: seq<T>)
    ensures multiset(r) == multiset(s) && |r| == |s|
  {
    SortBy(s, x => -key(x))
  }

  function Reverse<T>(s: seq<T>): (r: seq<T>)
    ensures |r| == |s|
    ensures forall i :: 0 <= i < |s| ==> r[i] == s[|s| - 1 - i]
  {
    seq(|s|, i requires 0 <= i < |s| => s[|s| - 1 - i])
  }

  lemma {:induction false} InsertKeepsOrder<T>(t: seq<T>, x: T, key: T -> int)
    requires SortedBy(t, key)
    ensures SortedBy(InsertByKey(t, x, key), key)
    decreases |t|
  {
    if t != [] && key(t[|t| - 1]) > key(x) {
      var init := t[..|t| - 1];
      InsertKeepsOrder(init, x, key);
      var u := InsertByKey(init, x, key);
      assert multiset(u) == multiset(init) + multiset{x};
      forall i | 0 <= i < |u| ensures key(u[i]) <= key(t[|t| - 1]) {
        assert u[i] in multiset(u);
        if u[i] != x {
          assert u[i] in multiset(init);
          var k :| 0 <= k < |init| && init[k] == u[i];
          assert t[k] == u[i];
        }
      }
    }
  }

  /** The result of `sorted` is in ascending key order. */
  lemma {:induction false} SortBySorted<T>(s: seq<T>, key: T -> int)
    ensures SortedBy(SortBy(s, key), key)
    decreases |s|
  {
    if s != [] {
      SortBySorted(s[..|s| - 1], key);
      InsertKeepsOrder(SortBy(s[..|s| - 1], key), s[|s| - 1], key);
    }
  }

  lemma {:induction false} WithKeyAppend<T>(a: seq<T>, b: seq<T>, key: T -> int, v: int)
    ensures WithKey(a + b, key, v) == WithKey(a, key, v) + WithKey(b, key, v)
    decreases |b|
  {
    if b == [] {
      assert a + b == a;
    } else {
      assert (a + b)[..|a + b| - 1] == a + b[..|b| - 1];
      WithKeyAppend(a, b[..|b| - 1], key, v);
    }
  }

  lemma {:induction false} InsertStable<T>(t: seq<T>, x: T, key: T -> int, v: int)
    ensures WithKey(InsertByKey(t, x, key), key, v)
         == WithKey(t, key, v) + (if key(x) == v then [x] else [])
    decreases |t|
  {
    if t == [] || key(t[|t| - 1]) <= key(x) {
      WithKeyAppend(t, [x], key, v);
      assert WithKey([x], key, v) == WithKey([], key, v) + (if key(x) == v then [x] else []);
    } else {
      var init, last := t[..|t| - 1], t[|t| - 1];
      InsertStable(init, x, key, v);
      WithKeyAppend(InsertByKey(init, x, key), [last], key, v);
      assert WithKey([last], key, v) == WithKey([], key, v) + (if key(last) == v then [last] else []);
    }
  }

  /** `sorted` is stable: the elements sharing one key keep their input order. */
  lemma {:induction false} SortByStable<T>(s: seq<T>, key: T -> int, v: int)
    ensures WithKey(SortBy(s, key), key, v) == WithKey(s, key, v)
    decreases |s|
  {
    if s != [] {
      SortByStable(s[..|s| - 1], key, v);
      InsertStable(SortBy(s[..|s| - 1], key), s[|s| - 1], key, v);
    }
  }

  /** The result of `sorted(..., reverse=True)` is in descending key order. */
  lemma SortByDescSorted<T>(s: seq<T>, key: T -> int)
    ensures forall i, j :: 0 <= i < j < |SortByDesc(s, key)| ==>
              key(SortByDesc(s, key)[i]) >= key(SortByDesc(s, key)[j])
  {
    SortBySorted(s, x => -key(x));
  }

  lemma {:induction false} InsertBeforeAll<T>(t: seq<T>, x: T, key: T -> int)
    requires forall i :: 0 <= i < |t| ==> key(t[i]) > key(x)
    ensures InsertByKey(t, x, key) == [x] + t
    decreases |t|
  {
    if t != [] {
      InsertBeforeAll(t[..|t| - 1], x, key);
      assert [x] + t[..|t| - 1] + [t[|t| - 1]] == [x] + t;
    }
  }

  /** Keys that never drop from one element to the next are in key order. */
  lemma {:induction false} AdjacentSorted<T>(s: seq<T>, key: T -> int)
    requires forall i :: 0 < i < |s| ==> key(s[i - 1]) <= key(s[i])
    ensures SortedBy(s, key)
    decreases |s|
  {
    if s != [] {
      var init := s[..|s| - 1];
      AdjacentSorted(init, key);
      forall i, j | 0 <= i < j < |s| ensures key(s[i]) <= key(s[j]) {
        if j == |s| - 1 && i < j - 1 {
          assert key(init[i]) <= key(init[j - 1]);
        } else if j < |s| - 1 {
          assert key(init[i]) <= key(init[j]);
        }
      }
    }
  }

  /** Sorting a sequence already in key order leaves it as it is. */
  lemma {:induction false} SortSortedUnchanged<T>(s: seq<T>, key: T -> int)
    requires SortedBy(s, key)
    ensures SortBy(s, key) == s
    decreases |s|
  {
    if s != [] {
      var init, x := s[..|s| - 1], s[|s| - 1];
      assert SortedBy(init, key) by {
        forall i, j | 0 <= i < j < |init| ensures key(init[i]) <= key(init[j]) {
          assert init[i] == s[i] && init[j] == s[j];
        }
      }
      SortSortedUnchanged(init, key);
      assert s == init + [x];
      assert init == [] || key(init[|init| - 1]) <= key(x) by {
        if init != [] {
          assert init[|init| - 1] == s[|s| - 2];
        }
      }
      assert InsertByKey(init, x, key) == init + [x];
    }
  }

  /** Sorting a sequence whose keys strictly decrease reverses it. */
  lemma {:induction false} SortStrictlyDecreasing<T>(s: seq<T>, key: T -> int)
    requires forall i, j :: 0 <= i < j < |s| ==> key(s[i]) > key(s[j])
    ensures SortBy(s, key) == Reverse(s)
    decreases |s|
  {
    if s != [] {
      var init := s[..|s| - 1];
      SortStrictlyDecreasing(init, key);
      InsertBeforeAll(Reverse(init), s[|s| - 1], key);
      assert Reverse(s) == [s[|s| - 1]] + Reverse(init);
    }
  }

  /** Sorting descending a sequence whose keys strictly increase reverses it. */
  lemma SortDescStrictlyIncreasing<T>(s: seq<T>, key: T -> int)
    requires forall i, j :: 0 <= i < j < |s| ==> key(s[i]) < key(s[j])
    ensures SortByDesc(s, key) == Reverse(s)
  {
    SortStrictlyDecreasing(s, x => -key(x));
  }
}
