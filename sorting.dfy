/**
 * Python's `sorted(xs, key=...)` for keys that are tuples of strings. Tuples
 * and strings compare lexicographically (strings by code point, a proper
 * prefix first), and the sort is stable, so the result is the one ordering
 * of the input that is sorted by key and keeps equal-key items in their
 * input order. It is written here as an insertion sort.
 */
module Sorting {

  /** `a < b` on Python strings. */
  predicate StrLess(a: string, b: string)
    decreases |a|
  {
    if |a| == 0 then |b| > 0
    else if |b| == 0 then false
    else if a[0] != b[0] then a[0] < b[0]
    else StrLess(a[1..], b[1..])
  }

  /** `a < b` on Python tuples of strings. */
  predicate KeyLess(a: seq<string>, b: seq<string>)
    decreases |a|
  {
    if |a| == 0 then |b| > 0
    else if |b| == 0 then false
    else if a[0] != b[0] then StrLess(a[0], b[0])
    else KeyLess(a[1..], b[1..])
  }

  lemma {:induction false} StrLessIrreflexive(a: string)
    ensures !StrLess(a, a)
    decreases |a|
  {
    if |a| > 0 {
      StrLessIrreflexive(a[1..]);
    }
  }

  lemma {:induction false} StrLessTransitive(a: string, b: string, c: string)
    requires StrLess(a, b) && StrLess(b, c)
    ensures StrLess(a, c)
    decreases |a|
  {
    if |a| > 0 && a[0] == b[0] && b[0] == c[0] {
      StrLessTransitive(a[1..], b[1..], c[1..]);
    }
  }

  lemma {:induction false} StrLessTotal(a: string, b: string)
    ensures a == b || StrLess(a, b) || StrLess(b, a)
    decreases |a|
  {
    if |a| > 0 && |b| > 0 && a[0] == b[0] {
      StrLessTotal(a[1..], b[1..]);
      if a[1..] == b[1..] {
        assert a == [a[0]] + a[1..] && b == [b[0]] + b[1..];
      }
    }
  }

  lemma {:induction false} KeyLessIrreflexive(a: seq<string>)
    ensures !KeyLess(a, a)
    decreases |a|
  {
    if |a| > 0 {
      KeyLessIrreflexive(a[1..]);
    }
  }

  lemma {:induction false} KeyLessTransitive(a: seq<string>, b: seq<string>, c: seq<string>)
    requires KeyLess(a, b) && KeyLess(b, c)
    ensures KeyLess(a, c)
    decreases |a|
  {
    if |a| > 0 && |b| > 0 && |c| > 0 {
      if a[0] == b[0] && b[0] == c[0] {
        KeyLessTransitive(a[1..], b[1..], c[1..]);
      } else if a[0] != b[0] && b[0] != c[0] {
        StrLessTransitive(a[0], b[0], c[0]);
        if a[0] == c[0] {
          StrLessIrreflexive(a[0]);
          StrLessTransitive(c[0], b[0], c[0]);
        }
      }
    }
  }

  lemma {:induction false} KeyLessTotal(a: seq<string>, b: seq<string>)
    ensures a == b || KeyLess(a, b) || KeyLess(b, a)
    decreases |a|
  {
    if |a| > 0 && |b| > 0 {
      if a[0] == b[0] {
        KeyLessTotal(a[1..], b[1..]);
        if a[1..] == b[1..] {
          assert a == [a[0]] + a[1..] && b == [b[0]] + b[1..];
        }
      } else {
        StrLessTotal(a[0], b[0]);
      }
    }
  }

  /** `key(x) <= key(y)` */
  predicate KeyLe<T>(key: T -> seq<string>, x: T, y: T) {
    !KeyLess(key(y), key(x))
  }

  lemma KeyLeTransitive<T>(key: T -> seq<string>, x: T, y: T, z: T)
    requires KeyLe(key, x, y) && KeyLe(key, y, z)
    ensures KeyLe(key, x, z)
  {
    KeyLessTotal(key(x), key(y));
    KeyLessTotal(key(y), key(z));
    if KeyLess(key(z), key(x)) {
      if key(x) == key(y) {
      } else {
        KeyLessTransitive(key(z), key(x), key(y));
      }
    }
  }

  predicate Sorted<T>(xs: seq<T>, key: T -> seq<string>) {
    forall i, j :: 0 <= i < j < |xs| ==> KeyLe(key, xs[i], xs[j])
  }

  /** The items of `xs` whose key is `k`, in order. */
  function WithKey<T>(xs: seq<T>, key: T -> seq<string>, k: seq<string>): seq<T> {
    if |xs| == 0 then []
    else (if key(xs[0]) == k then [xs[0]] else []) + WithKey(xs[1..], key, k)
  }

  /** `x` placed before the first item whose key is not smaller than its own. */
  function Insert<T>(x: T, ys: seq<T>, key: T -> seq<string>): (r: seq<T>)
    ensures |r| == |ys| + 1 && multiset(r) == multiset(ys) + multiset{x}
  {
    if |ys| == 0 then [x]
    else if KeyLess(key(ys[0]), key(x)) then
      assert ys == [ys[0]] + ys[1..];
      [ys[0]] + Insert(x, ys[1..], key)
    else [x] + ys
  }

  /** `sorted(xs, key=key)` */
  function SortBy<T>(xs: seq<T>, key: T -> seq<string>): (r: seq<T>)
    ensures |r| == |xs| && multiset(r) == multiset(xs)
  {
    if |xs| == 0 then []
    else
      assert xs == [xs[0]] + xs[1..];
      Insert(xs[0], SortBy(xs[1..], key), key)
  }

  lemma {:induction false} InsertSorted<T>(x: T, ys: seq<T>, key: T -> seq<string>)
    requires Sorted(ys, key)
    ensures Sorted(Insert(x, ys, key), key)
    decreases |ys|
  {
    if |ys| > 0 {
      var r := Insert(x, ys, key);
      if KeyLess(key(ys[0]), key(x)) {
        var rest := Insert(x, ys[1..], key);
        InsertSorted(x, ys[1..], key);
        assert r == [ys[0]] + rest;
        forall j | 0 < j < |r|
          ensures KeyLe(key, ys[0], r[j])
        {
          assert r[j] == rest[j - 1];
          assert r[j] in multiset(rest);
          assert r[j] in multiset(ys[1..]) + multiset{x};
          if r[j] == x {
            if KeyLess(key(x), key(ys[0])) {
              KeyLessTransitive(key(ys[0]), key(x), key(ys[0]));
              KeyLessIrreflexive(key(ys[0]));
            }
          } else {
            assert r[j] in ys[1..];
            var m :| 0 <= m < |ys[1..]| && ys[1..][m] == r[j];
            assert ys[1 + m] == r[j];
          }
        }
      } else {
        assert r == [x] + ys;
        forall j | 0 < j < |r|
          ensures KeyLe(key, x, r[j])
        {
          assert r[j] == ys[j - 1];
          if j > 1 {
            KeyLeTransitive(key, x, ys[0], ys[j - 1]);
          }
        }
      }
    }
  }

  /** The result of `sorted` is in key order. */
  lemma {:induction false} SortBySorted<T>(xs: seq<T>, key: T -> seq<string>)
    ensures Sorted(SortBy(xs, key), key)
    decreases |xs|
  {
    if |xs| > 0 {
      SortBySorted(xs[1..], key);
      InsertSorted(xs[0], SortBy(xs[1..], key), key);
    }
  }

  lemma WithKeyCons<T>(x: T, ys: seq<T>, key: T -> seq<string>, k: seq<string>)
    ensures WithKey([x] + ys, key, k) == (if key(x) == k then [x] else []) + WithKey(ys, key, k)
  {
    assert ([x] + ys)[1..] == ys;
  }

  lemma {:induction false} InsertWithKey<T>(x: T, ys: seq<T>, key: T -> seq<string>, k: seq<string>)
    ensures WithKey(Insert(x, ys, key), key, k) == (if key(x) == k then [x] else []) + WithKey(ys, key, k)
    decreases |ys|
  {
    if |ys| == 0 {
      WithKeyCons(x, ys, key, k);
    } else if KeyLess(key(ys[0]), key(x)) {
      InsertWithKey(x, ys[1..], key, k);
      InsertWithKeyPast(x, ys, key, k);
    } else {
      WithKeyCons(x, ys, key, k);
    }
  }

  /** Inserting past the head of `ys`: the head cannot share `x`'s key. */
  lemma {:induction false} InsertWithKeyPast<T>(x: T, ys: seq<T>, key: T -> seq<string>, k: seq<string>)
    requires |ys| > 0 && KeyLess(key(ys[0]), key(x))
    requires WithKey(Insert(x, ys[1..], key), key, k) == (if key(x) == k then [x] else []) + WithKey(ys[1..], key, k)
    ensures WithKey(Insert(x, ys, key), key, k) == (if key(x) == k then [x] else []) + WithKey(ys, key, k)
  {
    var rest := Insert(x, ys[1..], key);
    assert Insert(x, ys, key) == [ys[0]] + rest;
    WithKeyCons(ys[0], rest, key, k);
    assert [ys[0]] + ys[1..] == ys;
    WithKeyCons(ys[0], ys[1..], key, k);
    if key(x) == k && key(ys[0]) == k {
      KeyLessIrreflexive(k);
    }
    SwapHeads(if key(ys[0]) == k then [ys[0]] else [], if key(x) == k then [x] else [], WithKey(ys[1..], key, k));
  }

  lemma SwapHeads<T>(head: seq<T>, mine: seq<T>, tail: seq<T>)
    requires head == [] || mine == []
    ensures head + (mine + tail) == mine + (head + tail)
  {
  }

  /** `sorted` is stable: the items with any one key come out in the order
      they went in. */
  lemma {:induction false} SortByStable<T>(xs: seq<T>, key: T -> seq<string>, k: seq<string>)
    ensures WithKey(SortBy(xs, key), key, k) == WithKey(xs, key, k)
    decreases |xs|
  {
    if |xs| > 0 {
      SortByStable(xs[1..], key, k);
      InsertWithKey(xs[0], SortBy(xs[1..], key), key, k);
    }
  }

  /** Sorting a list that is already in key order leaves it as it is. */
  lemma {:induction false} SortBySortedInput<T>(xs: seq<T>, key: T -> seq<string>)
    requires Sorted(xs, key)
    ensures SortBy(xs, key) == xs
    decreases |xs|
  {
    if |xs| > 0 {
      assert Sorted(xs[1..], key) by {
        forall i, j | 0 <= i < j < |xs[1..]|
          ensures KeyLe(key, xs[1..][i], xs[1..][j])
        {
          assert xs[1..][i] == xs[i + 1] && xs[1..][j] == xs[j + 1];
        }
      }
      SortBySortedInput(xs[1..], key);
      if |xs| > 1 {
        assert xs[1..][0] == xs[1];
        assert KeyLe(key, xs[0], xs[1]);
      }
      assert xs == [xs[0]] + xs[1..];
    }
  }

  /** Sorting twice is sorting once. */
  lemma SortByIdempotent<T>(xs: seq<T>, key: T -> seq<string>)
    ensures SortBy(SortBy(xs, key), key) == SortBy(xs, key)
  {
    SortBySorted(xs, key);
    SortBySortedInput(SortBy(xs, key), key);
  }
}
