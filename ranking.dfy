/**
 * Ranking by size as the program does it: Python's stable
 * `list.sort(key=..., reverse=True)` followed by the slice `[:limit]`.
 */
module Ranking {

  import opened Folds

  /** Keys never increase along `s`. */
  ghost predicate NonIncreasing<T>(s: seq<T>, key: T -> int) {
    forall i, j :: 0 <= i < j < |s| ==> key(s[i]) >= key(s[j])
  }

  /** Places `x` right after every element whose key is at least `key(x)`. */
  function Insert<T>(a: seq<T>, x: T, key: T -> int): (r: seq<T>)
    ensures |r| == |a| + 1
    ensures multiset(r) == multiset(a) + multiset{x}
  {
    if a == [] then [x]
    else if key(a[0]) < key(x) then [x] + a
    else
      assert a == [a[0]] + a[1..];
      [a[0]] + Insert(a[1..], x, key)
  }

  /** A head at least as large as every element of a non-increasing tail keeps the sequence non-increasing. */
  lemma ConsSorted<T>(h: T, t: seq<T>, key: T -> int)
    requires NonIncreasing(t, key)
    requires forall y :: y in t ==> key(y) <= key(h)
    ensures NonIncreasing([h] + t, key)
  {
    var r := [h] + t;
    forall i, j | 0 <= i < j < |r| ensures key(r[i]) >= key(r[j]) {
      assert r[j] == t[j - 1];
      if i > 0 {
        assert r[i] == t[i - 1];
      } else {
        assert t[j - 1] in t;
      }
    }
  }

  /** The head of a non-increasing sequence has the largest key. */
  lemma HeadMax<T>(a: seq<T>, key: T -> int)
    requires a != [] && NonIncreasing(a, key)
    ensures forall y :: y in a ==> key(y) <= key(a[0])
  {
    forall y | y in a ensures key(y) <= key(a[0]) {
      var k :| 0 <= k < |a| && a[k] == y;
      if k > 0 {
        assert key(a[0]) >= key(a[k]);
      }
    }
  }

  /** Every element of an insertion is the inserted element or one of the old ones. */
  lemma InsertElements<T>(a: seq<T>, x: T, key: T -> int, y: T)
    requires y in Insert(a, x, key)
    ensures y == x || y in a
  {
    var r := Insert(a, x, key);
    assert y in multiset(r);
    assert y in multiset(a) + multiset{x};
  }

  /** Inserting into a non-increasing sequence keeps it non-increasing. */
  lemma {:induction false} InsertSorted<T>(a: seq<T>, x: T, key: T -> int)
    requires NonIncreasing(a, key)
    ensures NonIncreasing(Insert(a, x, key), key)
  {
    if a == [] {
      assert Insert(a, x, key) == [x];
    } else if key(a[0]) < key(x) {
      HeadMax(a, key);
      ConsSorted(x, a, key);
    } else {
      var t := a[1..];
      TailNonIncreasing(a, key);
      InsertSorted(t, x, key);
      InsertSkip(a, x, key);
      HeadMax(a, key);
      var it := Insert(t, x, key);
      forall y | y in it ensures key(y) <= key(a[0]) {
        InsertElements(t, x, key, y);
        if y != x {
          assert y in a;
        }
      }
      ConsSorted(a[0], it, key);
    }
  }

  /**
   * Python's stable descending sort: a permutation of `s` whose keys never
   * increase; equal keys keep their order (SortDescStable).
   */
  function SortDesc<T>(s: seq<T>, key: T -> int): (r: seq<T>)
    ensures |r| == |s|
    ensures multiset(r) == multiset(s)
    ensures NonIncreasing(r, key)
  {
    if s == [] then []
    else
      assert s == s[..|s| - 1] + [s[|s| - 1]];
      var init := SortDesc(s[..|s| - 1], key);
      InsertSorted(init, s[|s| - 1], key);
      Insert(init, s[|s| - 1], key)
  }

  /** The elements of `s` whose key is `v`, in their order in `s`. */
  function WithKey<T>(s: seq<T>, key: T -> int, v: int): seq<T> {
    if s == [] then [] else (if key(s[0]) == v then [s[0]] else []) + WithKey(s[1..], key, v)
  }

  lemma WithKeyCons<T>(y: T, t: seq<T>, key: T -> int, v: int)
    ensures WithKey([y] + t, key, v) == (if key(y) == v then [y] else []) + WithKey(t, key, v)
  {
    assert ([y] + t)[0] == y && ([y] + t)[1..] == t;
  }

  lemma {:induction false} WithKeyAppend<T>(a: seq<T>, b: seq<T>, key: T -> int, v: int)
    ensures WithKey(a + b, key, v) == WithKey(a, key, v) + WithKey(b, key, v)
  {
    if a == [] {
      assert a + b == b;
    } else {
      assert a + b == [a[0]] + (a[1..] + b);
      assert a == [a[0]] + a[1..];
      WithKeyCons(a[0], a[1..] + b, key, v);
      WithKeyCons(a[0], a[1..], key, v);
      WithKeyAppend(a[1..], b, key, v);
    }
  }

  lemma {:induction false} WithKeyAllSmaller<T>(a: seq<T>, key: T -> int, v: int)
    requires forall i :: 0 <= i < |a| ==> key(a[i]) < v
    ensures WithKey(a, key, v) == []
  {
    if a != [] {
      WithKeyAllSmaller(a[1..], key, v);
    }
  }

  lemma InsertFrontStable<T>(a: seq<T>, x: T, key: T -> int, v: int)
    requires NonIncreasing(a, key)
    requires a != [] && key(a[0]) < key(x)
    ensures WithKey([x] + a, key, v) == WithKey(a, key, v) + WithKey([x], key, v)
  {
    WithKeyAppend([x], a, key, v);
    if key(x) == v {
      forall i | 0 <= i < |a| ensures key(a[i]) < v {
        if i > 0 { assert key(a[0]) >= key(a[i]); }
      }
      WithKeyAllSmaller(a, key, v);
    } else {
      assert WithKey([x], key, v) == [];
    }
  }

  lemma TailNonIncreasing<T>(a: seq<T>, key: T -> int)
    requires a != [] && NonIncreasing(a, key)
    ensures NonIncreasing(a[1..], key)
  {
    var t := a[1..];
    forall i, j | 0 <= i < j < |t| ensures key(t[i]) >= key(t[j]) {
      assert t[i] == a[i + 1] && t[j] == a[j + 1];
    }
  }

  /** The step of InsertStable where `x` goes past the head. */
  lemma InsertSkipStable<T>(a: seq<T>, x: T, key: T -> int, v: int)
    requires a != [] && key(a[0]) >= key(x)
    requires WithKey(Insert(a[1..], x, key), key, v) == WithKey(a[1..], key, v) + WithKey([x], key, v)
    ensures WithKey(Insert(a, x, key), key, v) == WithKey(a, key, v) + WithKey([x], key, v)
  {
    var t := a[1..];
    var it := Insert(t, x, key);
    InsertSkip(a, x, key);
    WithKeyCons(a[0], it, key, v);
    WithKeyHead(a, key, v);
    var h := if key(a[0]) == v then [a[0]] else [];
    ConcatAssoc(h, WithKey(t, key, v), WithKey([x], key, v));
  }

  lemma InsertSkip<T>(a: seq<T>, x: T, key: T -> int)
    requires a != [] && key(a[0]) >= key(x)
    ensures Insert(a, x, key) == [a[0]] + Insert(a[1..], x, key)
  {
  }

  lemma WithKeyHead<T>(a: seq<T>, key: T -> int, v: int)
    requires a != []
    ensures WithKey(a, key, v) == (if key(a[0]) == v then [a[0]] else []) + WithKey(a[1..], key, v)
  {
  }

  lemma {:induction false} InsertStable<T>(a: seq<T>, x: T, key: T -> int, v: int)
    requires NonIncreasing(a, key)
    ensures WithKey(Insert(a, x, key), key, v) == WithKey(a, key, v) + WithKey([x], key, v)
  {
    if a == [] {
      assert WithKey(a, key, v) == [];
    } else if key(a[0]) < key(x) {
      InsertFrontStable(a, x, key, v);
    } else {
      TailNonIncreasing(a, key);
      InsertStable(a[1..], x, key, v);
      InsertSkipStable(a, x, key, v);
    }
  }

  /** Stability: for every key value, the elements with that key appear in the same order before and after sorting. */
  lemma {:induction false} SortDescStable<T>(s: seq<T>, key: T -> int, v: int)
    ensures WithKey(SortDesc(s, key), key, v) == WithKey(s, key, v)
  {
    if s != [] {
      var init, last := s[..|s| - 1], s[|s| - 1];
      assert s == init + [last];
      SortDescStable(init, key, v);
      InsertStable(SortDesc(init, key), last, key, v);
      WithKeyAppend(init, [last], key, v);
    }
  }

  /** Python's slice `s[:limit]`, negative limits counting from the end. */
  function Take<T>(s: seq<T>, limit: int): (r: seq<T>)
    ensures |r| <= |s| && r == s[..|r|]
    ensures limit >= 0 ==> |r| == if limit < |s| then limit else |s|
    ensures limit < 0 ==> |r| == if |s| + limit > 0 then |s| + limit else 0
  {
    if limit >= 0 then (if limit < |s| then s[..limit] else s)
    else if |s| + limit > 0 then s[..|s| + limit] else []
  }

  /** A prefix of a non-increasing sequence is non-increasing. */
  lemma PrefixNonIncreasing<T>(s: seq<T>, k: nat, key: T -> int)
    requires NonIncreasing(s, key) && k <= |s|
    ensures NonIncreasing(s[..k], key)
  {
    var p := s[..k];
    forall i, j | 0 <= i < j < |p| ensures key(p[i]) >= key(p[j]) {
      assert p[i] == s[i] && p[j] == s[j];
    }
  }

  lemma MultisetSplit<T>(s: seq<T>, k: nat)
    requires k <= |s|
    ensures multiset(s) == multiset(s[..k]) + multiset(s[k..])
  {
    assert s == s[..k] + s[k..];
  }

  /** In a non-increasing sequence, nothing after position `k` has a larger key than anything before it. */
  lemma PrefixDominates<T>(sorted: seq<T>, k: nat, key: T -> int)
    requires NonIncreasing(sorted, key) && k <= |sorted|
    ensures forall x, y :: x in sorted[..k] && y in multiset(sorted[k..]) ==> key(y) <= key(x)
  {
    forall x, y | x in sorted[..k] && y in multiset(sorted[k..]) ensures key(y) <= key(x) {
      var i :| 0 <= i < k && sorted[..k][i] == x;
      var j :| 0 <= j < |sorted| - k && sorted[k..][j] == y;
      assert sorted[i] == x && sorted[k + j] == y;
    }
  }

  /**
   * `items.sort(key=key, reverse=True); items[:limit]` for `limit >= 0`: at most
   * `limit` elements of `s`, keys non-increasing, and no element left out has a
   * larger key than an element kept.
   */
  function Top<T>(s: seq<T>, key: T -> int, limit: int): (r: seq<T>)
    requires limit >= 0
    ensures |r| == if limit < |s| then limit else |s|
    ensures NonIncreasing(r, key)
    ensures multiset(r) <= multiset(s)
    ensures forall x, y :: x in r && y in multiset(s) - multiset(r) ==> key(y) <= key(x)
  {
    var sorted := SortDesc(s, key);
    var r := Take(sorted, limit);
    var k := |r|;
    assert r == sorted[..k];
    PrefixNonIncreasing(sorted, k, key);
    MultisetSplit(sorted, k);
    assert multiset(s) - multiset(r) == multiset(sorted[k..]);
    PrefixDominates(sorted, k, key);
    r
  }
}
