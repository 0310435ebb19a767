/**
 * The list-building shapes the program uses over and over: a comprehension
 * that concatenates per-item lists, a filtered comprehension, and the list of
 * per-item answers of a pass.
 */
module Folds {

  /** Concatenation is associative; stated once so that proofs can cite it instead of rediscovering it. */
  lemma ConcatAssoc<T>(a: seq<T>, b: seq<T>, c: seq<T>)
    ensures a + (b + c) == (a + b) + c
  {
  }

  /** `[y for x in s for y in f(x)]`. */
  function Flatten<T, U>(s: seq<T>, f: T -> seq<U>): (r: seq<U>)
    ensures s == [] ==> r == []
  {
    if s == [] then [] else Flatten(s[..|s| - 1], f) + f(s[|s| - 1])
  }

  lemma FlattenStep<T, U>(s: seq<T>, x: T, f: T -> seq<U>)
    ensures Flatten(s + [x], f) == Flatten(s, f) + f(x)
  {
    assert (s + [x])[..|s|] == s;
  }

  /** An element is collected exactly when it belongs to the contribution of some element of `s`. */
  lemma {:induction false} FlattenMembership<T, U>(s: seq<T>, f: T -> seq<U>, y: U)
    ensures y in Flatten(s, f) <==> exists i :: 0 <= i < |s| && y in f(s[i])
  {
    if s != [] {
      var init, last := s[..|s| - 1], s[|s| - 1];
      FlattenMembership(init, f, y);
      assert Flatten(s, f) == Flatten(init, f) + f(last);
      if y in Flatten(init, f) {
        var i :| 0 <= i < |init| && y in f(init[i]);
        assert s[i] == init[i];
      } else if y !in f(last) {
        forall i | 0 <= i < |s| ensures y !in f(s[i]) {
          if i < |init| {
            assert init[i] == s[i];
          }
        }
      }
    }
  }

  /** No element occurs twice. */
  ghost predicate Distinct<T>(s: seq<T>) {
    forall i, j :: 0 <= i < j < |s| ==> s[i] != s[j]
  }

  /** Appending an element not yet present keeps the elements distinct. */
  lemma AppendNew<T>(s: seq<T>, x: T)
    requires Distinct(s) && x !in s
    ensures Distinct(s + [x])
  {
    var r := s + [x];
    forall i, j | 0 <= i < j < |r| ensures r[i] != r[j] {
      assert r[i] == s[i];
      if j == |s| {
        assert r[i] in s;
      } else {
        assert r[j] == s[j];
      }
    }
  }

  /** `[f(x) for x in s if p(x)]`. */
  function Keep<T, U>(s: seq<T>, p: T -> bool, f: T -> U): (r: seq<U>)
    ensures |r| <= |s|
  {
    if s == [] then [] else Keep(s[..|s| - 1], p, f) + (if p(s[|s| - 1]) then [f(s[|s| - 1])] else [])
  }

  lemma KeepStep<T, U>(s: seq<T>, x: T, p: T -> bool, f: T -> U)
    ensures Keep(s + [x], p, f) == Keep(s, p, f) + (if p(x) then [f(x)] else [])
  {
    assert (s + [x])[..|s|] == s;
  }

  /** Filtering a concatenation filters each part. */
  lemma {:induction false} KeepAppend<T, U>(a: seq<T>, b: seq<T>, p: T -> bool, f: T -> U)
    ensures Keep(a + b, p, f) == Keep(a, p, f) + Keep(b, p, f)
    decreases |b|
  {
    if b == [] {
      assert a + b == a;
    } else {
      var init, last := b[..|b| - 1], b[|b| - 1];
      var tail := if p(last) then [f(last)] else [];
      assert a + b == (a + init) + [last];
      assert b == init + [last];
      KeepStep(a + init, last, p, f);
      KeepStep(init, last, p, f);
      KeepAppend(a, init, p, f);
      assert (Keep(a, p, f) + Keep(init, p, f)) + tail == Keep(a, p, f) + (Keep(init, p, f) + tail);
    }
  }

  /** Every element that passes the filter contributes its image. */
  lemma {:induction false} KeepMember<T, U>(s: seq<T>, p: T -> bool, f: T -> U, i: nat)
    requires i < |s| && p(s[i])
    ensures f(s[i]) in Keep(s, p, f)
  {
    var init, last := s[..|s| - 1], s[|s| - 1];
    var tail := if p(last) then [f(last)] else [];
    assert Keep(s, p, f) == Keep(init, p, f) + tail;
    if i < |init| {
      assert init[i] == s[i];
      KeepMember(init, p, f, i);
    } else {
      assert f(s[i]) in tail;
    }
  }

  /** Every element of the result is the image of an element that passes the filter. */
  lemma {:induction false} KeepSource<T, U>(s: seq<T>, p: T -> bool, f: T -> U, y: U)
    requires y in Keep(s, p, f)
    ensures exists i :: 0 <= i < |s| && p(s[i]) && y == f(s[i])
  {
    var init, last := s[..|s| - 1], s[|s| - 1];
    var tail := if p(last) then [f(last)] else [];
    assert Keep(s, p, f) == Keep(init, p, f) + tail;
    if y in Keep(init, p, f) {
      KeepSource(init, p, f, y);
      var i :| 0 <= i < |init| && p(init[i]) && y == f(init[i]);
      assert s[i] == init[i];
    } else {
      assert p(s[|s| - 1]) && y == f(s[|s| - 1]);
    }
  }

  /** The per-item answers of a pass over `items`: `[ok(x) for x in items]`. */
  function Outcomes<T>(items: seq<T>, ok: T -> bool): (r: seq<bool>)
    ensures |r| == |items|
  {
    if items == [] then [] else Outcomes(items[..|items| - 1], ok) + [ok(items[|items| - 1])]
  }

  lemma OutcomesStep<T>(items: seq<T>, x: T, ok: T -> bool)
    ensures Outcomes(items + [x], ok) == Outcomes(items, ok) + [ok(x)]
  {
    assert (items + [x])[..|items|] == items;
  }

  /** Answer i is the answer for item i. */
  lemma {:induction false} OutcomesAt<T>(items: seq<T>, ok: T -> bool, i: nat)
    requires i < |items|
    ensures Outcomes(items, ok)[i] == ok(items[i])
  {
    var init := items[..|items| - 1];
    if i < |init| {
      assert init[i] == items[i];
      OutcomesAt(init, ok, i);
    }
  }
}
