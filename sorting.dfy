/**
 * The two orders the tool writes things in: Python's stable sorted(..., reverse=True) by a
 * numeric key (the region menu, the proxy list), and sorted() of a set of strings (the
 * saved proxy files), where strings compare code point by code point.
 */
module Sorting {

  // ---------------------------------------------------------------- stable sort by a descending key

  /** Elements whose key is not below the key of any later element. */
  predicate Descending<T>(s: seq<T>, key: T -> real) {
    forall i, j :: 0 <= i < j < |s| ==> key(s[i]) >= key(s[j])
  }

  /**
   * Puts `x`, which preceded every element of `s` in the input, in front of the first element
   * whose key does not exceed its own, so that it stays before the elements equal to it.
   */
  function InsertDesc<T>(x: T, s: seq<T>, key: T -> real): (r: seq<T>)
    ensures |r| == |s| + 1
  {
    if s == [] || key(s[0]) <= key(x) then [x] + s
    else [s[0]] + InsertDesc(x, s[1..], key)
  }

  /** Inserting adds exactly the one element. */
  lemma {:induction false} InsertDescPerm<T>(x: T, s: seq<T>, key: T -> real)
    ensures multiset(InsertDesc(x, s, key)) == multiset(s) + multiset{x}
  {
    if s != [] && key(s[0]) > key(x) {
      InsertDescPerm(x, s[1..], key);
      assert s == [s[0]] + s[1..];
    }
  }

  /** Python's sorted(xs, key=key, reverse=True), which is stable. */
  function SortDesc<T>(xs: seq<T>, key: T -> real): (r: seq<T>)
    ensures multiset(r) == multiset(xs)
    ensures |r| == |xs|
  {
    if xs == [] then []
    else
      assert xs == [xs[0]] + xs[1..];
      InsertDescPerm(xs[0], SortDesc(xs[1..], key), key);
      InsertDesc(xs[0], SortDesc(xs[1..], key), key)
  }

  /** `y` itself when its key is `c`, otherwise nothing. */
  function Part<T>(y: T, key: T -> real, c: real): seq<T> {
    if key(y) == c then [y] else []
  }

  /** The elements with key `c`, in order. */
  function WithKey<T>(s: seq<T>, key: T -> real, c: real): seq<T> {
    if s == [] then [] else Part(s[0], key, c) + WithKey(s[1..], key, c)
  }

  /** Every key of `s` is at most `b`. */
  predicate KeysAtMost<T>(s: seq<T>, key: T -> real, b: real) {
    forall i :: 0 <= i < |s| ==> key(s[i]) <= b
  }

  lemma {:induction false} InsertKeepsBound<T>(x: T, s: seq<T>, key: T -> real, b: real)
    requires KeysAtMost(s, key, b) && key(x) <= b
    ensures KeysAtMost(InsertDesc(x, s, key), key, b)
  {
    if s != [] && key(s[0]) > key(x) {
      InsertKeepsBound(x, s[1..], key, b);
      var t := InsertDesc(x, s[1..], key);
      assert InsertDesc(x, s, key) == [s[0]] + t;
      assert forall i :: 0 < i <= |t| ==> ([s[0]] + t)[i] == t[i - 1];
    }
  }

  /** A sequence headed by `y` is descending when its tail is and bounded by `y`'s key. */
  lemma DescendingCons<T>(y: T, t: seq<T>, key: T -> real)
    requires Descending(t, key) && KeysAtMost(t, key, key(y))
    ensures Descending([y] + t, key)
  {
    assert forall i :: 0 < i <= |t| ==> ([y] + t)[i] == t[i - 1];
  }

  lemma {:induction false} InsertKeepsDescending<T>(x: T, s: seq<T>, key: T -> real)
    requires Descending(s, key)
    ensures Descending(InsertDesc(x, s, key), key)
  {
    if s == [] || key(s[0]) <= key(x) {
      assert forall i :: 0 <= i < |s| ==> key(s[i]) <= key(x) by {
        forall i | 0 <= i < |s| ensures key(s[i]) <= key(x) {
          if i > 0 {
            assert key(s[0]) >= key(s[i]);
          }
        }
      }
      DescendingCons(x, s, key);
    } else {
      var rest := s[1..];
      assert Descending(rest, key) && KeysAtMost(rest, key, key(s[0])) by {
        assert forall i :: 0 <= i < |rest| ==> rest[i] == s[i + 1];
      }
      InsertKeepsDescending(x, rest, key);
      InsertKeepsBound(x, rest, key, key(s[0]));
      DescendingCons(s[0], InsertDesc(x, rest, key), key);
    }
  }

  /** The result of the sort is in descending key order. */
  lemma {:induction false} SortDescIsDescending<T>(xs: seq<T>, key: T -> real)
    ensures Descending(SortDesc(xs, key), key)
  {
    if xs != [] {
      SortDescIsDescending(xs[1..], key);
      InsertKeepsDescending(xs[0], SortDesc(xs[1..], key), key);
    }
  }

  lemma WithKeyCons<T>(y: T, t: seq<T>, key: T -> real, c: real)
    ensures WithKey([y] + t, key, c) == Part(y, key, c) + WithKey(t, key, c)
  {
    assert ([y] + t)[1..] == t;
  }

  /** Two elements with different keys cannot both have key `c`, so their parts commute. */
  lemma PartsCommute<T>(y: T, x: T, w: seq<T>, key: T -> real, c: real)
    requires key(y) != key(x)
    ensures Part(y, key, c) + (Part(x, key, c) + w) == Part(x, key, c) + (Part(y, key, c) + w)
  {
    if key(x) == c {
      assert Part(y, key, c) == [];
    } else {
      assert Part(x, key, c) == [];
    }
  }

  lemma {:induction false} InsertWithKey<T>(x: T, s: seq<T>, key: T -> real, c: real)
    ensures WithKey(InsertDesc(x, s, key), key, c) == Part(x, key, c) + WithKey(s, key, c)
  {
    if s != [] && key(s[0]) > key(x) {
      var t := InsertDesc(x, s[1..], key);
      var w := WithKey(s[1..], key, c);
      assert InsertDesc(x, s, key) == [s[0]] + t;
      InsertWithKey(x, s[1..], key, c);
      WithKeyCons(s[0], t, key, c);
      assert [s[0]] + s[1..] == s;
      WithKeyCons(s[0], s[1..], key, c);
      PartsCommute(s[0], x, w, key, c);
    } else {
      assert InsertDesc(x, s, key) == [x] + s;
      WithKeyCons(x, s, key, c);
    }
  }

  /** Stability: the elements sharing a key keep their input order. */
  lemma {:induction false} SortDescIsStable<T>(xs: seq<T>, key: T -> real, c: real)
    ensures WithKey(SortDesc(xs, key), key, c) == WithKey(xs, key, c)
  {
    if xs != [] {
      SortDescIsStable(xs[1..], key, c);
      InsertWithKey(xs[0], SortDesc(xs[1..], key), key, c);
    }
  }

  // ---------------------------------------------------------------- sorted() of a set of strings

  /** Python's a < b on strings: code point by code point, a proper prefix first. */
  predicate Below(a: string, b: string) {
    if a == [] then b != []
    else if b == [] then false
    else if a[0] != b[0] then a[0] < b[0]
    else Below(a[1..], b[1..])
  }

  lemma {:induction false} BelowIrreflexive(a: string)
    ensures !Below(a, a)
  {
    if a != [] {
      BelowIrreflexive(a[1..]);
    }
  }

  lemma {:induction false} BelowTransitive(a: string, b: string, c: string)
    requires Below(a, b) && Below(b, c)
    ensures Below(a, c)
  {
    if a != [] && b != [] && c != [] && a[0] == b[0] && b[0] == c[0] {
      BelowTransitive(a[1..], b[1..], c[1..]);
    }
  }

  lemma {:induction false} BelowTotal(a: string, b: string)
    ensures a == b || Below(a, b) || Below(b, a)
  {
    if a != [] && b != [] && a[0] == b[0] {
      BelowTotal(a[1..], b[1..]);
      if a[1..] == b[1..] {
        assert a == [a[0]] + a[1..] && b == [b[0]] + b[1..];
      }
    }
  }

  lemma BelowAsymmetric(a: string, b: string)
    ensures !(Below(a, b) && Below(b, a))
  {
    if Below(a, b) && Below(b, a) {
      BelowTransitive(a, b, a);
      BelowIrreflexive(a);
    }
  }

  predicate Increasing(s: seq<string>) {
    forall i, j :: 0 <= i < j < |s| ==> Below(s[i], s[j])
  }

  /** Inserts `x` into an increasing sequence that lacks it. */
  function InsertSorted(x: string, s: seq<string>): (r: seq<string>)
    ensures |r| == |s| + 1
    ensures forall y :: y in r <==> y == x || y in s
  {
    if s == [] || Below(x, s[0]) then [x] + s else [s[0]] + InsertSorted(x, s[1..])
  }

  lemma {:induction false} InsertSortedIncreasing(x: string, s: seq<string>)
    requires Increasing(s) && x !in s
    ensures Increasing(InsertSorted(x, s))
  {
    if s == [] {
    } else if Below(x, s[0]) {
      forall j | 0 < j < |s| + 1
        ensures Below(x, ([x] + s)[j])
      {
        if j > 1 {
          BelowTransitive(x, s[0], s[j - 1]);
        }
      }
    } else {
      BelowTotal(x, s[0]);
      InsertSortedIncreasing(x, s[1..]);
      var t := InsertSorted(x, s[1..]);
      forall j | 0 < j < |t| + 1
        ensures Below(s[0], ([s[0]] + t)[j])
      {
        var y := t[j - 1];
        assert y in t;
        if y != x {
          assert y in s[1..];
          var k :| 0 <= k < |s[1..]| && s[1..][k] == y;
          assert s[k + 1] == y;
        }
      }
    }
  }

  /**
   * sorted(list(items)): every element once, in increasing order. The element picked at each
   * step does not matter, since an increasing listing of a set is unique (ListingUnique).
   */
  method SortedListing(items: set<string>) returns (lines: seq<string>)
    ensures Increasing(lines) && |lines| == |items|
    ensures forall y :: y in lines <==> y in items
  {
    lines := [];
    var rest := items;
    while rest != {}
      invariant Increasing(lines)
      invariant forall y :: y in lines ==> y in items && y !in rest
      invariant forall y :: y in items ==> y in lines || y in rest
      invariant rest <= items
      invariant |lines| + |rest| == |items|
      decreases |rest|
    {
      var x :| x in rest;
      InsertSortedIncreasing(x, lines);
      lines := InsertSorted(x, lines);
      rest := rest - {x};
    }
  }

  lemma {:induction false} IncreasingHead(s: seq<string>, y: string)
    requires Increasing(s) && y in s && y != s[0]
    ensures Below(s[0], y)
  {
    var k :| 0 <= k < |s| && s[k] == y;
  }

  /** Two increasing listings of the same elements are the same listing. */
  lemma {:induction false} ListingUnique(a: seq<string>, b: seq<string>)
    requires Increasing(a) && Increasing(b)
    requires forall y :: y in a <==> y in b
    ensures a == b
  {
    assert a == [] <==> b == [] by {
      if a != [] {
        assert a[0] in b;
      }
      if b != [] {
        assert b[0] in a;
      }
    }
    if a != [] {
      if a[0] != b[0] {
        IncreasingHead(a, b[0]);
        IncreasingHead(b, a[0]);
        BelowAsymmetric(a[0], b[0]);
      }
      forall y
        ensures y in a[1..] <==> y in b[1..]
      {
        assert a == [a[0]] + a[1..] && b == [b[0]] + b[1..];
        if y in a[1..] {
          var k :| 0 <= k < |a[1..]| && a[1..][k] == y;
          assert Below(a[0], a[k + 1]);
          BelowIrreflexive(y);
          assert y in b && y != b[0];
        }
        if y in b[1..] {
          var k :| 0 <= k < |b[1..]| && b[1..][k] == y;
          assert Below(b[0], b[k + 1]);
          BelowIrreflexive(y);
          assert y in a && y != a[0];
        }
      }
      ListingUnique(a[1..], b[1..]);
      assert a == [a[0]] + a[1..] && b == [b[0]] + b[1..];
    }
  }
}
