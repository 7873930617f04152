/** The store's `SUM`, `COUNT`, `WHERE` and `GROUP BY`, over sequences of rows. */
module Aggregates {
  import opened Sorting

  /** `SUM(f(x))` over the rows of `s`; 0 for no rows. */
  function SumOf<T>(s: seq<T>, f: T -> int): int
  {
    if s == [] then 0 else SumOf(s[..|s| - 1], f) + f(s[|s| - 1])
  }

  /** The rows of `s` that satisfy `p`, in table order. */
  function Filter<T(!new)>(s: seq<T>, p: T -> bool): (r: seq<T>)
    ensures forall x :: x in r <==> x in s && p(x)
    ensures |r| <= |s|
  {
    if s == [] then []
    else Filter(s[..|s| - 1], p) + (if p(s[|s| - 1]) then [s[|s| - 1]] else [])
  }

  lemma {:induction false} SumOfAppend<T>(a: seq<T>, b: seq<T>, f: T -> int)
    ensures SumOf(a + b, f) == SumOf(a, f) + SumOf(b, f)
  {
    if b != [] {
      assert (a + b)[..|a + b| - 1] == a + b[..|b| - 1];
      SumOfAppend(a, b[..|b| - 1], f);
    } else {
      assert a + b == a;
    }
  }

  lemma SumOfCons<T>(x: T, s: seq<T>, f: T -> int)
    ensures SumOf([x] + s, f) == f(x) + SumOf(s, f)
  {
    SumOfAppend([x], s, f);
    assert [x][..0] == [];
  }

  lemma {:induction false} InsertKeepsSum<T>(x: T, s: seq<T>, before: (T, T) -> bool, f: T -> int)
    ensures SumOf(Insert(x, s, before), f) == f(x) + SumOf(s, f)
  {
    if s == [] {
      assert [x][..0] == [];
    } else if before(x, s[0]) {
      SumOfCons(x, s, f);
    } else {
      InsertKeepsSum(x, s[1..], before, f);
      SumOfCons(s[0], Insert(x, s[1..], before), f);
      SumOfCons(s[0], s[1..], f);
      assert [s[0]] + s[1..] == s;
    }
  }

  /** Ordering rows does not change any sum over them. */
  lemma {:induction false} SortKeepsSum<T>(s: seq<T>, before: (T, T) -> bool, f: T -> int)
    ensures SumOf(Sort(s, before), f) == SumOf(s, f)
  {
    if s != [] {
      SortKeepsSum(s[1..], before, f);
      InsertKeepsSum(s[0], Sort(s[1..], before), before, f);
      SumOfCons(s[0], s[1..], f);
      assert [s[0]] + s[1..] == s;
    }
  }

  /** `SUM(CASE WHEN p THEN f ELSE 0 END)` equals `SUM(f)` over the rows satisfying `p`. */
  lemma {:induction false} SumOfMasked<T(!new)>(s: seq<T>, p: T -> bool, f: T -> int, masked: T -> int)
    requires forall x :: masked(x) == (if p(x) then f(x) else 0)
    ensures SumOf(s, masked) == SumOf(Filter(s, p), f)
  {
    if s != [] {
      var init, last := s[..|s| - 1], s[|s| - 1];
      SumOfMasked(init, p, f, masked);
      SumOfAppend(Filter(init, p), if p(last) then [last] else [], f);
      assert [last][..0] == [];
    }
  }

  /** A sum of pointwise sums is the sum of the two sums. */
  lemma {:induction false} SumOfAdd<T(!new)>(s: seq<T>, f: T -> int, g: T -> int, h: T -> int)
    requires forall x :: h(x) == f(x) + g(x)
    ensures SumOf(s, h) == SumOf(s, f) + SumOf(s, g)
  {
    if s != [] {
      SumOfAdd(s[..|s| - 1], f, g, h);
    }
  }

  ghost predicate Distinct<K>(ks: seq<K>)
  {
    forall i, j :: 0 <= i < j < |ks| ==> ks[i] != ks[j]
  }

  /** The groups of `GROUP BY key`: each key of a row once, in order of first appearance. */
  function Keys<T(!new), K(==)>(s: seq<T>, key: T -> K): (ks: seq<K>)
    ensures Distinct(ks)
    ensures forall x :: x in s ==> key(x) in ks
    ensures forall k :: k in ks ==> exists i :: 0 <= i < |s| && key(s[i]) == k
  {
    if s == [] then []
    else
      var init, last := s[..|s| - 1], s[|s| - 1];
      assert s == init + [last];
      var ks0 := Keys(init, key);
      if key(last) in ks0 then ks0 else ks0 + [key(last)]
  }

  /** `SUM(f)` within the group of key `k`. */
  function SumOn<T, K(==)>(s: seq<T>, key: T -> K, f: T -> int, k: K): int
  {
    if s == [] then 0
    else SumOn(s[..|s| - 1], key, f, k) + (if key(s[|s| - 1]) == k then f(s[|s| - 1]) else 0)
  }

  /** The sum of the group sums of the keys `ks`. */
  function SumOver<T, K(==)>(s: seq<T>, key: T -> K, f: T -> int, ks: seq<K>): int
  {
    if ks == [] then 0
    else SumOver(s, key, f, ks[..|ks| - 1]) + SumOn(s, key, f, ks[|ks| - 1])
  }

  /** A group no row falls into sums to 0. */
  lemma {:induction false} SumOnAbsent<T, K>(s: seq<T>, key: T -> K, f: T -> int, k: K)
    requires forall x :: x in s ==> key(x) != k
    ensures SumOn(s, key, f, k) == 0
  {
    if s != [] {
      SumOnAbsent(s[..|s| - 1], key, f, k);
    }
  }

  lemma {:induction false} SumOverSnoc<T, K>(s: seq<T>, x: T, key: T -> K, f: T -> int, ks: seq<K>)
    requires Distinct(ks)
    ensures SumOver(s + [x], key, f, ks) == SumOver(s, key, f, ks) + (if key(x) in ks then f(x) else 0)
  {
    if ks != [] {
      var init := ks[..|ks| - 1];
      assert ks == init + [ks[|ks| - 1]];
      SumOverSnoc(s, x, key, f, init);
      assert (s + [x])[..|s|] == s;
    }
  }

  /** Group sums over distinct keys that cover every row add up to the overall sum. */
  lemma {:induction false} SumOverCover<T, K>(s: seq<T>, key: T -> K, f: T -> int, ks: seq<K>)
    requires Distinct(ks)
    requires forall x :: x in s ==> key(x) in ks
    ensures SumOver(s, key, f, ks) == SumOf(s, f)
  {
    if s == [] {
      SumOverNoRows(key, f, ks);
    } else {
      var init, last := s[..|s| - 1], s[|s| - 1];
      assert s == init + [last];
      SumOverCover(init, key, f, ks);
      SumOverSnoc(init, last, key, f, ks);
    }
  }

  lemma {:induction false} SumOverNoRows<T, K>(key: T -> K, f: T -> int, ks: seq<K>)
    ensures SumOver([], key, f, ks) == 0
  {
    if ks != [] {
      SumOverNoRows(key, f, ks[..|ks| - 1]);
    }
  }

  /** The group sums of `GROUP BY key` add up to the sum over all rows. */
  lemma GroupSumsAddUp<T(!new), K>(s: seq<T>, key: T -> K, f: T -> int)
    ensures SumOver(s, key, f, Keys(s, key)) == SumOf(s, f)
  {
    SumOverCover(s, key, f, Keys(s, key));
  }
}
