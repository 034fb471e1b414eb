/**
 * An abstract in-memory table standing in for the hosted database: a table
 * is a sequence of rows, and a query is a filter, a descending sort on one
 * integer column, and an inclusive `range(from, to)` slice, as the
 * handlers' query builders request them.
 */
module Store {

  /** The rows of `xs` that satisfy `p`, in their original order. */
  function Filter<T>(xs: seq<T>, p: T -> bool): (r: seq<T>)
    ensures |r| <= |xs|
    ensures forall i :: 0 <= i < |r| ==> p(r[i])
    ensures forall x :: x in r ==> p(x) && x in xs
    ensures multiset(r) <= multiset(xs)
    ensures forall x :: x in xs && p(x) ==> x in r
  {
    if |xs| == 0 then []
    else
      assert xs == [xs[0]] + xs[1..];
      if p(xs[0]) then [xs[0]] + Filter(xs[1..], p) else Filter(xs[1..], p)
  }

  /** The number of rows satisfying `p`: a `count: 'exact'` query. */
  function CountWhere<T>(xs: seq<T>, p: T -> bool): nat {
    |Filter(xs, p)|
  }

  /** Filtering by `p` then by `q` is filtering by both. */
  lemma {:induction false} FilterFilter<T>(xs: seq<T>, p: T -> bool, q: T -> bool)
    ensures Filter(Filter(xs, p), q) == Filter(xs, x => p(x) && q(x))
    decreases |xs|
  {
    if |xs| > 0 {
      FilterFilter(xs[1..], p, q);
      if p(xs[0]) {
        assert Filter(xs, p)[1..] == Filter(xs[1..], p);
      }
    }
  }

  /** Filters that agree on every row of the table select the same rows. */
  lemma {:induction false} FilterExtensional<T>(xs: seq<T>, p: T -> bool, q: T -> bool)
    requires forall i :: 0 <= i < |xs| ==> p(xs[i]) == q(xs[i])
    ensures Filter(xs, p) == Filter(xs, q)
    decreases |xs|
  {
    if |xs| > 0 {
      FilterExtensional(xs[1..], p, q);
    }
  }

  /** A filter that no row satisfies selects nothing. */
  lemma {:induction false} FilterNone<T>(xs: seq<T>, p: T -> bool)
    requires forall i :: 0 <= i < |xs| ==> !p(xs[i])
    ensures Filter(xs, p) == []
    decreases |xs|
  {
    if |xs| > 0 {
      FilterNone(xs[1..], p);
    }
  }

  /** `xs` is ordered by `key`, largest first. */
  predicate SortedDesc<T>(xs: seq<T>, key: T -> int) {
    forall i, j :: 0 <= i < j < |xs| ==> key(xs[i]) >= key(xs[j])
  }

  /** Inserts `x` into a descending sequence, after every row with a larger key. */
  function InsertDesc<T>(x: T, xs: seq<T>, key: T -> int): (r: seq<T>)
    requires SortedDesc(xs, key)
    ensures SortedDesc(r, key)
    ensures multiset(r) == multiset(xs) + multiset{x}
    ensures |r| == |xs| + 1
    ensures r[0] == x || (|xs| > 0 && r[0] == xs[0])
  {
    if |xs| == 0 then [x]
    else if key(x) >= key(xs[0]) then [x] + xs
    else
      assert xs == [xs[0]] + xs[1..];
      var rest := InsertDesc(x, xs[1..], key);
      HeadDominates(xs[0], rest, key);
      [xs[0]] + rest
  }

  /** A head no smaller than the first row of a descending sequence keeps it descending. */
  lemma HeadDominates<T>(h: T, xs: seq<T>, key: T -> int)
    requires SortedDesc(xs, key)
    requires |xs| > 0 ==> key(h) >= key(xs[0])
    ensures SortedDesc([h] + xs, key)
  {
    var s := [h] + xs;
    forall i, j | 0 <= i < j < |s|
      ensures key(s[i]) >= key(s[j])
    {
      if i > 0 {
        assert s[i] == xs[i - 1] && s[j] == xs[j - 1];
      } else {
        assert s[j] == xs[j - 1];
      }
    }
  }

  /** `order(column, { ascending: false })`: the rows sorted on `key`, largest first. */
  function SortDesc<T>(xs: seq<T>, key: T -> int): (r: seq<T>)
    ensures SortedDesc(r, key)
    ensures multiset(r) == multiset(xs)
    ensures |r| == |xs|
  {
    if |xs| == 0 then []
    else
      assert xs == [xs[0]] + xs[1..];
      InsertDesc(xs[0], SortDesc(xs[1..], key), key)
  }

  function Max(a: int, b: int): int { if a <= b then b else a }
  function Min(a: int, b: int): int { if a <= b then a else b }

  /**
   * `range(from, to)`: positions `from` through `to` inclusive, cut to the
   * rows that exist; empty when the window is empty or past the end, and a
   * short last page when the window runs past the end.
   */
  function RangeInclusive<T>(xs: seq<T>, from: int, to: int): (r: seq<T>)
    ensures |r| <= Max(0, to - from + 1)
    ensures |r| <= |xs|
    ensures forall i :: 0 <= i < |r| ==> 0 <= Max(from, 0) + i < |xs| && r[i] == xs[Max(from, 0) + i]
    ensures 0 <= from <= to < |xs| ==> |r| == to - from + 1
    ensures |r| == Max(0, Min(to + 1, |xs|) - Max(from, 0))
  {
    var lo := Max(from, 0);
    var hi := Min(to + 1, |xs|);
    if lo >= hi then [] else xs[lo..hi]
  }

  /** A range keeps the rows' order and takes them from `xs`. */
  lemma RangeIsSubsequence<T>(xs: seq<T>, from: int, to: int, key: T -> int)
    ensures SortedDesc(xs, key) ==> SortedDesc(RangeInclusive(xs, from, to), key)
    ensures multiset(RangeInclusive(xs, from, to)) <= multiset(xs)
  {
    var lo := Max(from, 0);
    var hi := Min(to + 1, |xs|);
    if lo < hi {
      assert xs == xs[..lo] + xs[lo..hi] + xs[hi..];
      assert multiset(xs) == multiset(xs[..lo]) + multiset(xs[lo..hi]) + multiset(xs[hi..]);
    }
  }

  /**
   * Pages of `limit` rows requested as `range(offset, offset + limit - 1)`
   * tile the table: two consecutive pages together are the double-size page
   * at the first offset.
   */
  lemma ConsecutivePages<T>(xs: seq<T>, offset: nat, limit: nat)
    ensures RangeInclusive(xs, offset, offset + limit - 1) + RangeInclusive(xs, offset + limit, offset + 2 * limit - 1)
         == RangeInclusive(xs, offset, offset + 2 * limit - 1)
  {
    var a := RangeInclusive(xs, offset, offset + limit - 1);
    var b := RangeInclusive(xs, offset + limit, offset + 2 * limit - 1);
    var c := RangeInclusive(xs, offset, offset + 2 * limit - 1);
    if offset + limit <= |xs| {
      assert a == xs[offset..offset + limit];
      assert c == xs[offset..Min(offset + 2 * limit, |xs|)];
      assert b == xs[offset + limit..Min(offset + 2 * limit, |xs|)];
    } else {
      assert b == [];
    }
  }

  /**
   * `rows` is the window `range(offset, offset + limit - 1)` of `sorted`:
   * the rows of `sorted` from place `offset` on (0 when `offset` is
   * negative), as many as exist up to `limit`, in the same order.
   */
  ghost predicate IsWindow<T>(rows: seq<T>, sorted: seq<T>, offset: int, limit: int) {
    |rows| == Max(0, Min(offset + limit, |sorted|) - Max(offset, 0))
    && forall i :: 0 <= i < |rows| ==> Max(offset, 0) + i < |sorted| && rows[i] == sorted[Max(offset, 0) + i]
  }

  /** A window at offset 0 is the first `limit` rows, or all of them when there are fewer. */
  lemma WindowFromStart<T>(rows: seq<T>, sorted: seq<T>, limit: int)
    requires 0 <= limit && IsWindow(rows, sorted, 0, limit)
    ensures |rows| == Min(limit, |sorted|)
    ensures forall i :: 0 <= i < |rows| ==> rows[i] == sorted[i]
  {
  }

  /**
   * One page of a listing: the rows sorted on `key`, largest first, then
   * `range(offset, offset + limit - 1)`. The page holds the sorted rows from
   * place `offset` on, as many as exist up to `limit`; so it is still in
   * order and all its rows are drawn from `xs`.
   */
  function Page<T>(xs: seq<T>, key: T -> int, offset: int, limit: int): (r: seq<T>)
    ensures |r| <= Max(0, limit)
    ensures SortedDesc(r, key)
    ensures multiset(r) <= multiset(xs)
    ensures forall x :: x in r ==> x in xs
    ensures 0 <= offset && 0 < limit && offset + limit <= |xs| ==> |r| == limit
    ensures IsWindow(r, SortDesc(xs, key), offset, limit)
  {
    var sorted := SortDesc(xs, key);
    PageFacts(xs, sorted, key, offset, limit);
    RangeInclusive(sorted, offset, offset + limit - 1)
  }

  lemma PageFacts<T>(xs: seq<T>, sorted: seq<T>, key: T -> int, offset: int, limit: int)
    requires SortedDesc(sorted, key) && multiset(sorted) == multiset(xs) && |sorted| == |xs|
    ensures var r := RangeInclusive(sorted, offset, offset + limit - 1);
      |r| <= Max(0, limit) && SortedDesc(r, key) && multiset(r) <= multiset(xs)
      && (forall x :: x in r ==> x in xs)
      && (0 <= offset && 0 < limit && offset + limit <= |xs| ==> |r| == limit)
      && IsWindow(r, sorted, offset, limit)
  {
    var r := RangeInclusive(sorted, offset, offset + limit - 1);
    assert IsWindow(r, sorted, offset, limit);
    RangeIsSubsequence(sorted, offset, offset + limit - 1, key);
    SubMultisetMembers(r, xs);
  }

  /** Every row of a page of a filtered table passes the filter and comes from the table. */
  lemma PageOfFilter<T>(xs: seq<T>, p: T -> bool, key: T -> int, offset: int, limit: int)
    ensures var r := Page(Filter(xs, p), key, offset, limit);
      forall i :: 0 <= i < |r| ==> p(r[i]) && r[i] in xs
  {
    var r := Page(Filter(xs, p), key, offset, limit);
    forall i | 0 <= i < |r|
      ensures p(r[i]) && r[i] in xs
    {
      assert r[i] in r;
    }
  }

  /** Every element of a sub-multiset is an element of the whole. */
  lemma SubMultisetMembers<T>(a: seq<T>, b: seq<T>)
    requires multiset(a) <= multiset(b)
    ensures forall x :: x in a ==> x in b
  {
    forall x | x in a
      ensures x in b
    {
      assert x in multiset(a);
    }
  }
}
