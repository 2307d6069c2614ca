/**
 * The list operations the views are built from: `Array.prototype.filter`,
 * `Array.prototype.sort` with a comparator, and `Array.from(new Set(xs))`.
 *
 * Every comparator in the views is negative, zero or positive as one
 * lexicographic pair of integers is below, equal to or above another, so a
 * comparator is given here by the pair it compares (`Rank`).  The sort is
 * stable, as `Array.prototype.sort` is required to be; a stable sort by a
 * total preorder has exactly one result, so `SortBy` is that result.
 */
module Ordering {
  /** The key a comparator compares: `major` first, then `minor`. */
  datatype Rank = Rank(major: int, minor: int)

  /** The comparator is negative: `a` sorts strictly before `b`. */
  predicate Below(a: Rank, b: Rank)
  {
    a.major < b.major || (a.major == b.major && a.minor < b.minor)
  }

  /** No element is strictly below an element before it. */
  predicate SortedBy<T(!new)>(s: seq<T>, rank: T -> Rank)
  {
    forall i, j :: 0 <= i < j < |s| ==> !Below(rank(s[j]), rank(s[i]))
  }

  // ---- filter ----

  /** `xs.filter(p)`. */
  function Filter<T(!new)>(xs: seq<T>, p: T -> bool): (r: seq<T>)
    ensures |r| <= |xs|
    ensures forall x :: x in r <==> x in xs && p(x)
  {
    if xs == [] then [] else (if p(xs[0]) then [xs[0]] else []) + Filter(xs[1..], p)
  }

  /** Every position moved one place on. */
  function Shift(idx: seq<int>): (r: seq<int>)
    ensures |r| == |idx| && forall k :: 0 <= k < |idx| ==> r[k] == idx[k] + 1
  {
    if idx == [] then [] else [idx[0] + 1] + Shift(idx[1..])
  }

  /** The positions `p` holds at, in increasing order. */
  function Kept<T(!new)>(xs: seq<T>, p: T -> bool): seq<int>
  {
    if xs == [] then []
    else (if p(xs[0]) then [0] else []) + Shift(Kept(xs[1..], p))
  }

  /** The kept positions lie in range, on positions `p` holds at. */
  lemma {:induction false} KeptInRange<T(!new)>(xs: seq<T>, p: T -> bool)
    ensures forall k :: 0 <= k < |Kept(xs, p)| ==> 0 <= Kept(xs, p)[k] < |xs| && p(xs[Kept(xs, p)[k]])
    decreases |xs|
  {
    if xs != [] {
      var rest := Kept(xs[1..], p);
      KeptInRange(xs[1..], p);
      var sh := Shift(rest);
      forall k | 0 <= k < |sh| ensures 1 <= sh[k] < |xs| && p(xs[sh[k]]) {
        assert xs[1..][rest[k]] == xs[sh[k]];
      }
      assert Kept(xs, p) == (if p(xs[0]) then [0] else []) + sh;
    }
  }

  /** Each position is below every later one. */
  predicate Increasing(idx: seq<int>)
  {
    forall k, l :: 0 <= k < l < |idx| ==> idx[k] < idx[l]
  }

  /** Shifting increasing natural positions keeps them increasing, and makes them positive. */
  lemma ShiftIncreasing(rest: seq<int>)
    requires Increasing(rest) && forall k :: 0 <= k < |rest| ==> 0 <= rest[k]
    ensures Increasing(Shift(rest)) && forall k :: 0 <= k < |rest| ==> 1 <= Shift(rest)[k]
  {
  }

  /** Putting 0 in front of increasing positive positions keeps them increasing. */
  lemma PrependZeroIncreasing(sh: seq<int>)
    requires Increasing(sh) && forall k :: 0 <= k < |sh| ==> 1 <= sh[k]
    ensures Increasing([0] + sh)
  {
    var idx := [0] + sh;
    forall k, l | 0 <= k < l < |idx| ensures idx[k] < idx[l] {
      assert idx[l] == sh[l - 1];
      if k > 0 { assert idx[k] == sh[k - 1]; }
    }
  }

  /** The kept positions increase. */
  lemma {:induction false} KeptIncreasing<T(!new)>(xs: seq<T>, p: T -> bool)
    ensures Increasing(Kept(xs, p))
    decreases |xs|
  {
    if xs != [] {
      KeptIncreasing(xs[1..], p);
      KeptInRange(xs[1..], p);
      var sh := Shift(Kept(xs[1..], p));
      ShiftIncreasing(Kept(xs[1..], p));
      if p(xs[0]) {
        PrependZeroIncreasing(sh);
        assert Kept(xs, p) == [0] + sh;
      } else {
        assert Kept(xs, p) == sh;
      }
    }
  }

  /** Every position `p` holds at is kept. */
  lemma {:induction false} KeptComplete<T(!new)>(xs: seq<T>, p: T -> bool)
    ensures forall i :: 0 <= i < |xs| && p(xs[i]) ==> i in Kept(xs, p)
    decreases |xs|
  {
    if xs != [] {
      var rest := Kept(xs[1..], p);
      KeptComplete(xs[1..], p);
      var sh := Shift(rest);
      assert Kept(xs, p) == (if p(xs[0]) then [0] else []) + sh;
      forall i | 1 <= i < |xs| && p(xs[i]) ensures i in sh {
        assert xs[1..][i - 1] == xs[i];
        var k :| 0 <= k < |rest| && rest[k] == i - 1;
        assert sh[k] == i;
      }
    }
  }

  /** The kept positions increase, and are exactly the positions `p` holds at. */
  lemma KeptPositions<T(!new)>(xs: seq<T>, p: T -> bool)
    ensures var idx := Kept(xs, p);
      && (forall k, l :: 0 <= k < l < |idx| ==> idx[k] < idx[l])
      && (forall k :: 0 <= k < |idx| ==> 0 <= idx[k] < |xs| && p(xs[idx[k]]))
      && (forall i :: 0 <= i < |xs| && p(xs[i]) ==> i in idx)
  {
    KeptInRange(xs, p);
    KeptIncreasing(xs, p);
    KeptComplete(xs, p);
  }

  /** The positions and elements a filter keeps correspond one to one. */
  ghost predicate KeptMatches<T(!new)>(xs: seq<T>, p: T -> bool)
  {
    |Filter(xs, p)| == |Kept(xs, p)|
    && forall k :: 0 <= k < |Kept(xs, p)| ==>
      0 <= Kept(xs, p)[k] < |xs| && Filter(xs, p)[k] == xs[Kept(xs, p)[k]]
  }

  /** One more element in front that the filter keeps keeps the correspondence. */
  lemma KeptMatchesConsKept<T(!new)>(x: T, ys: seq<T>, p: T -> bool)
    requires p(x) && KeptMatches(ys, p)
    ensures KeptMatches([x] + ys, p)
  {
    var xs := [x] + ys;
    assert xs[0] == x && xs[1..] == ys;
    var rest := Kept(ys, p);
    var fr := Filter(ys, p);
    assert Kept(xs, p) == [0] + Shift(rest);
    assert Filter(xs, p) == [x] + fr;
    PrependedPositionsMatch(x, ys, rest, fr);
  }

  /** As `ShiftedPositionsMatch`, with position 0 picking `x` in front. */
  lemma PrependedPositionsMatch<T>(x: T, ys: seq<T>, rest: seq<int>, fr: seq<T>)
    requires |fr| == |rest|
    requires forall k :: 0 <= k < |rest| ==> 0 <= rest[k] < |ys| && fr[k] == ys[rest[k]]
    ensures forall k :: 0 <= k < |rest| + 1 ==>
      0 <= ([0] + Shift(rest))[k] < |ys| + 1 && ([x] + fr)[k] == ([x] + ys)[([0] + Shift(rest))[k]]
  {
    var sh := Shift(rest);
    ShiftedPositionsMatch(x, ys, rest, fr);
    forall k | 0 <= k < |rest| + 1
      ensures 0 <= ([0] + sh)[k] < |ys| + 1 && ([x] + fr)[k] == ([x] + ys)[([0] + sh)[k]]
    {
      if k > 0 {
        assert ([0] + sh)[k] == sh[k - 1];
        assert ([x] + fr)[k] == fr[k - 1];
      }
    }
  }

  /** Positions into `ys` that pick `fr`, moved one on, pick `fr` out of `[x] + ys`. */
  lemma ShiftedPositionsMatch<T>(x: T, ys: seq<T>, rest: seq<int>, fr: seq<T>)
    requires |fr| == |rest|
    requires forall k :: 0 <= k < |rest| ==> 0 <= rest[k] < |ys| && fr[k] == ys[rest[k]]
    ensures forall k :: 0 <= k < |rest| ==> 0 <= Shift(rest)[k] < |ys| + 1 && fr[k] == ([x] + ys)[Shift(rest)[k]]
  {
    var sh := Shift(rest);
    forall k | 0 <= k < |rest| ensures 0 <= sh[k] < |ys| + 1 && fr[k] == ([x] + ys)[sh[k]] {
      assert sh[k] == rest[k] + 1;
      assert ([x] + ys)[rest[k] + 1] == ys[rest[k]];
    }
  }

  /** One more element in front that the filter drops keeps the correspondence. */
  lemma KeptMatchesConsDropped<T(!new)>(x: T, ys: seq<T>, p: T -> bool)
    requires !p(x) && KeptMatches(ys, p)
    ensures KeptMatches([x] + ys, p)
  {
    var xs := [x] + ys;
    assert xs[0] == x && xs[1..] == ys;
    var rest := Kept(ys, p);
    var fr := Filter(ys, p);
    assert Kept(xs, p) == Shift(rest);
    assert Filter(xs, p) == fr;
    ShiftedPositionsMatch(x, ys, rest, fr);
  }

  /**
   * The filter keeps the elements `p` holds of and nothing else, in their
   * order: its `k`-th element is the one at the `k`-th of the increasing
   * positions `p` holds at (`KeptPositions`).
   */
  lemma {:induction false} FilterIsSubsequence<T(!new)>(xs: seq<T>, p: T -> bool)
    ensures |Filter(xs, p)| == |Kept(xs, p)|
    ensures forall k :: 0 <= k < |Kept(xs, p)| ==>
      0 <= Kept(xs, p)[k] < |xs| && Filter(xs, p)[k] == xs[Kept(xs, p)[k]]
    decreases |xs|
  {
    if xs != [] {
      FilterIsSubsequence(xs[1..], p);
      if p(xs[0]) {
        assert xs == [xs[0]] + xs[1..];
        KeptMatchesConsKept(xs[0], xs[1..], p);
      } else {
        assert xs == [xs[0]] + xs[1..];
        KeptMatchesConsDropped(xs[0], xs[1..], p);
      }
    }
  }

  /** Filtering a concatenation filters each part. */
  lemma {:induction false} FilterAppend<T(!new)>(a: seq<T>, b: seq<T>, p: T -> bool)
    ensures Filter(a + b, p) == Filter(a, p) + Filter(b, p)
    decreases |a|
  {
    if a == [] {
      assert a + b == b;
    } else {
      assert (a + b)[0] == a[0];
      assert (a + b)[1..] == a[1..] + b;
      FilterAppend(a[1..], b, p);
    }
  }

  // ---- stable sort ----

  /** Puts `x` before the first element it is not strictly above. */
  function InsertFront<T(!new)>(x: T, s: seq<T>, rank: T -> Rank): (r: seq<T>)
    ensures multiset(r) == multiset(s) + multiset{x}
    ensures |r| == |s| + 1
  {
    if s == [] || !Below(rank(s[0]), rank(x)) then [x] + s
    else
      assert s == [s[0]] + s[1..];
      [s[0]] + InsertFront(x, s[1..], rank)
  }

  /** `xs.sort(comparator)`, by inserting each element in front of the sorted rest where it belongs. */
  function SortBy<T(!new)>(xs: seq<T>, rank: T -> Rank): (r: seq<T>)
    ensures multiset(r) == multiset(xs)
    ensures |r| == |xs|
  {
    if xs == [] then []
    else
      assert xs == [xs[0]] + xs[1..];
      InsertFront(xs[0], SortBy(xs[1..], rank), rank)
  }

  /** The elements of `xs` whose rank is `k`, in order: the elements a stable sort must keep in order. */
  function WithRank<T(!new)>(xs: seq<T>, rank: T -> Rank, k: Rank): (r: seq<T>)
    ensures forall x :: x in r <==> x in xs && rank(x) == k
  {
    if xs == [] then [] else (if rank(xs[0]) == k then [xs[0]] else []) + WithRank(xs[1..], rank, k)
  }

  lemma {:induction false} InsertFrontSorted<T(!new)>(x: T, s: seq<T>, rank: T -> Rank)
    requires SortedBy(s, rank)
    ensures SortedBy(InsertFront(x, s, rank), rank)
    decreases |s|
  {
    if s != [] && Below(rank(s[0]), rank(x)) {
      var inner := InsertFront(x, s[1..], rank);
      assert InsertFront(x, s, rank) == [s[0]] + inner;
      assert SortedBy(s[1..], rank);
      InsertFrontSorted(x, s[1..], rank);
      RestNotBelowHead(x, s, inner, rank);
      SortedCons(s[0], inner, rank);
    } else {
      assert InsertFront(x, s, rank) == [x] + s;
      forall j | 0 <= j < |s| ensures !Below(rank(s[j]), rank(x)) {
        if j > 0 {
          assert !Below(rank(s[j]), rank(s[0]));
        }
      }
      SortedCons(x, s, rank);
    }
  }

  /** An element not above any of a sorted sequence's elements can go in front of it. */
  lemma SortedCons<T(!new)>(y: T, ys: seq<T>, rank: T -> Rank)
    requires SortedBy(ys, rank)
    requires forall j :: 0 <= j < |ys| ==> !Below(rank(ys[j]), rank(y))
    ensures SortedBy([y] + ys, rank)
  {
    var r := [y] + ys;
    forall i, j | 0 <= i < j < |r| ensures !Below(rank(r[j]), rank(r[i])) {
      assert r[j] == ys[j - 1];
      if i > 0 {
        assert r[i] == ys[i - 1];
      }
    }
  }

  /** After the head of a sorted sequence, inserting an element above it leaves nothing below it. */
  lemma RestNotBelowHead<T(!new)>(x: T, s: seq<T>, inner: seq<T>, rank: T -> Rank)
    requires SortedBy(s, rank) && s != [] && Below(rank(s[0]), rank(x))
    requires multiset(inner) == multiset(s[1..]) + multiset{x}
    ensures forall j :: 0 <= j < |inner| ==> !Below(rank(inner[j]), rank(s[0]))
  {
    forall j | 0 <= j < |inner| ensures !Below(rank(inner[j]), rank(s[0])) {
      assert inner[j] in multiset(inner);
      if inner[j] != x {
        assert inner[j] in multiset(s[1..]);
        var i :| 0 <= i < |s[1..]| && s[1..][i] == inner[j];
        assert s[i + 1] == inner[j];
      }
    }
  }

  lemma {:induction false} InsertFrontKeepsTies<T(!new)>(x: T, s: seq<T>, rank: T -> Rank, k: Rank)
    ensures WithRank(InsertFront(x, s, rank), rank, k) ==
      (if rank(x) == k then [x] else []) + WithRank(s, rank, k)
    decreases |s|
  {
    if s == [] || !Below(rank(s[0]), rank(x)) {
      assert InsertFront(x, s, rank) == [x] + s;
      WithRankCons(x, s, rank, k);
    } else {
      var inner := InsertFront(x, s[1..], rank);
      assert InsertFront(x, s, rank) == [s[0]] + inner;
      InsertFrontKeepsTies(x, s[1..], rank, k);
      WithRankCons(s[0], inner, rank, k);
      var rest := WithRank(s[1..], rank, k);
      var head := if rank(s[0]) == k then [s[0]] else [];
      var mine := if rank(x) == k then [x] else [];
      assert WithRank(s, rank, k) == head + rest;
      assert WithRank(inner, rank, k) == mine + rest;
      TiesCommute(head, mine, rest);
      assert rank(s[0]) != rank(x);
    }
  }

  /** At most one of two pieces is non-empty, so their order does not matter. */
  lemma TiesCommute<T>(head: seq<T>, mine: seq<T>, rest: seq<T>)
    requires head == [] || mine == []
    ensures head + (mine + rest) == mine + (head + rest)
  {
    if head == [] {
      assert head + (mine + rest) == mine + rest;
      assert head + rest == rest;
    } else {
      assert mine + rest == rest;
      assert mine + (head + rest) == head + rest;
    }
  }

  /** The tie class of a sequence with one element in front. */
  lemma WithRankCons<T(!new)>(y: T, ys: seq<T>, rank: T -> Rank, k: Rank)
    ensures WithRank([y] + ys, rank, k) == (if rank(y) == k then [y] else []) + WithRank(ys, rank, k)
  {
    assert ([y] + ys)[0] == y && ([y] + ys)[1..] == ys;
  }

  /** The sort's result is ordered by the comparator. */
  lemma {:induction false} SortBySorted<T(!new)>(xs: seq<T>, rank: T -> Rank)
    ensures SortedBy(SortBy(xs, rank), rank)
    decreases |xs|
  {
    if xs != [] {
      SortBySorted(xs[1..], rank);
      InsertFrontSorted(xs[0], SortBy(xs[1..], rank), rank);
    }
  }

  /** The sort is stable: elements the comparator ties keep their relative order. */
  lemma {:induction false} SortByStable<T(!new)>(xs: seq<T>, rank: T -> Rank, k: Rank)
    ensures WithRank(SortBy(xs, rank), rank, k) == WithRank(xs, rank, k)
    decreases |xs|
  {
    if xs != [] {
      SortByStable(xs[1..], rank, k);
      InsertFrontKeepsTies(xs[0], SortBy(xs[1..], rank), rank, k);
    }
  }

  // ---- first appearances ----

  /** The first position of `x`. */
  function FirstIndex<T(==,!new)>(xs: seq<T>, x: T): (i: int)
    requires x in xs
    ensures 0 <= i < |xs| && xs[i] == x && x !in xs[..i]
  {
    if xs[0] == x then 0
    else
      var j := FirstIndex(xs[1..], x);
      assert xs[..j + 1] == [xs[0]] + xs[1..][..j];
      j + 1
  }

  predicate NoDuplicates<T(==,!new)>(s: seq<T>)
  {
    forall i, j :: 0 <= i < j < |s| ==> s[i] != s[j]
  }

  /** Without repeats every element occurs at most once. */
  lemma {:induction false} NoDuplicatesCountsOnce<T(!new)>(s: seq<T>, x: T)
    requires NoDuplicates(s)
    ensures multiset(s)[x] <= 1
    decreases |s|
  {
    if s != [] {
      var rest := s[1..];
      assert s == [s[0]] + rest;
      forall i, j | 0 <= i < j < |rest| ensures rest[i] != rest[j] {
        assert rest[i] == s[i + 1] && rest[j] == s[j + 1];
      }
      NoDuplicatesCountsOnce(rest, x);
      if x == s[0] {
        assert x !in rest by {
          forall i | 0 <= i < |rest| ensures rest[i] != x {
            assert rest[i] == s[i + 1];
          }
        }
      }
    }
  }

  /** Reordering a sequence without repeats gives one without repeats. */
  lemma PermutationKeepsNoDuplicates<T(!new)>(a: seq<T>, b: seq<T>)
    requires multiset(a) == multiset(b) && NoDuplicates(a)
    ensures NoDuplicates(b)
  {
    forall i, j | 0 <= i < j < |b| ensures b[i] != b[j] {
      if b[i] == b[j] {
        var x := b[i];
        assert b == b[..j] + b[j..];
        assert b[..j][i] == x && b[j..][0] == x;
        assert multiset(b)[x] == multiset(b[..j])[x] + multiset(b[j..])[x];
        NoDuplicatesCountsOnce(a, x);
        assert false;
      }
    }
  }

  /** `Array.from(new Set(xs))`: each element once, where it first appears. */
  function Distinct<T(==,!new)>(xs: seq<T>): (r: seq<T>)
    ensures forall x :: x in r <==> x in xs
  {
    if xs == [] then []
    else
      var d := Distinct(xs[..|xs| - 1]);
      var last := xs[|xs| - 1];
      assert xs == xs[..|xs| - 1] + [last];
      if last in d then d else d + [last]
  }

  /** One more element at the end is added to the distinct elements when it is new. */
  lemma DistinctSnoc<T(!new)>(xs: seq<T>, x: T)
    ensures Distinct(xs + [x]) == if x in Distinct(xs) then Distinct(xs) else Distinct(xs) + [x]
  {
    assert (xs + [x])[..|xs|] == xs;
  }

  /** Adding an element at the end does not move the first position of an element already there. */
  lemma {:induction false} FirstIndexOfPrefix<T(!new)>(xs: seq<T>, x: T, n: int)
    requires 0 <= n <= |xs| && x in xs[..n]
    ensures FirstIndex(xs, x) == FirstIndex(xs[..n], x)
    decreases n
  {
    assert xs[..n][0] == xs[0];
    if xs[0] != x {
      assert xs[..n][1..] == xs[1..][..n - 1];
      FirstIndexOfPrefix(xs[1..], x, n - 1);
    }
  }

  /**
   * The distinct elements have no repeats, and come in the order of their
   * first appearances.
   */
  lemma {:induction false} DistinctInFirstAppearanceOrder<T(!new)>(xs: seq<T>)
    ensures NoDuplicates(Distinct(xs))
    ensures forall i, j :: 0 <= i < j < |Distinct(xs)| ==>
      FirstIndex(xs, Distinct(xs)[i]) < FirstIndex(xs, Distinct(xs)[j])
    decreases |xs|
  {
    if xs != [] {
      var init := xs[..|xs| - 1];
      var last := xs[|xs| - 1];
      DistinctInFirstAppearanceOrder(init);
      var d := Distinct(init);
      var r := Distinct(xs);
      forall i | 0 <= i < |d| ensures FirstIndex(xs, d[i]) == FirstIndex(init, d[i]) {
        assert d[i] in init;
        assert xs[..|xs| - 1] == init;
        FirstIndexOfPrefix(xs, d[i], |xs| - 1);
      }
      if last !in d {
        assert last !in init;
        assert FirstIndex(xs, last) == |xs| - 1;
        forall i, j | 0 <= i < j < |r| ensures FirstIndex(xs, r[i]) < FirstIndex(xs, r[j]) {
          if j == |d| {
            assert r[i] == d[i];
          } else {
            assert r[i] == d[i] && r[j] == d[j];
          }
        }
      }
    }
  }
}
