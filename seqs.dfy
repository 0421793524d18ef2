/** Sequence helpers shared by the gamba model: filtering, exact sums and means,
    sorting, numpy's default ("linear") percentile and the pandas median. */
module Seqs {

  /** The elements of `s` that satisfy `p`, in their original order
      (a boolean mask applied to a column or a table). */
  function Filter<T(!new)>(s: seq<T>, p: T -> bool): (r: seq<T>)
    ensures |r| <= |s|
  {
    if s == [] then []
    else if p(s[0]) then [s[0]] + Filter(s[1..], p)
    else Filter(s[1..], p)
  }

  /** The kept elements are exactly the elements that satisfy p. */
  lemma {:induction false} FilterMembers<T(!new)>(s: seq<T>, p: T -> bool)
    ensures forall x :: x in Filter(s, p) <==> x in s && p(x)
    ensures forall i :: 0 <= i < |Filter(s, p)| ==> p(Filter(s, p)[i])
  {
    if s != [] {
      FilterMembers(s[1..], p);
      assert forall x :: x in s <==> x == s[0] || x in s[1..];
    }
  }

  lemma {:induction false} FilterConcat<T(!new)>(a: seq<T>, b: seq<T>, p: T -> bool)
    ensures Filter(a + b, p) == Filter(a, p) + Filter(b, p)
  {
    if a == [] {
      assert a + b == b;
    } else {
      assert (a + b)[1..] == a[1..] + b;
      FilterConcat(a[1..], b, p);
    }
  }

  /** Two masks that agree on the elements of `s` select the same elements. */
  lemma {:induction false} FilterSame<T(!new)>(s: seq<T>, p: T -> bool, q: T -> bool)
    requires forall x :: x in s ==> p(x) == q(x)
    ensures Filter(s, p) == Filter(s, q)
  {
    if s != [] {
      assert forall x :: x in s[1..] ==> x in s;
      FilterSame(s[1..], p, q);
    }
  }

  /** Filtering twice is filtering once by the conjunction. */
  lemma {:induction false} FilterTwice<T(!new)>(s: seq<T>, p: T -> bool, q: T -> bool, pq: T -> bool)
    requires forall x :: x in s ==> pq(x) == (p(x) && q(x))
    ensures Filter(Filter(s, p), q) == Filter(s, pq)
  {
    if s != [] {
      assert forall x :: x in s[1..] ==> x in s;
      FilterTwice(s[1..], p, q, pq);
    }
  }

  /** A mask that is the disjoint union of two masks selects as many elements as both together. */
  lemma {:induction false} FilterDisjointUnion<T(!new)>(s: seq<T>, p: T -> bool, q: T -> bool, pq: T -> bool)
    requires forall x :: x in s ==> pq(x) == (p(x) || q(x)) && !(p(x) && q(x))
    ensures |Filter(s, pq)| == |Filter(s, p)| + |Filter(s, q)|
  {
    if s != [] {
      assert forall x :: x in s[1..] ==> x in s;
      FilterDisjointUnion(s[1..], p, q, pq);
    }
  }

  lemma {:induction false} FilterAll<T(!new)>(s: seq<T>, p: T -> bool)
    requires forall x :: x in s ==> p(x)
    ensures Filter(s, p) == s
  {
    if s != [] {
      assert forall x :: x in s[1..] ==> x in s;
      FilterAll(s[1..], p);
    }
  }

  lemma {:induction false} FilterMultiset<T(!new)>(s: seq<T>, p: T -> bool)
    ensures multiset(Filter(s, p)) <= multiset(s)
  {
    if s != [] {
      FilterMultiset(s[1..], p);
      assert s == [s[0]] + s[1..];
    }
  }

  /** Each element that satisfies p is kept as often as it occurs; the others not at all. */
  lemma {:induction false} FilterMultiplicity<T(!new)>(s: seq<T>, p: T -> bool)
    ensures forall x :: multiset(Filter(s, p))[x] == if p(x) then multiset(s)[x] else 0
  {
    if s != [] {
      FilterMultiplicity(s[1..], p);
      assert s == [s[0]] + s[1..];
    }
  }

  /** The number of kept elements is the number of positions at which the mask holds. */
  lemma {:induction false} FilterCountsMask<T(!new)>(s: seq<T>, p: T -> bool)
    ensures |Filter(s, p)| == Count(Map(s, p), true)
  {
    if s != [] {
      FilterCountsMask(s[1..], p);
      assert Map(s, p)[1..] == Map(s[1..], p);
    }
  }

  /** Filtering commutes with permutation, as far as the number of selected elements goes. */
  lemma {:induction false} FilterCountPerm<T(!new)>(a: seq<T>, b: seq<T>, p: T -> bool)
    requires multiset(a) == multiset(b)
    ensures |Filter(a, p)| == |Filter(b, p)|
    decreases |a|
  {
    if a == [] {
      assert |b| == |multiset(b)| == 0;
    } else {
      var j := PermTail(a, b);
      FilterCountPerm(a[1..], b[..j] + b[j + 1..], p);
      FilterRemoveAt(b, j, p);
      assert a == [a[0]] + a[1..];
      FilterConcat([a[0]], a[1..], p);
    }
  }

  /** A sequence is its part before j, its element at j and its part after j. */
  lemma SplitAt<T>(b: seq<T>, j: nat)
    requires j < |b|
    ensures b == b[..j] + ([b[j]] + b[j + 1..])
  {
    assert b[j..] == [b[j]] + b[j + 1..];
    assert b == b[..j] + b[j..];
  }

  lemma RemoveAt<T>(b: seq<T>, j: nat)
    requires j < |b|
    ensures multiset(b[..j] + b[j + 1..]) == multiset(b) - multiset{b[j]}
  {
    assert b == b[..j] + [b[j]] + b[j + 1..];
  }

  lemma FilterRemoveAt<T(!new)>(b: seq<T>, j: nat, p: T -> bool)
    requires j < |b|
    ensures |Filter(b, p)| == |Filter(b[..j] + b[j + 1..], p)| + |Filter([b[j]], p)|
  {
    SplitAt(b, j);
    FilterConcat(b[..j], [b[j]] + b[j + 1..], p);
    FilterConcat([b[j]], b[j + 1..], p);
    FilterConcat(b[..j], b[j + 1..], p);
  }

  /** Number of occurrences of `x` in `s` (Python's list.count). */
  function Count<T(==,!new)>(s: seq<T>, x: T): (n: nat)
    ensures n <= |s|
    ensures n > 0 <==> x in s
  {
    if s == [] then 0 else (if s[0] == x then 1 else 0) + Count(s[1..], x)
  }

  /** `ids` lists every element of `s` exactly once, in some order
      (what `list(set(s))` yields: its order is left open). */
  predicate Enumerates<T(==)>(ids: seq<T>, s: seq<T>) {
    && (forall i, j :: 0 <= i < j < |ids| ==> ids[i] != ids[j])
    && (forall x :: x in ids ==> x in s)
    && (forall x :: x in s ==> x in ids)
  }

  /** First-occurrence de-duplication: one enumeration of the distinct elements. */
  function Distinct<T(==,!new)>(s: seq<T>): (r: seq<T>)
    ensures Enumerates(r, s)
  {
    if s == [] then []
    else
      var t := Distinct(s[1..]);
      assert forall x :: x in s[1..] ==> x in s;
      if s[0] in t then t else [s[0]] + t
  }

  /** An element at two positions occurs at least twice. */
  /** Growing a prefix by one element; a prefix of full length is the whole. */
  lemma PrefixStep<T>(s: seq<T>, k: nat)
    requires k < |s|
    ensures s[..k + 1] == s[..k] + [s[k]]
  {
  }

  lemma SnocAssoc<T>(a: seq<T>, b: seq<T>, x: T)
    ensures (a + b) + [x] == a + (b + [x])
  {
  }

  lemma PrefixAll<T>(s: seq<T>)
    ensures s[..|s|] == s
  {
  }

  lemma TwiceInMultiset<T>(s: seq<T>, i: nat, j: nat)
    requires i < j < |s| && s[i] == s[j]
    ensures multiset(s)[s[i]] >= 2
  {
    assert s == s[..i] + [s[i]] + s[i + 1..j] + [s[j]] + s[j + 1..];
  }

  /** In a sequence without repetitions every element occurs at most once. */
  lemma {:induction false} DistinctOnce<T>(d: seq<T>, x: T)
    requires forall i, j :: 0 <= i < j < |d| ==> d[i] != d[j]
    ensures multiset(d)[x] <= 1
  {
    if d != [] {
      assert d == [d[0]] + d[1..];
      DistinctOnce(d[1..], x);
      if x == d[0] {
        assert x !in d[1..];
      }
    }
  }

  /** The counts of the distinct elements add up to the length of the sequence. */
  function SumCounts<T(==,!new)>(s: seq<T>, ids: seq<T>): nat {
    if ids == [] then 0 else Count(s, ids[0]) + SumCounts(s, ids[1..])
  }

  lemma {:induction false} CountsCoverSequence<T(!new)>(s: seq<T>, ids: seq<T>)
    requires Enumerates(ids, s)
    ensures SumCounts(s, ids) == |s|
    decreases |s|
  {
    if s == [] {
      SumCountsOfEmpty(s, ids);
    } else {
      var x := s[0];
      assert x in s;
      assert x in ids;
      var k :| 0 <= k < |ids| && ids[k] == x;
      var rest := s[1..];
      if x in rest {
        assert Enumerates(ids, rest) by {
          assert forall y :: y in s ==> y == x || y in rest;
        }
        CountsCoverSequence(rest, ids);
        SumCountsStep(s, ids, k);
      } else {
        var ids' := ids[..k] + ids[k + 1..];
        assert Enumerates(ids', rest) by {
          forall i, j | 0 <= i < j < |ids'| ensures ids'[i] != ids'[j] {
            var i0 := if i < k then i else i + 1;
            var j0 := if j < k then j else j + 1;
            assert ids'[i] == ids[i0] && ids'[j] == ids[j0];
          }
          forall y | y in ids' ensures y in rest {
            var i :| 0 <= i < |ids'| && ids'[i] == y;
            var i0 := if i < k then i else i + 1;
            assert ids[i0] == y && i0 != k;
            assert y in ids;
            assert y in s;
            assert y != x;
          }
          forall y | y in rest ensures y in ids' {
            assert y in s && y != x;
            var i :| 0 <= i < |ids| && ids[i] == y;
            assert i != k;
            if i < k { assert ids'[i] == y; } else { assert ids'[i - 1] == y; }
          }
        }
        CountsCoverSequence(rest, ids');
        SumCountsRemove(s, ids, k);
      }
    }
  }

  lemma {:induction false} SumCountsOfEmpty<T(!new)>(s: seq<T>, ids: seq<T>)
    requires s == []
    ensures SumCounts(s, ids) == 0
  {
    if ids != [] { SumCountsOfEmpty(s, ids[1..]); }
  }

  /** Adding a copy of an element already present adds one to the total at its position. */
  lemma {:induction false} SumCountsStep<T(!new)>(s: seq<T>, ids: seq<T>, k: nat)
    requires s != [] && k < |ids| && ids[k] == s[0]
    requires forall i, j :: 0 <= i < j < |ids| ==> ids[i] != ids[j]
    ensures SumCounts(s, ids) == 1 + SumCounts(s[1..], ids)
  {
    if k == 0 {
      SumCountsAbsent(s, ids[1..]);
    } else {
      SumCountsStep(s, ids[1..], k - 1);
    }
  }

  lemma {:induction false} SumCountsAbsent<T(!new)>(s: seq<T>, ids: seq<T>)
    requires s != [] && s[0] !in ids
    ensures SumCounts(s, ids) == SumCounts(s[1..], ids)
  {
    if ids != [] { SumCountsAbsent(s, ids[1..]); }
  }

  lemma {:induction false} SumCountsRemove<T(!new)>(s: seq<T>, ids: seq<T>, k: nat)
    requires s != [] && k < |ids| && ids[k] == s[0] && s[0] !in s[1..]
    requires forall i, j :: 0 <= i < j < |ids| ==> ids[i] != ids[j]
    ensures SumCounts(s, ids) == 1 + SumCounts(s[1..], ids[..k] + ids[k + 1..])
  {
    if k == 0 {
      SumCountsAbsent(s, ids[1..]);
      assert ids[..0] + ids[1..] == ids[1..];
    } else {
      SumCountsRemove(s, ids[1..], k - 1);
      assert ids[..k] + ids[k + 1..] == [ids[0]] + (ids[1..][..k - 1] + ids[1..][k..]);
      assert Count(s, ids[0]) == Count(s[1..], ids[0]);
    }
  }

  // ---------------------------------------------------------------- sums and means

  function Sum(s: seq<real>): real {
    if s == [] then 0.0 else s[0] + Sum(s[1..])
  }

  lemma {:induction false} SumConcat(a: seq<real>, b: seq<real>)
    ensures Sum(a + b) == Sum(a) + Sum(b)
  {
    if a == [] {
      assert a + b == b;
    } else {
      assert (a + b)[1..] == a[1..] + b;
      SumConcat(a[1..], b);
    }
  }

  /** A sum of values between `lo` and `hi` lies between |s|·lo and |s|·hi. */
  lemma {:induction false} SumBounds(s: seq<real>, lo: real, hi: real)
    requires forall i :: 0 <= i < |s| ==> lo <= s[i] <= hi
    ensures |s| as real * lo <= Sum(s) <= |s| as real * hi
  {
    if s != [] {
      SumBounds(s[1..], lo, hi);
    }
  }

  /** statistics.mean / numpy.mean on exact values. */
  function Mean(s: seq<real>): real
    requires |s| > 0
  {
    Sum(s) / |s| as real
  }

  /** The mean lies between the smallest and the largest value. */
  lemma MeanBounds(s: seq<real>, lo: real, hi: real)
    requires |s| > 0
    requires forall i :: 0 <= i < |s| ==> lo <= s[i] <= hi
    ensures lo <= Mean(s) <= hi
  {
    SumBounds(s, lo, hi);
    var n := |s| as real;
    assert n * lo <= Sum(s) <= n * hi;
    assert Mean(s) * n == Sum(s);
  }

  /** The mean of a constant sequence is that constant. */
  lemma MeanOfConstant(s: seq<real>, c: real)
    requires |s| > 0
    requires forall i :: 0 <= i < |s| ==> s[i] == c
    ensures Mean(s) == c
  {
    MeanBounds(s, c, c);
  }

  /** The values of one field of each element, in order (a column of a table of records). */
  function Map<T, U>(s: seq<T>, f: T -> U): (r: seq<U>)
    ensures |r| == |s|
    ensures forall i :: 0 <= i < |s| ==> r[i] == f(s[i])
  {
    if s == [] then [] else [f(s[0])] + Map(s[1..], f)
  }

  lemma {:induction false} MapConcat<T, U>(a: seq<T>, b: seq<T>, f: T -> U)
    ensures Map(a + b, f) == Map(a, f) + Map(b, f)
  {
    if a == [] {
      assert a + b == b;
    } else {
      assert (a + b)[1..] == a[1..] + b;
      MapConcat(a[1..], b, f);
    }
  }

  /** Reordering the elements reorders their field values the same way. */
  lemma {:induction false} MapPerm<T(!new), U(!new)>(a: seq<T>, b: seq<T>, f: T -> U)
    requires multiset(a) == multiset(b)
    ensures multiset(Map(a, f)) == multiset(Map(b, f))
    decreases |a|
  {
    if a == [] {
      assert |b| == |multiset(b)| == 0;
    } else {
      var j := PermTail(a, b);
      var b' := b[..j] + b[j + 1..];
      var rest := Map(a[1..], f);
      assert Map(a, f) == [f(a[0])] + rest by {
        assert a == [a[0]] + a[1..];
        MapConcat([a[0]], a[1..], f);
        assert Map([a[0]], f) == [f(a[0])];
      }
      assert multiset(Map(a, f)) == multiset(rest) + multiset{f(a[0])};
      MapPerm(a[1..], b', f);
      MapRemoveAt(b, j, f);
    }
  }

  /** Matching the head of `a` with an equal element of its permutation `b`
      leaves two permutations of each other. */
  lemma PermTail<T>(a: seq<T>, b: seq<T>) returns (j: nat)
    requires a != [] && multiset(a) == multiset(b)
    ensures j < |b| && b[j] == a[0]
    ensures multiset(a[1..]) == multiset(b[..j] + b[j + 1..])
  {
    assert a[0] in multiset(b);
    j :| 0 <= j < |b| && b[j] == a[0];
    RemoveAt(b, j);
    assert a == [a[0]] + a[1..];
    assert multiset(a[1..]) == multiset(a) - multiset{a[0]};
  }

  lemma MultisetSwap<T>(a: multiset<T>, b: multiset<T>, c: multiset<T>)
    ensures a + (b + c) == (a + c) + b
  {
  }

  lemma MapRemoveAt<T, U>(b: seq<T>, j: nat, f: T -> U)
    requires j < |b|
    ensures multiset(Map(b, f)) == multiset(Map(b[..j] + b[j + 1..], f)) + multiset{f(b[j])}
  {
    var l, m, r := b[..j], [b[j]], b[j + 1..];
    SplitAt(b, j);
    MapConcat(l, m + r, f);
    MapConcat(m, r, f);
    MapConcat(l, r, f);
    var ml, mm, mr := Map(l, f), Map(m, f), Map(r, f);
    assert mm == [f(b[j])];
    assert Map(b, f) == ml + (mm + mr);
    assert multiset(ml + (mm + mr)) == multiset(ml) + (multiset(mm) + multiset(mr));
    assert multiset(ml + mr) == multiset(ml) + multiset(mr);
    MultisetSwap(multiset(ml), multiset(mm), multiset(mr));
  }

  /** A sum does not depend on the order of its terms. */
  lemma {:induction false} SumPerm(a: seq<real>, b: seq<real>)
    requires multiset(a) == multiset(b)
    ensures Sum(a) == Sum(b)
    decreases |a|
  {
    if a == [] {
      assert |b| == |multiset(b)| == 0;
    } else {
      var j := PermTail(a, b);
      SumPerm(a[1..], b[..j] + b[j + 1..]);
      SumRemoveAt(b, j);
    }
  }

  /** Summing the images of a sequence with one more element adds that element's image. */
  lemma SumMapSnoc<T>(s: seq<T>, x: T, f: T -> real)
    ensures Sum(Map(s + [x], f)) == Sum(Map(s, f)) + f(x)
  {
    MapConcat(s, [x], f);
    SumConcat(Map(s, f), Map([x], f));
    assert Map([x], f) == [f(x)];
    assert Sum([f(x)]) == f(x) + Sum([]);
  }

  /** The sum of the images does not depend on the order of the elements. */
  lemma SumMapPerm<T(!new)>(a: seq<T>, b: seq<T>, f: T -> real)
    requires multiset(a) == multiset(b)
    ensures Sum(Map(a, f)) == Sum(Map(b, f))
  {
    MapPerm(a, b, f);
    SumPerm(Map(a, f), Map(b, f));
  }

  /** The sum of the images over a concatenation is the sum over each part. */
  lemma SumMapConcat<T>(a: seq<T>, b: seq<T>, f: T -> real)
    ensures Sum(Map(a + b, f)) == Sum(Map(a, f)) + Sum(Map(b, f))
  {
    MapConcat(a, b, f);
    SumConcat(Map(a, f), Map(b, f));
  }

  lemma SumRemoveAt(b: seq<real>, j: nat)
    requires j < |b|
    ensures Sum(b) == Sum(b[..j] + b[j + 1..]) + b[j]
  {
    var l, m, r := b[..j], [b[j]], b[j + 1..];
    SplitAt(b, j);
    SumConcat(l, m + r);
    SumConcat(m, r);
    SumConcat(l, r);
    assert Sum(m) == b[j];
  }

  // ---------------------------------------------------------------- sorting

  ghost predicate Sorted(s: seq<real>) {
    forall i, j :: 0 <= i < j < |s| ==> s[i] <= s[j]
  }

  function Insert(x: real, s: seq<real>): (r: seq<real>)
    ensures |r| == |s| + 1
  {
    if s == [] then [x]
    else if x <= s[0] then [x] + s
    else [s[0]] + Insert(x, s[1..])
  }

  /** A value no larger than any element of a sorted sequence can go in front. */
  lemma SortedCons(a: real, t: seq<real>)
    requires Sorted(t) && forall k :: 0 <= k < |t| ==> a <= t[k]
    ensures Sorted([a] + t)
  {
    var r := [a] + t;
    forall i, j | 0 <= i < j < |r| ensures r[i] <= r[j] {
      assert r[j] == t[j - 1];
      if i > 0 {
        assert r[i] == t[i - 1];
      }
    }
  }

  lemma {:induction false} InsertSorted(x: real, s: seq<real>)
    requires Sorted(s)
    ensures Sorted(Insert(x, s))
    ensures multiset(Insert(x, s)) == multiset(s) + multiset{x}
  {
    if s == [] {
    } else if x <= s[0] {
      SortedCons(x, s);
    } else {
      var t := Insert(x, s[1..]);
      InsertSorted(x, s[1..]);
      assert s == [s[0]] + s[1..];
      forall k | 0 <= k < |t| ensures s[0] <= t[k] {
        assert t[k] in multiset(s[1..]) + multiset{x};
        if t[k] != x {
          assert t[k] in s[1..];
        }
      }
      SortedCons(s[0], t);
      assert Insert(x, s) == [s[0]] + t;
    }
  }

  /** The sorted order of the values (numpy sorts before taking a percentile). */
  function Sort(s: seq<real>): (r: seq<real>)
    ensures Sorted(r)
    ensures multiset(r) == multiset(s)
    ensures |r| == |s|
  {
    if s == [] then []
    else
      assert s == [s[0]] + s[1..];
      InsertSorted(s[0], Sort(s[1..]));
      Insert(s[0], Sort(s[1..]))
  }

  /** Every value lies between the first and the last of the sorted values. */
  lemma SortedEnds(s: seq<real>, x: real)
    requires x in s
    ensures Sort(s)[0] <= x <= Sort(s)[|s| - 1]
  {
    var t := Sort(s);
    assert x in multiset(s);
    assert x in multiset(t);
    var k :| 0 <= k < |t| && t[k] == x;
    if 0 < k {
      assert t[0] <= t[k];
    }
    if k < |t| - 1 {
      assert t[k] <= t[|t| - 1];
    }
  }

  // ---------------------------------------------------------------- percentile and median

  /** The "linear" method on sorted values: the rank h = (n-1)·p/100 is split into
      ⌊h⌋ and a fraction that interpolates between the order statistics at ⌊h⌋ and ⌊h⌋+1. */
  function LinearPercentile(x: seq<real>, p: real): real
    requires |x| > 0 && 0.0 <= p <= 100.0
  {
    var lo := PercentileFloor(|x|, p);
    if lo + 1 < |x| then Lerp(x[lo], x[lo + 1], Rank(|x|, p) - lo as real) else x[lo]
  }

  /** The fractional rank (n-1)·p/100 of percentage p among n values. */
  function Rank(n: nat, p: real): (h: real)
    requires n > 0 && 0.0 <= p <= 100.0
    ensures 0.0 <= h <= (n - 1) as real
  {
    assert (n - 1) as real * p <= (n - 1) as real * 100.0;
    (n - 1) as real * p / 100.0
  }

  /** Linear interpolation from a to b by fraction t. */
  function Lerp(a: real, b: real, t: real): real
  {
    a + t * (b - a)
  }

  lemma LerpBetween(a: real, b: real, t: real)
    requires a <= b && 0.0 <= t <= 1.0
    ensures a <= Lerp(a, b, t) <= b
  {
    var d := b - a;
    assert t * d >= 0.0;
    assert (1.0 - t) * d >= 0.0;
    assert d - t * d == (1.0 - t) * d;
  }

  lemma LerpMonotone(a: real, b: real, t: real, u: real)
    requires a <= b && t <= u
    ensures Lerp(a, b, t) <= Lerp(a, b, u)
  {
    var d := b - a;
    MulNonnegative(u - t, d);
    assert u * d - t * d == (u - t) * d;
  }

  lemma MulNonnegative(x: real, y: real)
    requires 0.0 <= x && 0.0 <= y
    ensures 0.0 <= x * y
  {
  }

  lemma RankMonotone(n: nat, p: real, q: real)
    requires n > 0 && 0.0 <= p <= q <= 100.0
    ensures Rank(n, p) <= Rank(n, q)
  {
    var m := (n - 1) as real;
    MulNonnegative(m, q - p);
    assert m * q - m * p == m * (q - p);
  }

  /** ⌊(n-1)·p/100⌋, the lower order statistic that the linear method uses. */
  function PercentileFloor(n: nat, p: real): (lo: nat)
    requires n > 0 && 0.0 <= p <= 100.0
    ensures lo < n
    ensures lo as real <= Rank(n, p) < lo as real + 1.0
  {
    Rank(n, p).Floor
  }

  /** np.percentile(values, p) with numpy's default method. */
  function Percentile(s: seq<real>, p: real): real
    requires |s| > 0 && 0.0 <= p <= 100.0
  {
    LinearPercentile(Sort(s), p)
  }

  /** The linear percentile of sorted values lies between the two order statistics it interpolates. */
  lemma LinearPercentileBetween(x: seq<real>, p: real)
    requires |x| > 0 && 0.0 <= p <= 100.0 && Sorted(x)
    ensures var lo := PercentileFloor(|x|, p);
      x[lo] <= LinearPercentile(x, p) <= (if lo + 1 < |x| then x[lo + 1] else x[lo])
  {
    var lo := PercentileFloor(|x|, p);
    if lo + 1 < |x| {
      LerpBetween(x[lo], x[lo + 1], Rank(|x|, p) - lo as real);
    }
  }

  /** The percentile cutoff never exceeds the largest value nor falls below the smallest. */
  lemma PercentileBounds(s: seq<real>, p: real)
    requires |s| > 0 && 0.0 <= p <= 100.0
    ensures Sort(s)[0] <= Percentile(s, p) <= Sort(s)[|s| - 1]
  {
    SortedPercentileBounds(Sort(s), p);
  }

  lemma SortedPercentileBounds(x: seq<real>, p: real)
    requires |x| > 0 && 0.0 <= p <= 100.0 && Sorted(x)
    ensures x[0] <= LinearPercentile(x, p) <= x[|x| - 1]
  {
    LinearPercentileBetween(x, p);
  }

  /** At percentile 100 the cutoff is the maximum. */
  lemma PercentileHundredIsMax(s: seq<real>)
    requires |s| > 0
    ensures Percentile(s, 100.0) == Sort(s)[|s| - 1]
    ensures forall x :: x in s ==> x <= Percentile(s, 100.0)
  {
    var n := |s|;
    assert Rank(n, 100.0) == (n - 1) as real;
    assert PercentileFloor(n, 100.0) == n - 1;
    forall x | x in s ensures x <= Percentile(s, 100.0) { SortedEnds(s, x); }
  }

  /** At percentile 0 the cutoff is the minimum. */
  lemma PercentileZeroIsMin(s: seq<real>)
    requires |s| > 0
    ensures Percentile(s, 0.0) == Sort(s)[0]
  {
    SortedPercentileZero(Sort(s));
  }

  lemma SortedPercentileZero(x: seq<real>)
    requires |x| > 0
    ensures LinearPercentile(x, 0.0) == x[0]
  {
    assert Rank(|x|, 0.0) == 0.0;
    assert PercentileFloor(|x|, 0.0) == 0;
    if 1 < |x| {
      assert Lerp(x[0], x[1], 0.0) == x[0];
    }
  }

  /** The percentile is monotone in the percentage. */
  lemma PercentileMonotone(s: seq<real>, p: real, q: real)
    requires |s| > 0 && 0.0 <= p <= q <= 100.0
    ensures Percentile(s, p) <= Percentile(s, q)
  {
    var x := Sort(s);
    var n := |x|;
    RankMonotone(n, p, q);
    var lp := PercentileFloor(n, p);
    var lq := PercentileFloor(n, q);
    assert lp <= lq;
    LinearPercentileBetween(x, p);
    LinearPercentileBetween(x, q);
    if lp < lq {
      assert LinearPercentile(x, p) <= x[lp + 1];
      assert x[lp + 1] <= x[lq];
    } else if lp + 1 < n {
      LerpMonotone(x[lp], x[lp + 1], Rank(n, p) - lp as real, Rank(n, q) - lp as real);
    }
  }

  /** pandas' median: the middle sorted value, or the mean of the two middle values. */
  function Median(s: seq<real>): real
    requires |s| > 0
  {
    var t := Sort(s);
    var n := |t|;
    if n % 2 == 1 then t[n / 2] else (t[n / 2 - 1] + t[n / 2]) / 2.0
  }

  /** The median is numpy's 50th percentile. */
  lemma MedianIsFiftiethPercentile(s: seq<real>)
    requires |s| > 0
    ensures Median(s) == Percentile(s, 50.0)
  {
    var x := Sort(s);
    var n := |s|;
    var h := Rank(n, 50.0);
    var lo := PercentileFloor(n, 50.0);
    if n % 2 == 1 {
      assert h == (n / 2) as real;
      assert lo == n / 2;
      if lo + 1 < n {
        assert Lerp(x[lo], x[lo + 1], 0.0) == x[lo];
      }
    } else {
      assert h == (n / 2 - 1) as real + 0.5;
      assert lo == n / 2 - 1;
      assert Lerp(x[lo], x[lo + 1], 0.5) == (x[lo] + x[lo + 1]) / 2.0;
    }
  }

  /** The median lies between the smallest and the largest value. */
  lemma MedianBounds(s: seq<real>)
    requires |s| > 0
    ensures Sort(s)[0] <= Median(s) <= Sort(s)[|s| - 1]
  {
    MedianIsFiftiethPercentile(s);
    PercentileBounds(s, 50.0);
  }
}
