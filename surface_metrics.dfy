/**
 * Surface-to-surface metrics: the base class holding the fixed and moving
 * surfaces, the mean closest-point distance, the percentile Hausdorff
 * distance and the older max-max Haussdorff distance. Each metric keeps a
 * point locator over the surfaces it queries, rebuilt by its setters.
 */
module SurfaceMetrics {
  import opened Wrappers
  import opened Surfaces

  // ---------------------------------------------------------------------------
  // Specification functions

  /** Distance from x to the point the locator over `surface` returns for it. */
  function NearestDistance(sqrt: real -> real, surface: seq<Point>, x: Point): real
    requires |surface| > 0
  {
    ClosestPointIdIsNearest(surface, x);
    Distance(sqrt, x, surface[ClosestPointId(surface, x)])
  }

  /** For each point of `from`, its distance to the closest point of `to`. */
  function DirectedDistances(sqrt: real -> real, from: seq<Point>, to: seq<Point>): (ds: seq<real>)
    requires |from| > 0 ==> |to| > 0
    ensures |ds| == |from|
  {
    seq(|from|, i requires 0 <= i < |from| => NearestDistance(sqrt, to, from[i]))
  }

  /** Every directed distance is non-negative. */
  lemma DirectedDistancesNonNegative(sqrt: real -> real, from: seq<Point>, to: seq<Point>)
    requires IsSqrt(sqrt) && (|from| > 0 ==> |to| > 0)
    ensures forall i :: 0 <= i < |from| ==> DirectedDistances(sqrt, from, to)[i] >= 0.0
  {
    forall i | 0 <= i < |from| ensures DirectedDistances(sqrt, from, to)[i] >= 0.0 {
      var x := from[i];
      ClosestPointIdIsNearest(to, x);
      SquaredDistanceProperties(x, to[ClosestPointId(to, x)]);
    }
  }

  /** A point that lies on the other surface is at distance zero from it. */
  lemma NearestDistanceOfMember(sqrt: real -> real, surface: seq<Point>, i: int)
    requires IsSqrt(sqrt) && 0 <= i < |surface|
    ensures NearestDistance(sqrt, surface, surface[i]) == 0.0
  {
    ClosestPointOfMember(surface, i);
    SqrtOfSquare(sqrt, 0.0);
  }

  /** The sum of a list of distances, accumulated front to back. */
  function Sum(ds: seq<real>): real
  {
    if ds == [] then 0.0 else Sum(ds[..|ds| - 1]) + ds[|ds| - 1]
  }

  lemma {:induction false} SumNonNegative(ds: seq<real>)
    requires forall i :: 0 <= i < |ds| ==> ds[i] >= 0.0
    ensures Sum(ds) >= 0.0
    ensures Sum(ds) == 0.0 <==> forall i :: 0 <= i < |ds| ==> ds[i] == 0.0
  {
    if ds != [] {
      SumNonNegative(ds[..|ds| - 1]);
    }
  }

  /** The closest-distance metric: the mean over moving points of the distance to the fixed surface; 0 without moving points. */
  function MeanClosestDistance(sqrt: real -> real, fixed: seq<Point>, moving: seq<Point>): real
    requires |moving| > 0 ==> |fixed| > 0
  {
    if |moving| == 0 then 0.0
    else Sum(DirectedDistances(sqrt, moving, fixed)) / (|moving| as real)
  }

  /** The mean closest distance is non-negative, and zero exactly when every moving point lies on the fixed surface. */
  lemma MeanClosestDistanceZeroIffOnSurface(sqrt: real -> real, fixed: seq<Point>, moving: seq<Point>)
    requires IsSqrt(sqrt) && (|moving| > 0 ==> |fixed| > 0)
    ensures MeanClosestDistance(sqrt, fixed, moving) >= 0.0
    ensures MeanClosestDistance(sqrt, fixed, moving) == 0.0 <==> forall i :: 0 <= i < |moving| ==> moving[i] in fixed
  {
    if |moving| > 0 {
      var ds := DirectedDistances(sqrt, moving, fixed);
      DirectedDistancesNonNegative(sqrt, moving, fixed);
      SumNonNegative(ds);
      forall i | 0 <= i < |moving| ensures ds[i] == 0.0 <==> moving[i] in fixed {
        var x := moving[i];
        ClosestPointIdIsNearest(fixed, x);
        var y := fixed[ClosestPointId(fixed, x)];
        SquaredDistanceProperties(x, y);
        if ds[i] == 0.0 {
          assert sqrt(SquaredDistance(x, y)) == 0.0;
          assert SquaredDistance(x, y) == 0.0;
        }
        if x in fixed {
          var j :| 0 <= j < |fixed| && fixed[j] == x;
          NearestDistanceOfMember(sqrt, fixed, j);
        }
      }
    }
  }

  /** The closest-distance metric is not symmetric: one extra moving point changes it. */
  lemma MeanClosestDistanceNotSymmetric(sqrt: real -> real)
    requires IsSqrt(sqrt)
    ensures MeanClosestDistance(sqrt, [Point(0.0, 0.0, 0.0)], [Point(0.0, 0.0, 0.0), Point(1.0, 0.0, 0.0)]) == 0.5
    ensures MeanClosestDistance(sqrt, [Point(0.0, 0.0, 0.0), Point(1.0, 0.0, 0.0)], [Point(0.0, 0.0, 0.0)]) == 0.0
  {
    var o, e := Point(0.0, 0.0, 0.0), Point(1.0, 0.0, 0.0);
    SqrtOfSquare(sqrt, 0.0);
    SqrtOfSquare(sqrt, 1.0);
    assert ClosestPointId([o], e) == 0;
    var ds := DirectedDistances(sqrt, [o, e], [o]);
    assert ds[0] == 0.0 && ds[1] == 1.0;
    assert Sum(ds) == Sum(ds[..1]) + ds[1];
    assert ds[..1][..0] == [];
    NearestDistanceOfMember(sqrt, [o, e], 0);
  }

  // ---------------------------------------------------------------------------
  // Sorting and the percentile

  predicate SortedAscending(s: seq<real>)
  {
    forall i, j :: 0 <= i < j < |s| ==> s[i] <= s[j]
  }

  /** A lower bound of x and of every element of t bounds every element of a permutation of t plus x. */
  lemma AllAtLeast(lo: real, r: seq<real>, t: seq<real>, x: real)
    requires multiset(r) == multiset(t) + multiset{x}
    requires lo <= x && forall i :: 0 <= i < |t| ==> lo <= t[i]
    ensures forall k :: 0 <= k < |r| ==> lo <= r[k]
  {
    forall k | 0 <= k < |r|
      ensures lo <= r[k]
    {
      assert r[k] in multiset(r);
      if r[k] != x {
        assert r[k] in multiset(t);
        var i :| 0 <= i < |t| && t[i] == r[k];
      }
    }
  }

  /** Putting the head of a sorted list before x inserted into its tail gives x inserted into the list. */
  lemma InsertBehindHead(x: real, s: seq<real>, rest: seq<real>)
    requires SortedAscending(s) && s != [] && s[0] < x
    requires SortedAscending(rest) && multiset(rest) == multiset(s[1..]) + multiset{x}
    ensures SortedAscending([s[0]] + rest) && multiset([s[0]] + rest) == multiset(s) + multiset{x}
  {
    assert s == [s[0]] + s[1..];
    AllAtLeast(s[0], rest, s[1..], x);
    var r := [s[0]] + rest;
    assert forall k :: 1 <= k < |r| ==> r[k] == rest[k - 1];
  }

  /** x put into its place in a sorted list. */
  function Insert(x: real, s: seq<real>): (r: seq<real>)
    requires SortedAscending(s)
    ensures SortedAscending(r) && multiset(r) == multiset(s) + multiset{x}
  {
    if s == [] then [x]
    else if x <= s[0] then [x] + s
    else
      var rest := Insert(x, s[1..]);
      InsertBehindHead(x, s, rest);
      [s[0]] + rest
  }

  /** std::sort on a vector of distances: the same values in ascending order. */
  function Sort(s: seq<real>): (r: seq<real>)
    ensures SortedAscending(r) && multiset(r) == multiset(s)
  {
    assert s[..|s|] == s;
    SortFirst(s, |s|)
  }

  /** The first n distances of s, sorted by inserting them one at a time. */
  function SortFirst(s: seq<real>, n: nat): (r: seq<real>)
    requires n <= |s|
    ensures SortedAscending(r) && multiset(r) == multiset(s[..n])
  {
    if n == 0 then []
    else
      assert s[..n] == s[..n - 1] + [s[n - 1]];
      Insert(s[n - 1], SortFirst(s, n - 1))
  }

  lemma NonNegativeProduct(a: real, b: real)
    requires 0.0 <= a && 0.0 <= b
    ensures 0.0 <= a * b
  {
  }

  /** (int)(p * (size - 1)) for p in [0, 1]: a valid index, 0 for p = 0 and the last for p = 1. */
  function PercentileIndex(p: real, size: nat): (k: int)
    requires 0.0 <= p <= 1.0 && size > 0
    ensures 0 <= k < size
    ensures p == 0.0 ==> k == 0
    ensures p == 1.0 ==> k == size - 1
  {
    var n := (size - 1) as real;
    NonNegativeProduct(p, n);
    NonNegativeProduct(1.0 - p, n);
    assert n - p * n == (1.0 - p) * n;
    (p * n).Floor
  }

  /** vnl_huge_val(1.0): the value reported when exactly one surface has no points. */
  datatype Measure = Finite(value: real) | Huge

  /** Larger of two distances. */
  function Max(a: real, b: real): real
  {
    if a > b then a else b
  }

  /**
   * The percentile Hausdorff distance as written: H1 and H2 are read at the
   * percentile position of the distance lists in point order.
   */
  function HausdorffAsWritten(sqrt: real -> real, fixed: seq<Point>, moving: seq<Point>, p: real): Measure
    requires 0.0 <= p <= 1.0
  {
    if |moving| == 0 || |fixed| == 0 then
      if |moving| == |fixed| then Finite(0.0) else Huge
    else
      var d1 := DirectedDistances(sqrt, moving, fixed);
      var d2 := DirectedDistances(sqrt, fixed, moving);
      Finite(Max(d1[PercentileIndex(p, |d1|)], d2[PercentileIndex(p, |d2|)]))
  }

  /** The percentile Hausdorff distance: H1 and H2 are the p-percentiles of the sorted distance lists. */
  function Hausdorff(sqrt: real -> real, fixed: seq<Point>, moving: seq<Point>, p: real): Measure
    requires 0.0 <= p <= 1.0
  {
    if |moving| == 0 || |fixed| == 0 then
      if |moving| == |fixed| then Finite(0.0) else Huge
    else
      var d1 := Sort(DirectedDistances(sqrt, moving, fixed));
      var d2 := Sort(DirectedDistances(sqrt, fixed, moving));
      Finite(Max(d1[PercentileIndex(p, |d1|)], d2[PercentileIndex(p, |d2|)]))
  }

  /** Swapping the surfaces swaps H1 and H2, so the distance is symmetric. */
  lemma HausdorffSymmetric(sqrt: real -> real, a: seq<Point>, b: seq<Point>, p: real)
    requires 0.0 <= p <= 1.0
    ensures Hausdorff(sqrt, a, b, p) == Hausdorff(sqrt, b, a, p)
  {
  }

  /** The last element of a sorted permutation is the maximum of the list. */
  lemma SortedLastIsMax(s: seq<real>)
    requires |s| > 0
    ensures var r := Sort(s);
      (forall i :: 0 <= i < |s| ==> s[i] <= r[|r| - 1]) && r[|r| - 1] in s
  {
    PermutationLastIsMax(s, Sort(s));
  }

  /** The same for any sorted permutation r of s. */
  lemma PermutationLastIsMax(s: seq<real>, r: seq<real>)
    requires |s| > 0 && SortedAscending(r) && multiset(r) == multiset(s)
    ensures |r| == |s| && (forall i :: 0 <= i < |s| ==> s[i] <= r[|r| - 1]) && r[|r| - 1] in s
  {
    assert |r| == |s| by {
      assert |multiset(r)| == |multiset(s)|;
    }
    var last := r[|r| - 1];
    forall i | 0 <= i < |s|
      ensures s[i] <= last
    {
      assert s[i] in multiset(r);
      var k :| 0 <= k < |r| && r[k] == s[i];
    }
    assert last in multiset(s);
  }

  /**
   * With p = 1 the percentile distance is the Hausdorff distance: no
   * directed distance exceeds it, and it is one of them.
   */
  lemma HausdorffFullPercentileIsMax(sqrt: real -> real, fixed: seq<Point>, moving: seq<Point>)
    requires |fixed| > 0 && |moving| > 0
    ensures var h := Hausdorff(sqrt, fixed, moving, 1.0);
      var d1 := DirectedDistances(sqrt, moving, fixed);
      var d2 := DirectedDistances(sqrt, fixed, moving);
      h.Finite? &&
      (forall i :: 0 <= i < |d1| ==> d1[i] <= h.value) &&
      (forall j :: 0 <= j < |d2| ==> d2[j] <= h.value) &&
      (h.value in d1 || h.value in d2)
  {
    var d1 := DirectedDistances(sqrt, moving, fixed);
    var d2 := DirectedDistances(sqrt, fixed, moving);
    var r1, r2 := Sort(d1), Sort(d2);
    LargerOfLasts(d1, d2, r1, r2);
    assert PercentileIndex(1.0, |r1|) == |r1| - 1 && PercentileIndex(1.0, |r2|) == |r2| - 1;
    assert Hausdorff(sqrt, fixed, moving, 1.0) == Finite(Max(r1[|r1| - 1], r2[|r2| - 1]));
  }

  /** The larger of two sorted permutations' last elements bounds both lists and is one of their elements. */
  lemma LargerOfLasts(d1: seq<real>, d2: seq<real>, r1: seq<real>, r2: seq<real>)
    requires |d1| > 0 && SortedAscending(r1) && multiset(r1) == multiset(d1)
    requires |d2| > 0 && SortedAscending(r2) && multiset(r2) == multiset(d2)
    ensures |r1| == |d1| && |r2| == |d2|
    ensures var h := Max(r1[|r1| - 1], r2[|r2| - 1]);
      (forall i :: 0 <= i < |d1| ==> d1[i] <= h) &&
      (forall j :: 0 <= j < |d2| ==> d2[j] <= h) &&
      (h in d1 || h in d2)
  {
    PermutationLastIsMax(d1, r1);
    PermutationLastIsMax(d2, r2);
  }

  /** Sorting a list of zeros leaves zeros. */
  lemma SortZeros(s: seq<real>)
    requires forall i :: 0 <= i < |s| ==> s[i] == 0.0
    ensures forall i :: 0 <= i < |Sort(s)| ==> Sort(s)[i] == 0.0
  {
    var r := Sort(s);
    forall i | 0 <= i < |r| ensures r[i] == 0.0 {
      assert r[i] in multiset(s);
    }
  }

  /** A surface is at percentile Hausdorff distance 0 from itself. */
  lemma HausdorffSelfIsZero(sqrt: real -> real, s: seq<Point>, p: real)
    requires IsSqrt(sqrt) && 0.0 <= p <= 1.0
    ensures Hausdorff(sqrt, s, s, p) == Finite(0.0)
  {
    if |s| > 0 {
      var d := DirectedDistances(sqrt, s, s);
      forall i | 0 <= i < |s| ensures d[i] == 0.0 {
        NearestDistanceOfMember(sqrt, s, i);
      }
      SortZeros(d);
    }
  }

  /**
   * As written, with p = 1 the moving points (1,0,0), (0,0,0) against the
   * fixed point (0,0,0) give 0, the distance of the last moving point,
   * where the Hausdorff distance is 1.
   */
  lemma HausdorffAsWrittenIgnoresOrder(sqrt: real -> real)
    requires IsSqrt(sqrt)
    ensures HausdorffAsWritten(sqrt, [Point(0.0, 0.0, 0.0)], [Point(1.0, 0.0, 0.0), Point(0.0, 0.0, 0.0)], 1.0) == Finite(0.0)
    ensures Hausdorff(sqrt, [Point(0.0, 0.0, 0.0)], [Point(1.0, 0.0, 0.0), Point(0.0, 0.0, 0.0)], 1.0) == Finite(1.0)
  {
    var o, e := Point(0.0, 0.0, 0.0), Point(1.0, 0.0, 0.0);
    SqrtOfSquare(sqrt, 0.0);
    SqrtOfSquare(sqrt, 1.0);
    var d1 := DirectedDistances(sqrt, [e, o], [o]);
    var d2 := DirectedDistances(sqrt, [o], [e, o]);
    assert ClosestPointId([o], e) == 0;
    assert d1 == [1.0, 0.0];
    NearestDistanceOfMember(sqrt, [e, o], 1);
    assert d2 == [0.0];
    HausdorffFullPercentileIsMax(sqrt, [o], [e, o]);
    DirectedDistancesNonNegative(sqrt, [e, o], [o]);
    DirectedDistancesNonNegative(sqrt, [o], [e, o]);
    var h := Hausdorff(sqrt, [o], [e, o], 1.0);
    var v := h.value;
    assert 1.0 <= v;
    assert v in d1 || v in d2;
  }

  // ---------------------------------------------------------------------------
  // The max-max Haussdorff distance

  /** maxDist over a list: starts at 0 and takes every larger distance. */
  function MaxFold(ds: seq<real>): real
  {
    if ds == [] then 0.0
    else
      var m := MaxFold(ds[..|ds| - 1]);
      if ds[|ds| - 1] > m then ds[|ds| - 1] else m
  }

  /** maxDist2 as written: starts at 0 and takes every distance larger than maxDist1. */
  function LastAboveAsWritten(ds: seq<real>, maxDist1: real): real
  {
    if ds == [] then 0.0
    else if ds[|ds| - 1] > maxDist1 then ds[|ds| - 1]
    else LastAboveAsWritten(ds[..|ds| - 1], maxDist1)
  }

  /** MaxFold bounds every distance, is at least 0, and is 0 or one of the distances. */
  lemma {:induction false} MaxFoldSpec(ds: seq<real>)
    ensures MaxFold(ds) >= 0.0
    ensures forall i :: 0 <= i < |ds| ==> ds[i] <= MaxFold(ds)
    ensures MaxFold(ds) == 0.0 || MaxFold(ds) in ds
  {
    if ds != [] {
      var t := ds[..|ds| - 1];
      MaxFoldSpec(t);
      assert forall i :: 0 <= i < |t| ==> ds[i] == t[i];
      if MaxFold(ds) == MaxFold(t) && MaxFold(t) in t {
        var w :| 0 <= w < |t| && t[w] == MaxFold(t);
        assert ds[w] == MaxFold(ds);
      }
    }
  }

  /** The Haussdorff distance as written: the second maximum uses the wrong comparison. */
  function HaussdorffAsWritten(sqrt: real -> real, fixed: seq<Point>, moving: seq<Point>): real
    requires |moving| > 0 ==> |fixed| > 0
  {
    if |moving| == 0 then 0.0
    else
      var maxDist1 := MaxFold(DirectedDistances(sqrt, moving, fixed));
      var maxDist2 := LastAboveAsWritten(DirectedDistances(sqrt, fixed, moving), maxDist1);
      Max(maxDist1, maxDist2)
  }

  /** The Haussdorff distance: the larger of the two directed maxima; 0 without moving points. */
  function Haussdorff(sqrt: real -> real, fixed: seq<Point>, moving: seq<Point>): real
    requires |moving| > 0 ==> |fixed| > 0
  {
    if |moving| == 0 then 0.0
    else Max(MaxFold(DirectedDistances(sqrt, moving, fixed)), MaxFold(DirectedDistances(sqrt, fixed, moving)))
  }

  /** On non-negative distances the running maximum is the last element after sorting. */
  lemma MaxFoldIsSortedLast(ds: seq<real>)
    requires |ds| > 0 && forall i :: 0 <= i < |ds| ==> ds[i] >= 0.0
    ensures MaxFold(ds) == Sort(ds)[|Sort(ds)| - 1]
  {
    MaxFoldIsLastOf(ds, Sort(ds));
  }

  /** The same for any sorted permutation r of ds. */
  lemma MaxFoldIsLastOf(ds: seq<real>, r: seq<real>)
    requires |ds| > 0 && forall i :: 0 <= i < |ds| ==> ds[i] >= 0.0
    requires SortedAscending(r) && multiset(r) == multiset(ds)
    ensures |r| > 0 && MaxFold(ds) == r[|r| - 1]
  {
    MaxFoldSpec(ds);
    PermutationLastIsMax(ds, r);
    UpperBoundsMeet(ds, MaxFold(ds), r[|r| - 1]);
  }

  /** Two upper bounds of non-negative values, each 0 or one of the values, coincide. */
  lemma UpperBoundsMeet(ds: seq<real>, a: real, b: real)
    requires |ds| > 0 && forall i :: 0 <= i < |ds| ==> ds[i] >= 0.0
    requires forall i :: 0 <= i < |ds| ==> ds[i] <= a
    requires a == 0.0 || a in ds
    requires (forall i :: 0 <= i < |ds| ==> ds[i] <= b) && b in ds
    ensures a == b
  {
    var k :| 0 <= k < |ds| && ds[k] == b;
    if a != 0.0 {
      var w :| 0 <= w < |ds| && ds[w] == a;
    }
  }

  /** On two non-empty surfaces the max-max distance equals the percentile distance at p = 1. */
  lemma HaussdorffIsFullPercentile(sqrt: real -> real, fixed: seq<Point>, moving: seq<Point>)
    requires IsSqrt(sqrt) && |fixed| > 0 && |moving| > 0
    ensures Hausdorff(sqrt, fixed, moving, 1.0) == Finite(Haussdorff(sqrt, fixed, moving))
  {
    var d1 := DirectedDistances(sqrt, moving, fixed);
    var d2 := DirectedDistances(sqrt, fixed, moving);
    DirectedDistancesNonNegative(sqrt, moving, fixed);
    DirectedDistancesNonNegative(sqrt, fixed, moving);
    MaxFoldIsSortedLast(d1);
    MaxFoldIsSortedLast(d2);
    var s1, s2 := Sort(d1), Sort(d2);
    assert PercentileIndex(1.0, |s1|) == |s1| - 1;
    assert PercentileIndex(1.0, |s2|) == |s2| - 1;
    assert Hausdorff(sqrt, fixed, moving, 1.0) == Finite(Max(s1[|s1| - 1], s2[|s2| - 1]));
  }

  /** A surface is at Haussdorff distance 0 from itself. */
  lemma HaussdorffSelfIsZero(sqrt: real -> real, s: seq<Point>)
    requires IsSqrt(sqrt)
    ensures Haussdorff(sqrt, s, s) == 0.0
  {
    if |s| > 0 {
      var d := DirectedDistances(sqrt, s, s);
      forall i | 0 <= i < |s| ensures d[i] == 0.0 {
        NearestDistanceOfMember(sqrt, s, i);
      }
      MaxFoldSpec(d);
    }
  }

  /**
   * As written, a moving point (0,0,0) against fixed points (3,0,0),
   * (2,0,0), (0,0,0) gives 2, the last fixed distance above maxDist1 = 0,
   * where the Haussdorff distance is 3.
   */
  lemma HaussdorffAsWrittenTakesLastAbove(sqrt: real -> real)
    requires IsSqrt(sqrt)
    ensures HaussdorffAsWritten(sqrt, [Point(3.0, 0.0, 0.0), Point(2.0, 0.0, 0.0), Point(0.0, 0.0, 0.0)], [Point(0.0, 0.0, 0.0)]) == 2.0
    ensures Haussdorff(sqrt, [Point(3.0, 0.0, 0.0), Point(2.0, 0.0, 0.0), Point(0.0, 0.0, 0.0)], [Point(0.0, 0.0, 0.0)]) == 3.0
  {
    var o, a, b := Point(0.0, 0.0, 0.0), Point(3.0, 0.0, 0.0), Point(2.0, 0.0, 0.0);
    var fixed := [a, b, o];
    SqrtOfSquare(sqrt, 0.0);
    SqrtOfSquare(sqrt, 2.0);
    SqrtOfSquare(sqrt, 3.0);
    NearestDistanceOfMember(sqrt, fixed, 2);
    var d1 := DirectedDistances(sqrt, [o], fixed);
    assert d1 == [0.0];
    assert MaxFold(d1) == 0.0 by {
      assert d1[..0] == [];
    }
    var d2 := DirectedDistances(sqrt, fixed, [o]);
    assert ClosestPointId([o], a) == 0 && ClosestPointId([o], b) == 0;
    assert SquaredDistance(a, o) == 3.0 * 3.0 && SquaredDistance(b, o) == 2.0 * 2.0;
    assert d2[0] == 3.0 && d2[1] == 2.0;
    NearestDistanceOfMember(sqrt, [o], 0);
    assert d2 == [3.0, 2.0, 0.0];
    assert d2[..2] == [3.0, 2.0] && d2[..2][..1] == [3.0] && d2[..2][..1][..0] == [];
    assert LastAboveAsWritten(d2, 0.0) == 2.0;
    assert MaxFold(d2[..2][..1]) == 3.0;
    assert MaxFold(d2[..2]) == 3.0;
    assert d2[..3] == d2;
  }

  // ---------------------------------------------------------------------------
  // The metric objects

  /** SurfaceToSurfaceMetric: holds the fixed and the moving surface. */
  class SurfaceToSurfaceMetric {
    var fixedSurface: Option<Surface>
    var movingSurface: Option<Surface>

    constructor ()
      ensures fixedSurface == None && movingSurface == None
    {
      fixedSurface := None;
      movingSurface := None;
    }

    method SetFixedSurface(pd: Surface)
      modifies this
      ensures fixedSurface == Some(pd) && movingSurface == old(movingSurface)
    {
      fixedSurface := Some(pd);
    }

    method GetFixedSurface() returns (pd: Option<Surface>)
      ensures pd == fixedSurface
    {
      pd := fixedSurface;
    }

    method SetMovingSurface(pd: Surface)
      modifies this
      ensures movingSurface == Some(pd) && fixedSurface == old(fixedSurface)
    {
      movingSurface := Some(pd);
    }

    method GetMovingSurface() returns (pd: Option<Surface>)
      ensures pd == movingSurface
    {
      pd := movingSurface;
    }
  }

  /** ClosestDistanceSurfaceToSurfaceMetric: mean distance from the moving points to the fixed surface. */
  class ClosestDistanceSurfaceToSurfaceMetric {
    var fixedSurface: Option<Surface>
    var movingSurface: Option<Surface>
    var fixedPointLocator: KdTreePointLocator?

    /** The locator is built over the current fixed surface. */
    predicate Valid()
      reads this
    {
      fixedSurface.Some? ==> fixedPointLocator != null && fixedPointLocator.points == fixedSurface.value.points
    }

    constructor ()
      ensures Valid() && fixedSurface == None && movingSurface == None
    {
      fixedSurface := None;
      movingSurface := None;
      fixedPointLocator := null;
    }

    /** Stores the surface and builds a new locator over it. */
    method SetFixedSurface(pd: Surface)
      modifies this
      ensures Valid() && fixedSurface == Some(pd) && movingSurface == old(movingSurface)
    {
      fixedSurface := Some(pd);
      fixedPointLocator := new KdTreePointLocator(pd);
    }

    method SetMovingSurface(pd: Surface)
      requires Valid()
      modifies this
      ensures Valid() && movingSurface == Some(pd) && fixedSurface == old(fixedSurface)
    {
      movingSurface := Some(pd);
    }

    /** 0 without moving points, else the mean over moving points of the distance to their closest fixed point. */
    method GetValue(sqrt: real -> real) returns (value: real)
      requires Valid() && fixedSurface.Some? && movingSurface.Some?
      requires |movingSurface.value.points| > 0 ==> |fixedSurface.value.points| > 0
      ensures value == MeanClosestDistance(sqrt, fixedSurface.value.points, movingSurface.value.points)
    {
      var fixedPts := fixedSurface.value.points;
      var movingPts := movingSurface.value.points;
      if |movingPts| == 0 {
        return 0.0;
      }
      ghost var ds := DirectedDistances(sqrt, movingPts, fixedPts);
      var sumDist := 0.0;
      var i := 0;
      while i < |movingPts|
        invariant 0 <= i <= |movingPts|
        invariant sumDist == Sum(ds[..i])
      {
        var x := movingPts[i];
        var fixedId := fixedPointLocator.FindClosestPoint(x);
        ClosestPointIdIsNearest(fixedPts, x);
        var y := fixedPts[fixedId];
        var dist := SquaredDistanceLoop(x, y);
        assert ds[..i + 1][..i] == ds[..i];
        sumDist := sumDist + sqrt(dist);
        i := i + 1;
      }
      assert ds[..|movingPts|] == ds;
      return sumDist / (|movingPts| as real);
    }
  }

  /** HausdorffDistanceSurfaceToSurfaceMetric: the percentile Hausdorff distance. */
  class HausdorffDistanceSurfaceToSurfaceMetric {
    var fixedSurface: Option<Surface>
    var movingSurface: Option<Surface>
    var fixedPointLocator: KdTreePointLocator?
    var movingPointLocator: KdTreePointLocator?
    var percentile: Option<real>

    /** Both locators are built over the current surfaces and the percentile lies in [0, 1]. */
    predicate Valid()
      reads this
    {
      (fixedSurface.Some? ==> fixedPointLocator != null && fixedPointLocator.points == fixedSurface.value.points) &&
      (movingSurface.Some? ==> movingPointLocator != null && movingPointLocator.points == movingSurface.value.points) &&
      (percentile.Some? ==> 0.0 <= percentile.value <= 1.0)
    }

    constructor ()
      ensures Valid() && fixedSurface == None && movingSurface == None && percentile == None
    {
      fixedSurface := None;
      movingSurface := None;
      fixedPointLocator := null;
      movingPointLocator := null;
      percentile := None;
    }

    method SetFixedSurface(pd: Surface)
      requires Valid()
      modifies this
      ensures Valid() && fixedSurface == Some(pd)
      ensures movingSurface == old(movingSurface) && percentile == old(percentile)
    {
      fixedSurface := Some(pd);
      fixedPointLocator := new KdTreePointLocator(pd);
    }

    method SetMovingSurface(pd: Surface)
      requires Valid()
      modifies this
      ensures Valid() && movingSurface == Some(pd)
      ensures fixedSurface == old(fixedSurface) && percentile == old(percentile)
    {
      movingSurface := Some(pd);
      movingPointLocator := new KdTreePointLocator(pd);
    }

    /** A percentile outside [0, 1] is refused with an error and leaves the metric as it was. */
    method SetPercentile(p: real) returns (r: Result<(), string>)
      requires Valid()
      modifies this
      ensures Valid()
      ensures r.Err? <==> p < 0.0 || p > 1.0
      ensures r.Err? ==> percentile == old(percentile)
      ensures r.Ok? ==> percentile == Some(p)
      ensures fixedSurface == old(fixedSurface) && movingSurface == old(movingSurface)
    {
      if p < 0.0 || p > 1.0 {
        return Err("Percentile needs to be in [0,1]");
      }
      percentile := Some(p);
      return Ok(());
    }

    /** The list of distances from each point of `from` to the closest point of the locator's surface. */
    static method Distances(sqrt: real -> real, from: seq<Point>, locator: KdTreePointLocator) returns (ds: seq<real>)
      requires |from| > 0 ==> |locator.points| > 0
      ensures ds == DirectedDistances(sqrt, from, locator.points)
    {
      ds := [];
      var i := 0;
      while i < |from|
        invariant 0 <= i <= |from|
        invariant ds == DirectedDistances(sqrt, from, locator.points)[..i]
      {
        var x := from[i];
        var id := locator.FindClosestPoint(x);
        ClosestPointIdIsNearest(locator.points, x);
        var y := locator.points[id];
        var dist := SquaredDistanceLoop(x, y);
        ds := ds + [sqrt(dist)];
        i := i + 1;
      }
    }

    /** The larger of the two directed percentile distances; 0 or huge when a surface has no points. */
    method GetValue(sqrt: real -> real) returns (value: Measure)
      requires Valid() && fixedSurface.Some? && movingSurface.Some? && percentile.Some?
      ensures value == Hausdorff(sqrt, fixedSurface.value.points, movingSurface.value.points, percentile.value)
    {
      var fixedPts := fixedSurface.value.points;
      var movingPts := movingSurface.value.points;
      if |movingPts| == 0 || |fixedPts| == 0 {
        if |movingPts| == |fixedPts| {
          return Finite(0.0);
        }
        return Huge;
      }
      var distances1 := Distances(sqrt, movingPts, fixedPointLocator);
      var distances2 := Distances(sqrt, fixedPts, movingPointLocator);
      distances1 := Sort(distances1);
      distances2 := Sort(distances2);
      var p := percentile.value;
      var h1 := distances1[PercentileIndex(p, |distances1|)];
      var h2 := distances2[PercentileIndex(p, |distances2|)];
      return Finite(if h1 > h2 then h1 else h2);
    }
  }

  /** HaussdorffDistanceSurfaceToSurfaceMetric: the larger of the two directed maximum distances. */
  class HaussdorffDistanceSurfaceToSurfaceMetric {
    var fixedSurface: Option<Surface>
    var movingSurface: Option<Surface>
    var fixedPointLocator: KdTreePointLocator?
    var movingPointLocator: KdTreePointLocator?

    predicate Valid()
      reads this
    {
      (fixedSurface.Some? ==> fixedPointLocator != null && fixedPointLocator.points == fixedSurface.value.points) &&
      (movingSurface.Some? ==> movingPointLocator != null && movingPointLocator.points == movingSurface.value.points)
    }

    constructor ()
      ensures Valid() && fixedSurface == None && movingSurface == None
    {
      fixedSurface := None;
      movingSurface := None;
      fixedPointLocator := null;
      movingPointLocator := null;
    }

    method SetFixedSurface(pd: Surface)
      requires Valid()
      modifies this
      ensures Valid() && fixedSurface == Some(pd) && movingSurface == old(movingSurface)
    {
      fixedSurface := Some(pd);
      fixedPointLocator := new KdTreePointLocator(pd);
    }

    method SetMovingSurface(pd: Surface)
      requires Valid()
      modifies this
      ensures Valid() && movingSurface == Some(pd) && fixedSurface == old(fixedSurface)
    {
      movingSurface := Some(pd);
      movingPointLocator := new KdTreePointLocator(pd);
    }

    /** The running maximum of the distances from `from` to the locator's surface. */
    static method MaxDistance(sqrt: real -> real, from: seq<Point>, locator: KdTreePointLocator) returns (maxDist: real)
      requires |from| > 0 ==> |locator.points| > 0
      ensures maxDist == MaxFold(DirectedDistances(sqrt, from, locator.points))
    {
      ghost var ds := DirectedDistances(sqrt, from, locator.points);
      maxDist := 0.0;
      var i := 0;
      while i < |from|
        invariant 0 <= i <= |from|
        invariant maxDist == MaxFold(ds[..i])
      {
        var x := from[i];
        var id := locator.FindClosestPoint(x);
        ClosestPointIdIsNearest(locator.points, x);
        var y := locator.points[id];
        var dist := SquaredDistanceLoop(x, y);
        var distI := sqrt(dist);
        assert ds[..i + 1][..i] == ds[..i];
        if distI > maxDist {
          maxDist := distI;
        }
        i := i + 1;
      }
      assert ds[..|from|] == ds;
    }

    /** 0 without moving points, else the larger of the two directed maximum distances. */
    method GetValue(sqrt: real -> real) returns (value: real)
      requires Valid() && fixedSurface.Some? && movingSurface.Some?
      requires |movingSurface.value.points| > 0 ==> |fixedSurface.value.points| > 0
      ensures value == Haussdorff(sqrt, fixedSurface.value.points, movingSurface.value.points)
    {
      var fixedPts := fixedSurface.value.points;
      var movingPts := movingSurface.value.points;
      if |movingPts| == 0 {
        return 0.0;
      }
      var maxDist1 := MaxDistance(sqrt, movingPts, fixedPointLocator);
      var maxDist2 := MaxDistance(sqrt, fixedPts, movingPointLocator);
      return if maxDist1 > maxDist2 then maxDist1 else maxDist2;
    }
  }
}
