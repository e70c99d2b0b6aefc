/**
 * Lloyd's k-means clustering over n-dimensional Euclidean points, modelled
 * on js/algorithms/k-means.js. Coordinates are mathematical reals; the
 * source's only source of randomness, Math.random, is a sequence of draws
 * in [0, 1) passed in by the caller.
 */
module KMeans {

  datatype Option<T> = None | Some(value: T)

  /** A data point or a centroid: one coordinate per dimension. */
  type Point = seq<real>

  function Square(x: real): real { x * x }

  // ---------------------------------------------------------------------
  // Squared Euclidean distance
  // ---------------------------------------------------------------------

  /**
   * The sum, over the coordinates of a, of (a[i] - b[i])^2. The source loops
   * over a.length only, so b may be longer; a shorter b is never measured
   * (see Comparable).
   */
  function DistanceSq(a: Point, b: Point): real
    requires |a| <= |b|
    decreases |a|
  {
    if |a| == 0 then 0.0
    else DistanceSq(a[..|a| - 1], b) + Square(a[|a| - 1] - b[|a| - 1])
  }

  lemma SquareNonNegative(x: real)
    ensures Square(x) >= 0.0
  {
    if x < 0.0 {
      assert Square(x) == (-x) * (-x);
    }
  }

  lemma {:induction false} DistanceSqNonNegative(a: Point, b: Point)
    requires |a| <= |b|
    ensures DistanceSq(a, b) >= 0.0
  {
    if |a| > 0 {
      DistanceSqNonNegative(a[..|a| - 1], b);
      SquareNonNegative(a[|a| - 1] - b[|a| - 1]);
    }
  }

  lemma SquarePositive(x: real)
    requires x != 0.0
    ensures Square(x) > 0.0
  {
    var y := if x > 0.0 then x else -x;
    calc {
      Square(x);
      y * y;
    > { assert y * y > 0.0 * y; }
      0.0;
    }
  }

  /** The distance is zero exactly when b agrees with a on a's coordinates. */
  lemma {:induction false} DistanceSqZeroIff(a: Point, b: Point)
    requires |a| <= |b|
    ensures DistanceSq(a, b) == 0.0 <==> a == b[..|a|]
  {
    if |a| > 0 {
      var n := |a| - 1;
      DistanceSqZeroIff(a[..n], b);
      DistanceSqNonNegative(a[..n], b);
      SquareNonNegative(a[n] - b[n]);
      if a == b[..|a|] {
        assert a[..n] == b[..n];
      } else if DistanceSq(a, b) == 0.0 {
        assert a[..n] == b[..n];
        if a[n] != b[n] {
          SquarePositive(a[n] - b[n]);
        }
        forall k | 0 <= k < |a|
          ensures a[k] == b[..|a|][k]
        {
          if k < n {
            assert a[k] == a[..n][k];
          }
        }
      }
    }
  }

  /** Coordinates of b beyond a's dimension are never measured. */
  lemma {:induction false} DistanceSqIgnoresTail(a: Point, b: Point, m: nat)
    requires |a| <= m <= |b|
    ensures DistanceSq(a, b) == DistanceSq(a, b[..m])
  {
    if |a| > 0 {
      DistanceSqIgnoresTail(a[..|a| - 1], b, m);
    }
  }

  lemma {:induction false} DistanceSqSymmetric(a: Point, b: Point)
    requires |a| == |b|
    ensures DistanceSq(a, b) == DistanceSq(b, a)
  {
    if |a| > 0 {
      var n := |a| - 1;
      DistanceSqIgnoresTail(a[..n], b, n);
      DistanceSqIgnoresTail(b[..n], a, n);
      DistanceSqSymmetric(a[..n], b[..n]);
      assert Square(a[n] - b[n]) == Square(b[n] - a[n]);
    }
  }

  /** calculateDistanceSquared: a loop accumulating (a[i] - b[i])^2. */
  method CalculateDistanceSquared(a: Point, b: Point) returns (sum: real)
    requires |a| <= |b|
    ensures sum == DistanceSq(a, b)
    ensures sum >= 0.0
  {
    sum := 0.0;
    for i := 0 to |a|
      invariant sum == DistanceSq(a[..i], b)
    {
      var diff := a[i] - b[i];
      assert a[..i + 1][..i] == a[..i];
      sum := sum + diff * diff;
    }
    assert a[..|a|] == a;
    DistanceSqNonNegative(a, b);
  }

  // ---------------------------------------------------------------------
  // Nearest centroid and repartitioning
  // ---------------------------------------------------------------------

  /**
   * A centroid can be measured against a point when it has at least the
   * point's dimension. In the source a shorter centroid (the empty centroid
   * that average([]) produces) yields a NaN distance, which never passes the
   * strict `<` test, so such a centroid is never chosen.
   */
  predicate Comparable(point: Point, centroid: Point)
  {
    |point| <= |centroid|
  }

  predicate NoneComparable(point: Point, centroids: seq<Point>)
  {
    forall i | 0 <= i < |centroids| :: !Comparable(point, centroids[i])
  }

  /**
   * k is the index that findIndexOfClosestCentroid returns: -1 when no
   * centroid can be measured, otherwise a nearest centroid, and the first one
   * among equally near centroids.
   */
  predicate IsClosest(point: Point, centroids: seq<Point>, k: int)
  {
    if NoneComparable(point, centroids) then k == -1
    else
      && 0 <= k < |centroids|
      && Comparable(point, centroids[k])
      && (forall i | 0 <= i < |centroids| && Comparable(point, centroids[i]) ::
            DistanceSq(point, centroids[k]) <= DistanceSq(point, centroids[i]))
      && (forall i | 0 <= i < k && Comparable(point, centroids[i]) ::
            DistanceSq(point, centroids[k]) < DistanceSq(point, centroids[i]))
  }

  /** IsClosest determines the index uniquely. */
  lemma IsClosestUnique(point: Point, centroids: seq<Point>, k1: int, k2: int)
    requires IsClosest(point, centroids, k1) && IsClosest(point, centroids, k2)
    ensures k1 == k2
  {
  }

  /** findIndexOfClosestCentroid; an unset minimum stands for +Infinity. */
  method FindIndexOfClosestCentroid(point: Point, centroids: seq<Point>) returns (closestIndex: int)
    ensures IsClosest(point, centroids, closestIndex)
    ensures closestIndex == -1 <==> NoneComparable(point, centroids)
  {
    closestIndex := -1;
    var shortestDistance: Option<real> := None;
    for i := 0 to |centroids|
      invariant -1 <= closestIndex < i
      invariant closestIndex == -1 <==> shortestDistance.None?
      invariant closestIndex == -1 <==> forall j | 0 <= j < i :: !Comparable(point, centroids[j])
      invariant closestIndex >= 0 ==>
        && Comparable(point, centroids[closestIndex])
        && shortestDistance.value == DistanceSq(point, centroids[closestIndex])
        && (forall j | 0 <= j < i && Comparable(point, centroids[j]) ::
              shortestDistance.value <= DistanceSq(point, centroids[j]))
        && (forall j | 0 <= j < closestIndex && Comparable(point, centroids[j]) ::
              shortestDistance.value < DistanceSq(point, centroids[j]))
    {
      if Comparable(point, centroids[i]) {
        var distance := CalculateDistanceSquared(point, centroids[i]);
        if shortestDistance.None? || distance < shortestDistance.value {
          closestIndex := i;
          shortestDistance := Some(distance);
        }
      }
    }
  }

  /** part assigns to every point its closest centroid. */
  predicate IsPartition(points: seq<Point>, centroids: seq<Point>, part: seq<int>)
  {
    && |part| == |points|
    && forall i | 0 <= i < |points| :: IsClosest(points[i], centroids, part[i])
  }

  /** localRepartition: the closest-centroid index of every point, in order. */
  method LocalRepartition(points: seq<Point>, centroids: seq<Point>) returns (partitioning: seq<int>)
    ensures IsPartition(points, centroids, partitioning)
  {
    partitioning := [];
    for i := 0 to |points|
      invariant |partitioning| == i
      invariant forall k | 0 <= k < i :: IsClosest(points[k], centroids, partitioning[k])
    {
      var closest := FindIndexOfClosestCentroid(points[i], centroids);
      partitioning := partitioning + [closest];
    }
  }

  /**
   * Every entry of part names a centroid that can be measured against its
   * point: what calculateTotalSquaredError needs of centroids[partitioning[i]].
   */
  predicate ValidAssignment(points: seq<Point>, centroids: seq<Point>, part: seq<int>)
  {
    && |part| == |points|
    && forall i | 0 <= i < |points| ::
         0 <= part[i] < |centroids| && Comparable(points[i], centroids[part[i]])
  }

  /** A partition is a valid assignment once every point has some measurable centroid. */
  lemma PartitionIsValidAssignment(points: seq<Point>, centroids: seq<Point>, part: seq<int>)
    requires IsPartition(points, centroids, part)
    requires forall i | 0 <= i < |points| :: !NoneComparable(points[i], centroids)
    ensures ValidAssignment(points, centroids, part)
  {
  }

  // ---------------------------------------------------------------------
  // Squared error
  // ---------------------------------------------------------------------

  /** The sum over all points of the squared distance to the assigned centroid. */
  function TotalError(points: seq<Point>, centroids: seq<Point>, part: seq<int>): real
    requires ValidAssignment(points, centroids, part)
    decreases |points|
  {
    if |points| == 0 then 0.0
    else
      var n := |points| - 1;
      TotalError(points[..n], centroids, part[..n]) + DistanceSq(points[n], centroids[part[n]])
  }

  lemma {:induction false} TotalErrorNonNegative(points: seq<Point>, centroids: seq<Point>, part: seq<int>)
    requires ValidAssignment(points, centroids, part)
    ensures TotalError(points, centroids, part) >= 0.0
  {
    if |points| > 0 {
      var n := |points| - 1;
      TotalErrorNonNegative(points[..n], centroids, part[..n]);
      DistanceSqNonNegative(points[n], centroids[part[n]]);
    }
  }

  /**
   * The assignment step never increases the error: assigning every point to
   * its closest centroid gives a total no larger than any other assignment.
   */
  lemma {:induction false} ClosestAssignmentMinimizesError(
    points: seq<Point>, centroids: seq<Point>, part: seq<int>, other: seq<int>)
    requires IsPartition(points, centroids, part)
    requires ValidAssignment(points, centroids, part)
    requires ValidAssignment(points, centroids, other)
    ensures TotalError(points, centroids, part) <= TotalError(points, centroids, other)
  {
    if |points| > 0 {
      var n := |points| - 1;
      assert IsClosest(points[n], centroids, part[n]);
      ClosestAssignmentMinimizesError(points[..n], centroids, part[..n], other[..n]);
    }
  }

  /** calculateTotalSquaredError. */
  method CalculateTotalSquaredError(points: seq<Point>, centroids: seq<Point>, partitioning: seq<int>)
    returns (totalSquaredError: real)
    requires ValidAssignment(points, centroids, partitioning)
    ensures totalSquaredError == TotalError(points, centroids, partitioning)
    ensures totalSquaredError >= 0.0
  {
    totalSquaredError := 0.0;
    for i := 0 to |points|
      invariant ValidAssignment(points[..i], centroids, partitioning[..i])
      invariant totalSquaredError == TotalError(points[..i], centroids, partitioning[..i])
    {
      var d := CalculateDistanceSquared(points[i], centroids[partitioning[i]]);
      assert points[..i + 1][..i] == points[..i];
      assert partitioning[..i + 1][..i] == partitioning[..i];
      totalSquaredError := totalSquaredError + d;
    }
    assert points[..|points|] == points;
    assert partitioning[..|points|] == partitioning;
    TotalErrorNonNegative(points, centroids, partitioning);
  }

  /**
   * calculateMeanSquaredError: the dimension is taken from points[0], as in
   * the source, which assumes every point has it.
   */
  method CalculateMeanSquaredError(points: seq<Point>, centroids: seq<Point>, partitioning: seq<int>)
    returns (mse: real)
    requires |points| > 0 && |points[0]| > 0
    requires ValidAssignment(points, centroids, partitioning)
    ensures mse * ((|points| * |points[0]|) as real) == TotalError(points, centroids, partitioning)
    ensures mse >= 0.0
  {
    var numPoints := |points|;
    var numDimensions := |points[0]|;
    var totalSquaredError := CalculateTotalSquaredError(points, centroids, partitioning);
    mse := totalSquaredError / ((numPoints * numDimensions) as real);
  }

  // ---------------------------------------------------------------------
  // Componentwise average
  // ---------------------------------------------------------------------

  /** Every point has exactly d coordinates. */
  predicate HasDimension(points: seq<Point>, d: nat)
  {
    forall i | 0 <= i < |points| :: |points[i]| == d
  }

  /** Coordinate j of p, read as 0 where p has none (the source's `|| 0`). */
  function Coordinate(p: Point, j: nat): real
  {
    if j < |p| then p[j] else 0.0
  }

  /** The largest dimension among the points: the length average() builds. */
  function MaxDimension(points: seq<Point>): nat
    decreases |points|
  {
    if |points| == 0 then 0
    else
      var d := MaxDimension(points[..|points| - 1]);
      if d < |points[|points| - 1]| then |points[|points| - 1]| else d
  }

  lemma {:induction false} MaxDimensionOfUniform(points: seq<Point>, d: nat)
    requires |points| > 0 && HasDimension(points, d)
    ensures MaxDimension(points) == d
  {
    if |points| > 1 {
      MaxDimensionOfUniform(points[..|points| - 1], d);
    }
  }

  /** The sum of coordinate j over the points. */
  function ColumnSum(points: seq<Point>, j: nat): real
    decreases |points|
  {
    if |points| == 0 then 0.0
    else ColumnSum(points[..|points| - 1], j) + Coordinate(points[|points| - 1], j)
  }

  /**
   * The componentwise arithmetic mean, as long as the longest point; the
   * empty sequence has mean [].
   */
  function Mean(points: seq<Point>): Point
  {
    if |points| == 0 then []
    else seq(MaxDimension(points), j requires 0 <= j => ColumnSum(points, j) / (|points| as real))
  }

  /** The sum of points[i][j] / m, the quantity the source accumulates. */
  function ScaledColumnSum(points: seq<Point>, j: nat, m: real): real
    requires m != 0.0
    decreases |points|
  {
    if |points| == 0 then 0.0
    else ScaledColumnSum(points[..|points| - 1], j, m) + Coordinate(points[|points| - 1], j) / m
  }

  /** Dividing every term by m is dividing the sum by m. */
  lemma {:induction false} ScaledColumnSumIsColumnSumOver(points: seq<Point>, j: nat, m: real)
    requires m != 0.0
    ensures ScaledColumnSum(points, j, m) == ColumnSum(points, j) / m
  {
    if |points| > 0 {
      var n := |points| - 1;
      ScaledColumnSumIsColumnSumOver(points[..n], j, m);
      DivisionDistributes(ColumnSum(points[..n], j), Coordinate(points[n], j), m);
    }
  }

  lemma DivisionDistributes(a: real, b: real, m: real)
    requires m != 0.0
    ensures a / m + b / m == (a + b) / m
  {
  }

  /**
   * average: means[j] starts out missing (read as 0 through `|| 0`) and each
   * point adds points[i][j] / points.length to it.
   */
  method Average(points: seq<Point>) returns (means: Point)
    ensures means == Mean(points)
    ensures |means| == MaxDimension(points)
  {
    means := [];
    if |points| == 0 {
      return;
    }
    var m := |points| as real;
    for i := 0 to |points|
      invariant |means| == MaxDimension(points[..i])
      invariant forall k | 0 <= k < |means| :: means[k] == ScaledColumnSum(points[..i], k, m)
    {
      assert points[..i + 1][..i] == points[..i];
      ghost var before := means;
      for j := 0 to |points[i]|
        invariant |means| == if j < |before| then |before| else j
        invariant forall k | 0 <= k < |means| ::
          means[k] == if k < j then ScaledColumnSum(points[..i], k, m) + points[i][k] / m
                      else before[k]
      {
        var prior := if j < |means| then means[j] else 0.0;
        var sum := prior + points[i][j] / m;
        if j < |means| {
          means := means[j := sum];
        } else {
          assert j == |means| && j >= |before|;
          assert ScaledColumnSum(points[..i], j, m) == 0.0 by {
            ScaledColumnSumBeyond(points[..i], j, m);
          }
          means := means + [sum];
        }
      }
    }
    assert points[..|points|] == points;
    forall j | 0 <= j < |means|
      ensures means[j] == ColumnSum(points, j) / m
    {
      ScaledColumnSumIsColumnSumOver(points, j, m);
    }
  }

  /** A coordinate beyond every point's dimension sums to 0. */
  lemma {:induction false} ScaledColumnSumBeyond(points: seq<Point>, j: nat, m: real)
    requires m != 0.0
    requires MaxDimension(points) <= j
    ensures ScaledColumnSum(points, j, m) == 0.0
  {
    if |points| > 0 {
      ScaledColumnSumBeyond(points[..|points| - 1], j, m);
    }
  }

  // ---------------------------------------------------------------------
  // Clusters and their means
  // ---------------------------------------------------------------------

  /** points.filter((elem, index) => part[index] === j), in input order. */
  function Members(points: seq<Point>, part: seq<int>, j: int): (r: seq<Point>)
    requires |part| == |points|
    ensures |r| <= |points|
    ensures forall x | x in r :: x in points
    ensures forall i | 0 <= i < |points| && part[i] == j :: points[i] in r
    decreases |points|
  {
    if |points| == 0 then []
    else
      var n := |points| - 1;
      var rest := Members(points[..n], part[..n], j);
      assert forall i | 0 <= i < n && part[i] == j :: points[i] in rest by {
        forall i | 0 <= i < n && part[i] == j ensures points[i] in rest {
          assert points[..n][i] == points[i] && part[..n][i] == part[i];
        }
      }
      if part[n] == j then rest + [points[n]] else rest
  }

  /** The members of a cluster of d-dimensional points are d-dimensional. */
  lemma MembersHaveDimension(points: seq<Point>, part: seq<int>, j: int, d: nat)
    requires |part| == |points| && HasDimension(points, d)
    ensures HasDimension(Members(points, part, j), d)
  {
    var r := Members(points, part, j);
    forall i | 0 <= i < |r| ensures |r[i]| == d {
      assert r[i] in r;
    }
  }

  /** The componentwise mean of the members of cluster j, for every j < k. */
  function Means(points: seq<Point>, part: seq<int>, k: nat): (r: seq<Point>)
    requires |part| == |points|
    ensures |r| == k
  {
    seq(k, j => Mean(Members(points, part, j)))
  }

  // ---------------------------------------------------------------------
  // Random initial centroids
  // ---------------------------------------------------------------------

  /** Draws of Math.random: each in [0, 1). */
  predicate ValidDraws(randoms: seq<real>)
  {
    forall t | 0 <= t < |randoms| :: 0.0 <= randoms[t] < 1.0
  }

  /** Math.floor((i + 1) * r): an index in [0, i]. */
  function DrawIndex(i: nat, r: real): (index: nat)
    requires 0.0 <= r < 1.0
    ensures index <= i
  {
    var n := (i + 1) as real;
    ScaleBelow(n, r);
    (n * r).Floor
  }

  lemma ScaleBelow(n: real, r: real)
    requires n > 0.0 && 0.0 <= r < 1.0
    ensures 0.0 <= n * r < n
  {
    assert n - n * r == n * (1.0 - r);
    assert n * (1.0 - r) > 0.0;
  }

  /** s with the elements at i and j exchanged. */
  function Swap<T>(s: seq<T>, i: nat, j: nat): (r: seq<T>)
    requires i < |s| && j < |s|
    ensures |r| == |s|
  {
    s[i := s[j]][j := s[i]]
  }

  lemma SwapPermutes<T>(s: seq<T>, i: nat, j: nat)
    requires i < |s| && j < |s|
    ensures multiset(Swap(s, i, j)) == multiset(s)
  {
  }

  /**
   * The contents of `shuffled` once the swaps for positions |s|-1 down to i
   * are done; the swap for position p uses the draw randoms[|s| - 1 - p].
   */
  function Shuffled<T>(s: seq<T>, i: nat, randoms: seq<real>): (r: seq<T>)
    requires i <= |s| && |s| - i <= |randoms| && ValidDraws(randoms)
    ensures |r| == |s|
    decreases |s| - i
  {
    if i == |s| then s
    else Swap(Shuffled(s, i + 1, randoms), DrawIndex(i, randoms[|s| - 1 - i]), i)
  }

  /** One swap step keeps the contents. */
  lemma ShuffleStepPermutes<T>(s: seq<T>, i: nat, randoms: seq<real>)
    requires i < |s| && |s| - i <= |randoms| && ValidDraws(randoms)
    ensures multiset(Shuffled(s, i, randoms)) == multiset(Shuffled(s, i + 1, randoms))
  {
    var before := Shuffled(s, i + 1, randoms);
    SwapPermutes(before, DrawIndex(i, randoms[|s| - 1 - i]), i);
  }

  /** shuffled stays a permutation of the input at every step. */
  lemma {:induction false} ShuffledPermutes<T>(s: seq<T>, i: nat, randoms: seq<real>)
    requires i <= |s| && |s| - i <= |randoms| && ValidDraws(randoms)
    ensures multiset(Shuffled(s, i, randoms)) == multiset(s)
    decreases |s| - i
  {
    if i < |s| {
      ShuffledPermutes(s, i + 1, randoms);
      ShuffleStepPermutes(s, i, randoms);
      var here, next := multiset(Shuffled(s, i, randoms)), multiset(Shuffled(s, i + 1, randoms));
      assert here == next;
      assert next == multiset(s);
    }
  }

  /** The last count elements of the partially shuffled sequence. */
  function Sample<T>(s: seq<T>, count: nat, randoms: seq<real>): seq<T>
    requires count <= |s| && count <= |randoms| && ValidDraws(randoms)
  {
    Shuffled(s, |s| - count, randoms)[|s| - count..]
  }

  /** A sample has count elements, all drawn from s without replacement. */
  lemma SampleIsSubMultiset<T>(s: seq<T>, count: nat, randoms: seq<real>)
    requires count <= |s| && count <= |randoms| && ValidDraws(randoms)
    ensures |Sample(s, count, randoms)| == count
    ensures multiset(Sample(s, count, randoms)) <= multiset(s)
  {
    var full := Shuffled(s, |s| - count, randoms);
    var min := |s| - count;
    ShuffledPermutes(s, min, randoms);
    assert full == full[..min] + full[min..];
    assert multiset(full) == multiset(full[..min]) + multiset(full[min..]);
  }

  /** Sampling every element yields a permutation of s. */
  lemma FullSampleIsPermutation<T>(s: seq<T>, randoms: seq<real>)
    requires |s| <= |randoms| && ValidDraws(randoms)
    ensures multiset(Sample(s, |s|, randoms)) == multiset(s)
  {
    assert Shuffled(s, 0, randoms)[0..] == Shuffled(s, 0, randoms);
    ShuffledPermutes(s, 0, randoms);
  }

  /** Exchanges a[i] and a[j] through a temporary, leaving the rest of a alone. */
  method SwapElements<T>(a: array<T>, i: nat, j: nat)
    requires i < a.Length && j < a.Length
    modifies a
    ensures a[..] == Swap(old(a[..]), i, j)
  {
    var tmp := a[i];
    a[i] := a[j];
    a[j] := tmp;
  }

  /** randomSample: a partial Fisher-Yates shuffle of a copy of items. */
  method RandomSample<T>(items: seq<T>, count: nat, randoms: seq<real>) returns (sample: seq<T>)
    requires count <= |items| && count <= |randoms| && ValidDraws(randoms)
    ensures sample == Sample(items, count, randoms)
    ensures |sample| == count && multiset(sample) <= multiset(items)
  {
    var shuffled := new T[|items|](k requires 0 <= k < |items| => items[k]);
    assert shuffled[..] == items;
    var i := |items|;
    var min := |items| - count;
    while i > min
      invariant min <= i <= |items|
      invariant shuffled[..] == Shuffled(items, i, randoms)
    {
      i := i - 1;
      var index := DrawIndex(i, randoms[|items| - 1 - i]);
      SwapElements(shuffled, index, i);
    }
    sample := shuffled[min..];
    SampleIsSubMultiset(items, count, randoms);
  }

  // ---------------------------------------------------------------------
  // The driver loop
  // ---------------------------------------------------------------------

  /** Every element of a sample is one of the sampled items. */
  lemma SampleMembers<T>(s: seq<T>, count: nat, randoms: seq<real>)
    requires count <= |s| && count <= |randoms| && ValidDraws(randoms)
    ensures forall x | x in Sample(s, count, randoms) :: x in s
  {
    SampleIsSubMultiset(s, count, randoms);
    forall x | x in Sample(s, count, randoms) ensures x in s {
      assert x in multiset(Sample(s, count, randoms));
    }
  }

  /** A cluster's mean is [] (no members) or has the points' dimension. */
  lemma MeanOfClusterDimension(points: seq<Point>, part: seq<int>, j: int, d: nat)
    requires |part| == |points| && HasDimension(points, d)
    ensures Mean(Members(points, part, j)) == [] || |Mean(Members(points, part, j))| == d
    ensures Members(points, part, j) != [] ==> |Mean(Members(points, part, j))| == d
  {
    var ms := Members(points, part, j);
    MembersHaveDimension(points, part, j, d);
    if ms != [] {
      MaxDimensionOfUniform(ms, d);
    }
  }

  /**
   * The means of the clusters of a partition of d-dimensional points are []
   * (empty cluster) or d-dimensional, and the cluster of points[0] is not
   * empty.
   */
  lemma MeansDimension(points: seq<Point>, part: seq<int>, k: nat, d: nat)
    requires |points| > 0 && |part| == |points| && HasDimension(points, d)
    requires 0 <= part[0] < k
    ensures forall j | 0 <= j < k :: Means(points, part, k)[j] == [] || |Means(points, part, k)[j]| == d
    ensures |Means(points, part, k)[part[0]]| == d
  {
    forall j | 0 <= j < k
      ensures Means(points, part, k)[j] == [] || |Means(points, part, k)[j]| == d
    {
      MeanOfClusterDimension(points, part, j, d);
    }
    assert points[0] in Members(points, part, part[0]);
    MeanOfClusterDimension(points, part, part[0], d);
  }

  /**
   * for (j = 0; j < numClusters; j++) centroids[j] = average(cluster j):
   * every centroid is overwritten by the mean of its cluster.
   */
  method UpdateCentroids(points: seq<Point>, partitioning: seq<int>, centroids: seq<Point>)
    returns (updated: seq<Point>)
    requires |partitioning| == |points|
    ensures updated == Means(points, partitioning, |centroids|)
  {
    updated := centroids;
    for j := 0 to |centroids|
      invariant |updated| == |centroids|
      invariant forall q | 0 <= q < j :: updated[q] == Mean(Members(points, partitioning, q))
    {
      var avg := Average(Members(points, partitioning, j));
      updated := updated[j := avg];
    }
  }

  /**
   * kmeans. The initial centroids are a random sample of the points; then,
   * at most numIterations times, the points are repartitioned, the loop
   * stops if the MSE equals the previous pass's exactly, and otherwise every
   * centroid becomes the mean of its cluster.
   *
   * Ghost results: converged says the loop stopped on equal MSEs,
   * iterations counts the passes, measured is the centroid list the returned
   * partitioning was computed against.
   */
  method Cluster(points: seq<Point>, numClusters: nat, numIterations: int, randoms: seq<real>)
    returns (centroids: seq<Point>, partitioning: Option<seq<int>>,
             ghost converged: bool, ghost iterations: nat, ghost measured: seq<Point>)
    requires 1 <= numClusters <= |points|
    requires |points[0]| > 0 && HasDimension(points, |points[0]|)
    requires numClusters <= |randoms| && ValidDraws(randoms)
    ensures |centroids| == numClusters
    ensures forall j | 0 <= j < numClusters :: centroids[j] == [] || |centroids[j]| == |points[0]|
    ensures numIterations <= 0 ==>
      && centroids == Sample(points, numClusters, randoms)
      && partitioning == None && iterations == 0 && !converged
    ensures numIterations > 0 ==> partitioning.Some? && 1 <= iterations <= numIterations
    ensures partitioning.Some? ==>
      && |partitioning.value| == |points|
      && (forall i | 0 <= i < |points| :: 0 <= partitioning.value[i] < numClusters)
      && IsPartition(points, measured, partitioning.value)
      && ValidAssignment(points, measured, partitioning.value)
    ensures converged ==> 2 <= iterations && centroids == measured
    ensures partitioning.Some? && !converged ==>
      && iterations == numIterations
      && centroids == Means(points, partitioning.value, numClusters)
  {
    var d := |points[0]|;
    centroids := RandomSample(points, numClusters, randoms);
    SampleMembers(points, numClusters, randoms);
    forall j | 0 <= j < numClusters ensures |centroids[j]| == d {
      assert centroids[j] in centroids;
    }
    ghost var anchor := 0;
    var previousError: Option<real> := None;
    partitioning := None;
    converged, iterations, measured := false, 0, [];
    var remaining := numIterations;
    while remaining > 0
      invariant |centroids| == numClusters
      invariant 0 <= anchor < numClusters && |centroids[anchor]| == d
      invariant forall j | 0 <= j < numClusters :: centroids[j] == [] || |centroids[j]| == d
      invariant !converged
      invariant numIterations > 0 ==> 0 <= remaining <= numIterations && iterations == numIterations - remaining
      invariant numIterations <= 0 ==> remaining == numIterations && iterations == 0
      invariant iterations == 0 <==> partitioning.None?
      invariant iterations == 0 <==> previousError.None?
      invariant iterations == 0 ==> centroids == Sample(points, numClusters, randoms)
      invariant partitioning.Some? ==>
        && |measured| == numClusters
        && IsPartition(points, measured, partitioning.value)
        && ValidAssignment(points, measured, partitioning.value)
        && centroids == Means(points, partitioning.value, numClusters)
    {
      var part := LocalRepartition(points, centroids);
      assert forall i | 0 <= i < |points| :: !NoneComparable(points[i], centroids) by {
        forall i | 0 <= i < |points| ensures !NoneComparable(points[i], centroids) {
          assert Comparable(points[i], centroids[anchor]);
        }
      }
      PartitionIsValidAssignment(points, centroids, part);
      var mse := CalculateMeanSquaredError(points, centroids, part);
      partitioning, measured, iterations := Some(part), centroids, iterations + 1;
      if previousError == Some(mse) {
        converged := true;
        break;
      }
      previousError := Some(mse);
      centroids := UpdateCentroids(points, part, centroids);
      MeansDimension(points, part, numClusters, d);
      anchor := part[0];
      remaining := remaining - 1;
    }
  }
}
