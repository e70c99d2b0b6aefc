# js-cluster core in Dafny

A Dafny model of the two algorithms of js-cluster, a browser tool that clusters
points and outlines each cluster:

- **k-means** (`kmeans.dfy`, module `KMeans`). Lloyd's algorithm over
  n-dimensional points, as written in `js/algorithms/k-means.js`. The initial
  centroids are a partial Fisher–Yates sample of the points. Each pass then
  repartitions every point to its nearest centroid, where the first minimum
  wins. It computes the mean squared error and stops when that equals the
  previous pass's error exactly. Otherwise it replaces every centroid by the
  componentwise mean of its cluster. There are at most `numIterations` passes.
- **Monotone-chain convex hull** (`convex_hull.dfy`, module `ConvexHull`).
  Andrew's algorithm as written in `js/utilities/convex-hull.js`. The points are
  sorted in place by x, then y. A stack-based scan builds the lower chain left
  to right and another builds the upper chain right to left. Each chain drops
  its last point and the two are concatenated.

Coordinates are mathematical reals, not IEEE doubles. `Math.random` is a
sequence of draws in `[0, 1)` passed in by the caller (`randoms`). The
`Number.POSITIVE_INFINITY` sentinel of the nearest-centroid search is an unset
`Option`. A centroid that the source would measure as NaN is one that is
shorter than the point, such as the `[]` that `average([])` gives an empty
cluster. Such a centroid is never chosen and is modelled as not comparable
(`Comparable`). The loops that the source runs become Dafny methods with loop
invariants. Each method is characterised by a specification function or
predicate, or by relational postconditions. The properties are then proved as
lemmas about those functions and predicates.

Where the comments of the source and its code disagree, the model follows the
code:

- `kmeans` runs no pass when `numIterations` is `undefined`
  (`while (numIterations > 0)`), although its doc comment promises iteration
  to convergence. Here `numIterations` is an `int`, and a value `<= 0` runs
  no pass. The result is then the initial sample with no partitioning
  (`None`).
- `convexHull` of a single point is `[]`, not the point. Both chains hold that
  point, and each is popped (`HullOfOne`).
- `partitioning` is assigned inside `localRepartition` without a declaration
  of its own; it resolves to the `var partitioning` hoisted in `kmeans`. The
  model returns it as a value.

## Model

| member | source | states |
|---|---|---|
| KMeans.CalculateDistanceSquared | js/algorithms/k-means.js:11-18 | the loop's sum is the sum over the point's coordinates of (a[i]-b[i])^2 (`DistanceSq`), and it is never negative |
| KMeans.DistanceSqNonNegative | js/algorithms/k-means.js:11-18 | the squared distance is >= 0 |
| KMeans.DistanceSqZeroIff | js/algorithms/k-means.js:11-18 | the squared distance is 0 exactly when the two points agree on every coordinate of the first |
| KMeans.DistanceSqSymmetric | js/algorithms/k-means.js:11-18 | for points of equal dimension, distance(a, b) = distance(b, a) |
| KMeans.FindIndexOfClosestCentroid | js/algorithms/k-means.js:21-32 | returns -1 exactly when no centroid can be measured (in particular for no centroids). Otherwise it returns an index in range whose centroid is no farther than any other and strictly nearer than every earlier one, so the first minimum wins |
| KMeans.IsClosestUnique | js/algorithms/k-means.js:21-32 | the first-minimum rule determines the index uniquely |
| KMeans.LocalRepartition | js/algorithms/k-means.js:35-41 | the result has one entry per point, and entry i is the closest-centroid index of points[i] |
| KMeans.PartitionIsValidAssignment | js/algorithms/k-means.js:35-41 | when every point has a measurable centroid, every partition entry names a centroid in range |
| KMeans.Average | js/algorithms/k-means.js:44-53 | the result is `Mean(points)`: [] for no points, otherwise one component per coordinate, each equal to the column sum divided by the number of points |
| KMeans.ScaledColumnSumIsColumnSumOver | js/algorithms/k-means.js:49 | adding points[i][j]/m term by term gives (sum of points[i][j])/m |
| KMeans.MaxDimensionOfUniform | js/algorithms/k-means.js:44-53 | for m >= 1 points of dimension D, the mean has exactly D components |
| KMeans.CalculateTotalSquaredError | js/algorithms/k-means.js:56-62 | the loop's total is the sum of every point's squared distance to its assigned centroid (`TotalError`), and it is >= 0 |
| KMeans.TotalErrorNonNegative | js/algorithms/k-means.js:56-62 | the total squared error is >= 0 |
| KMeans.ClosestAssignmentMinimizesError | js/algorithms/k-means.js:35-41 | assigning each point to its closest centroid gives a total error no larger than any other assignment to the same centroids |
| KMeans.CalculateMeanSquaredError | js/algorithms/k-means.js:65-70 | MSE * (N * D) = total error, where D is the dimension of points[0], and MSE >= 0 |
| KMeans.DrawIndex | js/algorithms/k-means.js:78 | Math.floor((i + 1) * r) with r in [0, 1) lies in [0, i] |
| KMeans.SwapPermutes | js/algorithms/k-means.js:79-81 | exchanging two elements keeps the multiset of elements |
| KMeans.ShuffledPermutes | js/algorithms/k-means.js:77-82 | after any number of swap steps, `shuffled` is a permutation of the input array |
| KMeans.SampleIsSubMultiset | js/algorithms/k-means.js:83 | the sample has exactly `count` elements, and its multiset is contained in the input's |
| KMeans.FullSampleIsPermutation | js/algorithms/k-means.js:73-84 | sampling every element gives a permutation of the input |
| KMeans.SampleMembers | js/algorithms/k-means.js:86 | every initial centroid is one of the points |
| KMeans.RandomSample | js/algorithms/k-means.js:73-84 | the in-place partial Fisher–Yates loop yields `Sample(items, count, randoms)`: `count` elements drawn from `items` without replacement |
| KMeans.SwapElements | js/algorithms/k-means.js:79-81 | the three assignments exchange shuffled[index] and shuffled[i] and change nothing else |
| KMeans.MembersHaveDimension | js/algorithms/k-means.js:98-100 | the filtered cluster of D-dimensional points is D-dimensional |
| KMeans.MeanOfClusterDimension | js/algorithms/k-means.js:98-100 | a cluster's mean is [] (empty cluster) or has dimension D, and has dimension D when the cluster is not empty |
| KMeans.MeansDimension | js/algorithms/k-means.js:97-101 | after an update every centroid is [] or D-dimensional, and the centroid of points[0]'s cluster is D-dimensional |
| KMeans.UpdateCentroids | js/algorithms/k-means.js:97-101 | after the loop, centroids[j] is the mean of exactly the points whose partition entry is j, for every j |
| KMeans.Cluster | js/algorithms/k-means.js:86-108 | the centroid list keeps length numClusters. With numIterations <= 0 it returns the initial sample and no partitioning. Otherwise the body ran between 1 and numIterations times, and the partitioning has one entry in [0, numClusters) per point and is the closest-centroid partition of the centroids it was measured against. The loop never stops on the first pass. When it exits by exhausting the cap, each returned centroid is the mean of its cluster in the returned partitioning |
| ConvexHull.CrossAntisymmetric | js/utilities/convex-hull.js:6-8 | cross(o, a, b) = -cross(o, b, a) |
| ConvexHull.CrossRepeated | js/utilities/convex-hull.js:6-8 | cross(o, a, a) = 0 |
| ConvexHull.SortPoints | js/utilities/convex-hull.js:11-13 | after the sort the array is ordered by x ascending, then y ascending, and it is a permutation of the input |
| ConvexHull.InsertIntoSorted | js/utilities/convex-hull.js:11-13 | one insertion step extends the sorted prefix by one element, keeps the array's multiset, and leaves a[i+1..] unchanged |
| ConvexHull.SwapDown | js/utilities/convex-hull.js:11-13 | exchanging neighbours keeps the array's multiset and changes nothing else |
| ConvexHull.SortedPermutationUnique | js/utilities/convex-hull.js:11-13 | two sorted arrangements of the same points are equal, so every sorting algorithm gives the same array |
| ConvexHull.SortedHeadIsLeast | js/utilities/convex-hull.js:11-13 | the first point of the sorted array is lexicographically below every point |
| ConvexHull.PermutationMembers | js/utilities/convex-hull.js:11-13 | a permutation has the same members |
| ConvexHull.PopWhile | js/utilities/convex-hull.js:15-17 | the inner while loop only removes elements from the top. It never empties a non-empty stack, and afterwards the top two and the new point turn strictly left |
| ConvexHull.PushKeepsInvariant | js/utilities/convex-hull.js:15-18 | popping then pushing p keeps "subsequence of the scanned points, with strict left turns" and keeps the bottom element |
| ConvexHull.ChainInvariant | js/utilities/convex-hull.js:14-25 | after scanning a sequence, the stack is a subsequence of it. Every three consecutive entries turn strictly left (cross > 0). It starts with the first scanned point and ends with the last |
| ConvexHull.ChainLength | js/utilities/convex-hull.js:14-25 | a chain is no longer than its points and holds at least two entries once two points are scanned |
| ConvexHull.SubsequencePrefix | js/utilities/convex-hull.js:16 | popping the top of a subsequence leaves a subsequence |
| ConvexHull.SubsequenceMembers | js/utilities/convex-hull.js:14-25 | a subsequence is no longer than its sequence, and its points are points of the sequence |
| ConvexHull.LowerChain | js/utilities/convex-hull.js:14-19 | the lower scan's stack is `Chain(points)`: a subsequence of the sorted points, with strict left turns, starting at points[0] and ending at points[n-1] |
| ConvexHull.UpperChain | js/utilities/convex-hull.js:20-25 | the upper scan's stack is the chain of the points read right to left: a subsequence of them with strict left turns, starting at points[n-1] and ending at points[0] |
| ConvexHull.ReverseMembers | js/utilities/convex-hull.js:20 | reading the points right to left visits only input points |
| ConvexHull.HullLength | js/utilities/convex-hull.js:27-30 | the output length is max(len(lower)-1, 0) + max(len(upper)-1, 0), and at most 2n-2 for n >= 1 |
| ConvexHull.HullMembers | js/utilities/convex-hull.js:27-30 | every output point is one of the sorted points |
| ConvexHull.HullStartsAtSmallest | js/utilities/convex-hull.js:15-18 | for n >= 2 sorted points, lower[0] is never popped, so the output starts with the lexicographically smallest point |
| ConvexHull.HullOfNone | js/utilities/convex-hull.js:14-30 | no points give [] |
| ConvexHull.ChainOfOne | js/utilities/convex-hull.js:14-19 | scanning one point leaves just that point |
| ConvexHull.ChainOfTwo | js/utilities/convex-hull.js:14-19 | scanning [a, b] leaves [a, b] on the stack with no pop |
| ConvexHull.HullOfOne | js/utilities/convex-hull.js:14-30 | one point gives [], because both chains hold only that point and each is popped |
| ConvexHull.HullOfTwo | js/utilities/convex-hull.js:14-30 | two points sorted as [a, b] give [a, b]: lower [a, b], upper [b, a], each popped once |
| ConvexHull.ConvexHullOf | js/utilities/convex-hull.js:4-31 | sorts the caller's array in place and returns `Hull` of the sorted array. Every output point is an input point, and for n >= 2 the output starts with the smallest point |

## Left out

- I/O, drawing and event wiring (`js/main.js`) are not part of this model. This covers file parsing, canvas output, display normalisation and `findMinMax`.
- `console.debug` of the MSE is dropped. `Math.random` is replaced by the `randoms` draws.
- IEEE-754 behaviour is not modelled. This covers rounding, NaN from an empty centroid (modelled as "not comparable"), the `Infinity` sentinel (an unset `Option`) and exact `===` on floating MSE (exact equality of reals).
- KMeans.Cluster: requires 1 <= numClusters <= |points|, every point of one dimension D >= 1, and at least numClusters draws. Outside these bounds the source behaves as follows, and none of it is modelled:
  - numClusters = 0 with numIterations <= 0: the sample is empty, and `kmeans` returns `{centroids: [], partitioning: undefined}` normally (js/algorithms/k-means.js:76, 83, 89, 105).
  - numClusters = 0 with numIterations > 0: every point is assigned -1, and measuring `centroids[-1]`, which is `undefined`, throws a TypeError (js/algorithms/k-means.js:14, 59).
  - numClusters > |points|: `min` is negative, so the loop runs on to i = -1 and below (js/algorithms/k-means.js:76-77). At i = -1 the index is `Math.floor(0 * Math.random())`, which is 0, so `shuffled[0] = shuffled[-1]` always writes `undefined` into element 0 (js/algorithms/k-means.js:78-81). The swaps at i <= -2 use indices in [i + 1, 0] and touch no other element.
  - |points| < numClusters < 2·|points|: `shuffled.slice(min)` starts at 2·|points| − numClusters >= 1, so it leaves element 0 out and returns only the last numClusters − |points| elements (js/algorithms/k-means.js:83). Nothing crashes; if a pass runs, the update loop at js/algorithms/k-means.js:97-101 grows the centroid list back to numClusters entries, the extra ones means of empty clusters.
  - numClusters >= 2·|points|: the slice returns the whole array, the `undefined` at element 0 included. With numIterations <= 0, `kmeans` returns those centroids normally (js/algorithms/k-means.js:83, 89, 105). With numIterations > 0, measuring that centroid throws a TypeError in the first pass (js/algorithms/k-means.js:14, 25).
  - D = 0: the MSE is 0 / 0, which is NaN, so the loop never stops on equal errors.
- KMeans.Cluster: a run that stops on equal MSEs is described only by `converged` and by the partition it measured. That the mean minimises each cluster's squared error, the second half of Lloyd's monotone-error argument, is not proved; only the assignment half is (`ClosestAssignmentMinimizesError`).
- KMeans.DistanceSq: a centroid shorter than the point is never measured (see `Comparable`), because the source would compute NaN for it.
- ConvexHull.SortPoints: the JavaScript engine's sort algorithm is unspecified. An insertion sort stands for it, and `SortedPermutationUnique` shows that any correct sort gives the same array.
- ConvexHull.ConvexHullOf: the contract does not state that the result is the convex hull, which is the source's headline promise (js/utilities/convex-hull.js:2). That the concatenated polygon is convex and encloses every input point is not proved. What is proved is the left-turn invariant of each chain, membership, the length bound and the starting vertex.
- ConvexHull: points are pairs of reals, so a point array with more or fewer than two coordinates is not represented.
- The local `lower`/`upper` arrays and the `partitioning`/`centroids` lists are sequences reassigned by the methods, not shared arrays, so aliasing between them is not modelled. The source creates fresh arrays for them, so none arises.
