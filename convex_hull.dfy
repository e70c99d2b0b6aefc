/**
 * Andrew's monotone-chain convex hull over points of the plane, modelled on
 * js/utilities/convex-hull.js. Coordinates are mathematical reals. The
 * source sorts its argument in place and builds the lower and upper chains
 * as stacks; here the stacks are sequences that the scans reassign.
 */
module ConvexHull {

  /** A point [x, y] of the plane. */
  datatype Point = Point(x: real, y: real)

  // ---------------------------------------------------------------------
  // Orientation
  // ---------------------------------------------------------------------

  /**
   * The z component of (a - o) x (b - o): positive when o, a, b make a
   * counter-clockwise (left) turn, zero when they are collinear.
   */
  function Cross(o: Point, a: Point, b: Point): real
  {
    (a.x - o.x) * (b.y - o.y) - (a.y - o.y) * (b.x - o.x)
  }

  /** Exchanging the two outer points reverses the turn. */
  lemma CrossAntisymmetric(o: Point, a: Point, b: Point)
    ensures Cross(o, a, b) == -Cross(o, b, a)
  {
    assert (a.x - o.x) * (b.y - o.y) == (b.y - o.y) * (a.x - o.x);
    assert (a.y - o.y) * (b.x - o.x) == (b.x - o.x) * (a.y - o.y);
  }

  /** A repeated point makes no turn. */
  lemma CrossRepeated(o: Point, a: Point)
    ensures Cross(o, a, a) == 0.0
  {
    assert (a.x - o.x) * (a.y - o.y) == (a.y - o.y) * (a.x - o.x);
  }

  // ---------------------------------------------------------------------
  // Lexicographic order and the in-place sort
  // ---------------------------------------------------------------------

  /**
   * The order of the sort's comparator: x ascending, and y ascending among
   * points with equal x.
   */
  predicate LexLeq(a: Point, b: Point)
  {
    a.x < b.x || (a.x == b.x && a.y <= b.y)
  }

  lemma LexLeqTotal(a: Point, b: Point)
    ensures LexLeq(a, b) || LexLeq(b, a)
  {
  }

  lemma LexLeqAntisymmetric(a: Point, b: Point)
    requires LexLeq(a, b) && LexLeq(b, a)
    ensures a == b
  {
  }

  predicate Sorted(s: seq<Point>)
  {
    forall i, j | 0 <= i < j < |s| :: LexLeq(s[i], s[j])
  }

  /** Two arrangements of the same points have the same members. */
  lemma PermutationMembers(s: seq<Point>, t: seq<Point>)
    requires multiset(s) == multiset(t)
    ensures forall p | p in s :: p in t
  {
    forall p | p in s ensures p in t {
      assert p in multiset(s);
    }
  }

  /** The first element of a sorted sequence is below every element. */
  lemma SortedHeadIsLeast(s: seq<Point>, q: Point)
    requires Sorted(s) && q in s
    ensures LexLeq(s[0], q)
  {
    var m :| 0 <= m < |s| && s[m] == q;
  }

  lemma MultisetTail(s: seq<Point>)
    requires s != []
    ensures multiset(s[1..]) == multiset(s) - multiset{s[0]}
  {
    assert s == [s[0]] + s[1..];
  }

  /**
   * A sorted arrangement of a multiset of points is unique, so the result of
   * the sort does not depend on the algorithm the JavaScript engine uses.
   */
  lemma {:induction false} SortedPermutationUnique(s: seq<Point>, t: seq<Point>)
    requires Sorted(s) && Sorted(t)
    requires multiset(s) == multiset(t)
    ensures s == t
  {
    assert |t| == |multiset(t)| == |multiset(s)| == |s|;
    if |s| > 0 {
      assert s[0] in multiset(t) && t[0] in multiset(s);
      SortedHeadIsLeast(t, s[0]);
      SortedHeadIsLeast(s, t[0]);
      LexLeqAntisymmetric(s[0], t[0]);
      MultisetTail(s);
      MultisetTail(t);
      SortedPermutationUnique(s[1..], t[1..]);
      assert s == [s[0]] + s[1..] && t == [t[0]] + t[1..];
    }
  }

  /** Exchanges a[j] with its left neighbour; the points of a stay the same. */
  method SwapDown(a: array<Point>, j: nat)
    requires 0 < j < a.Length
    modifies a
    ensures a[j - 1] == old(a[j]) && a[j] == old(a[j - 1])
    ensures forall k | 0 <= k < a.Length && k != j - 1 && k != j :: a[k] == old(a[k])
    ensures multiset(a[..]) == multiset(old(a[..]))
  {
    a[j - 1], a[j] := a[j], a[j - 1];
  }

  /**
   * One pass of the insertion sort: a[i] sinks into the sorted prefix a[..i]
   * until its left neighbour is not above it.
   */
  method InsertIntoSorted(a: array<Point>, i: nat)
    requires i < a.Length && Sorted(a[..i])
    modifies a
    ensures Sorted(a[..i + 1])
    ensures multiset(a[..]) == multiset(old(a[..]))
    ensures a[i + 1..] == old(a[i + 1..])
  {
    var j := i;
    while j > 0 && !LexLeq(a[j - 1], a[j])
      invariant 0 <= j <= i
      invariant a[i + 1..] == old(a[i + 1..])
      invariant forall k, l | 0 <= k < l <= i && l != j :: LexLeq(a[k], a[l])
      invariant 0 < j < i ==> LexLeq(a[j - 1], a[j + 1])
      invariant multiset(a[..]) == multiset(old(a[..]))
    {
      LexLeqTotal(a[j - 1], a[j]);
      SwapDown(a, j);
      j := j - 1;
    }
  }

  /**
   * points.sort with the lexicographic comparator. The engine's algorithm is
   * not specified; an insertion sort stands for it (SortedPermutationUnique
   * shows every sort gives the same array).
   */
  method SortPoints(a: array<Point>)
    modifies a
    ensures Sorted(a[..])
    ensures multiset(a[..]) == multiset(old(a[..]))
  {
    var i := 0;
    while i < a.Length
      invariant 0 <= i <= a.Length
      invariant Sorted(a[..i])
      invariant multiset(a[..]) == multiset(old(a[..]))
    {
      InsertIntoSorted(a, i);
      i := i + 1;
    }
    assert a[..a.Length] == a[..];
  }

  // ---------------------------------------------------------------------
  // The chains
  // ---------------------------------------------------------------------

  /** The points at k, k + 1 and k + 2 make a strict left turn. */
  predicate TurnsLeftAt(s: seq<Point>, k: nat)
    requires k + 2 < |s|
  {
    Cross(s[k], s[k + 1], s[k + 2]) > 0.0
  }

  /** Every three consecutive points make a strict left turn. */
  predicate LeftTurns(s: seq<Point>)
  {
    forall k: nat | k + 2 < |s| :: TurnsLeftAt(s, k)
  }

  /** sub is obtained from s by deleting elements, keeping the order. */
  predicate IsSubsequence(sub: seq<Point>, s: seq<Point>)
    decreases |s|
  {
    if sub == [] then true
    else if s == [] then false
    else
      (sub[|sub| - 1] == s[|s| - 1] && IsSubsequence(sub[..|sub| - 1], s[..|s| - 1]))
      || IsSubsequence(sub, s[..|s| - 1])
  }

  lemma {:induction false} SubsequencePrefix(sub: seq<Point>, s: seq<Point>, m: nat)
    requires IsSubsequence(sub, s) && m <= |sub|
    ensures IsSubsequence(sub[..m], s)
    decreases |s|
  {
    if m < |sub| && s != [] {
      var n := |s| - 1;
      if sub[|sub| - 1] == s[n] && IsSubsequence(sub[..|sub| - 1], s[..n]) {
        assert sub[..|sub| - 1][..m] == sub[..m];
        SubsequencePrefix(sub[..|sub| - 1], s[..n], m);
      } else {
        SubsequencePrefix(sub, s[..n], m);
      }
    } else if m == |sub| {
      assert sub[..m] == sub;
    }
  }

  lemma {:induction false} SubsequenceMembers(sub: seq<Point>, s: seq<Point>)
    requires IsSubsequence(sub, s)
    ensures |sub| <= |s|
    ensures forall p | p in sub :: p in s
    decreases |s|
  {
    if sub != [] {
      var n := |s| - 1;
      if sub[|sub| - 1] == s[n] && IsSubsequence(sub[..|sub| - 1], s[..n]) {
        SubsequenceMembers(sub[..|sub| - 1], s[..n]);
        assert sub == sub[..|sub| - 1] + [s[n]];
      } else {
        SubsequenceMembers(sub, s[..n]);
      }
      assert s == s[..n] + [s[n]];
    }
  }

  /**
   * The inner while loop: pop the top while the top two and p fail to turn
   * strictly left. The stack only shrinks from the top, its bottom element
   * stays, and afterwards the top two and p turn left.
   */
  function PopWhile(stack: seq<Point>, p: Point): (r: seq<Point>)
    ensures |r| <= |stack| && r == stack[..|r|]
    ensures stack != [] ==> r != []
    ensures |r| >= 2 ==> Cross(r[|r| - 2], r[|r| - 1], p) > 0.0
    decreases |stack|
  {
    if |stack| >= 2 && Cross(stack[|stack| - 2], stack[|stack| - 1], p) <= 0.0 then
      PopWhile(stack[..|stack| - 1], p)
    else
      stack
  }

  /** The stack after the scan has pushed every point of s in turn. */
  function Chain(s: seq<Point>): seq<Point>
    decreases |s|
  {
    if s == [] then []
    else PopWhile(Chain(s[..|s| - 1]), s[|s| - 1]) + [s[|s| - 1]]
  }

  /**
   * One step of a scan keeps the invariant: popping and then pushing p onto a
   * stack that is a subsequence of the points seen so far, with strict left
   * turns throughout, gives such a stack for the points seen so far and p.
   */
  lemma PushKeepsInvariant(stack: seq<Point>, seen: seq<Point>, p: Point)
    requires IsSubsequence(stack, seen) && LeftTurns(stack)
    ensures IsSubsequence(PopWhile(stack, p) + [p], seen + [p])
    ensures LeftTurns(PopWhile(stack, p) + [p])
    ensures stack != [] ==> (PopWhile(stack, p) + [p])[0] == stack[0]
  {
    var kept := PopWhile(stack, p);
    var c := kept + [p];
    SubsequencePrefix(stack, seen, |kept|);
    assert c[..|c| - 1] == kept;
    assert (seen + [p])[..|seen|] == seen;
    forall k: nat | k + 2 < |c|
      ensures TurnsLeftAt(c, k)
    {
      if k + 2 < |kept| {
        assert TurnsLeftAt(stack, k);
        assert c[k] == stack[k] && c[k + 1] == stack[k + 1] && c[k + 2] == stack[k + 2];
      }
    }
  }

  /**
   * The loop invariant of each scan: the stack is a subsequence of the points
   * scanned so far, begins with the first of them and ends with the last,
   * and every three consecutive entries turn strictly left.
   */
  lemma {:induction false} ChainInvariant(s: seq<Point>)
    ensures IsSubsequence(Chain(s), s)
    ensures LeftTurns(Chain(s))
    ensures s != [] ==> Chain(s) != [] && Chain(s)[0] == s[0] && Chain(s)[|Chain(s)| - 1] == s[|s| - 1]
    decreases |s|
  {
    if s != [] {
      var n := |s| - 1;
      var prev := Chain(s[..n]);
      ChainInvariant(s[..n]);
      PushKeepsInvariant(prev, s[..n], s[n]);
      assert s[..n] + [s[n]] == s;
      assert Chain(s) == PopWhile(prev, s[n]) + [s[n]];
      if n == 0 {
        assert prev == [];
      } else {
        assert prev[0] == s[..n][0] == s[0];
      }
    }
  }

  /** A chain is no longer than its points, and two points leave at least two. */
  lemma {:induction false} ChainLength(s: seq<Point>)
    ensures |Chain(s)| <= |s|
    ensures |s| >= 2 ==> |Chain(s)| >= 2
    decreases |s|
  {
    if s != [] {
      var n := |s| - 1;
      var prev := Chain(s[..n]);
      ChainLength(s[..n]);
      var kept := PopWhile(prev, s[n]);
      assert Chain(s) == kept + [s[n]];
      if n >= 1 {
        ChainInvariant(s[..n]);
        assert prev != [];
        assert kept != [];
      }
    }
  }

  /** s read backwards: the order in which the upper scan visits the points. */
  function Reverse(s: seq<Point>): (r: seq<Point>)
    ensures |r| == |s|
    ensures forall k | 0 <= k < |s| :: r[k] == s[|s| - 1 - k]
  {
    seq(|s|, k requires 0 <= k < |s| => s[|s| - 1 - k])
  }

  lemma ReverseMembers(s: seq<Point>)
    ensures forall p | p in Reverse(s) :: p in s
  {
    forall p | p in Reverse(s) ensures p in s {
      var k :| 0 <= k < |s| && Reverse(s)[k] == p;
    }
  }

  /** The lower chain: for (i = 0; i < n; i++) { pop while not a left turn; push }. */
  method LowerChain(points: seq<Point>) returns (lower: seq<Point>)
    ensures lower == Chain(points)
    ensures IsSubsequence(lower, points) && LeftTurns(lower)
    ensures points != [] ==> lower[0] == points[0] && lower[|lower| - 1] == points[|points| - 1]
  {
    lower := [];
    for i := 0 to |points|
      invariant lower == Chain(points[..i])
    {
      ghost var before := lower;
      while |lower| >= 2 && Cross(lower[|lower| - 2], lower[|lower| - 1], points[i]) <= 0.0
        invariant PopWhile(lower, points[i]) == PopWhile(before, points[i])
        decreases |lower|
      {
        lower := lower[..|lower| - 1];
      }
      lower := lower + [points[i]];
      assert points[..i + 1][..i] == points[..i];
    }
    assert points[..|points|] == points;
    ChainInvariant(points);
  }

  /** The upper chain: for (i = n - 1; i >= 0; i--) { pop while not a left turn; push }. */
  method UpperChain(points: seq<Point>) returns (upper: seq<Point>)
    ensures upper == Chain(Reverse(points))
    ensures IsSubsequence(upper, Reverse(points)) && LeftTurns(upper)
    ensures points != [] ==> upper[0] == points[|points| - 1] && upper[|upper| - 1] == points[0]
  {
    upper := [];
    var i := |points|;
    assert Reverse(points[i..]) == [];
    while i > 0
      invariant 0 <= i <= |points|
      invariant upper == Chain(Reverse(points[i..]))
    {
      i := i - 1;
      ghost var before := upper;
      while |upper| >= 2 && Cross(upper[|upper| - 2], upper[|upper| - 1], points[i]) <= 0.0
        invariant PopWhile(upper, points[i]) == PopWhile(before, points[i])
        decreases |upper|
      {
        upper := upper[..|upper| - 1];
      }
      upper := upper + [points[i]];
      ghost var r := Reverse(points[i..]);
      assert r[..|r| - 1] == Reverse(points[i + 1..]);
    }
    assert points[0..] == points;
    ChainInvariant(Reverse(points));
  }

  // ---------------------------------------------------------------------
  // The hull
  // ---------------------------------------------------------------------

  /** Array.prototype.pop: removes the last element; on [] it does nothing. */
  function Pop(s: seq<Point>): (r: seq<Point>)
    ensures |r| == if s == [] then 0 else |s| - 1
    ensures r == s[..|r|]
  {
    if s == [] then [] else s[..|s| - 1]
  }

  /** lower.concat(upper) once each chain has dropped its last point. */
  function Hull(sorted: seq<Point>): seq<Point>
  {
    Pop(Chain(sorted)) + Pop(Chain(Reverse(sorted)))
  }

  function Max0(n: int): nat
  {
    if n > 0 then n else 0
  }

  /** The hull has at most 2n - 2 points: each chain has at most n. */
  lemma HullLength(s: seq<Point>)
    ensures |Hull(s)| == Max0(|Chain(s)| - 1) + Max0(|Chain(Reverse(s))| - 1)
    ensures |s| >= 1 ==> |Hull(s)| <= 2 * |s| - 2
  {
    ChainInvariant(s);
    ChainInvariant(Reverse(s));
    SubsequenceMembers(Chain(s), s);
    SubsequenceMembers(Chain(Reverse(s)), Reverse(s));
  }

  /** Every hull vertex is one of the points. */
  lemma HullMembers(s: seq<Point>)
    ensures forall p | p in Hull(s) :: p in s
  {
    var lower, upper := Chain(s), Chain(Reverse(s));
    ChainInvariant(s);
    ChainInvariant(Reverse(s));
    SubsequenceMembers(lower, s);
    SubsequenceMembers(upper, Reverse(s));
    ReverseMembers(s);
    forall p | p in Hull(s) ensures p in s {
      if p in Pop(lower) {
        assert p in lower;
      } else {
        assert p in Pop(upper);
        assert p in upper;
      }
    }
  }

  /**
   * The bottom of the lower stack is never popped, so with two or more
   * sorted points the hull starts at the lexicographically smallest one.
   */
  lemma HullStartsAtSmallest(s: seq<Point>)
    requires Sorted(s) && |s| >= 2
    ensures |Hull(s)| >= 1 && Hull(s)[0] == s[0]
    ensures forall q | q in s :: LexLeq(Hull(s)[0], q)
  {
    ChainInvariant(s);
    assert Pop(Chain(s))[0] == Chain(s)[0];
  }

  /** No points: both chains are empty. */
  lemma HullOfNone()
    ensures Hull([]) == []
  {
    assert Chain([]) == [];
    assert Reverse([]) == [];
  }

  /** A single point: the scan pushes it and pops nothing. */
  lemma ChainOfOne(p: Point)
    ensures Chain([p]) == [p]
  {
    assert [p][..0] == [];
  }

  /** Two points: the second is pushed on the first without a pop. */
  lemma ChainOfTwo(a: Point, b: Point)
    ensures Chain([a, b]) == [a, b]
  {
    ChainOfOne(a);
    assert [a, b][..1] == [a];
    assert PopWhile([a], b) == [a];
  }

  /** One point: each chain holds just that point, and each is popped. */
  lemma HullOfOne(p: Point)
    ensures Hull([p]) == []
  {
    ChainOfOne(p);
    assert Reverse([p]) == [p];
  }

  /** Two points [a, b]: lower is [a, b], upper is [b, a], the hull is [a, b]. */
  lemma HullOfTwo(a: Point, b: Point)
    ensures Hull([a, b]) == [a, b]
  {
    ChainOfTwo(a, b);
    ChainOfTwo(b, a);
    assert Reverse([a, b]) == [b, a];
  }

  /**
   * convexHull: sorts its argument in place (the caller sees the sorted
   * array), scans the lower and upper chains, pops the last point of each
   * and concatenates them.
   */
  method ConvexHullOf(points: array<Point>) returns (hull: seq<Point>)
    modifies points
    ensures Sorted(points[..]) && multiset(points[..]) == multiset(old(points[..]))
    ensures hull == Hull(points[..])
    ensures forall p | p in hull :: p in old(points[..])
    ensures points.Length >= 2 ==> hull != [] && hull[0] == points[0]
  {
    ghost var input := points[..];
    SortPoints(points);
    var sorted := points[..];
    var lower := LowerChain(sorted);
    var upper := UpperChain(sorted);
    upper := Pop(upper);
    lower := Pop(lower);
    hull := lower + upper;
    HullMembers(sorted);
    PermutationMembers(sorted, input);
    if points.Length >= 2 {
      HullStartsAtSmallest(sorted);
    }
  }
}
