/** The Ramer-Douglas-Peucker simplifier with an explicit stack, proved to keep exactly the
    points the recursive definition keeps. The distance of a point from a segment is a
    parameter: nothing below depends on how it is measured.
 */
module Rdp {
  import opened Wrappers

  type Distance<!P> = (P, P, P) -> real

  function Far<P>(points: seq<P>, dist: Distance<P>, lo: nat, hi: nat, i: nat): real
    requires lo < |points| && hi < |points| && i < |points|
  {
    dist(points[i], points[lo], points[hi])
  }

  /** Scan of the inner loop up to `end`: the first index of the largest positive distance. */
  function Worst<P>(points: seq<P>, dist: Distance<P>, lo: nat, hi: nat, end: nat): (r: Option<nat>)
    requires lo < end <= hi < |points|
    ensures r.Some? ==> lo < r.value < end && Far(points, dist, lo, hi, r.value) > 0.0
    ensures r.Some? ==> forall i :: lo < i < end ==> Far(points, dist, lo, hi, i) <= Far(points, dist, lo, hi, r.value)
    ensures r.Some? ==> forall i :: lo < i < r.value ==>
              Far(points, dist, lo, hi, i) < Far(points, dist, lo, hi, r.value)
    ensures r.None? ==> forall i :: lo < i < end ==> Far(points, dist, lo, hi, i) <= 0.0
    decreases end
  {
    if end == lo + 1 then None
    else
      var before := Worst(points, dist, lo, hi, end - 1);
      var d := Far(points, dist, lo, hi, end - 1);
      if d > (if before.Some? then Far(points, dist, lo, hi, before.value) else 0.0) then Some(end - 1) else before
  }

  /** The index a segment is split at, if its worst point is farther than eps. */
  function Split<P>(points: seq<P>, dist: Distance<P>, eps: real, lo: nat, hi: nat): (r: Option<nat>)
    requires lo < hi < |points|
    ensures r.Some? ==> lo < r.value < hi
  {
    var w := Worst(points, dist, lo, hi, hi);
    if w.Some? && Far(points, dist, lo, hi, w.value) > eps then w else None
  }

  /** The recursive algorithm: the indices strictly between lo and hi that are kept. */
  function Kept<P>(points: seq<P>, dist: Distance<P>, eps: real, lo: nat, hi: nat): (r: set<nat>)
    requires lo < hi < |points|
    ensures forall i :: i in r ==> lo < i < hi
    decreases hi - lo
  {
    var w := Split(points, dist, eps, lo, hi);
    if w.None? then {}
    else Kept(points, dist, eps, lo, w.value) + {w.value} + Kept(points, dist, eps, w.value, hi)
  }

  /** Both ends and whatever lies between. */
  function KeptAll<P>(points: seq<P>, dist: Distance<P>, eps: real): set<nat>
    requires |points| >= 2
  {
    {0, |points| - 1} + Kept(points, dist, eps, 0, |points| - 1)
  }

  function Select<P>(points: seq<P>, keep: set<nat>, n: nat): seq<P>
    requires n <= |points|
  {
    if n == 0 then [] else Select(points, keep, n - 1) + if n - 1 in keep then [points[n - 1]] else []
  }

  // ---------------------------------------------------------------- the explicit stack

  type Segment = (nat, nat)

  ghost predicate Segments<P>(points: seq<P>, stack: seq<Segment>) {
    forall k :: 0 <= k < |stack| ==> stack[k].0 < stack[k].1 < |points|
  }

  /** What the segments still on the stack will add. */
  ghost function Owed<P>(points: seq<P>, dist: Distance<P>, eps: real, stack: seq<Segment>): set<nat>
    requires Segments(points, stack)
  {
    if stack == [] then {} else
    var top := |stack| - 1;
    assert forall k :: 0 <= k < top ==> stack[..top][k] == stack[k];
    Owed(points, dist, eps, stack[..top]) + Kept(points, dist, eps, stack[top].0, stack[top].1)
  }

  /** Sum over the stack of 2 * (hi - lo) - 1. */
  ghost function Work<P>(points: seq<P>, stack: seq<Segment>): nat
    requires Segments(points, stack)
  {
    if stack == [] then 0 else
    var top := |stack| - 1;
    assert forall k :: 0 <= k < top ==> stack[..top][k] == stack[k];
    Work(points, stack[..top]) + 2 * (stack[top].1 - stack[top].0) - 1
  }

  lemma PushTwo<P>(points: seq<P>, dist: Distance<P>, eps: real, stack: seq<Segment>, lo: nat, w: nat, hi: nat)
    requires Segments(points, stack) && lo < w < hi < |points|
    ensures var pushed := stack + [(lo, w), (w, hi)];
            Segments(points, pushed)
            && Owed(points, dist, eps, pushed)
               == Owed(points, dist, eps, stack) + Kept(points, dist, eps, lo, w) + Kept(points, dist, eps, w, hi)
            && Work(points, pushed) == Work(points, stack) + 2 * (hi - lo) - 2
  {
    var one, two := stack + [(lo, w)], stack + [(lo, w), (w, hi)];
    assert two[..|two| - 1] == one && one[..|one| - 1] == stack;
  }

  lemma PopOne<P>(points: seq<P>, dist: Distance<P>, eps: real, stack: seq<Segment>)
    requires Segments(points, stack) && stack != []
    ensures var (lo, hi), rest := stack[|stack| - 1], stack[..|stack| - 1];
            Segments(points, rest)
            && Owed(points, dist, eps, stack) == Owed(points, dist, eps, rest) + Kept(points, dist, eps, lo, hi)
            && Work(points, stack) == Work(points, rest) + 2 * (hi - lo) - 1
  {
    assert forall k :: 0 <= k < |stack| - 1 ==> stack[..|stack| - 1][k] == stack[k];
  }

  /** One round of the stack loop: a split marks its point and leaves two smaller segments, a
      segment without one is done. */
  lemma Round<P>(points: seq<P>, dist: Distance<P>, eps: real, stack: seq<Segment>)
    requires Segments(points, stack) && stack != []
    ensures var (lo, hi), rest := stack[|stack| - 1], stack[..|stack| - 1];
            var w := Split(points, dist, eps, lo, hi);
            var next := if w.Some? then rest + [(lo, w.value), (w.value, hi)] else rest;
            Segments(points, next) && Work(points, next) < Work(points, stack)
            && Owed(points, dist, eps, stack) == Owed(points, dist, eps, next) + if w.Some? then {w.value} else {}
  {
    var (lo, hi) := stack[|stack| - 1];
    var rest := stack[..|stack| - 1];
    PopOne(points, dist, eps, stack);
    var w := Split(points, dist, eps, lo, hi);
    if w.Some? { PushTwo(points, dist, eps, rest, lo, w.value, hi); }
  }

  /** What is marked so far and what the stack still owes make up the answer. */
  ghost predicate OnTrack<P>(points: seq<P>, dist: Distance<P>, eps: real, stack: seq<Segment>, marked: set<nat>)
    requires |points| >= 2
  {
    Segments(points, stack) && marked + Owed(points, dist, eps, stack) == KeptAll(points, dist, eps)
  }

  lemma RoundKeeps<P>(points: seq<P>, dist: Distance<P>, eps: real, stack: seq<Segment>, marked: set<nat>)
    requires |points| >= 2 && OnTrack(points, dist, eps, stack, marked) && stack != []
    ensures var (lo, hi), rest := stack[|stack| - 1], stack[..|stack| - 1];
            var w := Split(points, dist, eps, lo, hi);
            var next := if w.Some? then rest + [(lo, w.value), (w.value, hi)] else rest;
            OnTrack(points, dist, eps, next, if w.Some? then marked + {w.value} else marked)
            && Work(points, next) < Work(points, stack)
  {
    Round(points, dist, eps, stack);
  }

  lemma StartsOnTrack<P>(points: seq<P>, dist: Distance<P>, eps: real)
    requires |points| >= 2
    ensures OnTrack(points, dist, eps, [(0, |points| - 1)], {0, |points| - 1})
  {
    var stack: seq<Segment> := [(0, |points| - 1)];
    assert stack[..0] == [];
  }

  /** The inner loop: the first worst point of a segment and its distance. */
  method FindWorst<P>(points: seq<P>, dist: Distance<P>, lo: nat, hi: nat) returns (worst: real, worstAt: Option<nat>)
    requires lo < hi < |points|
    ensures worstAt == Worst(points, dist, lo, hi, hi)
    ensures worst == if worstAt.Some? then Far(points, dist, lo, hi, worstAt.value) else 0.0
  {
    worst, worstAt := 0.0, None;
    for i := lo + 1 to hi
      invariant worstAt == Worst(points, dist, lo, hi, i)
      invariant worst == if worstAt.Some? then Far(points, dist, lo, hi, worstAt.value) else 0.0
    {
      var d := dist(points[i], points[lo], points[hi]);
      if d > worst { worst, worstAt := d, Some(i); }
    }
  }

  method MarkKept<P>(points: seq<P>, dist: Distance<P>, eps: real, keep: array<bool>)
    requires |points| >= 3 && keep.Length == |points|
    requires forall i :: 0 <= i < keep.Length ==> (keep[i] <==> i == 0 || i == |points| - 1)
    modifies keep
    ensures forall i :: 0 <= i < keep.Length ==> (keep[i] <==> i in KeptAll(points, dist, eps))
  {
    var n := |points|;
    var stack: seq<Segment> := [(0, n - 1)];
    ghost var marked: set<nat> := {0, n - 1};
    StartsOnTrack(points, dist, eps);
    while stack != []
      invariant OnTrack(points, dist, eps, stack, marked)
      invariant forall i :: 0 <= i < n ==> (keep[i] <==> i in marked)
      decreases Work(points, stack)
    {
      var top := |stack| - 1;
      var (lo, hi) := stack[top];
      RoundKeeps(points, dist, eps, stack, marked);
      stack := stack[..top];
      var worst, worstAt := FindWorst(points, dist, lo, hi);
      if worstAt.Some? && worst > eps {
        var w := worstAt.value;
        keep[w] := true;
        marked := marked + {w};
        stack := stack + [(lo, w), (w, hi)];
      }
    }
  }

  method Simplify<P>(points: seq<P>, dist: Distance<P>, eps: real) returns (r: seq<P>)
    ensures |points| < 3 ==> r == points
    ensures |points| >= 3 ==> r == Select(points, KeptAll(points, dist, eps), |points|)
  {
    if |points| < 3 { return points; }
    var n := |points|;
    var keep := new bool[n](i => i == 0 || i == n - 1);
    MarkKept(points, dist, eps, keep);
    r := [];
    for i := 0 to n
      invariant r == Select(points, KeptAll(points, dist, eps), i)
    {
      if keep[i] { r := r + [points[i]]; }
    }
  }

  // ---------------------------------------------------------------- what the recursion promises

  /** a and b are kept and nothing between them is. */
  ghost predicate Neighbours(kept: set<nat>, a: nat, b: nat) {
    a in kept && b in kept && a < b && forall i :: a < i < b ==> i !in kept
  }

  ghost function Tolerance(eps: real): real {
    if eps < 0.0 then 0.0 else eps
  }

  ghost predicate Within<P>(points: seq<P>, dist: Distance<P>, eps: real, kept: set<nat>, i: nat, a: nat, b: nat) {
    a < i < b < |points| && Neighbours(kept, a, b) && Far(points, dist, a, b, i) <= Tolerance(eps)
  }

  lemma {:induction false} DroppedBetween<P>(points: seq<P>, dist: Distance<P>, eps: real, lo: nat, hi: nat, i: nat)
      returns (a: nat, b: nat)
    requires lo < i < hi < |points| && i !in Kept(points, dist, eps, lo, hi)
    ensures lo <= a && b <= hi
    ensures Within(points, dist, eps, Kept(points, dist, eps, lo, hi) + {lo, hi}, i, a, b)
    decreases hi - lo
  {
    var w := Split(points, dist, eps, lo, hi);
    if w.None? {
      a, b := lo, hi;
    } else if i < w.value {
      a, b := DroppedBetween(points, dist, eps, lo, w.value, i);
      var inner := Kept(points, dist, eps, lo, w.value) + {lo, w.value};
      var outer := Kept(points, dist, eps, lo, hi) + {lo, hi};
      assert forall j :: a < j < b ==> (j in outer <==> j in inner);
    } else {
      a, b := DroppedBetween(points, dist, eps, w.value, hi, i);
      var inner := Kept(points, dist, eps, w.value, hi) + {w.value, hi};
      var outer := Kept(points, dist, eps, lo, hi) + {lo, hi};
      assert forall j :: a < j < b ==> (j in outer <==> j in inner);
    }
  }

  /** Every dropped point is within eps (within 0 for a negative eps) of the line through its
      neighbouring kept points, and both ends are kept. */
  lemma DroppedWithinEps<P>(points: seq<P>, dist: Distance<P>, eps: real, i: nat) returns (a: nat, b: nat)
    requires |points| >= 2 && i < |points| && i !in KeptAll(points, dist, eps)
    ensures 0 in KeptAll(points, dist, eps) && |points| - 1 in KeptAll(points, dist, eps)
    ensures Within(points, dist, eps, KeptAll(points, dist, eps), i, a, b)
  {
    var n := |points|;
    a, b := DroppedBetween(points, dist, eps, 0, n - 1, i);
    assert Kept(points, dist, eps, 0, n - 1) + {0, n - 1} == KeptAll(points, dist, eps);
  }

  /** Nothing is kept without need: each kept inner point is farther than eps from the line
      through two kept points around it, and no point between those two is farther. */
  lemma {:induction false} KeptForAReason<P>(points: seq<P>, dist: Distance<P>, eps: real, lo: nat, hi: nat, i: nat)
      returns (a: nat, b: nat)
    requires lo < hi < |points| && i in Kept(points, dist, eps, lo, hi)
    ensures lo <= a < i < b <= hi
    ensures a in Kept(points, dist, eps, lo, hi) + {lo, hi} && b in Kept(points, dist, eps, lo, hi) + {lo, hi}
    ensures Far(points, dist, a, b, i) > eps
    ensures forall j :: a < j < b ==> Far(points, dist, a, b, j) <= Far(points, dist, a, b, i)
    decreases hi - lo
  {
    var w := Split(points, dist, eps, lo, hi).value;
    if i == w {
      a, b := lo, hi;
    } else if i < w {
      a, b := KeptForAReason(points, dist, eps, lo, w, i);
    } else {
      a, b := KeptForAReason(points, dist, eps, w, hi, i);
    }
  }

  // ---------------------------------------------------------------- what is returned

  /** The kept indices below n, in ascending order. */
  function Indices(keep: set<nat>, n: nat): seq<nat> {
    if n == 0 then [] else Indices(keep, n - 1) + if n - 1 in keep then [n - 1] else []
  }

  lemma {:induction false} IndicesMean(keep: set<nat>, n: nat)
    ensures forall i :: i in Indices(keep, n) <==> i in keep && i < n
    ensures forall j, k :: 0 <= j < k < |Indices(keep, n)| ==> Indices(keep, n)[j] < Indices(keep, n)[k]
  {
    if n > 0 {
      IndicesMean(keep, n - 1);
      var before := Indices(keep, n - 1);
      assert forall j :: 0 <= j < |before| ==> before[j] in before;
    }
  }

  lemma {:induction false} SelectAt<P>(points: seq<P>, keep: set<nat>, n: nat, j: nat)
    requires n <= |points|
    ensures |Select(points, keep, n)| == |Indices(keep, n)|
    ensures j < |Indices(keep, n)| ==>
              Indices(keep, n)[j] < n && Select(points, keep, n)[j] == points[Indices(keep, n)[j]]
  {
    if n > 0 { SelectAt(points, keep, n - 1, j); }
  }

  /** The result is the points at the kept indices, each once, in ascending order. */
  lemma SelectInOrder<P>(points: seq<P>, keep: set<nat>, n: nat) returns (at: seq<nat>)
    requires n <= |points|
    ensures forall i :: i in at <==> i in keep && i < n
    ensures forall j, k :: 0 <= j < k < |at| ==> at[j] < at[k]
    ensures |Select(points, keep, n)| == |at|
    ensures forall j :: 0 <= j < |at| ==> at[j] < n && Select(points, keep, n)[j] == points[at[j]]
  {
    at := Indices(keep, n);
    IndicesMean(keep, n);
    SelectAt(points, keep, n, 0);
    forall j | 0 <= j < |at| ensures at[j] < n && Select(points, keep, n)[j] == points[at[j]] {
      SelectAt(points, keep, n, j);
    }
  }
}
