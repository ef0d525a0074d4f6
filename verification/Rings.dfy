/** The polygon ring checks: pair search over the edges, and the verdict on one ring. */
module Rings {
  import opened Options
  import opened Segments

  /** Edges i and j of the list are compared by the pair search. */
  predicate Compared(i: nat, j: nat, n: int) {
    i < j < n && j != i + 1 && !(i == 0 && j == n - 1)
  }

  ghost predicate EdgesShare(ring: seq<Point>, i: nat, j: nat)
    requires i + 1 < |ring| && j + 1 < |ring|
  {
    Share(ring[i], ring[i + 1], ring[j], ring[j + 1])
  }

  /** Some pair of compared edges shares a point. */
  ghost predicate SelfIntersecting(ring: seq<Point>) {
    exists i: nat, j: nat :: Compared(i, j, |ring| - 1) && EdgesShare(ring, i, j)
  }

  method RingSelfIntersects(ring: seq<Point>) returns (r: bool)
    ensures |ring| >= 4 ==> (r <==> SelfIntersecting(ring))
    ensures |ring| < 4 ==> !r
  {
    var n := |ring| - 1;
    if n < 3 { return false; }
    for i := 0 to n
      invariant forall k: nat, j: nat :: k < i && Compared(k, j, n) ==> !EdgesShare(ring, k, j)
    {
      var a1, a2 := ring[i], ring[i + 1];
      for j := i + 1 to n
        invariant forall m: nat :: m < j && Compared(i, m, n) ==> !EdgesShare(ring, i, m)
      {
        if j == i || j == i + 1 || (i == 0 && j == n - 1) {
          continue;
        }
        var b1, b2 := ring[j], ring[j + 1];
        IntersectExact(a1, a2, b1, b2);
        if SegmentsIntersect(a1, a2, b1, b2) {
          assert Compared(i, j, n) && EdgesShare(ring, i, j);
          return true;
        }
        assert !EdgesShare(ring, i, j);
      }
    }
    return false;
  }

  // ---- the verdict on a ring ----------------------------------------------------------------

  /** A GeoJSON position: two finite numbers first, or something the validator rejects. */
  datatype Position = Malformed | Finite(at: Point)

  datatype Reason = TooShort | MalformedPosition | NotClosed | SelfIntersects

  predicate AllFinite(ring: seq<Position>) { forall i :: 0 <= i < |ring| ==> ring[i].Finite? }

  function Points(ring: seq<Position>): (r: seq<Point>)
    requires AllFinite(ring)
    ensures |r| == |ring|
  {
    seq(|ring|, i requires 0 <= i < |ring| => ring[i].at)
  }

  /** A ring passes exactly when it is long enough, finite, closed and simple; the reason given is
      the first of these that fails. */
  method ValidateRing(ring: seq<Position>) returns (reason: Option<Reason>)
    ensures reason == Some(TooShort) <==> |ring| < 4
    ensures reason == Some(MalformedPosition) <==> |ring| >= 4 && !AllFinite(ring)
    ensures reason == Some(NotClosed) <==> |ring| >= 4 && AllFinite(ring) && ring[0] != ring[|ring| - 1]
    ensures reason == Some(SelfIntersects) <==>
      |ring| >= 4 && AllFinite(ring) && ring[0] == ring[|ring| - 1] && SelfIntersecting(Points(ring))
  {
    if |ring| < 4 { return Some(TooShort); }
    if !AllFinite(ring) { return Some(MalformedPosition); }
    if ring[0].at != ring[|ring| - 1].at { return Some(NotClosed); }
    var crossing := RingSelfIntersects(Points(ring));
    return if crossing then Some(SelfIntersects) else None;
  }

  // ---- the verdict does not depend on the start vertex or the direction -----------------------

  /** The closed ring through the vertices v. */
  function Closed(v: seq<Point>): (r: seq<Point>)
    requires v != []
    ensures |r| == |v| + 1
  {
    v + [v[0]]
  }

  function Next(i: nat, n: nat): nat
    requires i < n
  {
    if i + 1 == n then 0 else i + 1
  }

  /** Edges i and j have no vertex position in common. */
  predicate Apart(i: nat, j: nat, n: nat) {
    i < n && j < n && i != j && Next(i, n) != j && Next(j, n) != i
  }

  /** The cyclic reading of self-intersection. */
  ghost predicate Crosses(v: seq<Point>, i: nat, j: nat) {
    Apart(i, j, |v|) && Share(v[i], v[Next(i, |v|)], v[j], v[Next(j, |v|)])
  }

  ghost predicate Tangled(v: seq<Point>) { exists i: nat, j: nat :: Crosses(v, i, j) }

  lemma ShareSymmetric(p1: Point, p2: Point, p3: Point, p4: Point)
    requires Share(p1, p2, p3, p4)
    ensures Share(p3, p4, p1, p2) && Share(p2, p1, p3, p4)
  {
    var s: real, t: real :| Meet(p1, p2, p3, p4, s, t);
    assert Meet(p3, p4, p1, p2, t, s);
    assert At(p2, p1, 1.0 - s) == At(p1, p2, s);
    assert Meet(p2, p1, p3, p4, 1.0 - s, t);
  }

  lemma ShareReversed(p1: Point, p2: Point, p3: Point, p4: Point)
    requires Share(p1, p2, p3, p4)
    ensures Share(p2, p1, p4, p3)
  {
    ShareSymmetric(p1, p2, p3, p4);
    ShareSymmetric(p3, p4, p1, p2);
    ShareSymmetric(p4, p3, p1, p2);
    ShareSymmetric(p1, p2, p4, p3);
  }

  /** The pair search sees exactly the pairs of cyclically non-adjacent edges. */
  lemma SearchIsComplete(v: seq<Point>)
    requires |v| >= 3
    ensures SelfIntersecting(Closed(v)) <==> Tangled(v)
  {
    var n, ring := |v|, Closed(v);
    if SelfIntersecting(ring) {
      var i: nat, j: nat :| Compared(i, j, n) && EdgesShare(ring, i, j);
      assert ring[i + 1] == v[Next(i, n)] && ring[j + 1] == v[Next(j, n)];
      assert Crosses(v, i, j);
    }
    if Tangled(v) {
      var i: nat, j: nat :| Crosses(v, i, j);
      ShareSymmetric(v[i], v[Next(i, n)], v[j], v[Next(j, n)]);
      assert ring[i + 1] == v[Next(i, n)] && ring[j + 1] == v[Next(j, n)];
      if i < j {
        assert Compared(i, j, n) && EdgesShare(ring, i, j);
      } else {
        assert Compared(j, i, n) && EdgesShare(ring, j, i);
      }
    }
  }

  function Rotated(v: seq<Point>): (r: seq<Point>)
    requires v != []
    ensures |r| == |v| && forall i :: 0 <= i < |v| ==> r[i] == v[Next(i, |v|)]
  {
    v[1..] + [v[0]]
  }

  /** The vertex list that starts k vertices later. */
  function RotatedBy(v: seq<Point>, k: nat): (r: seq<Point>)
    requires v != []
    ensures |r| == |v|
    decreases k
  {
    if k == 0 then v else RotatedBy(Rotated(v), k - 1)
  }

  function Previous(i: nat, n: nat): nat
    requires i < n
  {
    if i == 0 then n - 1 else i - 1
  }

  lemma RotationStep(v: seq<Point>)
    requires |v| >= 3
    ensures Tangled(Rotated(v)) <==> Tangled(v)
  {
    var n, w := |v|, Rotated(v);
    if Tangled(w) {
      var i: nat, j: nat :| Crosses(w, i, j);
      assert Crosses(v, Next(i, n), Next(j, n));
    }
    if Tangled(v) {
      var i: nat, j: nat :| Crosses(v, i, j);
      assert Crosses(w, Previous(i, n), Previous(j, n));
    }
  }

  lemma {:induction false} RotationKeepsVerdict(v: seq<Point>, k: nat)
    requires |v| >= 3
    ensures SelfIntersecting(Closed(RotatedBy(v, k))) <==> SelfIntersecting(Closed(v))
    decreases k
  {
    if k > 0 {
      RotationKeepsVerdict(Rotated(v), k - 1);
      SearchIsComplete(v);
      SearchIsComplete(Rotated(v));
      RotationStep(v);
    }
  }

  function Reversed(v: seq<Point>): (r: seq<Point>)
    ensures |r| == |v| && forall i :: 0 <= i < |v| ==> r[i] == v[|v| - 1 - i]
  {
    seq(|v|, i requires 0 <= i < |v| => v[|v| - 1 - i])
  }

  /** Where edge i of the reversed ring lies in the original one. */
  function Mirror(i: nat, n: nat): nat
    requires i < n
  {
    if i + 1 == n then n - 1 else n - 2 - i
  }

  lemma ReversalStep(v: seq<Point>)
    requires |v| >= 3 && Tangled(Reversed(v))
    ensures Tangled(v)
  {
    var n, w := |v|, Reversed(v);
    var i: nat, j: nat :| Crosses(w, i, j);
    var a, b := Mirror(i, n), Mirror(j, n);
    assert w[i] == v[Next(a, n)] && w[Next(i, n)] == v[a];
    assert w[j] == v[Next(b, n)] && w[Next(j, n)] == v[b];
    ShareReversed(w[i], w[Next(i, n)], w[j], w[Next(j, n)]);
    assert Crosses(v, a, b);
  }

  lemma ReversalKeepsVerdict(v: seq<Point>)
    requires |v| >= 3
    ensures SelfIntersecting(Closed(Reversed(v))) <==> SelfIntersecting(Closed(v))
  {
    SearchIsComplete(v);
    SearchIsComplete(Reversed(v));
    if Tangled(Reversed(v)) { ReversalStep(v); }
    if Tangled(v) {
      assert Reversed(Reversed(v)) == v;
      ReversalStep(Reversed(v));
    }
  }
}
