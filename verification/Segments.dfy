/** The segment intersection test of the geometry validator, over exact coordinates. */
module Segments {
  import opened Reals

  datatype Point = Point(x: real, y: real)

  function Orientation(a: Point, b: Point, c: Point): real {
    (b.x - a.x) * (c.y - a.y) - (b.y - a.y) * (c.x - a.x)
  }

  predicate OnSegment(a: Point, b: Point, p: Point) {
    && Min(a.x, b.x) <= p.x <= Max(a.x, b.x)
    && Min(a.y, b.y) <= p.y <= Max(a.y, b.y)
  }

  predicate SegmentsIntersect(p1: Point, p2: Point, p3: Point, p4: Point) {
    var d1 := Orientation(p3, p4, p1);
    var d2 := Orientation(p3, p4, p2);
    var d3 := Orientation(p1, p2, p3);
    var d4 := Orientation(p1, p2, p4);
    if (d1 > 0.0) != (d2 > 0.0) && (d3 > 0.0) != (d4 > 0.0) then true
    else if d1 == 0.0 && OnSegment(p3, p4, p1) then true
    else if d2 == 0.0 && OnSegment(p3, p4, p2) then true
    else if d3 == 0.0 && OnSegment(p1, p2, p3) then true
    else if d4 == 0.0 && OnSegment(p1, p2, p4) then true
    else false
  }

  // ---- what the test means -----------------------------------------------------------

  /** The point a fraction s of the way from a to b. */
  function At(a: Point, b: Point, s: real): Point {
    Point(a.x + s * (b.x - a.x), a.y + s * (b.y - a.y))
  }

  ghost predicate Meet(p1: Point, p2: Point, p3: Point, p4: Point, s: real, t: real) {
    0.0 <= s <= 1.0 && 0.0 <= t <= 1.0 && At(p1, p2, s) == At(p3, p4, t)
  }

  /** The two closed segments have a point in common. */
  ghost predicate Share(p1: Point, p2: Point, p3: Point, p4: Point) {
    exists s: real, t: real :: Meet(p1, p2, p3, p4, s, t)
  }

  // ---- algebra -------------------------------------------------------------------------

  /** Orientation is affine along a segment. */
  lemma OrientationAlong(a: Point, b: Point, c: Point, d: Point, s: real)
    ensures Orientation(a, b, At(c, d, s)) == (1.0 - s) * Orientation(a, b, c) + s * Orientation(a, b, d)
  {
    var u, v := b.x - a.x, b.y - a.y;
    var p := At(c, d, s);
    assert u * (p.y - a.y) == u * (c.y - a.y) + s * (u * (d.y - a.y) - u * (c.y - a.y));
    assert v * (p.x - a.x) == v * (c.x - a.x) + s * (v * (d.x - a.x) - v * (c.x - a.x));
  }

  lemma OwnLine(a: Point, b: Point, s: real)
    ensures Orientation(a, b, At(a, b, s)) == 0.0
  {
    OrientationAlong(a, b, a, b, s);
  }

  /** The four orientations are linked by the cross product of the two directions. */
  lemma OrientationDifference(p1: Point, p2: Point, p3: Point, p4: Point)
    ensures Orientation(p3, p4, p1) - Orientation(p3, p4, p2) == Orientation(p1, p2, p4) - Orientation(p1, p2, p3)
  {}

  /** Cramer's rule for the crossing point. */
  lemma Cramer(p1: Point, p2: Point, p3: Point, p4: Point)
    ensures var d1, d2, d3 := Orientation(p3, p4, p1), Orientation(p3, p4, p2), Orientation(p1, p2, p3);
      && (d1 - d2) * (p1.x - p3.x) + d1 * (p2.x - p1.x) + d3 * (p4.x - p3.x) == 0.0
      && (d1 - d2) * (p1.y - p3.y) + d1 * (p2.y - p1.y) + d3 * (p4.y - p3.y) == 0.0
  {}

  /** s * d == n, written as a quotient. */
  lemma Quotient(n: real, d: real) returns (s: real)
    requires d != 0.0
    ensures s * d == n
    ensures d > 0.0 ==> (0.0 <= s <==> 0.0 <= n) && (s <= 1.0 <==> n <= d)
    ensures d < 0.0 ==> (0.0 <= s <==> n <= 0.0) && (s <= 1.0 <==> n >= d)
  {
    s := n / d;
    assert (1.0 - s) * d == d - n;
    Sign(s, d);
    Sign(1.0 - s, d);
  }

  lemma Sign(x: real, d: real)
    requires d != 0.0
    ensures d > 0.0 ==> (0.0 <= x <==> 0.0 <= x * d)
    ensures d < 0.0 ==> (0.0 <= x <==> x * d <= 0.0)
  {}

  // ---- the test only succeeds on a common point ------------------------------------------

  /** Two segments whose end points lie on different sides of each other's lines cross. */
  lemma ProperCrossing(p1: Point, p2: Point, p3: Point, p4: Point)
    requires (Orientation(p3, p4, p1) > 0.0) != (Orientation(p3, p4, p2) > 0.0)
    requires (Orientation(p1, p2, p3) > 0.0) != (Orientation(p1, p2, p4) > 0.0)
    ensures Share(p1, p2, p3, p4)
  {
    var d1, d2, d3 := Orientation(p3, p4, p1), Orientation(p3, p4, p2), Orientation(p1, p2, p3);
    OrientationDifference(p1, p2, p3, p4);
    Cramer(p1, p2, p3, p4);
    Solved(p1, p2, p3, p4, d1 - d2, d1, d3);
  }

  lemma Solved(p1: Point, p2: Point, p3: Point, p4: Point, d: real, d1: real, d3: real)
    requires d > 0.0 ==> 0.0 <= d1 <= d && 0.0 <= -d3 <= d
    requires d < 0.0 ==> d <= d1 <= 0.0 && d <= -d3 <= 0.0
    requires d != 0.0
    requires d * (p1.x - p3.x) + d1 * (p2.x - p1.x) + d3 * (p4.x - p3.x) == 0.0
    requires d * (p1.y - p3.y) + d1 * (p2.y - p1.y) + d3 * (p4.y - p3.y) == 0.0
    ensures Share(p1, p2, p3, p4)
  {
    var s := Quotient(d1, d);
    var t := Quotient(-d3, d);
    SolvedCoordinate(d, s, t, d1, d3, p1.x, p2.x, p3.x, p4.x);
    SolvedCoordinate(d, s, t, d1, d3, p1.y, p2.y, p3.y, p4.y);
    var p, q := At(p1, p2, s), At(p3, p4, t);
    assert p.x == q.x && p.y == q.y;
    assert 0.0 <= s <= 1.0 && 0.0 <= t <= 1.0;
    assert Meet(p1, p2, p3, p4, s, t);
  }

  lemma Reassociate(d: real, s: real, k: real)
    ensures d * (s * k) == (s * d) * k
  {}

  lemma Negated(n: real, d3: real, k: real)
    requires n == -d3
    ensures n * k == -(d3 * k)
  {}

  lemma SolvedCoordinate(d: real, s: real, t: real, d1: real, d3: real, a: real, b: real, c: real, e: real)
    requires d != 0.0 && s * d == d1 && t * d == -d3
    requires d * (a - c) + d1 * (b - a) + d3 * (e - c) == 0.0
    ensures a + s * (b - a) == c + t * (e - c)
  {
    Reassociate(d, s, b - a);
    Reassociate(d, t, e - c);
    Negated(t * d, d3, e - c);
    Cancel(d, a - c + s * (b - a), t * (e - c));
  }

  /** A collinear point inside the bounding box lies on the segment. */
  lemma OnSegmentAt(a: Point, b: Point, p: Point) returns (t: real)
    requires Orientation(a, b, p) == 0.0 && OnSegment(a, b, p)
    ensures 0.0 <= t <= 1.0 && At(a, b, t) == p
  {
    if a == b {
      t := 0.0;
    } else {
      t := LineAt(a, b, p);
      if a.x < b.x { WithinUnit(t, b.x - a.x, p.x - a.x); }
      else if b.x < a.x { WithinUnit(t, a.x - b.x, a.x - p.x); }
      else if a.y < b.y { WithinUnit(t, b.y - a.y, p.y - a.y); }
      else { WithinUnit(t, a.y - b.y, a.y - p.y); }
    }
  }

  lemma WithinUnit(t: real, d: real, n: real)
    requires d > 0.0 && t * d == n && 0.0 <= n <= d
    ensures 0.0 <= t <= 1.0
  {
    assert (1.0 - t) * d == d - n;
    Sign(t, d);
    Sign(1.0 - t, d);
  }

  /** A point on the line through two distinct points. */
  lemma LineAt(a: Point, b: Point, p: Point) returns (t: real)
    requires a != b && Orientation(a, b, p) == 0.0
    ensures At(a, b, t) == p
  {
    var u, v := b.x - a.x, b.y - a.y;
    if u != 0.0 {
      t := Quotient(p.x - a.x, u);
      assert v * (p.x - a.x) == v * (t * u);
      assert u * (p.y - a.y) == v * (p.x - a.x);
      assert v * (t * u) == u * (t * v);
      Cancel(u, p.y - a.y, t * v);
    } else {
      t := Quotient(p.y - a.y, v);
      assert v * (p.x - a.x) == 0.0;
      Cancel(v, p.x - a.x, 0.0);
    }
  }

  lemma EndpointShares(p1: Point, p2: Point, p3: Point, p4: Point)
    ensures Orientation(p3, p4, p1) == 0.0 && OnSegment(p3, p4, p1) ==> Share(p1, p2, p3, p4)
    ensures Orientation(p3, p4, p2) == 0.0 && OnSegment(p3, p4, p2) ==> Share(p1, p2, p3, p4)
    ensures Orientation(p1, p2, p3) == 0.0 && OnSegment(p1, p2, p3) ==> Share(p1, p2, p3, p4)
    ensures Orientation(p1, p2, p4) == 0.0 && OnSegment(p1, p2, p4) ==> Share(p1, p2, p3, p4)
  {
    assert At(p1, p2, 0.0) == p1 && At(p1, p2, 1.0) == p2 && At(p3, p4, 0.0) == p3 && At(p3, p4, 1.0) == p4;
    if Orientation(p3, p4, p1) == 0.0 && OnSegment(p3, p4, p1) {
      var t := OnSegmentAt(p3, p4, p1);
      assert Meet(p1, p2, p3, p4, 0.0, t);
    }
    if Orientation(p3, p4, p2) == 0.0 && OnSegment(p3, p4, p2) {
      var t := OnSegmentAt(p3, p4, p2);
      assert Meet(p1, p2, p3, p4, 1.0, t);
    }
    if Orientation(p1, p2, p3) == 0.0 && OnSegment(p1, p2, p3) {
      var s := OnSegmentAt(p1, p2, p3);
      assert Meet(p1, p2, p3, p4, s, 0.0);
    }
    if Orientation(p1, p2, p4) == 0.0 && OnSegment(p1, p2, p4) {
      var s := OnSegmentAt(p1, p2, p4);
      assert Meet(p1, p2, p3, p4, s, 1.0);
    }
  }

  // ---- the test finds every common point ---------------------------------------------------

  lemma AtWithinBox(a: Point, b: Point, t: real)
    requires 0.0 <= t <= 1.0
    ensures OnSegment(a, b, At(a, b, t))
  {
    Between(a.x, b.x, t);
    Between(a.y, b.y, t);
  }

  lemma Between(a: real, b: real, t: real)
    requires 0.0 <= t <= 1.0
    ensures Min(a, b) <= a + t * (b - a) <= Max(a, b)
  {
    var d := if a <= b then b - a else a - b;
    NonNegative(t, d);
    NonNegative(1.0 - t, d);
    assert (1.0 - t) * d == d - t * d;
    assert t * (b - a) == if a <= b then t * d else -(t * d);
  }

  /** An end point that is the common point, or lies on the other segment, is detected. */
  lemma EndpointDetected(a: Point, b: Point, t: real)
    requires 0.0 <= t <= 1.0
    ensures Orientation(a, b, At(a, b, t)) == 0.0 && OnSegment(a, b, At(a, b, t))
  {
    OwnLine(a, b, t);
    AtWithinBox(a, b, t);
  }

  /** The weighted mean of two numbers is zero: one is zero at its end, or they differ in sign. */
  lemma MeanZero(d1: real, d2: real, s: real)
    requires 0.0 <= s <= 1.0 && (1.0 - s) * d1 + s * d2 == 0.0
    ensures d1 == 0.0 && d2 != 0.0 ==> s == 0.0
    ensures d2 == 0.0 && d1 != 0.0 ==> s == 1.0
    ensures d1 != 0.0 && d2 != 0.0 ==> (d1 > 0.0) != (d2 > 0.0)
  {
    if d1 > 0.0 && d2 > 0.0 { MeanPositive(d1, d2, s); }
    if d1 < 0.0 && d2 < 0.0 { MeanPositive(-d1, -d2, s); }
  }

  lemma MeanPositive(d1: real, d2: real, s: real)
    requires 0.0 <= s <= 1.0 && d1 > 0.0 && d2 > 0.0
    ensures (1.0 - s) * d1 + s * d2 > 0.0
  {
    if s > 0.0 { assert s * d2 > 0.0 && (1.0 - s) * d1 >= 0.0; }
  }

  lemma CommonPointDetected(p1: Point, p2: Point, p3: Point, p4: Point, s: real, t: real)
    requires Meet(p1, p2, p3, p4, s, t)
    ensures SegmentsIntersect(p1, p2, p3, p4)
  {
    var d1, d2 := Orientation(p3, p4, p1), Orientation(p3, p4, p2);
    var d3, d4 := Orientation(p1, p2, p3), Orientation(p1, p2, p4);
    var p := At(p1, p2, s);
    OrientationAlong(p3, p4, p1, p2, s);
    OrientationAlong(p1, p2, p3, p4, t);
    EndpointDetected(p1, p2, s);
    EndpointDetected(p3, p4, t);
    MeanZero(d1, d2, s);
    MeanZero(d3, d4, t);
    OrientationDifference(p1, p2, p3, p4);
    if d1 == 0.0 && d2 == 0.0 {
      CollinearDetected(p1, p2, p3, p4, s, t);
    } else if d1 == 0.0 {
      assert p == p1;
    } else if d2 == 0.0 {
      assert p == p2;
    } else if d3 == 0.0 {
      assert p == p3;
    } else if d4 == 0.0 {
      assert p == p4;
    }
  }

  /** All four points on one line: some end point lies on the other segment. */
  lemma CollinearDetected(p1: Point, p2: Point, p3: Point, p4: Point, s: real, t: real)
    requires Meet(p1, p2, p3, p4, s, t)
    requires Orientation(p3, p4, p1) == 0.0 && Orientation(p3, p4, p2) == 0.0
    ensures SegmentsIntersect(p1, p2, p3, p4)
  {
    if p3 == p4 {
      EndpointDetected(p1, p2, s);
      assert At(p3, p4, t) == p3;
    } else {
      var a := LineAt(p3, p4, p1);
      var b := LineAt(p3, p4, p2);
      Parameters(p3, p4, a, b, s, t);
      if 0.0 <= a <= 1.0 {
        EndpointDetected(p3, p4, a);
      } else if 0.0 <= b <= 1.0 {
        EndpointDetected(p3, p4, b);
      } else {
        var r := Straddle(a, b, s, t);
        Reparametrised(p3, p4, a, b, r);
        EndpointDetected(p1, p2, r);
      }
    }
  }

  /** Two parameters of one point on a proper line agree. */
  lemma Parameters(p3: Point, p4: Point, a: real, b: real, s: real, t: real)
    requires p3 != p4 && At(At(p3, p4, a), At(p3, p4, b), s) == At(p3, p4, t)
    ensures a + s * (b - a) == t
  {
    var u, v := p4.x - p3.x, p4.y - p3.y;
    assert (a + s * (b - a)) * u == a * u + s * (b * u - a * u);
    assert (a + s * (b - a)) * v == a * v + s * (b * v - a * v);
    if u != 0.0 { Cancel(u, a + s * (b - a), t); } else { Cancel(v, a + s * (b - a), t); }
  }

  lemma Straddle(a: real, b: real, s: real, t: real) returns (r: real)
    requires 0.0 <= s <= 1.0 && 0.0 <= t <= 1.0 && a + s * (b - a) == t
    requires !(0.0 <= a <= 1.0) && !(0.0 <= b <= 1.0)
    ensures 0.0 <= r <= 1.0 && a + r * (b - a) == 0.0
  {
    Between(a, b, s);
    r := Quotient(-a, b - a);
  }

  lemma Reparametrised(p3: Point, p4: Point, a: real, b: real, r: real)
    requires a + r * (b - a) == 0.0
    ensures At(At(p3, p4, a), At(p3, p4, b), r) == p3
  {
    var u, v := p4.x - p3.x, p4.y - p3.y;
    assert a * u + r * (b * u - a * u) == (a + r * (b - a)) * u;
    assert a * v + r * (b * v - a * v) == (a + r * (b - a)) * v;
  }

  /** The test is exact: it succeeds if and only if the closed segments share a point, for crossing,
      touching, overlapping and degenerate segments alike. */
  lemma IntersectExact(p1: Point, p2: Point, p3: Point, p4: Point)
    ensures SegmentsIntersect(p1, p2, p3, p4) <==> Share(p1, p2, p3, p4)
  {
    if SegmentsIntersect(p1, p2, p3, p4) {
      EndpointShares(p1, p2, p3, p4);
      if (Orientation(p3, p4, p1) > 0.0) != (Orientation(p3, p4, p2) > 0.0)
        && (Orientation(p1, p2, p3) > 0.0) != (Orientation(p1, p2, p4) > 0.0)
      {
        ProperCrossing(p1, p2, p3, p4);
      }
    }
    if Share(p1, p2, p3, p4) {
      var s: real, t: real :| Meet(p1, p2, p3, p4, s, t);
      CommonPointDetected(p1, p2, p3, p4, s, t);
    }
  }
}
