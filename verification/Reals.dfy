/** Exact arithmetic shared by the numeric models. */
module Reals {
  function Abs(x: real): real { if x < 0.0 then -x else x }

  function Min(x: real, y: real): real { if y < x then y else x }

  function Max(x: real, y: real): real { if y > x then y else x }

  /** max(low, min(high, v)). */
  function Clamp(v: real, low: real, high: real): real { Max(low, Min(high, v)) }

  /** A product kept whole, where its factors do not matter. */
  function Times(x: real, y: real): real { x * y }

  /** Half to even, as the language rounds. */
  function RoundInt(x: real): int {
    var f := x.Floor;
    if x - f as real < 0.5 || (x - f as real == 0.5 && f % 2 == 0) then f else f + 1
  }

  /** round(x, d) for scale 10^d. */
  function RoundAt(x: real, scale: real): real
    requires scale > 0.0
  {
    Over(RoundInt(Times(x, scale)), scale)
  }

  function Over(m: int, scale: real): real
    requires scale > 0.0
  {
    m as real / scale
  }

  lemma RoundTwice(x: real, scale: real)
    requires scale > 0.0
    ensures RoundAt(RoundAt(x, scale), scale) == RoundAt(x, scale)
  {
    RoundWhole(RoundAt(x, scale), RoundInt(Times(x, scale)), scale);
  }

  /** A multiple of the unit is its own rounding. */
  lemma RoundWhole(y: real, m: int, scale: real)
    requires scale > 0.0 && y == Over(m, scale)
    ensures RoundAt(y, scale) == y
  {
    Product(y, m as real, scale);
    assert RoundInt(m as real) == m;
    hide Times, RoundInt;
    assert RoundInt(Times(y, scale)) == m;
  }

  lemma Product(q: real, r: real, scale: real)
    requires scale != 0.0 && q == r / scale
    ensures Times(q, scale) == r
  {}

  lemma RoundMonotone(x: real, y: real)
    requires x <= y
    ensures RoundInt(x) <= RoundInt(y)
  {}

  lemma NonNegative(x: real, y: real)
    requires x >= 0.0 && y >= 0.0
    ensures x * y >= 0.0
  {}

  lemma Positive(x: real, y: real)
    requires x > 0.0 && y > 0.0
    ensures x * y > 0.0
  {}

  lemma ProductPositive(x: real, y: real, t: real)
    requires x > 0.0 && y > 0.0 && t == x * y
    ensures t > 0.0
  {}

  lemma Cancel(d: real, a: real, b: real)
    requires d != 0.0 && d * a == d * b
    ensures a == b
  {}

  /** Multiplying by a positive factor keeps the order. */
  lemma ScaleOrder(x: real, y: real, d: real)
    requires d > 0.0
    ensures x <= y <==> x * d <= y * d
    ensures x == y <==> x * d == y * d
  {
    assert y * d - x * d == (y - x) * d && x * d - y * d == (x - y) * d;
    if x < y { Positive(y - x, d); }
    if y < x { Positive(x - y, d); }
  }

  lemma Undivide(x: real, y: real)
    requires y != 0.0
    ensures x / y * y == x
  {}

  lemma UnitShare(q: real, part: real, whole: real)
    requires 0.0 <= part <= whole && whole > 0.0 && q * whole == part
    ensures 0.0 <= q <= 1.0 && (q == 0.0 <==> part == 0.0) && (q == 1.0 <==> part == whole)
  {
    ScaleOrder(0.0, q, whole);
    ScaleOrder(q, 1.0, whole);
  }

  lemma Proportion(part: nat, whole: nat)
    requires part <= whole && whole > 0
    ensures var q := part as real / whole as real;
      && 0.0 <= q <= 1.0 && q * whole as real == part as real
      && (q == 0.0 <==> part == 0) && (q == 1.0 <==> part == whole)
  {
    Undivide(part as real, whole as real);
    UnitShare(part as real / whole as real, part as real, whole as real);
  }
}
