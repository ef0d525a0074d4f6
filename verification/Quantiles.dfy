/** Interpolated quantile cuts of a sample, as both drift monitors compute them. */
module Quantiles {
  import opened Reals
  import opened Orders

  predicate RealLess(a: real, b: real) { a < b }

  predicate NonDecreasing(s: seq<real>) { forall i, j :: 0 <= i <= j < |s| ==> s[i] <= s[j] }

  function Sorted(s: seq<real>): (r: seq<real>)
    ensures |r| == |s|
  {
    Sort(RealLess, s)
  }

  lemma SortedNonDecreasing(s: seq<real>)
    ensures NonDecreasing(Sorted(s)) && multiset(Sorted(s)) == multiset(s)
  {
    SortAscending(RealLess, s);
    var r := Sorted(s);
    forall i, j | 0 <= i <= j < |r| ensures r[i] <= r[j] {
      if i < j { assert !RealLess(r[j], r[i]); }
    }
  }

  lemma LeastFirst(s: seq<real>, t: seq<real>)
    requires NonDecreasing(s) && t != [] && multiset(s) == multiset(t)
    ensures s != [] && s[0] <= t[0]
  {
    assert t[0] in multiset(s);
    var i :| 0 <= i < |s| && s[i] == t[0];
  }

  lemma TailMultiset(s: seq<real>)
    requires s != []
    ensures multiset(s[1..]) == multiset(s) - multiset{s[0]}
  {
    assert s == [s[0]] + s[1..];
  }

  /** A sorted list is determined by what it contains. */
  lemma {:induction false} SortedUnique(s: seq<real>, t: seq<real>)
    requires NonDecreasing(s) && NonDecreasing(t) && multiset(s) == multiset(t)
    ensures s == t
  {
    if t != [] { LeastFirst(s, t); }
    if s != [] {
      LeastFirst(t, s);
      TailMultiset(s);
      TailMultiset(t);
      SortedUnique(s[1..], t[1..]);
      assert s == [s[0]] + s[1..] && t == [t[0]] + t[1..];
    }
  }

  /** Sorting forgets the order the values came in. */
  lemma SortedIgnoresOrder(s: seq<real>, t: seq<real>)
    requires multiset(s) == multiset(t)
    ensures Sorted(s) == Sorted(t)
  {
    SortedNonDecreasing(s);
    SortedNonDecreasing(t);
    SortedUnique(Sorted(s), Sorted(t));
  }

  /** ceil(pos). */
  function Upper(pos: real): int { if pos == pos.Floor as real then pos.Floor else pos.Floor + 1 }

  /** floor(pos), ceil(pos) and the interpolation between the two neighbours. */
  function Interpolate(ordered: seq<real>, pos: real): real
    requires ordered != [] && 0.0 <= pos <= (|ordered| - 1) as real
  {
    var frac := pos - pos.Floor as real;
    ordered[pos.Floor] * (1.0 - frac) + ordered[Upper(pos)] * frac
  }

  lemma Mix(a: real, b: real, f: real)
    requires a <= b && 0.0 <= f <= 1.0
    ensures a <= a * (1.0 - f) + b * f <= b
  {
    NonNegative(f, b - a);
    NonNegative(1.0 - f, b - a);
    assert a * (1.0 - f) + b * f == a + f * (b - a);
    assert a * (1.0 - f) + b * f == b - (1.0 - f) * (b - a);
  }

  lemma MixMonotone(a: real, b: real, f: real, g: real)
    requires a <= b && f <= g
    ensures a * (1.0 - f) + b * f <= a * (1.0 - g) + b * g
  {
    NonNegative(g - f, b - a);
    assert a * (1.0 - g) + b * g - (a * (1.0 - f) + b * f) == (g - f) * (b - a);
  }

  lemma InterpolateBetween(ordered: seq<real>, x: real)
    requires NonDecreasing(ordered) && ordered != [] && 0.0 <= x <= (|ordered| - 1) as real
    ensures ordered[x.Floor] <= Interpolate(ordered, x) <= ordered[Upper(x)]
  {
    Mix(ordered[x.Floor], ordered[Upper(x)], x - x.Floor as real);
  }

  lemma InterpolateMonotone(ordered: seq<real>, x: real, y: real)
    requires NonDecreasing(ordered) && ordered != [] && 0.0 <= x <= y <= (|ordered| - 1) as real
    ensures Interpolate(ordered, x) <= Interpolate(ordered, y)
  {
    InterpolateBetween(ordered, x);
    InterpolateBetween(ordered, y);
    if x.Floor < y.Floor {
      assert ordered[Upper(x)] <= ordered[y.Floor];
    } else if x != x.Floor as real {
      MixMonotone(ordered[x.Floor], ordered[x.Floor + 1], x - x.Floor as real, y - x.Floor as real);
    } else {
      assert Upper(x) == x.Floor;
    }
  }

  /** The position of the i-th of n cuts, i / n * (len - 1). */
  function Position(i: nat, n: nat, len: nat): real
    requires i < n && len > 0
  {
    (i as real / n as real) * (len - 1) as real
  }

  lemma PositionBounds(i: nat, n: nat, len: nat)
    requires i < n && len > 0
    ensures 0.0 <= Position(i, n, len) <= (len - 1) as real
  {
    var q := i as real / n as real;
    QuotientBounds(i as real, n as real);
    NonNegative(q, (len - 1) as real);
    NonNegative(1.0 - q, (len - 1) as real);
    assert (1.0 - q) * (len - 1) as real == (len - 1) as real - q * (len - 1) as real;
  }

  lemma QuotientBounds(a: real, b: real)
    requires 0.0 <= a <= b && b > 0.0
    ensures 0.0 <= a / b <= 1.0
  {}

  lemma PositionMonotone(i: nat, j: nat, n: nat, len: nat)
    requires i <= j < n && len > 0
    ensures Position(i, n, len) <= Position(j, n, len)
  {
    var d := (j as real - i as real) / n as real;
    QuotientBounds(j as real - i as real, n as real);
    assert j as real / n as real == i as real / n as real + d;
    NonNegative(d, (len - 1) as real);
    assert (i as real / n as real + d) * (len - 1) as real == Position(i, n, len) + d * (len - 1) as real;
  }

  /** The i-th quantile cut of an ordered sample. */
  function Cut(ordered: seq<real>, i: nat, n: nat): real
    requires ordered != [] && i < n
  {
    PositionBounds(i, n, |ordered|);
    Interpolate(ordered, Position(i, n, |ordered|))
  }

  /** The interior cuts 1 .. k-1. */
  function CutsBelow(ordered: seq<real>, k: nat, n: nat): (r: seq<real>)
    requires ordered != [] && 1 <= k <= n
    ensures |r| == k - 1
  {
    seq(k - 1, i requires 0 <= i < k - 1 => Cut(ordered, i + 1, n))
  }

  function Cuts(ordered: seq<real>, n: nat): (r: seq<real>)
    requires ordered != [] && 1 <= n
    ensures |r| == n - 1
  {
    CutsBelow(ordered, n, n)
  }

  /** Cut i of n lies at the fraction i / n of the way through the sorted sample: with i * (len - 1) = q * n + r
      it is r / n of the way from the q-th to the next value. */
  lemma CutExactly(ordered: seq<real>, i: nat, n: nat, q: nat, r: nat)
    requires ordered != [] && i < n && i * (|ordered| - 1) == q * n + r && r < n
    ensures q < |ordered| && (r > 0 ==> q + 1 < |ordered|)
    ensures Cut(ordered, i, n) == if r == 0 then ordered[q] else ordered[q] + (ordered[q + 1] - ordered[q]) * (r as real / n as real)
  {
    var m, pos, frac := |ordered| - 1, Position(i, n, |ordered|), r as real / n as real;
    PositionBounds(i, n, |ordered|);
    WholeAndRest(i, n, m, q, r);
    FractionOf(r, n);
    assert pos == q as real + frac;
    assert pos.Floor == q;
    if r > 0 { MixFrom(ordered[q], ordered[q + 1], frac); } else { MixFrom(ordered[q], ordered[q], 0.0); }
  }

  lemma WholeAndRest(i: nat, n: nat, m: nat, q: nat, r: nat)
    requires n > 0 && i * m == q * n + r
    ensures i as real / n as real * m as real == q as real + r as real / n as real
  {
    assert (i * m) as real == i as real * m as real && (q * n) as real == q as real * n as real;
    OverSame(i as real, m as real, q as real, r as real, n as real);
  }

  lemma OverSame(i: real, m: real, q: real, r: real, n: real)
    requires n != 0.0 && i * m == q * n + r
    ensures i / n * m == q + r / n
  {
    Undivide(i, n);
    Undivide(r, n);
    Cancel(n, i / n * m, q + r / n);
  }

  lemma FractionOf(r: nat, n: nat)
    requires r < n
    ensures 0.0 <= r as real / n as real < 1.0 && (r as real / n as real == 0.0 <==> r == 0)
  {
    Proportion(r, n);
  }

  lemma MixFrom(a: real, b: real, f: real)
    ensures a * (1.0 - f) + b * f == a + (b - a) * f
  {}

  /** Interpolated quantile cuts never decrease. */
  lemma CutsNonDecreasing(sample: seq<real>, n: nat)
    requires sample != [] && n >= 1
    ensures NonDecreasing(Cuts(Sorted(sample), n))
  {
    var ordered := Sorted(sample);
    SortedNonDecreasing(sample);
    var cuts := Cuts(ordered, n);
    forall i, j | 0 <= i <= j < |cuts| ensures cuts[i] <= cuts[j] {
      CutMonotone(ordered, i + 1, j + 1, n);
    }
  }

  lemma CutMonotone(ordered: seq<real>, i: nat, j: nat, n: nat)
    requires NonDecreasing(ordered) && ordered != [] && i <= j < n
    ensures Cut(ordered, i, n) <= Cut(ordered, j, n)
  {
    PositionBounds(i, n, |ordered|);
    PositionBounds(j, n, |ordered|);
    PositionMonotone(i, j, n, |ordered|);
    InterpolateMonotone(ordered, Position(i, n, |ordered|), Position(j, n, |ordered|));
  }
}
