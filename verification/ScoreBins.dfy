/** Equal-width score bins: where a score is counted, and where it is looked up. */
module ScoreBins {
  import opened Reals
  import opened Options

  // ---- bins ---------------------------------------------------------------------------------------

  function Width(n: nat): (w: real)
    requires n > 0
    ensures w > 0.0
  {
    1.0 / n as real
  }

  /** The histogram's bin: the score over the bin width, the last bin upper-inclusive. */
  function Bin(s: real, n: nat): (i: nat)
    requires n > 0 && s >= 0.0
    ensures i < n
  {
    var i := (s / Width(n)).Floor;
    if i < n - 1 then i else n - 1
  }

  function Edge(i: nat, n: nat): real
    requires n > 0
  {
    i as real * Width(n)
  }

  lemma WidthTimes(n: nat)
    requires n > 0
    ensures n as real * Width(n) == 1.0
  {}

  lemma QuotientOrder(s: real, n: nat, i: nat)
    requires n > 0
    ensures i as real <= s / Width(n) <==> Edge(i, n) <= s
  {
    WidthTimes(n);
    var q := s / Width(n);
    assert q * Width(n) == s;
    ScaleOrder(i as real, q, Width(n));
  }

  /** A bin is told by the edges around it. */
  lemma BinIs(s: real, n: nat, i: nat)
    requires n > 0 && s >= 0.0 && i < n
    ensures Bin(s, n) == i <==> Edge(i, n) <= s && (s < Edge(i + 1, n) || i == n - 1)
  {
    QuotientOrder(s, n, i);
    QuotientOrder(s, n, i + 1);
    hide Edge;
    BinOfQuotient(s / Width(n), n, i);
  }

  lemma BinOfQuotient(q: real, n: nat, i: nat)
    requires q >= 0.0 && i < n
    ensures (if q.Floor < n - 1 then q.Floor else n - 1) == i <==> i as real <= q && (q < (i + 1) as real || i == n - 1)
  {}

  /** The insertion point to the right of equal elements. */
  predicate RightOf(edges: seq<real>, s: real, i: nat) {
    && i <= |edges|
    && (forall j :: 0 <= j < i ==> edges[j] <= s)
    && (forall j :: i <= j < |edges| ==> s < edges[j])
  }

  function InnerEdges(n: nat): seq<real>
    requires n > 0
  {
    seq(n - 1, i requires 0 <= i < n - 1 => Edge(i + 1, n))
  }

  lemma EdgesGrow(i: nat, j: nat, n: nat)
    requires n > 0
    ensures i <= j <==> Edge(i, n) <= Edge(j, n)
    ensures i == j ==> Edge(i, n) == Edge(j, n)
  {
    WidthTimes(n);
    ScaleOrder(i as real, j as real, Width(n));
  }

  /** The fitted calibrator looks a score up in the very bin it was counted in. */
  lemma LookupMatchesFit(s: real, n: nat, i: nat)
    requires n > 0 && 0.0 <= s <= 1.0 && i < n
    ensures RightOf(InnerEdges(n), s, i) <==> i == Bin(s, n)
  {
    var edges := InnerEdges(n);
    var b := Bin(s, n);
    BinIs(s, n, b);
    forall j | 0 <= j < |edges| ensures edges[j] <= s <==> j < b {
      EdgesGrow(j + 1, b, n);
      EdgesGrow(b + 1, j + 1, n);
    }
    if i < b { assert edges[i] <= s; }
    if b < i { assert s < edges[b]; }
  }

  // ---- the recalibration map over rounded edges ---------------------------------------------------

  function Round4(x: real): real { RoundAt(x, 10000.0) }

  predicate Holds(s: real, n: nat, i: nat)
    requires n > 0
  {
    var lower, upper := Round4(Edge(i, n)), Round4(Edge(i + 1, n));
    lower <= s < upper || (s == upper && upper == 1.0)
  }

  /** The first bin whose rounded edges hold the score. */
  function Scan(s: real, n: nat, from: nat): (r: Option<nat>)
    requires n > 0 && from <= n
    ensures r.Some? ==> from <= r.value < n && Holds(s, n, r.value)
    ensures forall j :: from <= j < (if r.Some? then r.value else n) ==> !Holds(s, n, j)
    decreases n - from
  {
    if from == n then None else if Holds(s, n, from) then Some(from) else Scan(s, n, from + 1)
  }

  /** Four decimals are exact for every edge exactly when the number of bins divides 10000. */
  lemma EdgeExact(i: nat, n: nat)
    requires n > 0 && 10000 % n == 0
    ensures Round4(Edge(i, n)) == Edge(i, n)
  {
    var k := 10000 / n;
    assert k * n == 10000;
    hide Edge, Round4;
    Whole(i, n, k);
    RoundWhole(Edge(i, n), i * k);
  }

  lemma RoundWhole(x: real, m: int)
    requires x * 10000.0 == m as real
    ensures Round4(x) == x
  {}

  lemma Whole(i: nat, n: nat, k: nat)
    requires n > 0 && k * n == 10000
    ensures Edge(i, n) * 10000.0 == (i * k) as real
  {
    var w := Width(n);
    WidthTimes(n);
    assert (k * n) as real == k as real * n as real;
    assert i as real * w * (k as real * n as real) == i as real * k as real * (n as real * w);
    assert (i * k) as real == i as real * k as real;
  }

  lemma FirstEdgeInexact(n: nat)
    requires n > 0 && Round4(Edge(1, n)) == Edge(1, n)
    ensures 10000 % n == 0
  {
    var m := RoundInt(Edge(1, n) * 10000.0);
    WidthTimes(n);
    var w := Width(n);
    assert m as real == w * 10000.0;
    assert m as real * n as real == 10000.0 * (n as real * w);
    assert (m * n) as real == m as real * n as real;
    assert m * n == 10000;
    Divides(m, n);
  }

  lemma Divides(m: int, n: nat)
    requires n > 0 && m * n == 10000
    ensures 10000 % n == 0
  {
    var q, r := 10000 / n, 10000 % n;
    assert q * n + r == 10000;
    assert (m - q) * n == r;
    Between(m - q, n);
  }

  lemma AtLeastOnce(d: int, n: nat)
    ensures d >= 1 ==> d * n >= n
  {
    if d > 1 { AtLeastOnce(d - 1, n); assert d * n == (d - 1) * n + n; }
  }

  lemma Between(d: int, n: nat)
    requires 0 <= d * n < n
    ensures d == 0
  {
    AtLeastOnce(d, n);
    AtLeastOnce(-d, n);
    assert -d * n == -(d * n);
  }

  lemma LastEdge(n: nat)
    requires n > 0
    ensures Edge(n, n) == 1.0 && Edge(0, n) == 0.0
  {
    WidthTimes(n);
  }

  lemma ScanExact(s: real, n: nat)
    requires n > 0 && 0.0 <= s <= 1.0 && 10000 % n == 0
    ensures Scan(s, n, 0) == Some(Bin(s, n))
  {
    hide Edge, Round4, Bin;
    var b := Bin(s, n);
    LastEdge(n);
    BinIs(s, n, b);
    forall j: nat | j < n ensures Holds(s, n, j) <==> Edge(j, n) <= s < Edge(j + 1, n) || s == Edge(j + 1, n) == 1.0 {
      EdgeExact(j, n);
      EdgeExact(j + 1, n);
    }
    assert Holds(s, n, b);
    forall j: nat | j < b ensures !Holds(s, n, j) {
      EdgesGrow(j + 1, b, n);
      EdgesGrow(n, b, n);
    }
  }

  /** A score that a rounded first edge sends to the wrong bin. */
  function Misplaced(n: nat): real
    requires n > 0
  {
    if Round4(Edge(1, n)) < Edge(1, n) then Round4(Edge(1, n)) else Edge(1, n)
  }

  lemma ScanWrong(n: nat)
    requires n > 0 && 10000 % n != 0
    ensures 0.0 <= Misplaced(n) <= 1.0 && Scan(Misplaced(n), n, 0) != Some(Bin(Misplaced(n), n))
  {
    var e, r, s := Edge(1, n), Round4(Edge(1, n)), Misplaced(n);
    LastEdge(n);
    EdgesGrow(1, n, n);
    if r == e { FirstEdgeInexact(n); }
    RoundBounds(e);
    assert Round4(Edge(0, n)) == 0.0;
    hide Edge, Round4, Bin;
    EdgesGrow(2, 1, n);
    BinIs(s, n, 0);
    if n > 1 { BinIs(s, n, 1); }
    assert Holds(s, n, 0) <==> e < r;
  }

  lemma RoundBounds(x: real)
    requires 0.0 <= x <= 1.0
    ensures 0.0 <= Round4(x) <= 1.0
  {}

  /** The map uses the histogram's own bin for every score if and only if the number of bins divides 10000. */
  lemma MapMatchesHistogram(n: nat)
    requires n > 0
    ensures (forall s: real :: 0.0 <= s <= 1.0 ==> Scan(s, n, 0) == Some(Bin(s, n))) <==> 10000 % n == 0
  {
    if 10000 % n == 0 {
      forall s: real | 0.0 <= s <= 1.0 ensures Scan(s, n, 0) == Some(Bin(s, n)) { ScanExact(s, n); }
    } else {
      ScanWrong(n);
    }
  }
}
