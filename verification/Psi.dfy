/** Population Stability Index: the two implementations, and what both of them compute. */
module Psi {
  import opened Reals
  import opened Options
  import opened Quantiles

  const EPS: real := 0.000001

  type Log = real -> real

  /** All that the index needs to know about the natural logarithm. */
  ghost predicate IsLog(ln: Log) {
    && ln(1.0) == 0.0
    && (forall x :: x > 1.0 ==> ln(x) > 0.0)
    && (forall x :: 0.0 < x < 1.0 ==> ln(x) < 0.0)
  }

  function Floored(f: real): real { if f < EPS then EPS else f }

  /** Empty bins count as a millionth, fuller ones as they are. */
  lemma FloorIs(f: real)
    ensures Floored(f) == Max(f, 0.000001)
  {}

  function Term(ln: Log, b: real, c: real): real {
    (Floored(c) - Floored(b)) * ln(Floored(c) / Floored(b))
  }

  /** The first bin whose upper cut is not below v; the last bin is open. */
  function BinOf(cuts: seq<real>, v: real): (k: nat)
    ensures k <= |cuts|
  {
    if cuts == [] then 0 else
      var n := |cuts| - 1;
      var k := BinOf(cuts[..n], v);
      if k < n then k else if v <= cuts[n] then n else n + 1
  }

  function CountIn(values: seq<real>, cuts: seq<real>, k: nat): nat {
    if values == [] then 0 else
      var n := |values| - 1;
      CountIn(values[..n], cuts, k) + if BinOf(cuts, values[n]) == k then 1 else 0
  }

  /** The fraction of the sample in bin k. */
  function Fraction(values: seq<real>, cuts: seq<real>, k: nat): real
    requires values != []
  {
    CountIn(values, cuts, k) as real / |values| as real
  }

  function PsiBelow(ln: Log, cuts: seq<real>, base: seq<real>, live: seq<real>, k: nat): real
    requires base != [] && live != []
  {
    if k == 0 then 0.0
    else PsiBelow(ln, cuts, base, live, k - 1) + Term(ln, Fraction(base, cuts, k - 1), Fraction(live, cuts, k - 1))
  }

  /** The index of two samples over given cuts. */
  function Index(ln: Log, cuts: seq<real>, base: seq<real>, live: seq<real>): real
    requires base != [] && live != []
  {
    PsiBelow(ln, cuts, base, live, |cuts| + 1)
  }

  // ---- condition/drift.py: deduplicated edges with infinite ends ------------------------------

  datatype Edge = NegInf | Fin(x: real) | PosInf

  predicate Below(e: Edge, v: real) { e.NegInf? || (e.Fin? && e.x < v) }

  predicate AtMost(v: real, e: Edge) { e.PosInf? || (e.Fin? && v <= e.x) }

  function Edges(cuts: seq<real>): (r: seq<Edge>)
    ensures |r| == |cuts| + 2
  {
    [NegInf] + seq(|cuts|, i requires 0 <= i < |cuts| => Fin(cuts[i])) + [PosInf]
  }

  /** Keep a cut only when it exceeds the last one kept. */
  function Dedup(cuts: seq<real>): (r: seq<real>)
    ensures |r| <= |cuts| && (cuts != [] ==> r != [])
  {
    if cuts == [] then [] else
      var n := |cuts| - 1;
      var r := Dedup(cuts[..n]);
      if r == [] || r[|r| - 1] < cuts[n] then r + [cuts[n]] else r
  }

  lemma CutsGrow(ordered: seq<real>, i: nat, n: nat)
    requires ordered != [] && 1 <= i < n
    ensures CutsBelow(ordered, i + 1, n) == CutsBelow(ordered, i, n) + [Cut(ordered, i, n)]
  {}

  lemma DedupGrow(cuts: seq<real>, x: real)
    ensures Dedup(cuts + [x]) == if Dedup(cuts) == [] || Dedup(cuts)[|Dedup(cuts)| - 1] < x then Dedup(cuts) + [x] else Dedup(cuts)
  {
    var more := cuts + [x];
    assert more[..|more| - 1] == cuts;
  }

  /** The finite edges found so far, without the closing infinity. */
  predicate Opens(edges: seq<Edge>, cuts: seq<real>) { edges + [PosInf] == Edges(cuts) }

  lemma EdgesGrow(edges: seq<Edge>, cuts: seq<real>, x: real)
    requires Opens(edges, cuts)
    ensures |edges| == |cuts| + 1 && edges[|cuts|] == if cuts == [] then NegInf else Fin(cuts[|cuts| - 1])
    ensures Opens(edges + [Fin(x)], cuts + [x])
  {
    assert |edges| + 1 == |cuts| + 2;
    assert edges == (edges + [PosInf])[..|cuts| + 1];
  }

  lemma NothingCut(ordered: seq<real>, n: int)
    requires ordered != []
    ensures Opens([NegInf], []) && Dedup([]) == []
    ensures n >= 1 ==> CutsBelow(ordered, 1, n) == []
  {}

  method BinEdges(baseline: seq<real>, nBins: int) returns (edges: seq<Edge>)
    requires baseline != []
    ensures edges == Edges(if nBins >= 1 then Dedup(Cuts(Sorted(baseline), nBins)) else [])
  {
    hide Cut, CutsBelow, Dedup, Edges, Interpolate, Sorted;
    var ordered := Sorted(baseline);
    edges := [NegInf];
    ghost var kept: seq<real> := [];
    var i := 1;
    NothingCut(ordered, nBins);
    while i < nBins
      invariant 1 <= i && (nBins >= 1 ==> i <= nBins)
      invariant kept == if nBins >= 1 then Dedup(CutsBelow(ordered, i, nBins)) else []
      invariant Opens(edges, kept)
    {
      var edge := QuantileEdge(ordered, i, nBins);
      CutsGrow(ordered, i, nBins);
      DedupGrow(CutsBelow(ordered, i, nBins), edge);
      EdgesGrow(edges, kept, edge);
      if Below(edges[|edges| - 1], edge) {
        edges := edges + [Fin(edge)];
        kept := kept + [edge];
      }
      i := i + 1;
    }
    edges := edges + [PosInf];
  }

  method QuantileEdge(ordered: seq<real>, i: nat, n: nat) returns (edge: real)
    requires ordered != [] && i < n
    ensures edge == Cut(ordered, i, n)
  {
    PositionBounds(i, n, |ordered|);
    var q := i as real / n as real;
    var pos := q * (|ordered| - 1) as real;
    var lo := pos.Floor;
    var hi := Upper(pos);
    var frac := pos - lo as real;
    assert pos == Position(i, n, |ordered|);
    edge := ordered[lo] * (1.0 - frac) + ordered[hi] * frac;
    assert edge == Interpolate(ordered, pos);
  }

  /** counts[b] for every bin, by scanning the edges for each value. */
  method Fractions(values: seq<real>, edges: seq<Edge>, ghost cuts: seq<real>) returns (r: seq<real>)
    requires edges == Edges(cuts) && values != []
    ensures |r| == |cuts| + 1 && forall k :: 0 <= k < |r| ==> r[k] == Fraction(values, cuts, k)
  {
    var counts: seq<nat> := seq(|edges| - 1, _ => 0);
    for i := 0 to |values|
      invariant |counts| == |cuts| + 1
      invariant forall k :: 0 <= k < |counts| ==> counts[k] == CountIn(values[..i], cuts, k)
    {
      var v := values[i];
      assert values[..i + 1][..i] == values[..i];
      var b := 0;
      while b < |edges| - 1
        invariant 0 <= b <= |cuts| && BinOf(cuts[..b], v) == b
      {
        assert b > 0 ==> cuts[..b][..b - 1] == cuts[..b - 1];
        if (Below(edges[b], v) && AtMost(v, edges[b + 1])) || (b == 0 && AtMost(v, edges[b + 1])) {
          break;
        }
        assert cuts[..b + 1][..b] == cuts[..b];
        b := b + 1;
      }
      BinFound(cuts, v, b);
      counts := counts[b := counts[b] + 1];
    }
    assert values[..|values|] == values;
    r := seq(|counts|, k requires 0 <= k < |counts| => counts[k] as real / |values| as real);
  }

  /** Scanning stops in the bin of v. */
  lemma {:induction false} BinFound(cuts: seq<real>, v: real, b: nat)
    requires b <= |cuts| && BinOf(cuts[..b], v) == b
    requires b < |cuts| ==> v <= cuts[b]
    ensures BinOf(cuts, v) == b
  {
    if b == |cuts| {
      assert cuts[..b] == cuts;
    } else {
      var n := |cuts| - 1;
      assert cuts[..n][..b] == cuts[..b];
      BinFound(cuts[..n], v, b);
    }
  }

  lemma TermOf(ln: Log, b: real, c: real, bf: real, lf: real, term: real)
    requires bf == (if b < EPS then EPS else b) && lf == (if c < EPS then EPS else c)
    requires term == (lf - bf) * ln(lf / bf)
    ensures term == Term(ln, b, c)
  {}

  method SumTerms(ln: Log, base: seq<real>, live: seq<real>, ghost cuts: seq<real>, ghost b: seq<real>, ghost l: seq<real>)
    returns (psi: real)
    requires b != [] && l != [] && |base| == |live| == |cuts| + 1
    requires forall k :: 0 <= k < |base| ==> base[k] == Fraction(b, cuts, k) && live[k] == Fraction(l, cuts, k)
    ensures psi == Index(ln, cuts, b, l)
  {
    hide Term, Fraction;
    psi := 0.0;
    for k := 0 to |base|
      invariant psi == PsiBelow(ln, cuts, b, l, k)
    {
      var bf := if base[k] < EPS then EPS else base[k];
      var lf := if live[k] < EPS then EPS else live[k];
      var term := (lf - bf) * ln(lf / bf);
      TermOf(ln, base[k], live[k], bf, lf, term);
      assert PsiBelow(ln, cuts, b, l, k + 1) == PsiBelow(ln, cuts, b, l, k) + Term(ln, base[k], live[k]);
      psi := psi + term;
    }
  }

  method PsiOfCondition(ln: Log, baseline: seq<real>, live: seq<real>, nBins: int) returns (psi: real)
    ensures psi == ConditionPsi(ln, baseline, live, nBins)
  {
    if baseline == [] || live == [] { return 0.0; }
    var edges := BinEdges(baseline, nBins);
    ghost var cuts := if nBins >= 1 then Dedup(Cuts(Sorted(baseline), nBins)) else [];
    if |edges| <= 2 { return 0.0; }
    var baseF := Fractions(baseline, edges, cuts);
    var liveF := Fractions(live, edges, cuts);
    psi := SumTerms(ln, baseF, liveF, cuts, baseline, live);
  }

  /** What the condition monitor computes; only a single bin is degenerate. */
  function ConditionPsi(ln: Log, baseline: seq<real>, live: seq<real>, nBins: int): real {
    if baseline == [] || live == [] || nBins <= 1 then 0.0
    else Index(ln, Dedup(Cuts(Sorted(baseline), nBins)), baseline, live)
  }

  // ---- watertwin_models/drift.py: every cut kept, None for the ValueError -----------------------

  method Distribution(values: seq<real>, cuts: seq<real>) returns (r: seq<real>)
    requires values != []
    ensures |r| == |cuts| + 1 && forall k :: 0 <= k < |r| ==> r[k] == Fraction(values, cuts, k)
  {
    var counts: seq<nat> := seq(|cuts| + 1, _ => 0);
    for i := 0 to |values|
      invariant |counts| == |cuts| + 1
      invariant forall k :: 0 <= k < |counts| ==> counts[k] == CountIn(values[..i], cuts, k)
    {
      var v := values[i];
      assert values[..i + 1][..i] == values[..i];
      var idx := 0;
      while idx < |cuts| && v > cuts[idx]
        invariant 0 <= idx <= |cuts| && BinOf(cuts[..idx], v) == idx
      {
        assert cuts[..idx + 1][..idx] == cuts[..idx];
        idx := idx + 1;
      }
      BinFound(cuts, v, idx);
      counts := counts[idx := counts[idx] + 1];
    }
    assert values[..|values|] == values;
    r := seq(|counts|, k requires 0 <= k < |counts| => counts[k] as real / |values| as real);
  }

  method PsiOfModels(ln: Log, baseline: seq<real>, current: seq<real>, bins: int) returns (r: Option<real>)
    ensures r == ModelsPsi(ln, baseline, current, bins)
  {
    if bins <= 0 { return None; }
    if baseline == [] || current == [] { return Some(0.0); }
    var ordered := Sorted(baseline);
    var n := |ordered|;
    var cuts: seq<real> := [];
    for i := 1 to bins
      invariant cuts == CutsBelow(ordered, i, bins)
    {
      var edge := NeighbourEdge(ordered, i, bins);
      CutsGrow(ordered, i, bins);
      cuts := cuts + [edge];
    }
    var baseDist := Distribution(baseline, cuts);
    var curDist := Distribution(current, cuts);
    var psi := SumTerms(ln, baseDist, curDist, cuts, baseline, current);
    return Some(psi);
  }

  /** min(lo + 1, n - 1) and ceil(pos) interpolate to the same value. */
  lemma SameNeighbour(ordered: seq<real>, pos: real)
    requires ordered != [] && 0.0 <= pos <= (|ordered| - 1) as real
    ensures var lo, n := pos.Floor, |ordered|;
      var hi := if lo + 1 < n - 1 then lo + 1 else n - 1;
      0 <= lo < n && ordered[lo] * (1.0 - (pos - lo as real)) + ordered[hi] * (pos - lo as real) == Interpolate(ordered, pos)
  {
    if pos == pos.Floor as real {
      assert pos - pos.Floor as real == 0.0;
    }
  }

  method NeighbourEdge(ordered: seq<real>, i: nat, bins: nat) returns (edge: real)
    requires ordered != [] && i < bins
    ensures edge == Cut(ordered, i, bins)
  {
    var n := |ordered|;
    PositionBounds(i, bins, n);
    var pos := i as real / bins as real * (n - 1) as real;
    var lo := pos.Floor;
    var hi := if lo + 1 < n - 1 then lo + 1 else n - 1;
    var frac := pos - lo as real;
    assert pos == Position(i, bins, n);
    SameNeighbour(ordered, pos);
    edge := ordered[lo] * (1.0 - frac) + ordered[hi] * frac;
    assert edge == Interpolate(ordered, pos);
  }

  function ModelsPsi(ln: Log, baseline: seq<real>, current: seq<real>, bins: int): Option<real> {
    if bins <= 0 then None
    else if baseline == [] || current == [] then Some(0.0)
    else Some(Index(ln, Cuts(Sorted(baseline), bins), baseline, current))
  }

  // ---- the two agree ---------------------------------------------------------------------------

  lemma {:induction false} CountsAgree(values: seq<real>, cuts: seq<real>, k: nat, cuts': seq<real>, k': nat)
    requires forall v :: BinOf(cuts, v) == k <==> BinOf(cuts', v) == k'
    ensures CountIn(values, cuts, k) == CountIn(values, cuts', k')
  {
    if values != [] { CountsAgree(values[..|values| - 1], cuts, k, cuts', k'); }
  }

  /** A further cut leaves all bins but the last as they were. */
  lemma {:induction false} EarlierBinsStay(ln: Log, cuts: seq<real>, x: real, base: seq<real>, live: seq<real>, k: nat)
    requires base != [] && live != [] && k <= |cuts|
    ensures PsiBelow(ln, cuts + [x], base, live, k) == PsiBelow(ln, cuts, base, live, k)
  {
    if k > 0 {
      EarlierBinsStay(ln, cuts, x, base, live, k - 1);
      assert (cuts + [x])[..|cuts|] == cuts;
      CountsAgree(base, cuts + [x], k - 1, cuts, k - 1);
      CountsAgree(live, cuts + [x], k - 1, cuts, k - 1);
    }
  }

  lemma EmptyTerm(ln: Log, b: real)
    requires IsLog(ln)
    ensures Term(ln, b, b) == 0.0
  {
    assert Floored(b) / Floored(b) == 1.0;
  }

  lemma {:induction false} LastKept(cuts: seq<real>)
    requires cuts != [] && NonDecreasing(cuts)
    ensures Dedup(cuts)[|Dedup(cuts)| - 1] == cuts[|cuts| - 1]
  {
    var n := |cuts| - 1;
    if n > 0 { LastKept(cuts[..n]); }
  }

  /** The open last bin holds the values above the last cut. */
  lemma {:induction false} OpenBin(cuts: seq<real>, v: real)
    requires NonDecreasing(cuts)
    ensures BinOf(cuts, v) == |cuts| <==> cuts == [] || cuts[|cuts| - 1] < v
  {
    if cuts != [] { OpenBin(cuts[..|cuts| - 1], v); }
  }

  lemma {:induction false} DedupNonDecreasing(cuts: seq<real>)
    requires NonDecreasing(cuts)
    ensures NonDecreasing(Dedup(cuts))
  {
    if cuts != [] { DedupNonDecreasing(cuts[..|cuts| - 1]); }
  }

  lemma SameOpenBin(cuts: seq<real>)
    requires NonDecreasing(cuts)
    ensures forall v :: BinOf(cuts, v) == |cuts| <==> BinOf(Dedup(cuts), v) == |Dedup(cuts)|
  {
    DedupNonDecreasing(cuts);
    if cuts != [] { LastKept(cuts); }
    forall v ensures BinOf(cuts, v) == |cuts| <==> BinOf(Dedup(cuts), v) == |Dedup(cuts)| {
      OpenBin(cuts, v);
      OpenBin(Dedup(cuts), v);
    }
  }

  /** The bin closed by a new cut x: the values of the old open bin up to x. */
  lemma ClosedBin(cuts: seq<real>, x: real, v: real)
    ensures BinOf(cuts + [x], v) == |cuts| <==> BinOf(cuts, v) == |cuts| && v <= x
  {
    assert (cuts + [x])[..|cuts|] == cuts;
  }

  /** A repeated cut closes an empty bin. */
  lemma {:induction false} RepeatedCutIsEmpty(cuts: seq<real>, x: real, values: seq<real>)
    requires NonDecreasing(cuts) && cuts != [] && cuts[|cuts| - 1] == x
    ensures CountIn(values, cuts + [x], |cuts|) == 0
  {
    if values != [] {
      RepeatedCutIsEmpty(cuts, x, values[..|values| - 1]);
      ClosedBin(cuts, x, values[|values| - 1]);
      OpenBin(cuts, values[|values| - 1]);
    }
  }

  /** A repeated cut adds nothing to the sum over the closed bins. */
  lemma RepeatedCutAddsNothing(ln: Log, c: seq<real>, x: real, base: seq<real>, live: seq<real>)
    requires IsLog(ln) && NonDecreasing(c) && base != [] && live != [] && c != [] && c[|c| - 1] == x
    ensures PsiBelow(ln, c + [x], base, live, |c| + 1) == PsiBelow(ln, c, base, live, |c|)
  {
    EarlierBinsStay(ln, c, x, base, live, |c|);
    RepeatedCutIsEmpty(c, x, base);
    RepeatedCutIsEmpty(c, x, live);
    EmptyTerm(ln, 0.0);
  }

  /** A new cut adds the same term with or without the repeated ones before it. */
  lemma NewCutAddsTheSame(ln: Log, c: seq<real>, x: real, base: seq<real>, live: seq<real>)
    requires NonDecreasing(c) && base != [] && live != []
    requires PsiBelow(ln, Dedup(c), base, live, |Dedup(c)|) == PsiBelow(ln, c, base, live, |c|)
    ensures PsiBelow(ln, Dedup(c) + [x], base, live, |Dedup(c)| + 1) == PsiBelow(ln, c + [x], base, live, |c| + 1)
  {
    var d := Dedup(c);
    EarlierBinsStay(ln, c, x, base, live, |c|);
    EarlierBinsStay(ln, d, x, base, live, |d|);
    NewBinAgrees(c, x, base);
    NewBinAgrees(c, x, live);
  }

  /** Deduplication leaves the sum over the closed bins unchanged. */
  lemma {:induction false} DedupKeepsClosedBins(ln: Log, cuts: seq<real>, base: seq<real>, live: seq<real>)
    requires IsLog(ln) && NonDecreasing(cuts) && base != [] && live != []
    ensures PsiBelow(ln, Dedup(cuts), base, live, |Dedup(cuts)|) == PsiBelow(ln, cuts, base, live, |cuts|)
  {
    if cuts != [] {
      var n := |cuts| - 1;
      var c, x := cuts[..n], cuts[n];
      assert cuts == c + [x];
      DedupKeepsClosedBins(ln, c, base, live);
      DedupGrow(c, x);
      if c != [] { LastKept(c); }
      if c == [] || c[n - 1] < x {
        NewCutAddsTheSame(ln, c, x, base, live);
      } else {
        RepeatedCutAddsNothing(ln, c, x, base, live);
      }
    }
  }

  lemma NewBinAgrees(c: seq<real>, x: real, values: seq<real>)
    requires NonDecreasing(c)
    ensures CountIn(values, c + [x], |c|) == CountIn(values, Dedup(c) + [x], |Dedup(c)|)
  {
    var d := Dedup(c);
    SameOpenBin(c);
    forall v ensures BinOf(c + [x], v) == |c| <==> BinOf(d + [x], v) == |d| {
      ClosedBin(c, x, v);
      ClosedBin(d, x, v);
    }
    CountsAgree(values, c + [x], |c|, d + [x], |d|);
  }

  lemma DedupKeepsIndex(ln: Log, cuts: seq<real>, base: seq<real>, live: seq<real>)
    requires IsLog(ln) && NonDecreasing(cuts) && base != [] && live != []
    ensures Index(ln, Dedup(cuts), base, live) == Index(ln, cuts, base, live)
  {
    DedupKeepsClosedBins(ln, cuts, base, live);
    SameOpenBin(cuts);
    CountsAgree(base, cuts, |cuts|, Dedup(cuts), |Dedup(cuts)|);
    CountsAgree(live, cuts, |cuts|, Dedup(cuts), |Dedup(cuts)|);
  }

  lemma {:induction false} OneBin(values: seq<real>)
    ensures CountIn(values, [], 0) == |values|
  {
    if values != [] { OneBin(values[..|values| - 1]); }
  }

  lemma SelfRatio(n: real)
    requires n != 0.0
    ensures n / n == 1.0
  {}

  lemma SingleBin(ln: Log, base: seq<real>, live: seq<real>)
    requires IsLog(ln) && base != [] && live != []
    ensures Cuts(Sorted(base), 1) == [] && Index(ln, [], base, live) == 0.0
  {
    OneBin(base);
    OneBin(live);
    EmptyTerm(ln, 1.0);
    SelfRatio(|base| as real);
    SelfRatio(|live| as real);
    assert Fraction(base, [], 0) == 1.0 && Fraction(live, [], 0) == 1.0;
    assert PsiBelow(ln, [], base, live, 1) == PsiBelow(ln, [], base, live, 0) + Term(ln, 1.0, 1.0);
  }

  /** For every pair of samples and every bin count the two monitors compute the same index, except
      that only the model library rejects a non-positive bin count. */
  lemma ImplementationsAgree(ln: Log, baseline: seq<real>, live: seq<real>, bins: int)
    requires IsLog(ln)
    ensures ModelsPsi(ln, baseline, live, bins) == if bins <= 0 then None else Some(ConditionPsi(ln, baseline, live, bins))
  {
    if bins >= 1 && baseline != [] && live != [] {
      if bins == 1 {
        SingleBin(ln, baseline, live);
      } else {
        CutsNonDecreasing(baseline, bins);
        DedupKeepsIndex(ln, Cuts(Sorted(baseline), bins), baseline, live);
      }
    }
  }

  // ---- what the index says -----------------------------------------------------------------------

  /** A term is never negative, and zero only where the floored fractions coincide. */
  lemma TermSign(ln: Log, b: real, c: real)
    requires IsLog(ln)
    ensures Term(ln, b, c) >= 0.0
    ensures Term(ln, b, c) == 0.0 <==> Floored(b) == Floored(c)
  {
    var p, q := Floored(b), Floored(c);
    if p < q {
      RatioAbove(q, p);
      Positive(q - p, ln(q / p));
    } else if q < p {
      RatioBelow(q, p);
      Positive(p - q, -ln(q / p));
      assert (q - p) * ln(q / p) == (p - q) * -ln(q / p);
    } else {
      EmptyTerm(ln, b);
    }
  }

  lemma RatioAbove(q: real, p: real)
    requires q > p > 0.0
    ensures q / p > 1.0
  {
    var r := q / p;
    assert r * p == q;
    if r <= 1.0 { AtMostOne(r, p); }
  }

  lemma RatioBelow(q: real, p: real)
    requires p > q > 0.0
    ensures 0.0 < q / p < 1.0
  {
    var r := q / p;
    assert r * p == q;
    if r >= 1.0 { AtMostOne(2.0 - r, p); }
  }

  lemma AtMostOne(r: real, p: real)
    requires r <= 1.0 && p > 0.0
    ensures r * p <= p
  {
    NonNegative(1.0 - r, p);
    assert (1.0 - r) * p == p - r * p;
  }

  ghost predicate SameShape(cuts: seq<real>, base: seq<real>, live: seq<real>, k: nat)
    requires base != [] && live != []
  {
    forall i :: 0 <= i < k ==> Floored(Fraction(base, cuts, i)) == Floored(Fraction(live, cuts, i))
  }

  lemma {:induction false} SumSign(ln: Log, cuts: seq<real>, base: seq<real>, live: seq<real>, k: nat)
    requires IsLog(ln) && base != [] && live != []
    ensures PsiBelow(ln, cuts, base, live, k) >= 0.0
    ensures PsiBelow(ln, cuts, base, live, k) == 0.0 <==> SameShape(cuts, base, live, k)
  {
    if k > 0 {
      SumSign(ln, cuts, base, live, k - 1);
      TermSign(ln, Fraction(base, cuts, k - 1), Fraction(live, cuts, k - 1));
    }
  }

  /** The index is never negative; it is zero exactly when no bin tells the samples apart. */
  lemma IndexSign(ln: Log, cuts: seq<real>, base: seq<real>, live: seq<real>)
    requires IsLog(ln) && base != [] && live != []
    ensures Index(ln, cuts, base, live) >= 0.0
    ensures Index(ln, cuts, base, live) == 0.0 <==> SameShape(cuts, base, live, |cuts| + 1)
  {
    SumSign(ln, cuts, base, live, |cuts| + 1);
  }

  lemma {:induction false} CountIgnoresOrder(s: seq<real>, t: seq<real>, cuts: seq<real>, k: nat)
    requires multiset(s) == multiset(t)
    ensures CountIn(s, cuts, k) == CountIn(t, cuts, k)
  {
    hide BinOf;
    if s != [] {
      var n := |s| - 1;
      var x := s[n];
      assert s == s[..n] + [x];
      assert x in multiset(t);
      var i :| 0 <= i < |t| && t[i] == x;
      var rest := t[..i] + t[i + 1..];
      assert t == t[..i] + [x] + t[i + 1..];
      assert multiset(s) == multiset(s[..n]) + multiset{x};
      assert multiset(t) == multiset(t[..i]) + multiset{x} + multiset(t[i + 1..]) == multiset(rest) + multiset{x};
      assert multiset(s[..n]) == multiset(s) - multiset{x} && multiset(rest) == multiset(t) - multiset{x};
      CountIgnoresOrder(s[..n], rest, cuts, k);
      CountRemove(t[..i], x, t[i + 1..], cuts, k);
    } else {
      assert |t| == |multiset(t)| == |multiset(s)| == 0;
    }
  }

  lemma {:induction false} CountRemove(a: seq<real>, x: real, b: seq<real>, cuts: seq<real>, k: nat)
    ensures CountIn(a + [x] + b, cuts, k) == CountIn(a + b, cuts, k) + if BinOf(cuts, x) == k then 1 else 0
  {
    hide BinOf;
    var m := |b| - 1;
    if b == [] {
      assert a + [x] + b == a + [x] && a + b == a && (a + [x])[..|a|] == a;
    } else {
      CountRemove(a, x, b[..m], cuts, k);
      assert (a + [x] + b)[..|a| + 1 + m] == a + [x] + b[..m];
      assert (a + b)[..|a| + m] == a + b[..m];
    }
  }

  lemma SameSize(s: seq<real>, t: seq<real>)
    requires multiset(s) == multiset(t)
    ensures |s| == |t|
  {
    assert |s| == |multiset(s)| == |multiset(t)| == |t|;
  }

  lemma {:induction false} SumIgnoresOrder(ln: Log, cuts: seq<real>, base: seq<real>, live: seq<real>, base': seq<real>, live': seq<real>, k: nat)
    requires base != [] && live != [] && base' != [] && live' != []
    requires multiset(base) == multiset(base') && multiset(live) == multiset(live')
    ensures PsiBelow(ln, cuts, base, live, k) == PsiBelow(ln, cuts, base', live', k)
  {
    if k > 0 {
      SumIgnoresOrder(ln, cuts, base, live, base', live', k - 1);
      CountIgnoresOrder(base, base', cuts, k - 1);
      CountIgnoresOrder(live, live', cuts, k - 1);
      SameSize(base, base');
      SameSize(live, live');
    }
  }

  /** Neither monitor's index depends on the order in which either sample lists its values. */
  lemma PsiIgnoresOrder(ln: Log, base: seq<real>, live: seq<real>, base': seq<real>, live': seq<real>, bins: int)
    requires multiset(base) == multiset(base') && multiset(live) == multiset(live')
    ensures ConditionPsi(ln, base, live, bins) == ConditionPsi(ln, base', live', bins)
    ensures ModelsPsi(ln, base, live, bins) == ModelsPsi(ln, base', live', bins)
  {
    SameSize(base, base');
    SameSize(live, live');
    SortedIgnoresOrder(base, base');
    if base != [] && live != [] && bins >= 1 {
      var cuts := Cuts(Sorted(base), bins);
      SumIgnoresOrder(ln, cuts, base, live, base', live', |cuts| + 1);
      SumIgnoresOrder(ln, Dedup(cuts), base, live, base', live', |Dedup(cuts)| + 1);
    }
  }

  /** Two samples of the same values, in any order, show no drift. */
  lemma OrderIrrelevant(ln: Log, base: seq<real>, live: seq<real>, bins: int)
    requires IsLog(ln) && multiset(base) == multiset(live)
    ensures ConditionPsi(ln, base, live, bins) == 0.0
  {
    if bins > 1 && base != [] && live != [] {
      var cuts := Dedup(Cuts(Sorted(base), bins));
      assert |base| == |multiset(base)| == |multiset(live)| == |live|;
      forall i | 0 <= i < |cuts| + 1 ensures Floored(Fraction(base, cuts, i)) == Floored(Fraction(live, cuts, i)) {
        CountIgnoresOrder(base, live, cuts, i);
      }
      IndexSign(ln, cuts, base, live);
    }
  }

  // ---- a baseline of one value -------------------------------------------------------------------

  predicate Constant(s: seq<real>, c: real) { forall i :: 0 <= i < |s| ==> s[i] == c }

  lemma ConstantSorts(s: seq<real>, c: real)
    requires Constant(s, c)
    ensures Constant(Sorted(s), c)
  {
    SortedNonDecreasing(s);
    forall i | 0 <= i < |Sorted(s)| ensures Sorted(s)[i] == c {
      assert Sorted(s)[i] in multiset(Sorted(s));
      assert Sorted(s)[i] in s;
    }
  }

  lemma ConstantCuts(ordered: seq<real>, c: real, n: nat)
    requires ordered != [] && Constant(ordered, c) && n >= 1
    ensures Constant(Cuts(ordered, n), c)
  {
    forall i | 0 <= i < n - 1 ensures Cuts(ordered, n)[i] == c {
      PositionBounds(i + 1, n, |ordered|);
      SameEnds(c, Position(i + 1, n, |ordered|) - Position(i + 1, n, |ordered|).Floor as real);
    }
  }

  lemma SameEnds(c: real, f: real)
    ensures c * (1.0 - f) + c * f == c
  {}

  lemma {:induction false} ConstantDedup(cuts: seq<real>, c: real)
    requires Constant(cuts, c)
    ensures Dedup(cuts) == if cuts == [] then [] else [c]
  {
    if cuts != [] { ConstantDedup(cuts[..|cuts| - 1], c); }
  }

  /** How many values are at most c. */
  lemma {:induction false} TwoBins(values: seq<real>, c: real)
    ensures CountIn(values, [c], 0) + CountIn(values, [c], 1) == |values|
    ensures CountIn(values, [c], 0) == |values| <==> forall i :: 0 <= i < |values| ==> values[i] <= c
  {
    if values != [] {
      var n := |values| - 1;
      TwoBins(values[..n], c);
      assert BinOf([c], values[n]) == if values[n] <= c then 0 else 1;
    }
  }

  lemma TwoFractions(values: seq<real>, c: real)
    requires values != []
    ensures 0.0 <= Fraction(values, [c], 0) <= 1.0
    ensures Fraction(values, [c], 1) == 1.0 - Fraction(values, [c], 0)
    ensures Fraction(values, [c], 0) == 1.0 <==> forall i :: 0 <= i < |values| ==> values[i] <= c
  {
    TwoBins(values, c);
    Proportion(CountIn(values, [c], 0), |values|);
    var p, q, n := CountIn(values, [c], 0) as real, CountIn(values, [c], 1) as real, |values| as real;
    Complement(p, q, n);
  }

  lemma Complement(p: real, q: real, n: real)
    requires p + q == n && n != 0.0
    ensures q / n == 1.0 - p / n
  {
    assert p / n + q / n == (p + q) / n;
  }

  /** Two bins are left for a baseline that is c throughout, so with more than one bin asked for the
      index is zero exactly when no live value exceeds c. */
  lemma ConstantBaseline(ln: Log, base: seq<real>, live: seq<real>, c: real, bins: int)
    requires IsLog(ln) && base != [] && live != [] && Constant(base, c) && bins >= 2
    ensures ConditionPsi(ln, base, live, bins) >= 0.0
    ensures ConditionPsi(ln, base, live, bins) == 0.0 <==> forall i :: 0 <= i < |live| ==> live[i] <= c
  {
    ConstantSorts(base, c);
    ConstantCuts(Sorted(base), c, bins);
    ConstantDedup(Cuts(Sorted(base), bins), c);
    TwoFractions(base, c);
    TwoFractions(live, c);
    IndexSign(ln, [c], base, live);
    hide Fraction, Index;
    assert SameShape([c], base, live, 2) <==>
      Floored(Fraction(base, [c], 0)) == Floored(Fraction(live, [c], 0)) && Floored(Fraction(base, [c], 1)) == Floored(Fraction(live, [c], 1));
  }

  /** The documented zero for a constant baseline is not what comes out. */
  lemma ConstantBaselineDrifts(ln: Log)
    requires IsLog(ln)
    ensures ConditionPsi(ln, [1.0, 1.0], [2.0, 2.0], 10) > 0.0
  {
    ConstantBaseline(ln, [1.0, 1.0], [2.0, 2.0], 1.0, 10);
    assert [2.0, 2.0][0] > 1.0;
  }

  // ---- the feature monitor ------------------------------------------------------------------------

  datatype Status = Stable | Watch | Drift

  datatype DriftReport = DriftReport(psiByFeature: seq<(string, real)>, maxPsi: real, drivenBy: Option<string>, status: Status)

  /** What the model library returns: six decimals. */
  function Round6(x: real): real { RoundAt(x, 1000000.0) }

  predicate HasValues(current: map<string, seq<real>>, feature: string) { feature in current && current[feature] != [] }

  /** The features scored, in baseline order, with their rounded index: those the current batch has values for. */
  function Scored(ln: Log, baseline: seq<(string, seq<real>)>, current: map<string, seq<real>>, bins: int): seq<(string, real)>
    requires bins >= 1 || forall i :: 0 <= i < |baseline| ==> !HasValues(current, baseline[i].0)
  {
    if baseline == [] then [] else
      var n := |baseline| - 1;
      var (feature, values) := baseline[n];
      Scored(ln, baseline[..n], current, bins)
      + if HasValues(current, feature) then [(feature, Round6(ModelsPsi(ln, values, current[feature], bins).value))] else []
  }

  /** The first feature with the largest positive index drives the report. */
  ghost predicate Drives(scored: seq<(string, real)>, maxPsi: real, drivenBy: Option<string>) {
    && maxPsi >= 0.0
    && (forall i :: 0 <= i < |scored| ==> scored[i].1 <= maxPsi)
    && (drivenBy.None? <==> maxPsi == 0.0)
    && (drivenBy.Some? ==> exists i :: 0 <= i < |scored| && scored[i] == (drivenBy.value, maxPsi)
                                       && forall j :: 0 <= j < i ==> scored[j].1 < maxPsi)
  }

  lemma NothingDrives()
    ensures Drives([], 0.0, None)
  {}

  lemma ScoredOrRefused(ln: Log, values: seq<real>, current: seq<real>, bins: int)
    ensures ModelsPsi(ln, values, current, bins).Some? <==> bins >= 1
  {}

  lemma DrivesGrow(scored: seq<(string, real)>, next: (string, real), maxPsi: real, drivenBy: Option<string>)
    requires Drives(scored, maxPsi, drivenBy)
    ensures next.1 > maxPsi ==> Drives(scored + [next], next.1, Some(next.0))
    ensures next.1 <= maxPsi ==> Drives(scored + [next], maxPsi, drivenBy)
  {
    var more := scored + [next];
    if next.1 > maxPsi {
      assert more[|scored|] == (next.0, next.1);
    } else if drivenBy.Some? {
      var i :| 0 <= i < |scored| && scored[i] == (drivenBy.value, maxPsi) && forall j :: 0 <= j < i ==> scored[j].1 < maxPsi;
      assert more[i] == (drivenBy.value, maxPsi);
    }
  }

  lemma SixTwice(x: real)
    ensures Round6(Round6(x)) == Round6(x)
  {
    RoundTwice(x, 1000000.0);
  }

  lemma NothingRounds()
    ensures Round6(0.0) == 0.0
  {}

  /** Rounding decides: an index below a band can reach it, and a positive one can vanish. */
  lemma RoundingDecides()
    ensures Round6(0.2499996) == 0.25 && Round6(0.0000004) == 0.0
  {
    assert RoundInt(249999.6) == 250000 && RoundInt(0.4) == 0;
  }

  /** FeatureDriftMonitor.check, with the bands its constructor accepts. It accepts any bin count, so the
      ValueError for a count below 1 comes from here, and only once a feature is scored. */
  method Check(ln: Log, baseline: seq<(string, seq<real>)>, current: map<string, seq<real>>, warn: real, alert: real, bins: int)
    returns (r: Option<DriftReport>)
    requires 0.0 <= warn <= alert
    ensures r.None? <==> bins <= 0 && exists i :: 0 <= i < |baseline| && HasValues(current, baseline[i].0)
    ensures r.Some? ==>
      && r.value.psiByFeature == Scored(ln, baseline, current, bins)
      && Drives(r.value.psiByFeature, r.value.maxPsi, r.value.drivenBy)
      && r.value.status == if r.value.maxPsi >= alert then Drift else if r.value.maxPsi >= warn then Watch else Stable
  {
    hide ModelsPsi, Drives, Round6;
    NothingRounds();
    var scored: seq<(string, real)> := [];
    for i := 0 to |baseline|
      invariant bins >= 1 || forall k :: 0 <= k < i ==> !HasValues(current, baseline[k].0)
      invariant scored == Scored(ln, baseline[..i], current, bins)
      invariant forall k :: 0 <= k < |scored| ==> Round6(scored[k].1) == scored[k].1
    {
      assert baseline[..i + 1][..i] == baseline[..i];
      var (feature, values) := baseline[i];
      if HasValues(current, feature) {
        ScoredOrRefused(ln, values, current[feature], bins);
        var psi := PsiOfModels(ln, values, current[feature], bins);
        if psi.None? { return None; }
        SixTwice(psi.value);
        scored := scored + [(feature, Round6(psi.value))];
      }
    }
    assert baseline[..|baseline|] == baseline;
    var maxPsi, drivenBy := 0.0, None;
    NothingDrives();
    for i := 0 to |scored|
      invariant Drives(scored[..i], maxPsi, drivenBy) && Round6(maxPsi) == maxPsi
    {
      assert scored[..i + 1] == scored[..i] + [scored[i]];
      DrivesGrow(scored[..i], scored[i], maxPsi, drivenBy);
      if scored[i].1 > maxPsi {
        maxPsi, drivenBy := scored[i].1, Some(scored[i].0);
      }
    }
    assert scored[..|scored|] == scored;
    var status := if maxPsi >= alert then Drift else if maxPsi >= warn then Watch else Stable;
    return Some(DriftReport(scored, Round6(maxPsi), drivenBy, status));
  }
}
