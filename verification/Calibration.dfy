/** Reliability histograms: the errors read off the bins, and the calibrator fitted to them. */
module Calibration {
  import opened Reals
  import opened Options
  import opened ScoreBins

  // ---- the calibration errors -----------------------------------------------------------------------

  /** A score, already clamped, and whether the event happened. */
  datatype Outcome = Outcome(score: real, event: bool)

  predicate Clamped(xs: seq<Outcome>) { forall k :: 0 <= k < |xs| ==> 0.0 <= xs[k].score <= 1.0 }

  function Excess(x: Outcome): real { x.score - if x.event then 1.0 else 0.0 }

  /** The sum of score minus outcome. */
  function Total(xs: seq<Outcome>): real {
    if xs == [] then 0.0 else Total(xs[..|xs| - 1]) + Excess(xs[|xs| - 1])
  }

  /** The outcomes that fall in bin i, in order. */
  function InBin(xs: seq<Outcome>, n: nat, i: nat): (r: seq<Outcome>)
    requires n > 0 && Clamped(xs)
    ensures Clamped(r) && |r| <= |xs|
  {
    if xs == [] then []
    else
      var rest := InBin(xs[..|xs| - 1], n, i);
      if Bin(xs[|xs| - 1].score, n) == i then rest + [xs[|xs| - 1]] else rest
  }

  function Scores(xs: seq<Outcome>): real {
    if xs == [] then 0.0 else Scores(xs[..|xs| - 1]) + xs[|xs| - 1].score
  }

  function Events(xs: seq<Outcome>): nat {
    if xs == [] then 0 else Events(xs[..|xs| - 1]) + if xs[|xs| - 1].event then 1 else 0
  }

  /** The gap between mean score and event frequency. */
  function Gap(xs: seq<Outcome>): real
    requires xs != []
  {
    Abs(Scores(xs) / |xs| as real - Events(xs) as real / |xs| as real)
  }

  lemma {:induction false} TotalSplits(xs: seq<Outcome>)
    ensures Total(xs) == Scores(xs) - Events(xs) as real
  {
    if xs != [] { TotalSplits(xs[..|xs| - 1]); }
  }

  lemma DifferenceOver(a: real, b: real, n: real)
    requires n != 0.0
    ensures a / n - b / n == (a - b) / n
  {}

  /** A bin's gap, weighted by its share of all outcomes. */
  function Contribution(bin: seq<Outcome>, total: nat): real
    requires bin != [] && total > 0
  {
    |bin| as real / total as real * Gap(bin)
  }

  /** The sample-weighted mean gap over the first k bins, and the worst one. */
  function Ece(xs: seq<Outcome>, n: nat, k: nat): real
    requires n > 0 && Clamped(xs)
  {
    if k == 0 then 0.0
    else
      var bin := InBin(xs, n, k - 1);
      Ece(xs, n, k - 1) + if bin == [] then 0.0 else Contribution(bin, |xs|)
  }

  function Mce(xs: seq<Outcome>, n: nat, k: nat): real
    requires n > 0 && Clamped(xs)
  {
    if k == 0 then 0.0
    else
      var bin, worst := InBin(xs, n, k - 1), Mce(xs, n, k - 1);
      if bin != [] && Gap(bin) > worst then Gap(bin) else worst
  }

  // Sums over the first k bins.

  function Counted(xs: seq<Outcome>, n: nat, k: nat): nat
    requires n > 0 && Clamped(xs)
  {
    if k == 0 then 0 else Counted(xs, n, k - 1) + |InBin(xs, n, k - 1)|
  }

  function Summed(xs: seq<Outcome>, n: nat, k: nat): real
    requires n > 0 && Clamped(xs)
  {
    if k == 0 then 0.0 else Summed(xs, n, k - 1) + Total(InBin(xs, n, k - 1))
  }

  lemma {:induction false} NothingBinned(n: nat, k: nat)
    requires n > 0
    ensures Counted([], n, k) == 0 && Summed([], n, k) == 0.0
  {
    if k > 0 { NothingBinned(n, k - 1); }
  }

  /** One more outcome lands in one bin and no other. */
  lemma {:induction false} OneMore(xs: seq<Outcome>, n: nat, k: nat)
    requires n > 0 && xs != [] && Clamped(xs)
    ensures var x, rest := xs[|xs| - 1], xs[..|xs| - 1];
      var here := Bin(x.score, n) < k;
      && Counted(xs, n, k) == Counted(rest, n, k) + (if here then 1 else 0)
      && Summed(xs, n, k) == Summed(rest, n, k) + (if here then Excess(x) else 0.0)
  {
    if k > 0 {
      OneMore(xs, n, k - 1);
      var bin := InBin(xs, n, k - 1);
      if Bin(xs[|xs| - 1].score, n) == k - 1 { assert bin[..|bin| - 1] == InBin(xs[..|xs| - 1], n, k - 1); }
    }
  }

  /** The bins partition the outcomes: nothing is dropped and nothing counted twice. */
  lemma {:induction false} BinsPartition(xs: seq<Outcome>, n: nat)
    requires n > 0 && Clamped(xs)
    ensures Counted(xs, n, n) == |xs| && Summed(xs, n, n) == Total(xs)
  {
    if xs == [] {
      NothingBinned(n, n);
    } else {
      BinsPartition(xs[..|xs| - 1], n);
      OneMore(xs, n, n);
    }
  }

  lemma {:induction false} TotalBounds(xs: seq<Outcome>)
    requires Clamped(xs)
    ensures Abs(Total(xs)) <= |xs| as real
  {
    if xs != [] { TotalBounds(xs[..|xs| - 1]); }
  }

  lemma GapIs(xs: seq<Outcome>)
    requires xs != [] && Clamped(xs)
    ensures Times(Gap(xs), |xs| as real) == Abs(Total(xs)) && 0.0 <= Gap(xs) <= 1.0
  {
    TotalBounds(xs);
    TotalSplits(xs);
    DifferenceOver(Scores(xs), Events(xs) as real, |xs| as real);
    Ratio(Total(xs), |xs| as real);
  }

  lemma Ratio(t: real, n: real)
    requires n > 0.0 && Abs(t) <= n
    ensures Times(Abs(t / n), n) == Abs(t) && 0.0 <= Abs(t / n) <= 1.0
  {
    assert t / n * n == t;
    UnitRatio(t / n, n, t);
  }

  lemma UnitRatio(q: real, n: real, t: real)
    requires n > 0.0 && q * n == t && -n <= t <= n
    ensures -1.0 <= q <= 1.0 && Times(Abs(q), n) == Abs(t)
  {
    ScaleOrder(0.0, q, n);
    ScaleOrder(q, 1.0, n);
    ScaleOrder(-1.0, q, n);
  }

  lemma Weighted(count: real, total: real, gap: real)
    requires total > 0.0
    ensures Times(count / total * gap, total) == Times(gap, count)
  {
    assert count / total * total == count;
    assert count / total * gap * total == count / total * total * gap;
  }

  lemma EceStep(xs: seq<Outcome>, n: nat, k: nat)
    requires n > 0 && xs != [] && Clamped(xs) && k > 0
    ensures Times(Ece(xs, n, k), |xs| as real) ==
      Times(Ece(xs, n, k - 1), |xs| as real) + Abs(Total(InBin(xs, n, k - 1)))
  {
    hide InBin, Gap, Total;
    var bin, size := InBin(xs, n, k - 1), |xs| as real;
    if bin == [] {
      NoTotal();
    } else {
      GapIs(bin);
      Weighted(|bin| as real, size, Gap(bin));
      Spread(size, Ece(xs, n, k - 1), |bin| as real / size * Gap(bin));
    }
  }

  lemma MceStep(xs: seq<Outcome>, n: nat, k: nat)
    requires n > 0 && Clamped(xs) && k > 0 && 0.0 <= Mce(xs, n, k - 1) <= 1.0
    ensures Mce(xs, n, k - 1) <= Mce(xs, n, k) && 0.0 <= Mce(xs, n, k) <= 1.0
    ensures Abs(Total(InBin(xs, n, k - 1))) <= Times(Mce(xs, n, k), |InBin(xs, n, k - 1)| as real)
  {
    hide InBin, Gap, Total, Times;
    var bin := InBin(xs, n, k - 1);
    if bin == [] {
      NoTotal();
      Grows(0.0, 0.0, Mce(xs, n, k));
    } else {
      GapIs(bin);
      Grows(Gap(bin), Mce(xs, n, k), |bin| as real);
    }
  }

  /** Over any number of bins: the triangle inequality below, the worst gap above. */
  lemma {:induction false} ErrorsBracket(xs: seq<Outcome>, n: nat, k: nat)
    requires n > 0 && xs != [] && Clamped(xs)
    ensures Abs(Summed(xs, n, k)) <= Times(Ece(xs, n, k), |xs| as real) <= Times(Mce(xs, n, k), Counted(xs, n, k) as real)
    ensures 0.0 <= Mce(xs, n, k) <= 1.0
  {
    if k > 0 {
      hide InBin, Gap, Total, Times, Ece, Mce;
      ErrorsBracket(xs, n, k - 1);
      EceStep(xs, n, k);
      MceStep(xs, n, k);
      var before, size := Counted(xs, n, k - 1) as real, |InBin(xs, n, k - 1)| as real;
      Grows(Mce(xs, n, k - 1), Mce(xs, n, k), before);
      Spread(Mce(xs, n, k), before, size);
    }
  }

  lemma NoTotal()
    ensures Total([]) == 0.0
  {}

  lemma Grows(x: real, y: real, d: real)
    requires x <= y && d >= 0.0
    ensures Times(x, d) <= Times(y, d) && Times(d, 0.0) == 0.0
  {
    if d > 0.0 { ScaleOrder(x, y, d); }
  }

  lemma Spread(x: real, a: real, b: real)
    ensures Times(x, a + b) == Times(x, a) + Times(x, b)
    ensures Times(a + b, x) == Times(a, x) + Times(b, x)
  {}

  /** The overall bias is at most the expected calibration error, which is at most the worst gap. */
  lemma BiasWithinErrors(xs: seq<Outcome>, n: nat)
    requires n > 0 && xs != [] && Clamped(xs)
    ensures Gap(xs) <= Ece(xs, n, n) <= Mce(xs, n, n) <= 1.0
  {
    hide InBin, Gap, Total, Times, Ece, Mce, Summed, Counted;
    BinsPartition(xs, n);
    ErrorsBracket(xs, n, n);
    GapIs(xs);
    Unscale(Gap(xs), Ece(xs, n, n), |xs| as real);
    Unscale(Ece(xs, n, n), Mce(xs, n, n), |xs| as real);
  }

  lemma Unscale(x: real, y: real, d: real)
    requires d > 0.0 && Times(x, d) <= Times(y, d)
    ensures x <= y
  {
    ScaleOrder(x, y, d);
  }

  // ---- computing them -------------------------------------------------------------------------------

  /** The pairs of score and label, scores clamped. */
  function Clamping(scores: seq<real>, labels: seq<bool>): (xs: seq<Outcome>)
    requires |scores| == |labels|
    ensures |xs| == |scores| && Clamped(xs)
  {
    seq(|scores|, k requires 0 <= k < |scores| => Outcome(Clamp(scores[k], 0.0, 1.0), labels[k]))
  }

  lemma InBinNext(xs: seq<Outcome>, n: nat, i: nat, m: nat)
    requires n > 0 && Clamped(xs) && m < |xs|
    ensures InBin(xs[..m + 1], n, i) ==
      if Bin(xs[m].score, n) == i then InBin(xs[..m], n, i) + [xs[m]] else InBin(xs[..m], n, i)
  {
    assert xs[..m + 1][..m] == xs[..m];
  }

  lemma NoErrorsYet(xs: seq<Outcome>, n: nat)
    requires n > 0 && Clamped(xs)
    ensures Ece(xs, n, 0) == Mce(xs, n, 0) == 0.0 && forall i :: InBin([], n, i) == []
  {}

  lemma NextErrors(xs: seq<Outcome>, n: nat, i: nat)
    requires n > 0 && Clamped(xs)
    ensures var bin := InBin(xs, n, i);
      if bin == [] then Ece(xs, n, i + 1) == Ece(xs, n, i) && Mce(xs, n, i + 1) == Mce(xs, n, i)
      else
        && Ece(xs, n, i + 1) == Ece(xs, n, i) + Contribution(bin, |xs|)
        && Mce(xs, n, i + 1) == if Gap(bin) > Mce(xs, n, i) then Gap(bin) else Mce(xs, n, i)
  {}

  lemma GapOf(xs: seq<Outcome>)
    requires xs != []
    ensures Gap(xs) == Abs(Scores(xs) / |xs| as real - Events(xs) as real / |xs| as real)
  {}

  lemma ContributionOf(bin: seq<Outcome>, total: nat, gap: real)
    requires bin != [] && total > 0 && gap == Gap(bin)
    ensures |bin| as real / total as real * gap == Contribution(bin, total)
  {}

  datatype Errors = Errors(ece: real, mce: real)

  /** Sorts the outcomes into bins, then accumulates over the bins; None stands for a ValueError. */
  method Calibrate(scores: seq<real>, labels: seq<bool>, n: int) returns (r: Option<Errors>)
    ensures r.Some? <==> n >= 1 && |scores| == |labels| && scores != []
    ensures r.Some? ==> r.value == Errors(Ece(Clamping(scores, labels), n, n), Mce(Clamping(scores, labels), n, n))
    ensures r.Some? ==> Gap(Clamping(scores, labels)) <= r.value.ece <= r.value.mce <= 1.0
  {
    hide InBin, Bin, Ece, Mce, Gap, Clamping, Contribution, Scores, Events, Abs;
    if n < 1 || |scores| != |labels| || scores == [] {
      return None;
    }
    var xs := Clamping(scores, labels);
    NoErrorsYet(xs, n);
    var bins := seq(n, _ => []);
    for m := 0 to |xs|
      invariant |bins| == n && forall i :: 0 <= i < n ==> bins[i] == InBin(xs[..m], n, i)
    {
      var index := Bin(xs[m].score, n);
      forall i | 0 <= i < n
        ensures InBin(xs[..m + 1], n, i) == if i == index then InBin(xs[..m], n, i) + [xs[m]] else InBin(xs[..m], n, i)
      {
        InBinNext(xs, n, i, m);
      }
      bins := bins[index := bins[index] + [xs[m]]];
    }
    assert xs[..|xs|] == xs;
    var ece, mce := 0.0, 0.0;
    for i := 0 to n
      invariant ece == Ece(xs, n, i) && mce == Mce(xs, n, i)
    {
      NextErrors(xs, n, i);
      var count := |bins[i]|;
      if count != 0 {
        var meanConfidence := Scores(bins[i]) / count as real;
        var accuracy := Events(bins[i]) as real / count as real;
        var gap := Abs(meanConfidence - accuracy);
        GapOf(bins[i]);
        ContributionOf(bins[i], |xs|, gap);
        ece := ece + count as real / |xs| as real * gap;
        mce := if gap > mce then gap else mce;
      }
    }
    BiasWithinErrors(xs, n);
    r := Some(Errors(ece, mce));
  }

  // ---- the fitted calibrator ------------------------------------------------------------------------

  /** The event frequency of the outcomes in bin i, or the bin's centre where there are none. */
  function Frequency(xs: seq<Outcome>, n: nat, i: nat): real
    requires n > 0 && Clamped(xs)
  {
    var bin := InBin(xs, n, i);
    if bin != [] then Events(bin) as real / |bin| as real else (i as real + 0.5) * Width(n)
  }

  method BisectRight(edges: seq<real>, s: real) returns (low: nat)
    requires forall i, j :: 0 <= i <= j < |edges| ==> edges[i] <= edges[j]
    ensures RightOf(edges, s, low)
  {
    low := 0;
    var high := |edges|;
    while low < high
      invariant low <= high <= |edges|
      invariant forall j :: 0 <= j < low ==> edges[j] <= s
      invariant forall j :: high <= j < |edges| ==> s < edges[j]
    {
      var mid := (low + high) / 2;
      if s < edges[mid] { high := mid; } else { low := mid + 1; }
    }
  }

  class ConfidenceCalibrator {
    const bins: nat
    var calibrated: bool
    var edges: seq<real>
    var frequencies: seq<real>
    /** What it was last fitted on. */
    ghost var fitted: seq<Outcome>

    ghost predicate Valid()
      reads this
    {
      && bins > 0 && Clamped(fitted)
      && (calibrated ==> edges == InnerEdges(bins) && |frequencies| == bins)
      && (calibrated ==> forall i :: 0 <= i < bins ==> frequencies[i] == Frequency(fitted, bins, i))
    }

    constructor (bins: nat)
      requires bins > 0
      ensures Valid() && this.bins == bins && !calibrated
    {
      this.bins := bins;
      calibrated, edges, frequencies, fitted := false, [], [], [];
    }

    /** A refused fit changes nothing; false stands for a ValueError. */
    method Fit(probs: seq<real>, labels: seq<bool>) returns (ok: bool)
      requires Valid()
      modifies this
      ensures Valid()
      ensures ok <==> |probs| == |labels| && probs != [] && forall k :: 0 <= k < |probs| ==> 0.0 <= probs[k] <= 1.0
      ensures ok ==> calibrated && |fitted| == |probs| && forall k :: 0 <= k < |probs| ==> fitted[k] == Outcome(probs[k], labels[k])
      ensures !ok ==> calibrated == old(calibrated) && fitted == old(fitted)
    {
      if |probs| != |labels| || probs == [] || exists k :: 0 <= k < |probs| && !(0.0 <= probs[k] <= 1.0) {
        return false;
      }
      FitOutcomes(seq(|probs|, k requires 0 <= k < |probs| => Outcome(probs[k], labels[k])));
      return true;
    }

    method FitOutcomes(xs: seq<Outcome>)
      requires Valid() && xs != [] && Clamped(xs)
      modifies this
      ensures Valid() && calibrated && fitted == xs
    {
      hide InBin, Bin, Events;
      NoErrorsYet(xs, bins);
      NoEvents();
      var n := bins;
      var counts, positives := seq(n, _ => 0), seq(n, _ => 0);
      for m := 0 to |xs|
        invariant n == bins && |counts| == |positives| == n
        invariant forall i :: 0 <= i < n ==> counts[i] == |InBin(xs[..m], n, i)| && positives[i] == Events(InBin(xs[..m], n, i))
      {
        var index := Bin(xs[m].score, n);
        forall i | 0 <= i < n
          ensures |InBin(xs[..m + 1], n, i)| == |InBin(xs[..m], n, i)| + if i == index then 1 else 0
          ensures Events(InBin(xs[..m + 1], n, i)) ==
            Events(InBin(xs[..m], n, i)) + if i == index && xs[m].event then 1 else 0
        {
          InBinNext(xs, n, i, m);
          EventsNext(InBin(xs[..m], n, i), xs[m]);
        }
        counts := counts[index := counts[index] + 1];
        if xs[m].event { positives := positives[index := positives[index] + 1]; }
      }
      assert xs[..|xs|] == xs;
      edges := InnerEdges(n);
      frequencies := seq(n, i requires 0 <= i < n && |counts| == |positives| == n && counts[i] >= 0 && positives[i] >= 0 =>
        if counts[i] != 0 then positives[i] as real / counts[i] as real else (i as real + 0.5) * Width(n));
      calibrated, fitted := true, xs;
    }

    /** The event frequency of the bin the score would have been counted in. */
    method Calibrate(s: real) returns (r: Option<real>)
      requires Valid()
      ensures r.Some? <==> 0.0 <= s <= 1.0
      ensures r.Some? ==> r.value == if calibrated then Frequency(fitted, bins, Bin(s, bins)) else s
    {
      if !(0.0 <= s <= 1.0) {
        return None;
      }
      if !calibrated {
        return Some(s);
      }
      forall i, j | 0 <= i <= j < |edges| ensures edges[i] <= edges[j] { EdgesGrow(i + 1, j + 1, bins); }
      var index := BisectRight(edges, s);
      LookupMatchesFit(s, bins, index);
      r := Some(frequencies[index]);
    }
  }

  lemma NoEvents()
    ensures Events([]) == 0
  {}

  lemma EventsNext(xs: seq<Outcome>, x: Outcome)
    ensures Events(xs + [x]) == Events(xs) + if x.event then 1 else 0
  {
    assert (xs + [x])[..|xs|] == xs;
  }

  // ---- when the map is monotone -----------------------------------------------------------------------

  function Mapped(xs: seq<Outcome>, n: nat, s: real): real
    requires n > 0 && Clamped(xs) && s >= 0.0
  {
    Frequency(xs, n, Bin(s, n))
  }

  lemma BinMonotone(s: real, t: real, n: nat)
    requires n > 0 && 0.0 <= s <= t
    ensures Bin(s, n) <= Bin(t, n)
  {
    BinIs(s, n, Bin(s, n));
    BinIs(t, n, Bin(t, n));
    EdgesGrow(Bin(s, n), Bin(t, n) + 1, n);
    EdgesGrow(Bin(t, n) + 1, Bin(s, n), n);
  }

  lemma EdgeInBin(i: nat, n: nat)
    requires i < n
    ensures 0.0 <= Edge(i, n) <= 1.0 && Bin(Edge(i, n), n) == i
  {
    LastEdge(n);
    EdgesGrow(0, i, n);
    EdgesGrow(i, n, n);
    EdgesGrow(i + 1, i, n);
    BinIs(Edge(i, n), n, i);
  }

  /** The calibrated score never falls as the raw one rises, exactly when the stored frequencies never
      decrease from bin to bin. */
  lemma MapMonotone(xs: seq<Outcome>, n: nat)
    requires n > 0 && Clamped(xs)
    ensures (forall s: real, t: real :: 0.0 <= s <= t <= 1.0 ==> Mapped(xs, n, s) <= Mapped(xs, n, t)) <==>
      forall i, j :: 0 <= i <= j < n ==> Frequency(xs, n, i) <= Frequency(xs, n, j)
  {
    hide Frequency, Bin, Edge;
    if forall i, j :: 0 <= i <= j < n ==> Frequency(xs, n, i) <= Frequency(xs, n, j) {
      forall s: real, t: real | 0.0 <= s <= t <= 1.0 ensures Mapped(xs, n, s) <= Mapped(xs, n, t) { BinMonotone(s, t, n); }
    }
    if forall s: real, t: real :: 0.0 <= s <= t <= 1.0 ==> Mapped(xs, n, s) <= Mapped(xs, n, t) {
      forall i, j | 0 <= i <= j < n ensures Frequency(xs, n, i) <= Frequency(xs, n, j) {
        EdgeInBin(i, n);
        EdgeInBin(j, n);
        EdgesGrow(i, j, n);
        assert Mapped(xs, n, Edge(i, n)) <= Mapped(xs, n, Edge(j, n));
      }
    }
  }

  /** A fit whose map falls. */
  lemma FallingFit()
    ensures var xs := [Outcome(0.25, true), Outcome(0.75, false)];
      Clamped(xs) && Mapped(xs, 2, 0.25) == 1.0 && Mapped(xs, 2, 0.75) == 0.0
  {
    hide Bin, InBin, Events, Frequency;
    var a, b := Outcome(0.25, true), Outcome(0.75, false);
    var xs := [a, b];
    Halves();
    assert xs[..1] == [a] && xs[..2] == xs;
    OneOutcome(a, 2, 0);
    OneOutcome(a, 2, 1);
    InBinNext(xs, 2, 0, 1);
    InBinNext(xs, 2, 1, 1);
    LoneFrequency(xs, 2, 0, a);
    LoneFrequency(xs, 2, 1, b);
  }

  lemma Halves()
    ensures Bin(0.25, 2) == 0 && Bin(0.75, 2) == 1
  {
    hide Bin;
    LastEdge(2);
    assert Edge(1, 2) == 0.5 by { WidthTimes(2); }
    BinIs(0.25, 2, 0);
    BinIs(0.75, 2, 1);
  }

  lemma LoneFrequency(xs: seq<Outcome>, n: nat, i: nat, x: Outcome)
    requires n > 0 && Clamped(xs) && InBin(xs, n, i) == [x]
    ensures Frequency(xs, n, i) == if x.event then 1.0 else 0.0
  {
    hide InBin, Bin, Width;
    OneEvent(x);
  }

  lemma OneOutcome(x: Outcome, n: nat, i: nat)
    requires n > 0 && 0.0 <= x.score <= 1.0
    ensures InBin([x], n, i) == if Bin(x.score, n) == i then [x] else []
  {
    assert [x][..0] == [];
  }

  lemma OneEvent(x: Outcome)
    ensures Events([x]) == if x.event then 1 else 0
  {
    assert [x][..0] == [];
  }
}
