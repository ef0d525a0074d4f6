/** Back-testing alarms against a labelled history: the confusion matrix, event onsets, lead times, and
    the Wilson interval its proportions are reported with. */
module Backtest {
  import opened Reals
  import opened Options

  datatype Sample = Sample(truth: bool, alarm: bool, t: real)

  type History = seq<Sample>

  predicate Chronological(h: History) { forall i, j :: 0 <= i <= j < |h| ==> h[i].t <= h[j].t }

  // ---- the confusion matrix --------------------------------------------------------------------

  datatype Confusion = Confusion(tp: nat, fp: nat, tn: nat, fn: nat)

  /** The samples below n with this alarm and this label. */
  function Having(h: History, n: nat, alarm: bool, truth: bool): set<nat>
    requires n <= |h|
  {
    set i: nat | i < n && h[i].alarm == alarm && h[i].truth == truth
  }

  lemma HavingGrows(h: History, n: nat, alarm: bool, truth: bool)
    requires n < |h|
    ensures n !in Having(h, n, alarm, truth)
    ensures Having(h, n + 1, alarm, truth) ==
      Having(h, n, alarm, truth) + if h[n].alarm == alarm && h[n].truth == truth then {n} else {}
  {}

  lemma HavingNext(h: History, n: nat, alarm: bool, truth: bool)
    requires n < |h|
    ensures |Having(h, n + 1, alarm, truth)| ==
      |Having(h, n, alarm, truth)| + if h[n].alarm == alarm && h[n].truth == truth then 1 else 0
  {
    hide Having;
    HavingGrows(h, n, alarm, truth);
  }

  method Confuse(h: History) returns (c: Confusion)
    ensures c.tp == |Having(h, |h|, true, true)| && c.fp == |Having(h, |h|, true, false)|
    ensures c.tn == |Having(h, |h|, false, false)| && c.fn == |Having(h, |h|, false, true)|
    ensures c.tp + c.fp + c.tn + c.fn == |h|
  {
    var tp, fp, tn, fn := 0, 0, 0, 0;
    assert forall a, l :: Having(h, 0, a, l) == {};
    for n := 0 to |h|
      invariant tp == |Having(h, n, true, true)| && fp == |Having(h, n, true, false)|
      invariant tn == |Having(h, n, false, false)| && fn == |Having(h, n, false, true)|
      invariant tp + fp + tn + fn == n
    {
      HavingNext(h, n, true, true);
      HavingNext(h, n, true, false);
      HavingNext(h, n, false, false);
      HavingNext(h, n, false, true);
      if h[n].alarm && h[n].truth {
        tp := tp + 1;
      } else if h[n].alarm && !h[n].truth {
        fp := fp + 1;
      } else if !h[n].alarm && !h[n].truth {
        tn := tn + 1;
      } else {
        fn := fn + 1;
      }
    }
    c := Confusion(tp, fp, tn, fn);
  }

  // ---- onsets and lead times ------------------------------------------------------------------------

  predicate Onset(h: History, i: nat) { i < |h| && h[i].truth && (i == 0 || !h[i - 1].truth) }

  /** A stretch of labelled samples that cannot be extended on either side. */
  predicate MaximalRun(h: History, a: nat, b: nat) {
    && a < b <= |h|
    && (forall i :: a <= i < b ==> h[i].truth)
    && (a == 0 || !h[a - 1].truth)
    && (b == |h| || !h[b].truth)
  }

  /** Onsets are exactly the starts of the maximal labelled stretches, one for each. */
  lemma OnsetsAreRuns(h: History, a: nat)
    ensures Onset(h, a) <==> exists b :: MaximalRun(h, a, b)
    ensures forall b, c :: MaximalRun(h, a, b) && MaximalRun(h, a, c) ==> b == c
  {
    if Onset(h, a) {
      var b := a + 1;
      while b < |h| && h[b].truth
        invariant a < b <= |h| && forall i :: a <= i < b ==> h[i].truth
      {
        b := b + 1;
      }
      assert MaximalRun(h, a, b);
    }
  }

  predicate WithinWindow(gap: real, window: Option<real>) { window.None? || gap <= window.value }

  /** An alarm that counts towards the onset at i. */
  predicate Heralds(h: History, window: Option<real>, i: nat, j: int)
    requires i < |h|
  {
    0 <= j < i && h[j].alarm && WithinWindow(h[i].t - h[j].t, window)
  }

  /** The longest warning any counting alarm gave. */
  ghost predicate LeadOf(h: History, window: Option<real>, i: nat, lead: Option<real>)
    requires i < |h|
  {
    match lead
    case None => forall j :: !Heralds(h, window, i, j)
    case Some(v) =>
      && (exists j :: Heralds(h, window, i, j) && h[i].t - h[j].t == v)
      && (forall j :: Heralds(h, window, i, j) ==> h[i].t - h[j].t <= v)
  }

  /** Walks back from the onset while the window lasts. */
  method FindLead(h: History, window: Option<real>, i: nat) returns (lead: Option<real>)
    requires i < |h|
    ensures Chronological(h) ==> LeadOf(h, window, i, lead)
    ensures lead.Some? ==> WithinWindow(lead.value, window) && (Chronological(h) ==> lead.value >= 0.0)
  {
    lead := None;
    var j := i - 1;
    while j >= 0 && WithinWindow(h[i].t - h[j].t, window)
      invariant -1 <= j < i
      invariant lead.None? ==> forall k :: j < k < i ==> !Heralds(h, window, i, k)
      invariant lead.Some? ==> exists k :: j < k < i && Heralds(h, window, i, k) && h[i].t - h[k].t == lead.value
      invariant lead.Some? ==> WithinWindow(lead.value, window)
      invariant lead.Some? && Chronological(h) ==> forall k :: j < k < i && Heralds(h, window, i, k) ==> h[i].t - h[k].t <= lead.value
    {
      if h[j].alarm {
        assert Heralds(h, window, i, j);
        lead := Some(h[i].t - h[j].t);
      }
      j := j - 1;
    }
  }

  function Onsets(h: History, n: nat): set<nat> { set i: nat | i < n && Onset(h, i) }

  /** One lead, in order, for every announced onset below n. */
  ghost predicate LeadsOf(h: History, window: Option<real>, n: nat, leads: seq<real>)
    requires n <= |h|
  {
    if n == 0 then leads == []
    else if !Onset(h, n - 1) || LeadOf(h, window, n - 1, None) then LeadsOf(h, window, n - 1, leads)
    else
      && leads != []
      && LeadOf(h, window, n - 1, Some(leads[|leads| - 1]))
      && LeadsOf(h, window, n - 1, leads[..|leads| - 1])
  }

  lemma NoLeads(h: History, window: Option<real>)
    ensures LeadsOf(h, window, 0, []) && Onsets(h, 0) == {}
  {}

  lemma OnsetsNext(h: History, n: nat)
    ensures n !in Onsets(h, n) && Onsets(h, n + 1) == Onsets(h, n) + if Onset(h, n) then {n} else {}
  {}

  lemma SameLeads(h: History, window: Option<real>, i: nat, leads: seq<real>)
    requires i < |h| && !Onset(h, i)
    ensures LeadsOf(h, window, i + 1, leads) == LeadsOf(h, window, i, leads)
  {}

  lemma LeadsNext(h: History, window: Option<real>, i: nat, leads: seq<real>, lead: Option<real>)
    requires i < |h| && Onset(h, i) && LeadOf(h, window, i, lead) && LeadsOf(h, window, i, leads)
    ensures LeadsOf(h, window, i + 1, if lead.Some? then leads + [lead.value] else leads)
  {
    if lead.Some? { assert (leads + [lead.value])[..|leads|] == leads; }
  }

  method ScanOnsets(h: History, window: Option<real>) returns (total: nat, leads: seq<real>)
    ensures Chronological(h) ==> LeadsOf(h, window, |h|, leads)
    ensures total == |Onsets(h, |h|)| && |leads| <= total
    ensures forall v :: v in leads ==> WithinWindow(v, window) && (Chronological(h) ==> v >= 0.0)
  {
    hide LeadsOf, LeadOf, Onsets, Chronological, WithinWindow;
    total, leads := 0, [];
    NoLeads(h, window);
    for i := 0 to |h|
      invariant Chronological(h) ==> LeadsOf(h, window, i, leads)
      invariant total == |Onsets(h, i)| && |leads| <= total
      invariant forall v :: v in leads ==> WithinWindow(v, window) && (Chronological(h) ==> v >= 0.0)
    {
      OnsetsNext(h, i);
      if h[i].truth && (i == 0 || !h[i - 1].truth) {
        total := total + 1;
        assert Onset(h, i);
        var lead := FindLead(h, window, i);
        if Chronological(h) { LeadsNext(h, window, i, leads, lead); }
        if lead.Some? {
          leads := leads + [lead.value];
        }
      } else {
        SameLeads(h, window, i, leads);
        assert Onsets(h, i + 1) == Onsets(h, i);
      }
    }
  }

  // ---- the Wilson interval ------------------------------------------------------------------------------

  /** What the margin takes the square root of. */
  function UnderRoot(p: real, n: real, z: real): real
    requires n > 0.0
  {
    p * (1.0 - p) / n + z * z / (4.0 * n * n)
  }

  /** The interval before clamping; root stands for the square root. */
  function Wilson(p: real, n: real, z: real, root: real): (r: (real, real))
    requires n > 0.0
  {
    var denominator := 1.0 + z * z / n;
    SquareOver(z, n);
    var centre := (p + z * z / (2.0 * n)) / denominator;
    var margin := z * root / denominator;
    (centre - margin, centre + margin)
  }

  lemma SquareOver(z: real, n: real)
    requires n > 0.0
    ensures z * z / n >= 0.0
  {}

  lemma SquareOrder(x: real, y: real)
    requires y >= 0.0
    ensures x * x <= y * y ==> x <= y
    ensures x >= 0.0 && x * x == y * y ==> x == y
  {
    assert (x - y) * (x + y) == x * x - y * y;
    if x > y { Positive(x - y, x + y); }
    if 0.0 <= x < y { Positive(y - x, x + y); }
  }

  lemma NotZero(x: real, y: real)
    requires x >= 0.0 && y > 0.0
    ensures x * y >= 0.0 && (x * y == 0.0 <==> x == 0.0)
  {
    if x > 0.0 { Positive(x, y); }
  }

  lemma SquareOfProduct(x: real, y: real)
    ensures x * y * (x * y) == x * x * (y * y)
  {
    assert x * y * (x * y) == x * (y * (x * y));
    assert y * (x * y) == x * (y * y);
  }

  lemma SquareOfSum(x: real, y: real)
    ensures (x + y) * (x + y) == x * x + 2.0 * (x * y) + y * y
  {}

  /** Scaled by 1 + w, where w = z * z / n and m = z * root: the lower bound is not negative ... */
  lemma LowerScaled(p: real, w: real, m: real)
    requires 0.0 <= p && w > 0.0 && m >= 0.0 && m * m == w * (p * (1.0 - p)) + w * w / 4.0
    ensures m <= p + w / 2.0 && (m == p + w / 2.0 <==> p == 0.0)
  {
    var y, pp := p + w / 2.0, p * p;
    SquareOfSum(p, w / 2.0);
    assert p * (1.0 - p) == p - pp;
    assert w * (p - pp) == w * p - w * pp;
    assert (w / 2.0) * (w / 2.0) == w * w / 4.0;
    assert p * (w / 2.0) == w * p / 2.0;
    NotZero(p, if p == 0.0 then 1.0 else p);
    NonNegative(w, pp);
    SquareOrder(m, y);
  }

  /** ... and does not exceed the proportion. */
  lemma BracketScaled(p: real, w: real, m: real)
    requires 0.0 <= p <= 1.0 && w > 0.0 && m >= 0.0 && m * m == w * (p * (1.0 - p)) + w * w / 4.0
    ensures w * (0.5 - p) <= m && (w * (0.5 - p) == m <==> p == 0.0)
  {
    var d, u, ww := 0.5 - p, p * (1.0 - p), w * w;
    NonNegative(p, 1.0 - p);
    assert u == 0.25 - d * d;
    SquareOfProduct(w, d);
    assert ww * (d * d) == ww * 0.25 - ww * u;
    NotZero(u, w);
    ProductPositive(w, w, ww);
    NotZero(u, ww);
    SquareOrder(w * d, m);
    if p == 1.0 { assert w * d < 0.0; }
    Dichotomy(p);
  }

  lemma Dichotomy(p: real)
    requires 0.0 <= p <= 1.0
    ensures p * (1.0 - p) == 0.0 <==> p == 0.0 || p == 1.0
  {
    if 0.0 < p < 1.0 { Positive(p, 1.0 - p); }
  }

  lemma MarginSquared(p: real, n: real, z: real, root: real)
    requires n > 0.0 && root * root == UnderRoot(p, n, z)
    ensures var w, m := z * z / n, z * root; m * m == w * (p * (1.0 - p)) + w * w / 4.0
  {
    var zz, u := z * z, p * (1.0 - p);
    SquareOfProduct(z, root);
    Expand(zz, u, n);
  }

  lemma Expand(zz: real, u: real, n: real)
    requires n > 0.0
    ensures zz * (u / n + zz / (4.0 * n * n)) == zz / n * u + zz / n * (zz / n) / 4.0
  {
    var i := 1.0 / n;
    assert u / n == u * i && zz / n == zz * i;
    assert 4.0 * n * n * (i * i / 4.0) == 1.0 by {
      assert n * i == 1.0;
      assert 4.0 * n * n * (i * i / 4.0) == n * i * (n * i);
    }
    Inverse(4.0 * n * n, i * i / 4.0, zz);
    assert zz * (u * i) == zz * i * u;
    assert zz * (zz * (i * i / 4.0)) == zz * i * (zz * i) / 4.0;
  }

  lemma Inverse(x: real, y: real, z: real)
    requires x * y == 1.0
    ensures x != 0.0 && z / x == z * y
  {
    if x != 0.0 { assert z / x * x == z && z * y * x == z; }
  }

  /** The lower bound is between 0 and the proportion, and strictly so unless nothing succeeded. */
  lemma LowerBound(p: real, n: real, z: real, root: real)
    requires n > 0.0 && z > 0.0 && 0.0 <= p <= 1.0 && root >= 0.0 && root * root == UnderRoot(p, n, z)
    ensures 0.0 <= Wilson(p, n, z, root).0 <= p
    ensures p > 0.0 ==> 0.0 < Wilson(p, n, z, root).0 < p
  {
    hide Wilson, UnderRoot;
    MarginSquared(p, n, z, root);
    Ratio(z, n);
    NonNegative(z, root);
    WilsonScaled(p, n, z, root);
    LowerFrom(Wilson(p, n, z, root).0, p, z * z / n, z * root);
  }

  lemma LowerFrom(lower: real, p: real, w: real, m: real)
    requires 0.0 <= p <= 1.0 && w > 0.0 && m >= 0.0 && m * m == w * (p * (1.0 - p)) + w * w / 4.0
    requires lower * (1.0 + w) == p + w / 2.0 - m
    ensures 0.0 <= lower <= p && (p > 0.0 ==> 0.0 < lower < p)
  {
    LowerScaled(p, w, m);
    BracketScaled(p, w, m);
    Unscale(lower, p, w, m);
  }

  lemma Unscale(lower: real, p: real, w: real, m: real)
    requires w > 0.0 && 0.0 <= p && lower * (1.0 + w) == p + w / 2.0 - m
    requires m <= p + w / 2.0 && (m == p + w / 2.0 <==> p == 0.0)
    requires w * (0.5 - p) <= m && (w * (0.5 - p) == m <==> p == 0.0)
    ensures 0.0 <= lower <= p && (p > 0.0 ==> 0.0 < lower < p)
  {
    assert p * (1.0 + w) == p + w / 2.0 - w * (0.5 - p);
    ScaleOrder(0.0, lower, 1.0 + w);
    ScaleOrder(lower, p, 1.0 + w);
  }

  lemma WilsonScaled(p: real, n: real, z: real, root: real)
    requires n > 0.0 && z > 0.0
    ensures var w, m := z * z / n, z * root;
      && Wilson(p, n, z, root).0 * (1.0 + w) == p + w / 2.0 - m
      && Wilson(p, n, z, root).1 * (1.0 + w) == p + w / 2.0 + m
  {
    Ratio(z, n);
    DividedSum(p + z * z / n / 2.0, z * root, 1.0 + z * z / n);
  }

  lemma DividedSum(x: real, y: real, d: real)
    requires d > 0.0
    ensures (x / d - y / d) * d == x - y && (x / d + y / d) * d == x + y
  {
    assert x / d * d == x && y / d * d == y;
  }

  lemma Ratio(z: real, n: real)
    requires z > 0.0 && n > 0.0
    ensures z * z / n > 0.0 && z * z / (2.0 * n) == z * z / n / 2.0
  {
    ProductPositive(z, z, z * z);
  }

  /** Counting failures instead of successes reflects the interval. */
  lemma Mirror(p: real, n: real, z: real, root: real)
    requires n > 0.0 && z > 0.0
    ensures UnderRoot(1.0 - p, n, z) == UnderRoot(p, n, z)
    ensures Wilson(1.0 - p, n, z, root).0 == 1.0 - Wilson(p, n, z, root).1
  {
    Complement(p);
    WilsonScaled(p, n, z, root);
    WilsonScaled(1.0 - p, n, z, root);
    Ratio(z, n);
    hide Wilson;
    Reflect(Wilson(1.0 - p, n, z, root).0, Wilson(p, n, z, root).1, p, z * z / n, z * root);
  }

  lemma Complement(p: real)
    ensures (1.0 - p) * (1.0 - (1.0 - p)) == p * (1.0 - p)
  {}

  lemma Reflect(lower: real, upper: real, p: real, w: real, m: real)
    requires w > 0.0
    requires lower * (1.0 + w) == 1.0 - p + w / 2.0 - m
    requires upper * (1.0 + w) == p + w / 2.0 + m
    ensures lower == 1.0 - upper
  {
    assert (1.0 - upper) * (1.0 + w) == 1.0 + w - upper * (1.0 + w);
    ScaleOrder(lower, 1.0 - upper, 1.0 + w);
  }

  /** What is reported, before rounding. */
  function Interval(successes: nat, total: nat, z: real, root: real): (r: (real, real))
    ensures total == 0 ==> r == (0.0, 0.0)
    ensures 0.0 <= r.0 && r.1 <= 1.0
  {
    if total == 0 then (0.0, 0.0)
    else
      var (lower, upper) := Wilson(successes as real / total as real, total as real, z, root);
      (if lower > 0.0 then lower else 0.0, if upper < 1.0 then upper else 1.0)
  }

  /** The bounds bracket the proportion inside [0, 1] before any clamping, so clamping changes nothing;
      they touch it, and the ends of [0, 1], only where nothing or everything succeeded. */
  lemma WilsonBrackets(successes: nat, total: nat, z: real, root: real)
    requires successes <= total && total > 0 && z > 0.0 && root >= 0.0
    requires root * root == UnderRoot(successes as real / total as real, total as real, z)
    ensures var (lower, upper), p := Interval(successes, total, z, root), successes as real / total as real;
      && (lower, upper) == Wilson(p, total as real, z, root)
      && 0.0 <= lower <= p <= upper <= 1.0
      && (lower == 0.0 <==> successes == 0) && (upper == 1.0 <==> successes == total)
      && (lower == p <==> successes == 0) && (upper == p <==> successes == total)
  {
    hide Wilson, UnderRoot;
    Proportion(successes, total);
    Unclamped(successes as real / total as real, total as real, z, root);
  }

  lemma Unclamped(p: real, n: real, z: real, root: real)
    requires n > 0.0 && z > 0.0 && 0.0 <= p <= 1.0 && root >= 0.0 && root * root == UnderRoot(p, n, z)
    ensures var (lower, upper) := Wilson(p, n, z, root);
      && 0.0 <= lower <= p <= upper <= 1.0
      && (lower == 0.0 <==> p == 0.0) && (upper == 1.0 <==> p == 1.0)
      && (lower == p <==> p == 0.0) && (upper == p <==> p == 1.0)
  {
    hide Wilson, UnderRoot;
    LowerBound(p, n, z, root);
    Mirror(p, n, z, root);
    LowerBound(1.0 - p, n, z, root);
  }
}
