/** Remaining useful life: the least-squares health slope and the estimate built on it. */
module UsefulLife {
  import opened Reals
  import opened Options

  // ---- the slope ------------------------------------------------------------------------------

  /** 0 + 1 + ... + (n-1). */
  function IndexSum(n: nat): real { if n == 0 then 0.0 else IndexSum(n - 1) + (n - 1) as real }

  function Sum(ys: seq<real>, n: nat): real
    requires n <= |ys|
  {
    if n == 0 then 0.0 else Sum(ys, n - 1) + ys[n - 1]
  }

  /** The sum of (x - mx) * (y - my) over the first n samples. */
  function Cross(ys: seq<real>, mx: real, my: real, n: nat): real
    requires n <= |ys|
  {
    if n == 0 then 0.0 else Cross(ys, mx, my, n - 1) + ((n - 1) as real - mx) * (ys[n - 1] - my)
  }

  function Square(d: real): real { Times(d, d) }

  function Squares(mx: real, n: nat): real {
    if n == 0 then 0.0 else Squares(mx, n - 1) + Square((n - 1) as real - mx)
  }

  function MeanX(ys: seq<real>): real
    requires ys != []
  {
    IndexSum(|ys|) / |ys| as real
  }

  function MeanY(ys: seq<real>): real
    requires ys != []
  {
    Sum(ys, |ys|) / |ys| as real
  }

  /** Points per day, oldest sample first. */
  function Slope(ys: seq<real>): real
    requires ys != []
  {
    if |ys| < 2 then 0.0
    else
      var denom := Squares(MeanX(ys), |ys|);
      if denom == 0.0 then 0.0 else Cross(ys, MeanX(ys), MeanY(ys), |ys|) / denom
  }

  // ---- the slope has the sign of the trend -------------------------------------------------------

  lemma {:induction false} IndexSumClosed(n: nat)
    ensures 2.0 * IndexSum(n) == n as real * (n as real - 1.0)
  {
    if n > 0 {
      IndexSumClosed(n - 1);
      var m := (n - 1) as real;
      assert m * (m - 1.0) + 2.0 * m == (m + 1.0) * m;
    }
  }

  lemma MeanXClosed(ys: seq<real>)
    requires ys != []
    ensures 2.0 * MeanX(ys) == (|ys| - 1) as real
  {
    IndexSumClosed(|ys|);
    var n := |ys| as real;
    assert MeanX(ys) * n == IndexSum(|ys|);
    Cancel(n, 2.0 * MeanX(ys), n - 1.0);
  }

  lemma SquareSign(d: real)
    ensures Square(d) >= 0.0 && (d != 0.0 ==> Square(d) > 0.0)
  {
    hide Times;
    if d != 0.0 { SameSign(d, d); } else { assert Times(0.0, 0.0) == 0.0 by { ZeroTimes(0.0); } }
  }

  lemma ZeroTimes(y: real)
    ensures Times(0.0, y) == 0.0
  {}

  lemma SameSign(x: real, y: real)
    requires (x > 0.0 && y > 0.0) || (x < 0.0 && y < 0.0)
    ensures Times(x, y) > 0.0
  {}

  lemma {:induction false} SquaresNonNegative(mx: real, n: nat)
    ensures Squares(mx, n) >= 0.0
    ensures n >= 1 && mx > 0.0 ==> Squares(mx, n) > 0.0
  {
    hide Square;
    if n > 0 {
      SquaresNonNegative(mx, n - 1);
      SquareSign((n - 1) as real - mx);
    }
  }

  /** The guard against a zero denominator never fires. */
  lemma DenominatorPositive(ys: seq<real>)
    requires |ys| >= 2
    ensures Squares(MeanX(ys), |ys|) > 0.0
  {
    MeanXClosed(ys);
    SquaresNonNegative(MeanX(ys), |ys|);
  }

  /** The sum of x - mx over the first n indices. */
  function Centred(n: nat, mx: real): real { IndexSum(n) - n as real * mx }

  /** Measuring y from another origin c shifts the cross sum by (c - my) times the centred indices. */
  lemma {:induction false} ShiftOrigin(ys: seq<real>, mx: real, my: real, c: real, n: nat)
    requires n <= |ys|
    ensures Cross(ys, mx, my, n) == Cross(ys, mx, c, n) + Times(c - my, Centred(n, mx))
  {
    hide Cross, Centred, Times;
    if n == 0 {
      NothingSummed(ys, mx, my, c);
    } else {
      ShiftOrigin(ys, mx, my, c, n - 1);
      ShiftStep(Cross(ys, mx, my, n - 1), Cross(ys, mx, c, n - 1), Centred(n - 1, mx), (n - 1) as real - mx, ys[n - 1], my, c);
      CrossStep(ys, mx, my, n);
      CrossStep(ys, mx, c, n);
      OneMoreCentred(n, mx);
    }
  }

  lemma NothingSummed(ys: seq<real>, mx: real, my: real, c: real)
    ensures Cross(ys, mx, my, 0) == Cross(ys, mx, c, 0) + Times(c - my, Centred(0, mx))
  {
    Vanishes(c - my, Centred(0, mx));
  }

  lemma CrossStep(ys: seq<real>, mx: real, my: real, n: nat)
    requires 0 < n <= |ys|
    ensures Cross(ys, mx, my, n) == Cross(ys, mx, my, n - 1) + Times((n - 1) as real - mx, ys[n - 1] - my)
  {}

  lemma OneMoreCentred(n: nat, mx: real)
    requires n > 0
    ensures Centred(n, mx) == Centred(n - 1, mx) + ((n - 1) as real - mx)
  {
    assert n as real * mx == (n - 1) as real * mx + mx;
  }

  lemma ShiftStep(p: real, q: real, s: real, x: real, y: real, my: real, c: real)
    requires p == q + Times(c - my, s)
    ensures p + Times(x, y - my) == q + Times(x, y - c) + Times(c - my, s + x)
  {
    assert x * (y - my) == x * (y - c) + (c - my) * x;
    Distribute(c - my, s, x);
  }

  lemma Distribute(d: real, a: real, b: real)
    ensures d * (a + b) == d * a + d * b
  {}

  lemma CentredIndices(ys: seq<real>)
    requires ys != []
    ensures Centred(|ys|, MeanX(ys)) == 0.0
  {}

  predicate Declining(ys: seq<real>) { forall i, j :: 0 <= i <= j < |ys| ==> ys[j] <= ys[i] }

  lemma OppositeSigns(x: real, y: real)
    requires x >= 0.0 && y >= 0.0 && (y > 0.0 ==> x > 0.0)
    ensures x * y >= 0.0 && x * -y <= 0.0 && -x * y <= 0.0
    ensures x * y == 0.0 <==> y == 0.0
    ensures x * -y == 0.0 <==> y == 0.0
    ensures -x * y == 0.0 <==> y == 0.0
  {
    NonNegative(x, y);
    if y > 0.0 { Positive(x, y); }
    assert x * -y == -(x * y) && -x * y == -(x * y);
  }

  /** Measured from the middle sample no term of a declining trend is positive; the sum is zero only
      if the trend sits at that value all along. */
  lemma {:induction false} TermsNonPositive(ys: seq<real>, mx: real, k: nat, n: nat)
    requires Declining(ys) && n <= |ys| && k < |ys| && k as real <= mx < (k + 1) as real
    ensures Cross(ys, mx, ys[k], n) <= 0.0
    ensures Cross(ys, mx, ys[k], n) == 0.0 <==> forall i :: 0 <= i < n ==> ys[i] == ys[k]
  {
    if n > 0 {
      TermsNonPositive(ys, mx, k, n - 1);
      var x, y := (n - 1) as real - mx, ys[n - 1] - ys[k];
      assert Cross(ys, mx, ys[k], n) == Cross(ys, mx, ys[k], n - 1) + x * y;
      if n - 1 <= k { OppositeSigns(-x, y); } else { OppositeSigns(x, -y); }
      assert x * y <= 0.0 && (x * y == 0.0 <==> y == 0.0);
    }
  }

  /** For every declining trend the least-squares slope is not positive (Chebyshev's sum inequality),
      and it is zero exactly when the trend is constant. */
  lemma DecliningSlope(ys: seq<real>)
    requires Declining(ys) && |ys| >= 2
    ensures Slope(ys) <= 0.0
    ensures Slope(ys) == 0.0 <==> forall i :: 0 <= i < |ys| ==> ys[i] == ys[0]
  {
    hide Cross, Squares, MeanX, MeanY, Centred, Slope;
    var n, mx, my := |ys|, MeanX(ys), MeanY(ys);
    MeanXClosed(ys);
    var k := mx.Floor;
    TermsNonPositive(ys, mx, k, n);
    ShiftOrigin(ys, mx, my, ys[k], n);
    CentredIndices(ys);
    Vanishes(ys[k] - my, Centred(n, mx));
    DenominatorPositive(ys);
    SlopeIsQuotient(ys);
    SignOfQuotient(Cross(ys, mx, my, n), Squares(mx, n));
    assert (forall i :: 0 <= i < n ==> ys[i] == ys[k]) <==> (forall i :: 0 <= i < n ==> ys[i] == ys[0]);
  }

  lemma SignOfQuotient(a: real, b: real)
    requires b > 0.0
    ensures a <= 0.0 ==> a / b <= 0.0
    ensures a / b == 0.0 <==> a == 0.0
  {
    var q := a / b;
    assert q * b == a;
    if q > 0.0 { Positive(q, b); }
  }

  lemma {:induction false} AffineCross(ys: seq<real>, mx: real, a: real, b: real, n: nat)
    requires n <= |ys| && forall i :: 0 <= i < |ys| ==> ys[i] == a + b * i as real
    ensures Cross(ys, mx, a + b * mx, n) == b * Squares(mx, n)
  {
    if n > 0 {
      AffineCross(ys, mx, a, b, n - 1);
      var x := (n - 1) as real - mx;
      Distribute(b, (n - 1) as real, -mx);
      assert ys[n - 1] - (a + b * mx) == b * x;
      assert x * (b * x) == b * Square(x);
      Distribute(b, Squares(mx, n - 1), Square(x));
    }
  }

  /** On an affine trend the slope is exactly its rate. */
  lemma AffineSlope(ys: seq<real>, a: real, b: real)
    requires |ys| >= 2 && forall i :: 0 <= i < |ys| ==> ys[i] == a + b * i as real
    ensures Slope(ys) == b
  {
    hide Cross, Squares, Centred, MeanX, MeanY, Slope;
    var n, mx, my := |ys|, MeanX(ys), MeanY(ys);
    AffineCross(ys, mx, a, b, n);
    ShiftOrigin(ys, mx, my, a + b * mx, n);
    CentredIndices(ys);
    DenominatorPositive(ys);
    Vanishes(a + b * mx - my, Centred(n, mx));
    QuotientOf(Cross(ys, mx, my, n), b, Squares(mx, n));
    SlopeIsQuotient(ys);
  }

  lemma Vanishes(x: real, y: real)
    requires y == 0.0
    ensures Times(x, y) == 0.0
  {}

  lemma SlopeIsQuotient(ys: seq<real>)
    requires |ys| >= 2 && Squares(MeanX(ys), |ys|) != 0.0
    ensures Slope(ys) == Cross(ys, MeanX(ys), MeanY(ys), |ys|) / Squares(MeanX(ys), |ys|)
  {}

  lemma QuotientOf(c: real, b: real, d: real)
    requires d != 0.0 && c == b * d
    ensures c / d == b
  {
    assert (c / d) * d == c;
    Cancel(d, c / d, b);
  }

  /** The squared vertical distances from the line of rate b through the mean point. */
  function Residual(ys: seq<real>, mx: real, my: real, b: real, n: nat): real
    requires n <= |ys|
  {
    if n == 0 then 0.0 else Residual(ys, mx, my, b, n - 1) + Square(ys[n - 1] - my - Times(b, (n - 1) as real - mx))
  }

  lemma SquareDifference(u: real, v: real, b: real, c: real)
    ensures Square(u - Times(b, v)) - Square(u - Times(c, v)) == Times(b - c, Times(b + c, Square(v)) - 2.0 * Times(v, u))
  {}

  lemma SumTimes(d: real, e: real, s: real, x: real, q: real, y: real)
    ensures Times(d, Times(e, s + q) - 2.0 * (x + y)) == Times(d, Times(e, s) - 2.0 * x) + Times(d, Times(e, q) - 2.0 * y)
  {}

  lemma {:induction false} ResidualsDiffer(ys: seq<real>, mx: real, my: real, b: real, c: real, n: nat)
    requires n <= |ys|
    ensures Residual(ys, mx, my, b, n) - Residual(ys, mx, my, c, n) ==
      Times(b - c, Times(b + c, Squares(mx, n)) - 2.0 * Cross(ys, mx, my, n))
  {
    hide Times, Square, Cross;
    if n == 0 {
      NoDifference(ys, mx, my, b, c);
    } else {
      ResidualsDiffer(ys, mx, my, b, c, n - 1);
      var v, u := (n - 1) as real - mx, ys[n - 1] - my;
      SquareDifference(u, v, b, c);
      CrossStep(ys, mx, my, n);
      SumTimes(b - c, b + c, Squares(mx, n - 1), Cross(ys, mx, my, n - 1), Square(v), Times(v, u));
    }
  }

  lemma NoDifference(ys: seq<real>, mx: real, my: real, b: real, c: real)
    ensures Times(b - c, Times(b + c, Squares(mx, 0)) - 2.0 * Cross(ys, mx, my, 0)) == 0.0
  {}

  /** No line through the mean point is closer to the samples than the one with this slope. */
  lemma LeastSquares(ys: seq<real>, b: real)
    requires |ys| >= 2
    ensures Residual(ys, MeanX(ys), MeanY(ys), Slope(ys), |ys|) <= Residual(ys, MeanX(ys), MeanY(ys), b, |ys|)
    ensures Residual(ys, MeanX(ys), MeanY(ys), Slope(ys), |ys|) == Residual(ys, MeanX(ys), MeanY(ys), b, |ys|) <==> b == Slope(ys)
  {
    hide Cross, Squares, MeanX, MeanY, Slope, Residual;
    var n, mx, my, s := |ys|, MeanX(ys), MeanY(ys), Slope(ys);
    DenominatorPositive(ys);
    SlopeIsQuotient(ys);
    ResidualsDiffer(ys, mx, my, b, s, n);
    Excess(b, s, Squares(mx, n), Cross(ys, mx, my, n));
  }

  lemma Excess(b: real, s: real, squares: real, cross: real)
    requires squares > 0.0 && s == cross / squares
    ensures Times(b - s, Times(b + s, squares) - 2.0 * cross) >= 0.0
    ensures Times(b - s, Times(b + s, squares) - 2.0 * cross) == 0.0 <==> b == s
  {
    Product(s, cross, squares);
    var d := b - s;
    assert Times(b + s, squares) - 2.0 * cross == d * squares;
    if d > 0.0 {
      Positive(d, squares);
      Positive(d, d * squares);
    } else if d < 0.0 {
      Positive(-d, squares);
      Positive(-d, -d * squares);
      assert -d * squares == -(d * squares) && -d * -(d * squares) == d * (d * squares);
    }
  }

  // ---- the estimate ---------------------------------------------------------------------------------

  datatype Inputs = Inputs(trend: seq<real>, duty: real, age: real, interval: real, factor: real, threshold: real)

  datatype Estimate = Estimate(rul: real, lower: real, upper: real)

  /** What the function demands; anything else is a ValueError. */
  predicate Acceptable(x: Inputs) {
    x.trend != [] && 0.0 <= x.duty <= 1.0 && x.age >= 0.0 && x.interval > 0.0 && x.factor > 0.0
  }

  function Horizon(x: Inputs): real { 3.0 * x.interval + 365.0 }

  function BaseDays(x: Inputs): real
    requires x.trend != []
  {
    var headroom := Max(0.0, x.trend[|x.trend| - 1] - x.threshold);
    if Slope(x.trend) < -0.000001 then headroom / -Slope(x.trend) else Horizon(x)
  }

  function DutyFactor(duty: real): real { Clamp(1.0 - 0.6 * duty, 0.25, 1.0) }

  function MaintFactor(age: real, interval: real): real
    requires interval != 0.0
  {
    Clamp(1.0 - 0.5 * (age / interval), 0.2, 1.0)
  }

  function Rul(x: Inputs): real
    requires Acceptable(x)
  {
    var rul := BaseDays(x) * DutyFactor(x.duty) * MaintFactor(x.age, x.interval) * x.factor;
    if rul < Horizon(x) then rul else Horizon(x)
  }

  function RemainingUsefulLife(x: Inputs): (r: Option<Estimate>)
  {
    if !Acceptable(x) then None else
      var rul := Rul(x);
      var penalty := if |x.trend| >= 5 then 0.15 else 0.30;
      var spread := Clamp(0.25 + 0.5 * x.duty + penalty, 0.2, 0.9);
      Some(Estimate(rul, Max(0.0, rul * (1.0 - spread)), rul * (1.0 + spread)))
  }

  lemma ClampBounds(v: real, low: real, high: real)
    requires low <= high
    ensures low <= Clamp(v, low, high) <= high
  {}

  lemma BaseNonNegative(x: Inputs)
    requires Acceptable(x)
    ensures BaseDays(x) >= 0.0
  {
    var s := Slope(x.trend);
    if s < -0.000001 {
      var h := Max(0.0, x.trend[|x.trend| - 1] - x.threshold);
      QuotientNonNegative(h, -s);
    }
  }

  lemma QuotientNonNegative(a: real, b: real)
    requires a >= 0.0 && b > 0.0
    ensures a / b >= 0.0
  {}

  /** An estimate is given exactly for acceptable inputs, and its band is never degenerate. */
  lemma EstimateBand(x: Inputs)
    ensures RemainingUsefulLife(x).Some? <==> Acceptable(x)
    ensures RemainingUsefulLife(x).Some? ==> var e := RemainingUsefulLife(x).value;
      && 0.0 <= e.lower <= e.rul <= e.upper && e.rul <= Horizon(x)
      && (e.rul > 0.0 ==> e.lower < e.rul < e.upper)
  {
    hide Rul;
    if Acceptable(x) {
      var rul := Rul(x);
      RulNonNegative(x);
      var penalty := if |x.trend| >= 5 then 0.15 else 0.30;
      var spread := Clamp(0.25 + 0.5 * x.duty + penalty, 0.2, 0.9);
      ClampBounds(0.25 + 0.5 * x.duty + penalty, 0.2, 0.9);
      Band(rul, spread);
    }
  }

  lemma Band(rul: real, spread: real)
    requires rul >= 0.0 && 0.0 < spread < 1.0
    ensures 0.0 <= rul * (1.0 - spread) <= rul <= rul * (1.0 + spread)
    ensures rul > 0.0 ==> rul * (1.0 - spread) < rul < rul * (1.0 + spread)
  {
    NonNegative(rul, spread);
    NonNegative(rul, 1.0 - spread);
    if rul > 0.0 { Positive(rul, spread); }
    assert rul * (1.0 - spread) == rul - rul * spread && rul * (1.0 + spread) == rul + rul * spread;
  }

  lemma RulNonNegative(x: Inputs)
    requires Acceptable(x)
    ensures 0.0 <= Rul(x) <= Horizon(x)
  {
    hide BaseDays, DutyFactor, MaintFactor;
    BaseNonNegative(x);
    FactorsPositive(x);
    ProductNonNegative(BaseDays(x), DutyFactor(x.duty), MaintFactor(x.age, x.interval), x.factor);
  }

  lemma FactorsPositive(x: Inputs)
    requires Acceptable(x)
    ensures 0.25 <= DutyFactor(x.duty) <= 1.0 && 0.2 <= MaintFactor(x.age, x.interval) <= 1.0
  {
    ClampBounds(1.0 - 0.6 * x.duty, 0.25, 1.0);
    ClampBounds(1.0 - 0.5 * (x.age / x.interval), 0.2, 1.0);
  }

  lemma ProductNonNegative(b: real, d: real, m: real, f: real)
    requires b >= 0.0 && d >= 0.0 && m >= 0.0 && f >= 0.0
    ensures b * d * m * f >= 0.0
  {
    NonNegative(b, d);
    NonNegative(b * d, m);
    NonNegative(b * d * m, f);
  }

  lemma TimesMonotone(a: real, b: real, c: real, d: real)
    requires 0.0 <= a <= b && 0.0 <= c <= d
    ensures a * c <= b * d
  {
    NonNegative(b - a, c);
    NonNegative(b, d - c);
    assert b * d - a * c == (b - a) * c + b * (d - c);
  }

  /** Harder duty, longer-overdue maintenance or weaker peers never lengthen the estimate. */
  lemma HarderUseNeverHelps(x: Inputs, y: Inputs)
    requires Acceptable(x) && Acceptable(y)
    requires y.trend == x.trend && y.interval == x.interval && y.threshold == x.threshold
    requires x.duty <= y.duty && x.age <= y.age && y.factor <= x.factor
    ensures Rul(y) <= Rul(x)
  {
    hide BaseDays, DutyFactor, MaintFactor;
    BaseNonNegative(x);
    FactorsPositive(x);
    FactorsPositive(y);
    FactorsShrink(x, y);
    ProductMonotone(BaseDays(x), DutyFactor(y.duty), DutyFactor(x.duty),
      MaintFactor(y.age, x.interval), MaintFactor(x.age, x.interval), y.factor, x.factor);
    assert BaseDays(y) == BaseDays(x) by { SameBase(x, y); }
  }

  lemma SameBase(x: Inputs, y: Inputs)
    requires x.trend != [] && y.trend == x.trend && y.interval == x.interval && y.threshold == x.threshold
    ensures BaseDays(y) == BaseDays(x)
  {}

  lemma FactorsShrink(x: Inputs, y: Inputs)
    requires Acceptable(x) && Acceptable(y) && y.interval == x.interval && x.duty <= y.duty && x.age <= y.age
    ensures DutyFactor(y.duty) <= DutyFactor(x.duty) && MaintFactor(y.age, y.interval) <= MaintFactor(x.age, x.interval)
  {
    AgeRatio(x.age, y.age, x.interval);
  }

  lemma ProductMonotone(b: real, d': real, d: real, m': real, m: real, f': real, f: real)
    requires b >= 0.0 && 0.0 <= d' <= d && 0.0 <= m' <= m && 0.0 <= f' <= f
    ensures b * d' * m' * f' <= b * d * m * f
  {
    TimesMonotone(b, b, d', d);
    NonNegative(b, d');
    TimesMonotone(b * d', b * d, m', m);
    NonNegative(b * d', m');
    TimesMonotone(b * d' * m', b * d * m, f', f);
  }

  lemma AgeRatio(a: real, b: real, interval: real)
    requires a <= b && interval > 0.0
    ensures a / interval <= b / interval
  {
    QuotientNonNegative(b - a, interval);
    assert b / interval - a / interval == (b - a) / interval;
  }

  lemma ProductZero(b: real, d: real, m: real, f: real)
    requires b >= 0.0 && d > 0.0 && m > 0.0 && f > 0.0
    ensures b * d * m * f == 0.0 <==> b == 0.0
  {
    if b > 0.0 {
      Positive(b, d);
      Positive(b * d, m);
      Positive(b * d * m, f);
    }
  }

  lemma QuotientZero(a: real, b: real)
    requires a >= 0.0 && b > 0.0
    ensures a / b == 0.0 <==> a == 0.0
  {
    assert a / b * b == a;
  }

  /** No life is left exactly when the trend falls by more than 1e-6 a day and has reached the threshold. */
  lemma NoLifeLeft(x: Inputs)
    requires Acceptable(x)
    ensures Rul(x) == 0.0 <==> Slope(x.trend) < -0.000001 && x.trend[|x.trend| - 1] <= x.threshold
  {
    hide Slope, DutyFactor, MaintFactor;
    BaseNonNegative(x);
    FactorsPositive(x);
    var s := Slope(x.trend);
    if s < -0.000001 { QuotientZero(Max(0.0, x.trend[|x.trend| - 1] - x.threshold), -s); }
    ProductZero(BaseDays(x), DutyFactor(x.duty), MaintFactor(x.age, x.interval), x.factor);
  }

  /** A declining trend that falls by no more than 1e-6 a day gets the open-ended horizon, as every
      constant one does. */
  lemma DecliningEstimate(x: Inputs)
    requires Acceptable(x) && |x.trend| >= 2 && Declining(x.trend)
    ensures Slope(x.trend) >= -0.000001 ==> BaseDays(x) == Horizon(x)
    ensures (forall i :: 0 <= i < |x.trend| ==> x.trend[i] == x.trend[0]) ==> BaseDays(x) == Horizon(x)
  {
    DecliningSlope(x.trend);
  }

  /** A unit at its threshold that still declines, but slowly, is given the whole horizon. */
  lemma SlowDeclineKeepsHorizon(x: Inputs)
    requires Acceptable(x) && x.trend == [0.0000005, 0.0] && x.threshold == 0.0
    ensures Slope(x.trend) < 0.0 && BaseDays(x) == Horizon(x)
  {
    AffineSlope(x.trend, 0.0000005, -0.0000005);
  }

  // ---- the estimate in its own terms -------------------------------------------------------------------

  /** What maintenance leaves of the life: half of it goes with the first interval, and the floor of a fifth
      is reached at 1.6 intervals. */
  function Maintained(age: real, interval: real): real
    requires interval > 0.0
  {
    if age <= 1.6 * interval then 1.0 - age / (2.0 * interval) else 0.2
  }

  lemma MaintainedIs(age: real, interval: real)
    requires age >= 0.0 && interval > 0.0
    ensures MaintFactor(age, interval) == Maintained(age, interval)
  {
    Undivide(age, interval);
    Undivide(age, 2.0 * interval);
    Cancel(interval, age / (2.0 * interval), 0.5 * (age / interval));
    ScaleOrder(0.0, age / interval, interval);
    ScaleOrder(age / interval, 1.6, interval);
  }

  /** The days until the trend, at its slope, meets the threshold; none once it has. */
  lemma TrendMeetsThreshold(x: Inputs)
    requires Acceptable(x) && Slope(x.trend) < -0.000001
    ensures var current := x.trend[|x.trend| - 1];
      && (current >= x.threshold ==> current + Slope(x.trend) * BaseDays(x) == x.threshold)
      && (current < x.threshold ==> BaseDays(x) == 0.0)
  {
    hide Slope;
    var s := Slope(x.trend);
    Undivide(Max(0.0, x.trend[|x.trend| - 1] - x.threshold), -s);
    QuotientZero(Max(0.0, x.trend[|x.trend| - 1] - x.threshold), -s);
  }

  /** The life is those days, or the horizon of three intervals and a year for a trend that does not fall,
      times what duty, maintenance and peers leave of it, and at most the horizon. */
  lemma LifeIs(x: Inputs)
    requires Acceptable(x)
    ensures Slope(x.trend) >= -0.000001 ==> BaseDays(x) == 3.0 * x.interval + 365.0
    ensures Rul(x) == Min(3.0 * x.interval + 365.0,
      BaseDays(x) * (1.0 - 0.6 * x.duty) * Maintained(x.age, x.interval) * x.factor)
  {
    MaintainedIs(x.age, x.interval);
    assert DutyFactor(x.duty) == 1.0 - 0.6 * x.duty;
    hide BaseDays, MaintFactor, Maintained, DutyFactor;
    SameLife(x);
  }

  lemma SameLife(x: Inputs)
    requires Acceptable(x)
    requires DutyFactor(x.duty) == 1.0 - 0.6 * x.duty && MaintFactor(x.age, x.interval) == Maintained(x.age, x.interval)
    ensures Slope(x.trend) >= -0.000001 ==> BaseDays(x) == 3.0 * x.interval + 365.0
    ensures Rul(x) == Min(3.0 * x.interval + 365.0,
      BaseDays(x) * (1.0 - 0.6 * x.duty) * Maintained(x.age, x.interval) * x.factor)
  {
    hide Slope, Maintained, MaintFactor, DutyFactor;
  }

  /** The band lies symmetrically about the life, wider for hard duty and for fewer than five samples, and
      never wider than nine tenths. */
  lemma BandIs(x: Inputs)
    requires Acceptable(x)
    ensures var e := RemainingUsefulLife(x).value;
      var wide := 0.25 + 0.5 * x.duty + (if |x.trend| >= 5 then 0.15 else 0.30);
      var spread := if wide < 0.9 then wide else 0.9;
      && RemainingUsefulLife(x).Some? && e.rul == Rul(x)
      && e.upper - e.rul == Times(e.rul, spread) && e.rul - e.lower == Times(e.rul, spread)
  {
    hide Rul;
    RulNonNegative(x);
    var wide := 0.25 + 0.5 * x.duty + (if |x.trend| >= 5 then 0.15 else 0.30);
    var spread := if wide < 0.9 then wide else 0.9;
    assert spread == Clamp(wide, 0.2, 0.9);
    Band(Rul(x), spread);
    assert Rul(x) * (1.0 + spread) == Rul(x) + Rul(x) * spread && Rul(x) * (1.0 - spread) == Rul(x) - Rul(x) * spread;
  }
}
