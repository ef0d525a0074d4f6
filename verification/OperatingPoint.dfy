/** The search for the operating point of least specific energy: a grid, then a solver that need not be trusted. */
module OperatingPoint {
  import opened Options
  import opened Reals

  const STEPS := 25
  const SLACK := 0.000000001

  /** What evaluating a pressure and a recovery yields, with the specific energy still exact. */
  datatype Point = Point(exact: real, feasible: bool)

  function Round5(x: real): real { RoundAt(x, 100000.0) }

  /** The specific energy a point reports, and every comparison uses: five decimals. */
  function Sec(x: Point): real { Round5(x.exact) }

  datatype Bounds = Bounds(pMin: real, pMax: real, rMin: real, rMax: real)

  datatype Outcome = BadBounds | NothingFeasible | Best(p: real, r: real)

  function GridP(b: Bounds, i: nat): real { b.pMin + (b.pMax - b.pMin) * i as real / STEPS as real }

  function GridR(b: Bounds, j: nat): real { b.rMin + (b.rMax - b.rMin) * j as real / STEPS as real }

  predicate Proper(b: Bounds) { b.pMin < b.pMax && b.rMin < b.rMax }

  predicate Within(b: Bounds, p: real, r: real) { b.pMin <= p <= b.pMax && b.rMin <= r <= b.rMax }

  function AtGrid(evaluate: (real, real) -> Point, b: Bounds, i: nat, j: nat): Point {
    evaluate(GridP(b, i), GridR(b, j))
  }

  /** Scanned before (i, j), row by row. */
  predicate Before(i: nat, j: nat, m: nat, n: nat) { n <= STEPS && (m < i || (m == i && n < j)) }

  /** The least feasible grid point among those scanned. */
  ghost predicate LeastBefore(evaluate: (real, real) -> Point, b: Bounds, i: nat, j: nat, seed: Option<(nat, nat)>) {
    match seed
    case None => forall m: nat, n: nat :: Before(i, j, m, n) ==> !AtGrid(evaluate, b, m, n).feasible
    case Some((k, l)) =>
      && Before(i, j, k, l) && AtGrid(evaluate, b, k, l).feasible
      && (forall m: nat, n: nat :: Before(i, j, m, n) && AtGrid(evaluate, b, m, n).feasible ==>
          Sec(AtGrid(evaluate, b, k, l)) <= Sec(AtGrid(evaluate, b, m, n)))
  }

  lemma OneMore(evaluate: (real, real) -> Point, b: Bounds, i: nat, j: nat, seed: Option<(nat, nat)>)
    requires j <= STEPS && LeastBefore(evaluate, b, i, j, seed)
    ensures var here := AtGrid(evaluate, b, i, j);
      var better := here.feasible && (seed.None? || Sec(here) < Sec(AtGrid(evaluate, b, seed.value.0, seed.value.1)));
      LeastBefore(evaluate, b, i, j + 1, if better then Some((i, j)) else seed)
  {}

  lemma NextRow(evaluate: (real, real) -> Point, b: Bounds, i: nat, seed: Option<(nat, nat)>)
    ensures LeastBefore(evaluate, b, i, STEPS + 1, seed) <==> LeastBefore(evaluate, b, i + 1, 0, seed)
  {}

  method ScanGrid(evaluate: (real, real) -> Point, b: Bounds) returns (seed: Option<(nat, nat)>)
    ensures LeastBefore(evaluate, b, STEPS + 1, 0, seed)
  {
    seed := None;
    for i := 0 to STEPS + 1
      invariant LeastBefore(evaluate, b, i, 0, seed)
    {
      for j := 0 to STEPS + 1
        invariant LeastBefore(evaluate, b, i, j, seed)
      {
        OneMore(evaluate, b, i, j, seed);
        var here := AtGrid(evaluate, b, i, j);
        if here.feasible && (seed.None? || Sec(here) < Sec(AtGrid(evaluate, b, seed.value.0, seed.value.1))) {
          seed := Some((i, j));
        }
      }
      NextRow(evaluate, b, i, seed);
    }
  }

  /** Some grid point meets every constraint. */
  predicate GridFeasible(evaluate: (real, real) -> Point, b: Bounds) {
    exists i: nat, j: nat :: i <= STEPS && j <= STEPS && AtGrid(evaluate, b, i, j).feasible
  }

  /** No feasible grid point reports less energy. */
  predicate BeatsGrid(evaluate: (real, real) -> Point, b: Bounds, sec: real) {
    forall i: nat, j: nat :: i <= STEPS && j <= STEPS && AtGrid(evaluate, b, i, j).feasible ==>
      sec <= Sec(AtGrid(evaluate, b, i, j))
  }

  /** No feasible grid point needs less energy, but for the two roundings. */
  predicate NearlyLeast(evaluate: (real, real) -> Point, b: Bounds, exact: real) {
    forall i: nat, j: nat :: i <= STEPS && j <= STEPS && AtGrid(evaluate, b, i, j).feasible ==>
      exact <= AtGrid(evaluate, b, i, j).exact + 0.00001
  }

  /** When the solver's answer is the one returned. */
  predicate Taken(evaluate: (real, real) -> Point, b: Bounds, offer: (real, real)) {
    evaluate(offer.0, offer.1).feasible && BeatsGrid(evaluate, b, Sec(evaluate(offer.0, offer.1)))
  }

  /** Reported values are whole multiples of 1e-5, so a slack of 1e-9 admits no larger one. */
  lemma SlackIsIdle(x: real, y: real)
    ensures Round5(x) <= Round5(y) + SLACK <==> Round5(x) <= Round5(y)
  {
    var m, n := RoundInt(x * 100000.0), RoundInt(y * 100000.0);
    if m > n { assert m >= n + 1; }
  }

  lemma SecMonotone(x: Point, y: Point)
    requires x.exact <= y.exact
    ensures Sec(x) <= Sec(y)
  {
    RoundMonotone(x.exact * 100000.0, y.exact * 100000.0);
  }

  /** An answer that needs more exact energy than a feasible grid point is returned only in a tie. */
  lemma WorseOnlyInATie(evaluate: (real, real) -> Point, b: Bounds, offer: (real, real), i: nat, j: nat)
    requires Taken(evaluate, b, offer) && i <= STEPS && j <= STEPS && AtGrid(evaluate, b, i, j).feasible
    requires evaluate(offer.0, offer.1).exact > AtGrid(evaluate, b, i, j).exact
    ensures Sec(evaluate(offer.0, offer.1)) == Sec(AtGrid(evaluate, b, i, j))
  {
    SecMonotone(AtGrid(evaluate, b, i, j), evaluate(offer.0, offer.1));
  }

  lemma RoundedWithin(x: real)
    ensures x - 0.000005 <= Round5(x) <= x + 0.000005
  {}

  lemma LeastIsNearlyLeast(evaluate: (real, real) -> Point, b: Bounds, x: Point)
    requires BeatsGrid(evaluate, b, Sec(x))
    ensures NearlyLeast(evaluate, b, x.exact)
  {
    forall i: nat, j: nat | i <= STEPS && j <= STEPS && AtGrid(evaluate, b, i, j).feasible
      ensures x.exact <= AtGrid(evaluate, b, i, j).exact + 0.00001
    {
      RoundedWithin(x.exact);
      RoundedWithin(AtGrid(evaluate, b, i, j).exact);
    }
  }

  lemma GridWithin(b: Bounds, i: nat, j: nat)
    requires Proper(b) && i <= STEPS && j <= STEPS
    ensures Within(b, GridP(b, i), GridR(b, j))
  {
    Fraction(b.pMax - b.pMin, i);
    Fraction(b.rMax - b.rMin, j);
  }

  /** The grid has 26 points each way, evenly spaced from bound to bound. */
  lemma GridSpans(b: Bounds, i: nat)
    ensures GridP(b, 0) == b.pMin && GridP(b, 25) == b.pMax && GridP(b, i + 1) - GridP(b, i) == (b.pMax - b.pMin) / 25.0
    ensures GridR(b, 0) == b.rMin && GridR(b, 25) == b.rMax && GridR(b, i + 1) - GridR(b, i) == (b.rMax - b.rMin) / 25.0
    ensures STEPS == 25
  {
    Steps(b.pMax - b.pMin, i);
    Steps(b.rMax - b.rMin, i);
  }

  lemma Steps(x: real, i: nat)
    ensures x * (i + 1) as real / 25.0 - x * i as real / 25.0 == x / 25.0
  {}

  lemma Fraction(x: real, i: nat)
    requires x >= 0.0 && i <= STEPS
    ensures 0.0 <= x * i as real / STEPS as real <= x
  {}

  /** Whatever the solver answers, or if it fails: an answer exists exactly when the grid has a feasible
      point; it is feasible and reports no more energy than any feasible grid point, so its exact energy
      is within 1e-5 of theirs; and a solver's answer is returned exactly when it is that good. */
  method Optimise(evaluate: (real, real) -> Point, b: Bounds, solver: Option<(real, real)>) returns (r: Outcome)
    ensures r.BadBounds? <==> !Proper(b)
    ensures Proper(b) ==> (r.Best? <==> GridFeasible(evaluate, b))
    ensures r.Best? ==> var best := evaluate(r.p, r.r);
      best.feasible && BeatsGrid(evaluate, b, Sec(best)) && NearlyLeast(evaluate, b, best.exact)
    ensures r.Best? ==>
      if solver.Some? && Taken(evaluate, b, solver.value) then (r.p, r.r) == solver.value
      else exists i: nat, j: nat :: i <= STEPS && j <= STEPS && (r.p, r.r) == (GridP(b, i), GridR(b, j)) && Within(b, r.p, r.r)
  {
    if b.pMax <= b.pMin || b.rMax <= b.rMin {
      return BadBounds;
    }
    var seed := ScanGrid(evaluate, b);
    Scanned(evaluate, b, seed);
    if seed.None? {
      return NothingFeasible;
    }
    hide Round5, LeastBefore;
    var (k, l) := seed.value;
    var least := AtGrid(evaluate, b, k, l);
    GridWithin(b, k, l);
    LeastIsNearlyLeast(evaluate, b, least);
    r := Best(GridP(b, k), GridR(b, l));
    if solver.Some? {
      var offered := evaluate(solver.value.0, solver.value.1);
      SlackIsIdle(offered.exact, least.exact);
      if offered.feasible && Sec(offered) <= Sec(least) + SLACK {
        LeastIsNearlyLeast(evaluate, b, offered);
        r := Best(solver.value.0, solver.value.1);
      }
    }
  }

  lemma Scanned(evaluate: (real, real) -> Point, b: Bounds, seed: Option<(nat, nat)>)
    requires LeastBefore(evaluate, b, STEPS + 1, 0, seed)
    ensures seed.Some? <==> GridFeasible(evaluate, b)
    ensures seed.Some? ==> var (k, l) := seed.value;
      k <= STEPS && l <= STEPS && AtGrid(evaluate, b, k, l).feasible && BeatsGrid(evaluate, b, Sec(AtGrid(evaluate, b, k, l)))
  {}
}
