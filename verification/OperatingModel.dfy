/** The evaluation of one operating point, and what rounding does to the search over it. */
module OperatingModel {
  import opened Options
  import opened Reals
  import opened OperatingPoint
  import RO = ReverseOsmosis

  /** Feed and membrane state. Boron rejection depends on neither pressure nor recovery. */
  datatype Design = Design(plant: RO.Plant, temperature: real, boron: real, boronRejection: real, npshMargin: real)

  /** The limits given; a missing one is not checked. */
  datatype Limits = Limits(minPermeate: Option<real>, maxPermeate: Option<real>, maxTds: Option<real>, maxBoron: Option<real>,
    maxPressure: Option<real>, minPressure: Option<real>, maxFlux: Option<real>, minRecovery: Option<real>,
    maxRecovery: Option<real>, minNpsh: Option<real>)

  const TOLERANCE := 0.000001

  predicate Usable(d: Design) { d.plant.flow > 0.0 && d.plant.pumpEfficiency > 0.0 }

  /** The constraints, in the order they are checked. */
  datatype Label = InsufficientPressure | MinPermeate | MaxPermeate | MaxTds | MaxBoron | MaxPressure | MinPressure | MaxFlux
                 | MinRecovery | MaxRecovery | CavitationMargin

  function Upper(limit: Option<real>, v: real, l: Label): seq<Label> {
    if limit.Some? && v > limit.value + TOLERANCE then [l] else []
  }

  function Lower(limit: Option<real>, v: real, l: Label): seq<Label> {
    if limit.Some? && v < limit.value - TOLERANCE then [l] else []
  }

  /** van 't Hoff, for sodium chloride, in bar. */
  function Osmotic(tds: real, temperature: real): real {
    2.0 * (tds / 1000.0 / 58.44 * 1000.0) * 8.314462618 * (temperature + 273.15) / 100000.0
  }

  function MeanConcentration(recovery: real): real { 0.5 * (1.0 + 1.0 / Max(0.000001, 1.0 - recovery)) }

  function Flux(d: Design, recovery: real): real {
    if d.plant.area > 0.0 then d.plant.flow * recovery * 1000.0 / d.plant.area else 0.0
  }

  function Available(d: Design, p: real, recovery: real): real {
    p - d.plant.drop / 2.0 - Osmotic(d.plant.tds, d.temperature) * MeanConcentration(recovery) * RO.BETA
  }

  /** The pressure supplies the driving pressure the flux asks for. */
  predicate Driven(d: Design, p: real, recovery: real) {
    d.plant.a > 0.0 && Available(d, p, recovery) >= Flux(d, recovery) / d.plant.a - TOLERANCE
  }

  function Permeate(d: Design, recovery: real): real { d.plant.flow * recovery }

  function SaltFlow(d: Design, recovery: real): real {
    var js := d.plant.b * (d.plant.tds / 1000.0 * MeanConcentration(recovery) * RO.BETA);
    js * d.plant.area
  }

  function Diluted(salt: real, permeate: real, tds: real): real {
    if permeate > 0.000000001 then Min(salt / permeate, tds) else tds
  }

  function PermeateTds(d: Design, recovery: real): real {
    Diluted(SaltFlow(d, recovery), Permeate(d, recovery), d.plant.tds)
  }

  /** The constraints a point violates. */
  function Binding(d: Design, c: Limits, p: real, recovery: real): seq<Label> {
    var permeate := Permeate(d, recovery);
    (if Driven(d, p, recovery) then [] else [InsufficientPressure])
    + Lower(c.minPermeate, permeate, MinPermeate) + Upper(c.maxPermeate, permeate, MaxPermeate)
    + Upper(c.maxTds, PermeateTds(d, recovery), MaxTds)
    + Upper(c.maxBoron, d.boron * (1.0 - d.boronRejection), MaxBoron)
    + Upper(c.maxPressure, p, MaxPressure) + Lower(c.minPressure, p, MinPressure)
    + Upper(c.maxFlux, Flux(d, recovery), MaxFlux)
    + Lower(c.minRecovery, recovery, MinRecovery) + Upper(c.maxRecovery, recovery, MaxRecovery)
    + Lower(c.minNpsh, d.npshMargin, CavitationMargin)
  }

  predicate Feasible(d: Design, c: Limits, p: real, recovery: real) { Binding(d, c, p, recovery) == [] }

  /** max(1e-3, r) capped at 0.95. */
  function Recovery(r: real): (recovery: real)
    ensures 0.001 <= recovery <= 0.95
  {
    Min(Max(r, 0.001), 0.95)
  }

  function Energy(d: Design, p: real, recovery: real): real
    requires Usable(d) && recovery > 0.0
  {
    Positive(d.plant.flow, recovery);
    RO.SpecificEnergy(d.plant.(pressure := p), recovery).value
  }

  function Evaluate(d: Design, c: Limits, p: real, r: real): Point
    requires Usable(d)
  {
    Point(Energy(d, p, Recovery(r)), Feasible(d, c, p, Recovery(r)))
  }

  function Default(limit: Option<real>, otherwise: real): real { if limit.Some? then limit.value else otherwise }

  function BoundsOf(c: Limits): Bounds {
    Bounds(Default(c.minPressure, 30.0), Default(c.maxPressure, 80.0), Default(c.minRecovery, 0.30), Default(c.maxRecovery, 0.55))
  }

  function Evaluator(d: Design, c: Limits): (real, real) -> Point
    requires Usable(d)
  {
    (p: real, r: real) => Evaluate(d, c, p, r)
  }

  // ---- what a feasible point is ---------------------------------------------------------------------

  /** The mean wall's osmotic pressure. */
  function WallPressure(d: Design, y: real): real
    requires y < 1.0
  {
    Osmotic(d.plant.tds, d.temperature) * (0.5 * (1.0 + 1.0 / (1.0 - y)) * 1.10)
  }

  /** The membrane passes the flux at the driving pressure left after half the channel drop and the mean
      wall's osmotic pressure. */
  predicate SuppliesFlux(d: Design, p: real, y: real)
    requires y < 1.0
  {
    var x := d.plant;
    var supply := x.a * (p - x.drop / 2.0 - WallPressure(d, y) + 0.000001);
    x.a > 0.0 && if x.area > 0.0 then supply * x.area >= x.flow * y * 1000.0 else supply >= 0.0
  }

  predicate FluxAtMost(d: Design, y: real, limit: real) {
    if d.plant.area > 0.0 then d.plant.flow * y * 1000.0 <= limit * d.plant.area else 0.0 <= limit
  }

  /** The salt that passes at the mean wall concentration, in g/h. */
  function SaltPassed(d: Design, y: real): real
    requires y < 1.0
  {
    d.plant.b * (d.plant.tds / 1000.0 * (0.5 * (1.0 + 1.0 / (1.0 - y)) * 1.10)) * d.plant.area
  }

  /** The permeate is no saltier than this, or the feed is not. */
  predicate SaltAtMost(salt: real, permeate: real, tds: real, limit: real) {
    tds <= limit || (permeate > 0.000000001 && salt <= limit * permeate)
  }

  predicate TdsAtMost(d: Design, y: real, limit: real)
    requires y < 1.0
  {
    SaltAtMost(SaltPassed(d, y), Permeate(d, y), d.plant.tds, limit)
  }

  /** In quantities, for a recovery y: the flux is supplied, and every limit given holds of what it limits,
      to within 1e-6. */
  predicate Meets(d: Design, c: Limits, p: real, y: real)
    requires y < 1.0
  {
    var permeate := d.plant.flow * y;
    && SuppliesFlux(d, p, y)
    && (c.minPermeate.Some? ==> permeate >= c.minPermeate.value - 0.000001)
    && (c.maxPermeate.Some? ==> permeate <= c.maxPermeate.value + 0.000001)
    && (c.maxTds.Some? ==> TdsAtMost(d, y, c.maxTds.value + 0.000001))
    && (c.maxBoron.Some? ==> d.boron * (1.0 - d.boronRejection) <= c.maxBoron.value + 0.000001)
    && (c.maxPressure.Some? ==> p <= c.maxPressure.value + 0.000001)
    && (c.minPressure.Some? ==> p >= c.minPressure.value - 0.000001)
    && (c.maxFlux.Some? ==> FluxAtMost(d, y, c.maxFlux.value + 0.000001))
    && (c.minRecovery.Some? ==> y >= c.minRecovery.value - 0.000001)
    && (c.maxRecovery.Some? ==> y <= c.maxRecovery.value + 0.000001)
    && (c.minNpsh.Some? ==> d.npshMargin >= c.minNpsh.value - 0.000001)
  }

  lemma MeanIs(y: real)
    requires 0.0 <= y <= 0.95
    ensures MeanConcentration(y) == 0.5 * (1.0 + 1.0 / (1.0 - y))
  {}

  lemma DrivenIs(d: Design, p: real, y: real)
    requires 0.0 <= y <= 0.95
    ensures Driven(d, p, y) <==> SuppliesFlux(d, p, y)
  {
    MeanIs(y);
    Regrouped(Osmotic(d.plant.tds, d.temperature), MeanConcentration(y));
    hide Osmotic, MeanConcentration;
    var avail := p - d.plant.drop / 2.0 - WallPressure(d, y);
    assert Available(d, p, y) == avail;
    hide WallPressure, Available;
    if d.plant.a > 0.0 { Suffices(d.plant.a, avail, d.plant.flow * y * 1000.0, d.plant.area); }
  }

  lemma Regrouped(x: real, y: real)
    ensures x * y * RO.BETA == x * (y * 1.10)
  {}

  lemma Suffices(a: real, avail: real, work: real, area: real)
    requires a > 0.0
    ensures area > 0.0 ==> (avail >= work / area / a - 0.000001 <==> a * (avail + 0.000001) * area >= work)
    ensures avail >= 0.0 / a - 0.000001 <==> a * (avail + 0.000001) >= 0.0
  {
    var v := avail + 0.000001;
    ScaleOrder(0.0, v, a);
    if area > 0.0 {
      Undivide(work / area, a);
      Undivide(work, area);
      ScaleOrder(work / area / a, v, a);
      ScaleOrder(work / area, v * a, area);
    }
  }

  lemma FluxIs(d: Design, y: real, limit: real)
    ensures Flux(d, y) <= limit <==> FluxAtMost(d, y, limit)
  {
    if d.plant.area > 0.0 {
      Undivide(d.plant.flow * y * 1000.0, d.plant.area);
      ScaleOrder(d.plant.flow * y * 1000.0 / d.plant.area, limit, d.plant.area);
    }
  }

  lemma TdsIs(d: Design, y: real, limit: real)
    requires 0.0 <= y <= 0.95
    ensures PermeateTds(d, y) <= limit <==> TdsAtMost(d, y, limit)
  {
    hide SaltFlow, SaltPassed, Diluted, SaltAtMost, Permeate;
    SaltIs(d, y);
    Dilutes(SaltPassed(d, y), Permeate(d, y), d.plant.tds, limit);
  }

  lemma SaltIs(d: Design, y: real)
    requires 0.0 <= y <= 0.95
    ensures SaltFlow(d, y) == SaltPassed(d, y)
  {
    MeanIs(y);
    Regrouped(d.plant.tds / 1000.0, MeanConcentration(y));
  }

  lemma Dilutes(salt: real, permeate: real, tds: real, limit: real)
    ensures Diluted(salt, permeate, tds) <= limit <==> SaltAtMost(salt, permeate, tds, limit)
  {
    if permeate > 0.000000001 {
      Undivide(salt, permeate);
      ScaleOrder(salt / permeate, limit, permeate);
    }
  }

  /** No constraint binds exactly when each one holds. */
  lemma NoneBinds(d: Design, c: Limits, p: real, y: real)
    ensures Binding(d, c, p, y) == [] <==>
      && Driven(d, p, y)
      && (c.minPermeate.Some? ==> d.plant.flow * y >= c.minPermeate.value - 0.000001)
      && (c.maxPermeate.Some? ==> d.plant.flow * y <= c.maxPermeate.value + 0.000001)
      && (c.maxTds.Some? ==> PermeateTds(d, y) <= c.maxTds.value + 0.000001)
      && (c.maxBoron.Some? ==> d.boron * (1.0 - d.boronRejection) <= c.maxBoron.value + 0.000001)
      && (c.maxPressure.Some? ==> p <= c.maxPressure.value + 0.000001)
      && (c.minPressure.Some? ==> p >= c.minPressure.value - 0.000001)
      && (c.maxFlux.Some? ==> Flux(d, y) <= c.maxFlux.value + 0.000001)
      && (c.minRecovery.Some? ==> y >= c.minRecovery.value - 0.000001)
      && (c.maxRecovery.Some? ==> y <= c.maxRecovery.value + 0.000001)
      && (c.minNpsh.Some? ==> d.npshMargin >= c.minNpsh.value - 0.000001)
  {
    hide Driven, PermeateTds, Flux;
  }

  /** A point counts as feasible exactly when it meets all of this. */
  lemma FeasibleExactly(d: Design, c: Limits, p: real, y: real)
    requires 0.0 <= y <= 0.95
    ensures Feasible(d, c, p, y) <==> Meets(d, c, p, y)
  {
    hide Driven, SuppliesFlux, PermeateTds, TdsAtMost, Flux, FluxAtMost, Binding;
    DrivenIs(d, p, y);
    NoneBinds(d, c, p, y);
    if c.maxTds.Some? { TdsIs(d, y, c.maxTds.value + 0.000001); }
    if c.maxFlux.Some? { FluxIs(d, y, c.maxFlux.value + 0.000001); }
  }

  /** The recovery a point is evaluated at. */
  lemma RecoveryIs(r: real)
    ensures Recovery(r) == if r < 0.001 then 0.001 else if r > 0.95 then 0.95 else r
  {}

  /** Without limits the search spans 30 to 80 bar and recoveries of 0.30 to 0.55. */
  lemma DefaultBounds()
    ensures BoundsOf(UNLIMITED) == Bounds(30.0, 80.0, 0.30, 0.55)
  {}

  /** One mole of salt per litre presses with 2 R T, and the pressure is proportional to the salt. */
  lemma OsmoticIs(tds: real, k: real, temperature: real)
    ensures Osmotic(58440.0, temperature) * 100.0 == 2.0 * 8.314462618 * (temperature + 273.15)
    ensures Osmotic(k * tds, temperature) == k * Osmotic(tds, temperature)
  {
    var t := 8.314462618 * (temperature + 273.15);
    assert Osmotic(k * tds, temperature) == k * tds / 58.44 * t * 2.0 / 100000.0;
    assert Osmotic(tds, temperature) == tds / 58.44 * t * 2.0 / 100000.0;
    assert k * tds / 58.44 * t == k * (tds / 58.44 * t);
  }

  // ---- the search -----------------------------------------------------------------------------------

  /** Grid point (i, j) meets the constraints at its own pressure and recovery. */
  predicate GridMeets(d: Design, c: Limits, i: nat, j: nat) {
    Meets(d, c, GridP(BoundsOf(c), i), Recovery(GridR(BoundsOf(c), j)))
  }

  /** The search over the evaluation and the bounds its limits give. */
  method OptimiseDesign(d: Design, c: Limits, solver: Option<(real, real)>) returns (r: Outcome)
    requires Usable(d)
    ensures r.BadBounds? <==> !Proper(BoundsOf(c))
    ensures Proper(BoundsOf(c)) ==> (r.Best? <==> exists i: nat, j: nat :: i <= STEPS && j <= STEPS && GridMeets(d, c, i, j))
    ensures r.Best? ==> Meets(d, c, r.p, Recovery(r.r))
    ensures r.Best? ==> var best := Evaluate(d, c, r.p, r.r);
      BeatsGrid(Evaluator(d, c), BoundsOf(c), Sec(best)) && NearlyLeast(Evaluator(d, c), BoundsOf(c), best.exact)
    ensures r.Best? && solver.Some? && Taken(Evaluator(d, c), BoundsOf(c), solver.value) ==> (r.p, r.r) == solver.value
  {
    hide Feasible, Meets;
    r := Optimise(Evaluator(d, c), BoundsOf(c), solver);
    forall i: nat, j: nat | i <= STEPS && j <= STEPS
      ensures AtGrid(Evaluator(d, c), BoundsOf(c), i, j).feasible <==> GridMeets(d, c, i, j)
    {
      FeasibleExactly(d, c, GridP(BoundsOf(c), i), Recovery(GridR(BoundsOf(c), j)));
    }
    if r.Best? { FeasibleExactly(d, c, r.p, Recovery(r.r)); }
  }

  /** No point at or below the feed's own osmotic pressure meets the constraints, so none is returned. */
  lemma NoneBelowOsmotic(d: Design, c: Limits, p: real, y: real)
    requires Usable(d) && d.plant.area > 0.0 && d.plant.drop >= 0.0 && 0.001 <= y <= 0.95
    requires Osmotic(d.plant.tds, d.temperature) >= 0.00001 && p <= Osmotic(d.plant.tds, d.temperature)
    ensures !Meets(d, c, p, y)
  {
    hide Osmotic;
    var pi, wall := Osmotic(d.plant.tds, d.temperature), 0.5 * (1.0 + 1.0 / (1.0 - y)) * 1.10;
    assert 1.0 / (1.0 - y) >= 1.0;
    NonNegative(pi, wall - 1.1);
    assert pi * wall == pi * 1.1 + pi * (wall - 1.1);
    Positive(d.plant.flow, y);
    var flux := d.plant.flow * y * 1000.0 / d.plant.area;
    assert flux > 0.0 by { Undivide(d.plant.flow * y * 1000.0, d.plant.area); ScaleOrder(flux, 0.0, d.plant.area); }
    if d.plant.a > 0.0 {
      NonNegative(d.plant.a, -(p - d.plant.drop / 2.0 - pi * wall + 0.000001));
    }
  }

  // ---- without energy recovery ---------------------------------------------------------------------

  /** Without a recovery device and with a lossless pump the energy is p / (36 r). */
  lemma PlainEnergy(d: Design, p: real, recovery: real)
    requires Usable(d) && !d.plant.useErd && d.plant.pumpEfficiency == 1.0 && p >= 0.0 && recovery > 0.0
    ensures Energy(d, p, recovery) * recovery * 36.0 == p
  {
    var f := d.plant.flow;
    Positive(f, recovery);
    NonNegative(f, p);
    var plant := d.plant.(pressure := p);
    assert RO.NetPower(plant, recovery) == f * p;
    assert RO.SpecificEnergy(plant, recovery).value == RO.PerCubicMetre(f * p, 36.0, f * recovery);
    PerPermeate(f, p, recovery);
  }

  lemma PerPermeate(f: real, p: real, r: real)
    requires f > 0.0 && r > 0.0 && f * r != 0.0
    ensures f * p / 36.0 / (f * r) * r * 36.0 == p
  {
    var e := f * p / 36.0 / (f * r);
    Product(e, f * p / 36.0, f * r);
    assert f * (e * r * 36.0) == f * p by { assert e * (f * r) * 36.0 == f * (e * r * 36.0); }
    Cancel(f, e * r * 36.0, p);
  }

  /** The exact energy is the least at the lowest pressure and the highest recovery. */
  lemma PlainEnergyOrder(d: Design, p: real, r: real, q: real, s: real)
    requires Usable(d) && !d.plant.useErd && d.plant.pumpEfficiency == 1.0 && 0.0 <= p <= q && 0.0 < s <= r
    ensures Energy(d, p, r) <= Energy(d, q, s)
    ensures p < q && r == s ==> Energy(d, p, r) < Energy(d, q, s)
  {
    PlainEnergy(d, p, r);
    PlainEnergy(d, q, s);
    QuotientOrder(Energy(d, p, r), Energy(d, q, s), p, q, r, s);
  }

  lemma QuotientOrder(e: real, f: real, p: real, q: real, r: real, s: real)
    requires e * r * 36.0 == p && f * s * 36.0 == q && 0.0 <= p <= q && 0.0 < s <= r
    ensures e <= f && (p < q && r == s ==> e < f)
  {
    ScaleOrder(0.0, f, s);
    NonNegative(f, r - s);
    assert f * r == f * s + f * (r - s);
    ScaleOrder(e, f, r);
    if r == s { ScaleOrder(f, e, r); }
  }

  /** A brackish plant without recovery device, and no limits set. */
  const BRACKISH := Design(RO.Plant(500.0, 2000.0, 0.0, 16000.0, 3.0, 0.15, 1.0, 0.95, false, 0.0, 200), 25.0, 5.0, 0.8, 3.0)
  const UNLIMITED := Limits(None, None, None, None, None, None, None, None, None, None)

  lemma BrackishFeasible(p: real)
    requires p >= 30.0
    ensures Feasible(BRACKISH, UNLIMITED, p, 0.55)
  {
    assert Flux(BRACKISH, 0.55) == 17.1875;
    assert MeanConcentration(0.55) <= 1.62;
    assert 0.0 <= Osmotic(2000.0, 25.0) <= 2.0;
    LessThan(Osmotic(2000.0, 25.0), MeanConcentration(0.55));
    assert Available(BRACKISH, p, 0.55) >= 20.0;
  }

  lemma LessThan(x: real, y: real)
    requires 0.0 <= x <= 2.0 && 0.0 <= y <= 1.62
    ensures x * y * RO.BETA <= 4.0
  {
    NonNegative(2.0 - x, y);
    assert (2.0 - x) * y == 2.0 * y - x * y;
  }

  /** The search can return an answer that needs more exact energy than a feasible grid point: the two
      energies tie once rounded. */
  lemma TieTakesTheWorse()
    ensures
      var evaluate, b, offer := Evaluator(BRACKISH, UNLIMITED), BoundsOf(UNLIMITED), (30.00001, 0.55);
      && Within(b, offer.0, offer.1) && Taken(evaluate, b, offer)
      && AtGrid(evaluate, b, 0, 25).feasible
      && AtGrid(evaluate, b, 0, 25).exact < evaluate(offer.0, offer.1).exact
  {
    hide Binding, Feasible, Energy, Round5;
    var evaluate, b := Evaluator(BRACKISH, UNLIMITED), BoundsOf(UNLIMITED);
    var best, offered := AtGrid(evaluate, b, 0, 25), evaluate(30.00001, 0.55);
    assert GridP(b, 0) == 30.0 && GridR(b, 25) == 0.55;
    BrackishFeasible(30.0);
    BrackishFeasible(30.00001);
    PlainEnergyOrder(BRACKISH, 30.0, 0.55, 30.00001, 0.55);
    PlainEnergy(BRACKISH, 30.0, 0.55);
    PlainEnergy(BRACKISH, 30.00001, 0.55);
    Tie(best.exact, offered.exact);
    forall i: nat, j: nat | i <= STEPS && j <= STEPS ensures Sec(offered) <= Sec(AtGrid(evaluate, b, i, j)) {
      GridWithin(b, i, j);
      PlainEnergyOrder(BRACKISH, 30.0, 0.55, GridP(b, i), Recovery(GridR(b, j)));
      SecMonotone(best, AtGrid(evaluate, b, i, j));
    }
  }

  lemma Tie(e: real, f: real)
    requires e * 0.55 * 36.0 == 30.0 && f * 0.55 * 36.0 == 30.00001
    ensures Round5(e) == Round5(f)
  {
    assert RoundInt(e * 100000.0) == 151515 && RoundInt(f * 100000.0) == 151515;
  }
}
