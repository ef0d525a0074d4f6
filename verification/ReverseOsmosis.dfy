/** The segment-marching membrane solve and the energy bound on its result. */
module ReverseOsmosis {
  import opened Reals
  import opened Options

  const BETA := 1.10

  /** The request, with the ranges its contract enforces. The osmotic relation is a parameter. */
  datatype Plant = Plant(flow: real, tds: real, pressure: real, area: real, a: real, b: real,
    pumpEfficiency: real, erdEfficiency: real, useErd: bool, drop: real, segments: nat)

  predicate InRange(p: Plant) {
    && p.flow > 0.0 && p.tds > 0.0 && p.area > 0.0 && p.a > 0.0 && p.b > 0.0
    && 0.0 < p.pumpEfficiency <= 1.0 && 0.0 <= p.erdEfficiency <= 1.0 && p.drop >= 0.0 && p.segments > 0
  }

  /** Local feed flow, its salt throughput and pressure, and what has passed the membrane so far. */
  datatype State = State(q: real, salt: real, pressure: real, permeateFlow: real, permeateSalt: real)

  function FeedSalt(p: Plant): real { p.tds / 1000.0 * p.flow }

  function Inlet(p: Plant): State { State(p.flow, FeedSalt(p), p.pressure, 0.0, 0.0) }

  function SegmentArea(p: Plant): real
    requires p.segments > 0
  {
    p.area / p.segments as real
  }

  predicate Dry(s: State) { s.q <= 0.000000001 }

  function Wall(s: State): real
    requires !Dry(s)
  {
    s.salt / s.q * BETA
  }

  function NetDriving(osmotic: real -> real, pressure: real, wall: real): real {
    Max(pressure - osmotic(wall * 1000.0), 0.0)
  }

  function Flux(a: real, ndp: real, dArea: real, q: real): real { Min(a * ndp * dArea / 1000.0, q) }

  function Passed(b: real, wall: real, dArea: real): real { b * wall * dArea / 1000.0 }

  function WaterDrawn(p: Plant, osmotic: real -> real, s: State): real
    requires p.segments > 0 && !Dry(s)
  {
    Flux(p.a, NetDriving(osmotic, s.pressure, Wall(s)), SegmentArea(p), s.q)
  }

  function SaltPassed(p: Plant, s: State): real
    requires p.segments > 0 && !Dry(s)
  {
    Passed(p.b, Wall(s), SegmentArea(p))
  }

  function Segment(p: Plant, osmotic: real -> real, s: State): State
    requires p.segments > 0 && !Dry(s)
  {
    var water, salt := WaterDrawn(p, osmotic, s), SaltPassed(p, s);
    State(s.q - water, Max(s.salt - salt, 0.0), s.pressure - p.drop / p.segments as real,
      s.permeateFlow + water, s.permeateSalt + salt)
  }

  /** After n segments; the march stops where the channel has run dry. */
  function March(p: Plant, osmotic: real -> real, n: nat): State
    requires p.segments > 0
  {
    if n == 0 then Inlet(p)
    else
      var s := March(p, osmotic, n - 1);
      if Dry(s) then s else Segment(p, osmotic, s)
  }

  /** The solve's own loop: once dry it leaves. */
  method Solve(p: Plant, osmotic: real -> real) returns (s: State)
    requires p.segments > 0
    ensures s == March(p, osmotic, p.segments)
  {
    hide March, Segment;
    var dArea := p.area / p.segments as real;
    NotYet(p, osmotic);
    var q, salt, pressure, permeateFlow, permeateSalt := p.flow, p.tds / 1000.0 * p.flow, p.pressure, 0.0, 0.0;
    for n := 0 to p.segments
      invariant State(q, salt, pressure, permeateFlow, permeateSalt) == March(p, osmotic, n)
    {
      if q <= 0.000000001 {
        StaysDry(p, osmotic, n, p.segments);
        return State(q, salt, pressure, permeateFlow, permeateSalt);
      }
      ghost var s0 := State(q, salt, pressure, permeateFlow, permeateSalt);
      Onwards(p, osmotic, n);
      var wall := salt / q * BETA;
      var ndp := Max(pressure - osmotic(wall * 1000.0), 0.0);
      var water := Min(p.a * ndp * dArea / 1000.0, q);
      var passed := p.b * wall * dArea / 1000.0;
      assert wall == Wall(s0) && ndp == NetDriving(osmotic, pressure, wall);
      assert water == Flux(p.a, ndp, dArea, q) && passed == Passed(p.b, wall, dArea);
      SegmentIs(p, osmotic, s0);
      hide Wall, NetDriving, Flux, Passed;
      permeateFlow := permeateFlow + water;
      permeateSalt := permeateSalt + passed;
      q := q - water;
      salt := Max(salt - passed, 0.0);
      pressure := pressure - p.drop / p.segments as real;
    }
    s := State(q, salt, pressure, permeateFlow, permeateSalt);
  }

  lemma SegmentIs(p: Plant, osmotic: real -> real, s: State)
    requires p.segments > 0 && !Dry(s)
    ensures
      var water := Flux(p.a, NetDriving(osmotic, s.pressure, Wall(s)), SegmentArea(p), s.q);
      var passed := Passed(p.b, Wall(s), SegmentArea(p));
      Segment(p, osmotic, s) == State(s.q - water, Max(s.salt - passed, 0.0), s.pressure - p.drop / p.segments as real,
        s.permeateFlow + water, s.permeateSalt + passed)
  {}

  lemma NotYet(p: Plant, osmotic: real -> real)
    requires p.segments > 0
    ensures March(p, osmotic, 0) == Inlet(p)
  {}

  lemma Onwards(p: Plant, osmotic: real -> real, n: nat)
    requires p.segments > 0 && !Dry(March(p, osmotic, n))
    ensures March(p, osmotic, n + 1) == Segment(p, osmotic, March(p, osmotic, n))
  {}

  lemma {:induction false} StaysDry(p: Plant, osmotic: real -> real, k: nat, n: nat)
    requires p.segments > 0 && k <= n && Dry(March(p, osmotic, k))
    ensures March(p, osmotic, n) == March(p, osmotic, k)
    decreases n
  {
    if k < n { StaysDry(p, osmotic, k, n - 1); }
  }

  // ---- conservation -------------------------------------------------------------------------------

  /** The channel flow at and below which one segment would pass more salt than there is. */
  function LeakFlow(p: Plant): real
    requires p.segments > 0
  {
    p.b * BETA * SegmentArea(p) / 1000.0
  }

  lemma AreaPositive(p: Plant)
    requires InRange(p)
    ensures SegmentArea(p) > 0.0
  {}

  lemma WaterBounds(p: Plant, osmotic: real -> real, s: State)
    requires InRange(p) && !Dry(s)
    ensures 0.0 <= WaterDrawn(p, osmotic, s) <= s.q
  {
    var ndp := NetDriving(osmotic, s.pressure, Wall(s));
    AreaPositive(p);
    NonNegative(p.a, ndp);
    NonNegative(p.a * ndp, SegmentArea(p));
  }

  /** A segment passes the fraction leak flow / channel flow of the salt that enters it. */
  lemma SaltFraction(p: Plant, s: State)
    requires InRange(p) && !Dry(s)
    ensures SaltPassed(p, s) * s.q == s.salt * LeakFlow(p)
  {
    var c := s.salt / s.q;
    assert c * s.q == s.salt;
    Regroup(p.b, c, BETA, SegmentArea(p), s.q);
  }

  lemma Regroup(b: real, c: real, beta: real, area: real, q: real)
    ensures b * (c * beta) * area / 1000.0 * q == c * q * (b * beta * area / 1000.0)
  {
    assert b * (c * beta) * area == c * (b * beta * area) by {
      assert b * (c * beta) == c * (b * beta);
    }
    var k := b * beta * area;
    assert c * k / 1000.0 == c * (k / 1000.0);
    assert c * (k / 1000.0) * q == c * q * (k / 1000.0);
  }

  /** Whether the segment is asked for more salt than enters it. */
  predicate Starved(p: Plant, s: State)
    requires p.segments > 0
  {
    !Dry(s) && s.salt > 0.0 && s.q < LeakFlow(p)
  }

  lemma SaltStep(p: Plant, s: State)
    requires InRange(p) && !Dry(s) && s.salt >= 0.0
    ensures SaltPassed(p, s) >= 0.0
    ensures SaltPassed(p, s) > s.salt <==> Starved(p, s)
  {
    SaltFraction(p, s);
    AreaPositive(p);
    NonNegative(p.b * BETA, SegmentArea(p));
    NonNegative(s.salt, LeakFlow(p));
    Compare(SaltPassed(p, s), s.q, s.salt, LeakFlow(p));
  }

  lemma Compare(x: real, q: real, salt: real, leak: real)
    requires x * q == salt * leak && q > 0.0 && salt >= 0.0 && leak >= 0.0
    ensures x >= 0.0
    ensures x > salt <==> salt > 0.0 && q < leak
  {
    NonNegative(salt, leak);
    ScaleOrder(0.0, x, q);
    ScaleOrder(x, salt, q);
    if salt > 0.0 { ScaleOrder(leak, q, salt); }
  }

  /** Water is conserved exactly; salt is never lost, and none is invented until a segment is starved. */
  lemma {:induction false} Conserved(p: Plant, osmotic: real -> real, n: nat)
    requires InRange(p)
    ensures var s := March(p, osmotic, n);
      && 0.0 <= s.q && 0.0 <= s.permeateFlow && s.q + s.permeateFlow == p.flow
      && 0.0 <= s.salt && 0.0 <= s.permeateSalt && s.salt + s.permeateSalt >= FeedSalt(p)
      && (s.salt + s.permeateSalt == FeedSalt(p) <==> forall k :: 0 <= k < n ==> !Starved(p, March(p, osmotic, k)))
  {
    if n == 0 {
      NonNegative(p.tds / 1000.0, p.flow);
    } else {
      Conserved(p, osmotic, n - 1);
      var s := March(p, osmotic, n - 1);
      if !Dry(s) {
        WaterBounds(p, osmotic, s);
        SaltStep(p, s);
        var s' := March(p, osmotic, n);
        assert s'.salt + s'.permeateSalt == s.salt + s.permeateSalt <==> !Starved(p, s);
      }
    }
  }

  /** The channel flow only falls along the march. */
  lemma {:induction false} FlowFalls(p: Plant, osmotic: real -> real, k: nat, n: nat)
    requires InRange(p) && k <= n
    ensures March(p, osmotic, n).q <= March(p, osmotic, k).q
    decreases n
  {
    if k < n {
      FlowFalls(p, osmotic, k, n - 1);
      if !Dry(March(p, osmotic, n - 1)) { WaterBounds(p, osmotic, March(p, osmotic, n - 1)); }
    }
  }

  // ---- the report -----------------------------------------------------------------------------------

  /** What the pump does less what the device recovers from the concentrate, in m3/h * bar. */
  function NetPower(p: Plant, recovery: real): real {
    var concentrate := p.flow * (1.0 - recovery);
    var back := if p.useErd then p.erdEfficiency * concentrate * Max(p.pressure - p.drop, 0.0) else 0.0;
    Max(p.flow * p.pressure - back, 0.0)
  }

  function PerCubicMetre(power: real, scale: real, permeate: real): real
    requires scale != 0.0 && permeate != 0.0
  {
    power / scale / permeate
  }

  /** Some of a value in kWh/m3, or None where it is infinite. */
  function SpecificEnergy(p: Plant, recovery: real): Option<real>
    requires p.flow * recovery != 0.0 || recovery <= 0.0
    requires p.pumpEfficiency != 0.0
  {
    if recovery <= 0.0 then None
    else Some(PerCubicMetre(NetPower(p, recovery), 36.0 * p.pumpEfficiency, p.flow * recovery))
  }

  datatype Report = Report(recovery: real, permeateFlow: real, concentrateFlow: real, permeateTds: real,
    concentrateTds: real, rejection: real, energy: Option<real>)

  function Reported(p: Plant, s: State): Report
    requires InRange(p)
  {
    var recovery := s.permeateFlow / p.flow;
    var concentrate := p.flow - s.permeateFlow;
    var raw := if s.permeateFlow > 0.000000001 then s.permeateSalt / s.permeateFlow * 1000.0 else p.tds;
    var permeateTds := Min(raw, p.tds);
    var concentrateTds := if concentrate > 0.000000001 then s.salt / concentrate * 1000.0 else p.tds;
    Undo(s.permeateFlow, p.flow);
    Report(recovery, s.permeateFlow, concentrate, permeateTds, concentrateTds, 1.0 - permeateTds / p.tds,
      SpecificEnergy(p, recovery))
  }

  lemma Undo(x: real, y: real)
    requires y != 0.0
    ensures x / y * y == x
    ensures y * (x / y) != 0.0 || x / y <= 0.0
  {
    assert y * (x / y) == x;
  }

  function Run(p: Plant, osmotic: real -> real): Report
    requires InRange(p)
  {
    Reported(p, March(p, osmotic, p.segments))
  }

  lemma Fractions(x: real, y: real)
    requires 0.0 <= x <= y && y > 0.0
    ensures 0.0 <= x / y <= 1.0
    ensures x > 0.0 ==> x / y > 0.0
  {}

  /** Every report is physical: recovery and rejection are fractions, and no concentration is negative. */
  lemma ReportIsPhysical(p: Plant, osmotic: real -> real)
    requires InRange(p)
    ensures var r := Run(p, osmotic);
      && 0.0 <= r.recovery <= 1.0 && r.permeateFlow + r.concentrateFlow == p.flow
      && r.permeateFlow >= 0.0 && r.concentrateFlow >= 0.0
      && 0.0 <= r.permeateTds <= p.tds && r.concentrateTds >= 0.0 && 0.0 <= r.rejection <= 1.0
      && (r.energy.None? <==> r.permeateFlow == 0.0)
  {
    hide SpecificEnergy, March;
    Conserved(p, osmotic, p.segments);
    var s := March(p, osmotic, p.segments);
    Fractions(s.permeateFlow, p.flow);
    if s.permeateFlow > 0.000000001 { Quotient(s.permeateSalt, s.permeateFlow); }
    if p.flow - s.permeateFlow > 0.000000001 { Quotient(s.salt, p.flow - s.permeateFlow); }
    Fractions(Run(p, osmotic).permeateTds, p.tds);
    EnergyKind(p, Run(p, osmotic).recovery);
  }

  lemma Quotient(x: real, y: real)
    requires x >= 0.0 && y > 0.0
    ensures x / y >= 0.0
  {}

  lemma EnergyKind(p: Plant, recovery: real)
    requires InRange(p) && (p.flow * recovery != 0.0 || recovery <= 0.0)
    ensures SpecificEnergy(p, recovery).None? <==> recovery <= 0.0
  {}

  /** Where the channel still carries the leak flow at its end, no salt was invented anywhere. */
  lemma NeverStarved(p: Plant, osmotic: real -> real)
    requires InRange(p) && March(p, osmotic, p.segments).q >= LeakFlow(p)
    ensures var s := March(p, osmotic, p.segments); s.salt + s.permeateSalt == FeedSalt(p)
  {
    Conserved(p, osmotic, p.segments);
    forall k | 0 <= k < p.segments ensures !Starved(p, March(p, osmotic, k)) {
      FlowFalls(p, osmotic, k, p.segments);
    }
  }

  /** Once a segment is starved the channel carries no salt any more. */
  lemma {:induction false} StarvedIsBare(p: Plant, osmotic: real -> real, k: nat, n: nat)
    requires InRange(p) && k < n && Starved(p, March(p, osmotic, k))
    ensures March(p, osmotic, n).salt == 0.0
    decreases n
  {
    var s := March(p, osmotic, n - 1);
    Conserved(p, osmotic, n - 1);
    if k < n - 1 { StarvedIsBare(p, osmotic, k, n - 1); }
    if !Dry(s) { SaltStep(p, s); }
  }

  lemma StarvedIsCapped(p: Plant, osmotic: real -> real, k: nat, n: nat)
    requires InRange(p) && k < n && Starved(p, March(p, osmotic, k))
    ensures March(p, osmotic, n).salt == 0.0 && March(p, osmotic, n).permeateSalt > FeedSalt(p)
  {
    hide March, Starved, FeedSalt;
    StarvedIsBare(p, osmotic, k, n);
    Conserved(p, osmotic, n);
  }

  /** With both streams flowing, the salt they are reported to carry is never more than the feed's, and
      it is the feed's exactly when the permeate was not capped at the feed concentration. A starved
      segment makes the cap bind. */
  lemma ReportedSalt(p: Plant, osmotic: real -> real)
    requires InRange(p)
    requires var s := March(p, osmotic, p.segments); s.permeateFlow > 0.000000001 && s.q > 0.000000001
    ensures var r, s := Run(p, osmotic), March(p, osmotic, p.segments);
      var carried := r.permeateFlow * r.permeateTds + r.concentrateFlow * r.concentrateTds;
      && carried <= p.flow * p.tds
      && (carried == p.flow * p.tds <==> s.permeateSalt * 1000.0 <= s.permeateFlow * p.tds)
      && ((exists k :: 0 <= k < p.segments && Starved(p, March(p, osmotic, k))) ==> carried < p.flow * p.tds)
  {
    hide March, SpecificEnergy, FeedSalt, Starved;
    Conserved(p, osmotic, p.segments);
    var s := March(p, osmotic, p.segments);
    var r := Run(p, osmotic);
    Capped(s.permeateFlow, s.permeateSalt, p.tds);
    Carried(s.q, s.salt);
    FeedCarries(p);
    assert r.concentrateFlow == s.q && r.concentrateFlow * r.concentrateTds == s.salt * 1000.0;
    if k: nat :| k < p.segments && Starved(p, March(p, osmotic, k)) {
      StarvedIsCapped(p, osmotic, k, p.segments);
      ScaleOrder(p.flow, s.permeateFlow, p.tds);
    }
  }

  lemma FeedCarries(p: Plant)
    ensures FeedSalt(p) * 1000.0 == p.flow * p.tds
  {}

  lemma Carried(q: real, salt: real)
    requires q > 0.0
    ensures q * (salt / q * 1000.0) == salt * 1000.0
  {
    assert salt / q * q == salt;
    assert q * (salt / q * 1000.0) == salt / q * q * 1000.0;
  }

  lemma Capped(q: real, salt: real, tds: real)
    requires q > 0.0
    ensures q * Min(salt / q * 1000.0, tds) <= salt * 1000.0
    ensures q * Min(salt / q * 1000.0, tds) == salt * 1000.0 <==> salt * 1000.0 <= q * tds
  {
    Carried(q, salt);
    ScaleOrder(salt / q * 1000.0, tds, q);
  }

  /** Energy per m3 at zero losses. */
  function FloorEnergy(p: Plant): real
    requires p.pumpEfficiency > 0.0
  {
    p.pressure / (36.0 * p.pumpEfficiency)
  }

  /** The pressure the recovery device gives back to each m3 of concentrate. */
  function Returned(p: Plant): real { (if p.useErd then p.erdEfficiency else 0.0) * Max(p.pressure - p.drop, 0.0) }

  function Net(p: Plant, recovery: real): real { p.flow * p.pressure - Returned(p) * (p.flow * (1.0 - recovery)) }

  predicate Lossless(p: Plant) { p.pressure == 0.0 || (p.useErd && p.erdEfficiency == 1.0 && p.drop == 0.0) }

  /** No recovery device can bring the energy per m3 below pressure / (36 * pump efficiency); that floor
      is met only with full recovery, no pressure, or a lossless device and channel. */
  lemma EnergyFloor(p: Plant, osmotic: real -> real)
    requires InRange(p) && p.pressure >= 0.0
    ensures var r := Run(p, osmotic);
      r.energy.Some? ==>
        && r.energy.value >= FloorEnergy(p)
        && (r.energy.value == FloorEnergy(p) <==> r.recovery == 1.0 || Lossless(p))
  {
    ReportIsPhysical(p, osmotic);
    EnergyOf(p, osmotic);
    hide March, Run, SpecificEnergy, FloorEnergy, Lossless;
    var r := Run(p, osmotic);
    if r.energy.Some? { FloorAt(p, r.recovery); }
  }

  lemma EnergyOf(p: Plant, osmotic: real -> real)
    requires InRange(p)
    ensures var r := Run(p, osmotic);
      && (p.flow * r.recovery != 0.0 || r.recovery <= 0.0)
      && r.energy == SpecificEnergy(p, r.recovery)
      && (r.energy.Some? ==> r.recovery > 0.0)
  {
    hide March, SpecificEnergy;
    Undo(March(p, osmotic, p.segments).permeateFlow, p.flow);
    EnergyKind(p, Run(p, osmotic).recovery);
  }

  lemma FloorAt(p: Plant, recovery: real)
    requires InRange(p) && p.pressure >= 0.0 && 0.0 < recovery <= 1.0 && p.flow * recovery != 0.0
    ensures SpecificEnergy(p, recovery).Some?
    ensures SpecificEnergy(p, recovery).value >= FloorEnergy(p)
    ensures SpecificEnergy(p, recovery).value == FloorEnergy(p) <==> recovery == 1.0 || Lossless(p)
  {
    ReturnedBounds(p);
    NetAtLeast(p, recovery);
    EnergyAs(p, recovery);
    hide Net, Returned, Lossless, SpecificEnergy;
    Positive(p.flow, recovery);
    Divided(Net(p, recovery), p.pressure, 36.0 * p.pumpEfficiency, p.flow * recovery);
  }

  lemma ReturnedBounds(p: Plant)
    requires InRange(p) && p.pressure >= 0.0
    ensures 0.0 <= Returned(p) <= p.pressure
    ensures Returned(p) == p.pressure <==> Lossless(p)
  {
    Kept(if p.useErd then p.erdEfficiency else 0.0, Max(p.pressure - p.drop, 0.0), p.pressure);
  }

  lemma Kept(e: real, kept: real, pressure: real)
    requires 0.0 <= e <= 1.0 && 0.0 <= kept <= pressure
    ensures 0.0 <= e * kept <= pressure
    ensures e * kept == pressure <==> pressure == 0.0 || (e == 1.0 && kept == pressure)
  {
    NonNegative(e, kept);
    NonNegative(1.0 - e, kept);
    assert (1.0 - e) * kept == kept - e * kept;
    if e < 1.0 && kept > 0.0 { Positive(1.0 - e, kept); }
  }

  lemma NetAtLeast(p: Plant, recovery: real)
    requires InRange(p) && 0.0 < recovery <= 1.0 && 0.0 <= Returned(p) <= p.pressure
    ensures Net(p, recovery) >= 0.0
    ensures Net(p, recovery) >= p.pressure * (p.flow * recovery)
    ensures Net(p, recovery) == p.pressure * (p.flow * recovery) <==> recovery == 1.0 || Returned(p) == p.pressure
  {
    hide Returned;
    NetOver(p.flow, p.pressure, Returned(p), recovery);
  }

  lemma NetOver(flow: real, pressure: real, returned: real, recovery: real)
    requires flow > 0.0 && 0.0 <= returned <= pressure && 0.0 < recovery <= 1.0
    ensures var net, least := flow * pressure - returned * (flow * (1.0 - recovery)), pressure * (flow * recovery);
      net >= least >= 0.0 && (net == least <==> recovery == 1.0 || returned == pressure)
  {
    var c := flow * (1.0 - recovery);
    NonNegative(flow, 1.0 - recovery);
    NonNegative(flow, recovery);
    NonNegative(pressure, flow * recovery);
    NonNegative(pressure - returned, c);
    if recovery < 1.0 { Positive(flow, 1.0 - recovery); }
    if recovery < 1.0 && returned < pressure { Positive(pressure - returned, c); }
    assert flow * pressure == c * pressure + flow * recovery * pressure by {
      assert flow == c + flow * recovery;
    }
    assert flow * pressure - returned * c == (pressure - returned) * c + pressure * (flow * recovery);
  }

  lemma EnergyAs(p: Plant, recovery: real)
    requires InRange(p) && 0.0 < recovery && p.flow * recovery != 0.0 && Net(p, recovery) >= 0.0
    ensures SpecificEnergy(p, recovery) == Some(PerCubicMetre(Net(p, recovery), 36.0 * p.pumpEfficiency, p.flow * recovery))
  {
    Swap(p.erdEfficiency, p.flow * (1.0 - recovery), Max(p.pressure - p.drop, 0.0));
    assert NetPower(p, recovery) == Net(p, recovery);
    hide NetPower, Net, PerCubicMetre;
    var scale, made := 36.0 * p.pumpEfficiency, p.flow * recovery;
    assert SpecificEnergy(p, recovery).Some?;
    assert SpecificEnergy(p, recovery).value == PerCubicMetre(NetPower(p, recovery), scale, made);
    assert PerCubicMetre(NetPower(p, recovery), scale, made) == PerCubicMetre(Net(p, recovery), scale, made);
  }

  lemma Swap(e: real, c: real, m: real)
    ensures e * c * m == e * m * c
  {}

  lemma Divided(net: real, pressure: real, scale: real, d: real)
    requires scale > 0.0 && d > 0.0
    ensures net / scale / d >= pressure / scale <==> net >= pressure * d
    ensures net / scale / d == pressure / scale <==> net == pressure * d
  {
    Positive(scale, d);
    var x, y := net / scale / d, pressure / scale;
    assert x * d == net / scale && net / scale * scale == net && y * scale == pressure;
    assert x * (scale * d) == x * d * scale && y * (scale * d) == y * scale * d;
    ScaleOrder(x, y, scale * d);
    ScaleOrder(y, x, scale * d);
  }

  /** The energy of a permeate flow, at the pump's efficiency, is what the feed carries less what the device
      takes from the concentrate. */
  lemma EnergyIs(p: Plant, recovery: real)
    requires InRange(p) && p.pressure >= 0.0 && 0.0 < recovery <= 1.0 && p.flow * recovery != 0.0
    ensures SpecificEnergy(p, recovery).Some?
    ensures Times(Times(SpecificEnergy(p, recovery).value, p.flow * recovery), 36.0 * p.pumpEfficiency) ==
      p.flow * p.pressure - (if p.useErd then p.erdEfficiency else 0.0) * Max(p.pressure - p.drop, 0.0) * (p.flow * (1.0 - recovery))
  {
    ReturnedBounds(p);
    NetAtLeast(p, recovery);
    EnergyAs(p, recovery);
    hide SpecificEnergy, NetPower;
    Unmade(Net(p, recovery), 36.0 * p.pumpEfficiency, p.flow * recovery);
  }

  lemma Unmade(net: real, scale: real, made: real)
    requires scale != 0.0 && made != 0.0
    ensures Times(Times(PerCubicMetre(net, scale, made), made), scale) == net
  {
    Undivide(net / scale, made);
    Undivide(net, scale);
  }

  /** The report in its own terms: the permeate carries the salt that passed, or its share of the feed's if
      that is less; the concentrate carries what is left; rejection is the share of the feed's
      concentration kept back; a stream that does not flow is given the feed's. */
  lemma ReportIs(p: Plant, osmotic: real -> real)
    requires InRange(p)
    ensures var r, s := Run(p, osmotic), March(p, osmotic, p.segments);
      && r.permeateFlow == s.permeateFlow && r.concentrateFlow == p.flow - s.permeateFlow
      && Times(r.recovery, p.flow) == s.permeateFlow
      && (s.permeateFlow > 0.000000001 ==> Times(s.permeateFlow, r.permeateTds) == Min(s.permeateSalt * 1000.0, Times(s.permeateFlow, p.tds)))
      && (s.permeateFlow <= 0.000000001 ==> r.permeateTds == p.tds)
      && (r.concentrateFlow > 0.000000001 ==> Times(r.concentrateFlow, r.concentrateTds) == s.salt * 1000.0)
      && (r.concentrateFlow <= 0.000000001 ==> r.concentrateTds == p.tds)
      && Times(r.rejection, p.tds) == p.tds - r.permeateTds
  {
    hide March, SpecificEnergy;
    var r, s := Run(p, osmotic), March(p, osmotic, p.segments);
    Undivide(s.permeateFlow, p.flow);
    if s.permeateFlow > 0.000000001 { CappedIs(s.permeateFlow, s.permeateSalt, p.tds); }
    if r.concentrateFlow > 0.000000001 { Carried(r.concentrateFlow, s.salt); }
    KeptBack(r.permeateTds, p.tds);
  }

  lemma CappedIs(q: real, salt: real, tds: real)
    requires q > 0.0
    ensures Times(q, Min(salt / q * 1000.0, tds)) == Min(salt * 1000.0, Times(q, tds))
  {
    Carried(q, salt);
    ScaleOrder(salt / q * 1000.0, tds, q);
    ScaleOrder(tds, salt / q * 1000.0, q);
  }

  lemma KeptBack(part: real, whole: real)
    requires whole != 0.0
    ensures Times(1.0 - part / whole, whole) == whole - part
  {
    Undivide(part, whole);
  }
}
