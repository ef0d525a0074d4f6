/** What drives the membrane: the water each segment draws, when any is drawn at all, and how the recovery
    answers pressure and permeability. */
module MembranePhysics {
  import opened Reals
  import opened ReverseOsmosis

  // ---- one segment ---------------------------------------------------------------------------------

  /** The feed pressure that reaches segment k. */
  function PressureLeft(p: Plant, k: nat): real
    requires p.segments > 0
  {
    p.pressure - k as real * (p.drop / p.segments as real)
  }

  lemma {:induction false} PressureAt(p: Plant, osmotic: real -> real, k: nat)
    requires p.segments > 0 && (k > 0 ==> !Dry(March(p, osmotic, k - 1)))
    ensures March(p, osmotic, k).pressure == PressureLeft(p, k)
  {
    hide March, Segment, PressureLeft;
    if k == 0 {
      NotYet(p, osmotic);
      PressureSteps(p, 0);
    } else {
      if k > 1 { NotDryBefore(p, osmotic, k - 2); }
      PressureAt(p, osmotic, k - 1);
      Onwards(p, osmotic, k - 1);
      SegmentIs(p, osmotic, March(p, osmotic, k - 1));
      PressureSteps(p, k - 1);
    }
  }

  lemma PressureSteps(p: Plant, k: nat)
    requires p.segments > 0
    ensures PressureLeft(p, 0) == p.pressure
    ensures PressureLeft(p, k + 1) == PressureLeft(p, k) - p.drop / p.segments as real
  {
    Spread(k + 1, p.drop / p.segments as real);
  }

  lemma Spread(k: nat, x: real)
    requires k > 0
    ensures k as real * x == (k - 1) as real * x + x
  {}

  lemma NotDryBefore(p: Plant, osmotic: real -> real, k: nat)
    requires p.segments > 0 && !Dry(March(p, osmotic, k + 1))
    ensures !Dry(March(p, osmotic, k))
  {
    hide Segment;
  }

  /** The salt concentration at the wall, 1.10 times the bulk, in g/l. */
  function WallSalt(s: State): real
    requires s.q != 0.0
  {
    s.salt / s.q * 1.10
  }

  /** Water passed at this driving pressure: none below zero, and never more than there is. */
  function Drawn(a: real, driving: real, dArea: real, q: real): real {
    var water := a * (if driving > 0.0 then driving else 0.0) * dArea / 1000.0;
    if water < q then water else q
  }

  /** Salt passed at this wall concentration. */
  function Crossed(b: real, wall: real, dArea: real): real { b * wall * dArea / 1000.0 }

  lemma DrawnIs(osmotic: real -> real, a: real, pressure: real, wall: real, dArea: real, q: real)
    ensures ReverseOsmosis.Flux(a, NetDriving(osmotic, pressure, wall), dArea, q) == Drawn(a, pressure - osmotic(Times(wall, 1000.0)), dArea, q)
  {}

  /** Segment k of a channel that still runs, with an equal share of the area: water passes at the pressure
      the feed still has above the osmotic pressure of the wall, and salt at the wall concentration. */
  lemma SegmentDraws(p: Plant, osmotic: real -> real, k: nat)
    requires p.segments > 0 && !Dry(March(p, osmotic, k))
    ensures
      var s, t := March(p, osmotic, k), March(p, osmotic, k + 1);
      var water := Drawn(p.a, PressureLeft(p, k) - osmotic(Times(WallSalt(s), 1000.0)), SegmentArea(p), s.q);
      var salt := Crossed(p.b, WallSalt(s), SegmentArea(p));
      && t.permeateFlow == s.permeateFlow + water && t.q == s.q - water
      && t.permeateSalt == s.permeateSalt + salt
      && t.salt == (if salt < s.salt then s.salt - salt else 0.0)
  {
    hide March, Segment, PressureLeft, WallSalt, Wall, Drawn, Flux, NetDriving, Passed, Crossed, SegmentArea, Times;
    var s := March(p, osmotic, k);
    if k > 0 { NotDryBefore(p, osmotic, k - 1); }
    PressureAt(p, osmotic, k);
    Onwards(p, osmotic, k);
    SegmentIs(p, osmotic, s);
    WallIs(s);
    DrawnIs(osmotic, p.a, s.pressure, Wall(s), SegmentArea(p), s.q);
    PassedIs(p.b, Wall(s), SegmentArea(p));
  }

  lemma WallIs(s: State)
    requires !Dry(s)
    ensures Wall(s) == WallSalt(s)
  {}

  lemma PassedIs(b: real, wall: real, dArea: real)
    ensures Passed(b, wall, dArea) == Crossed(b, wall, dArea)
  {}

  lemma AreasAddUp(p: Plant)
    requires p.segments > 0
    ensures SegmentArea(p) * p.segments as real == p.area
  {}

  lemma InletIs(p: Plant, osmotic: real -> real)
    requires p.segments > 0
    ensures March(p, osmotic, 0) == State(p.flow, p.tds / 1000.0 * p.flow, p.pressure, 0.0, 0.0)
  {}

  // ---- when permeate is produced -----------------------------------------------------------------------

  /** The share of the salt a segment leaves in a channel at full flow. */
  function Kept(p: Plant): real
    requires p.segments > 0 && p.flow != 0.0
  {
    Max(1.0 - LeakFlow(p) / p.flow, 0.0)
  }

  function Power(x: real, k: nat): real { if k == 0 then 1.0 else Power(x, k - 1) * x }

  /** The wall concentration at segment k when no water has been drawn before it. */
  function UndrawnWall(p: Plant, k: nat): real
    requires p.segments > 0 && p.flow != 0.0
  {
    p.tds / 1000.0 * Power(Kept(p), k) * 1.10
  }

  /** The feed still presses harder than the wall there. */
  predicate Drives(p: Plant, osmotic: real -> real, k: nat)
    requires p.segments > 0 && p.flow != 0.0
  {
    PressureLeft(p, k) > osmotic(Times(UndrawnWall(p, k), 1000.0))
  }

  lemma UndrawnSalt(flow: real, c: real, kept: real, leak: real, b: real, dArea: real)
    requires flow > 0.0 && c >= 0.0 && leak == b * BETA * dArea / 1000.0 && kept == Max(1.0 - leak / flow, 0.0)
    ensures c * flow / flow * 1.10 == c * 1.10
    ensures var salt := Crossed(b, c * 1.10, dArea);
      (if salt < c * flow then c * flow - salt else 0.0) == c * kept * flow
  {
    var x := leak / flow;
    assert x * flow == leak;
    assert Crossed(b, c * 1.10, dArea) == c * leak;
    assert c * (x * flow) == c * x * flow;
    assert c * flow - c * leak == c * (1.0 - x) * flow;
    ScaleOrder(leak, flow, 1.0);
    if x < 1.0 {
      ScaleOrder(1.0, x, flow);
      if c > 0.0 { ScaleOrder(flow, leak, c); }
    } else {
      ScaleOrder(1.0, x, flow);
      NonNegative(c, leak - flow);
    }
  }

  lemma {:induction false} PowerNonNegative(x: real, k: nat)
    requires x >= 0.0
    ensures Power(x, k) >= 0.0
  {
    if k > 0 {
      PowerNonNegative(x, k - 1);
      NonNegative(Power(x, k - 1), x);
    }
  }

  /** The salt concentration of the channel at segment k when no water has been drawn before it. */
  function UndrawnBulk(p: Plant, k: nat): real
    requires p.segments > 0 && p.flow != 0.0
  {
    p.tds / 1000.0 * Power(Kept(p), k)
  }

  lemma BulkSteps(p: Plant, k: nat)
    requires InRange(p)
    ensures UndrawnBulk(p, 0) == p.tds / 1000.0 && UndrawnBulk(p, k) >= 0.0
    ensures UndrawnBulk(p, k + 1) == Times(UndrawnBulk(p, k), Kept(p))
    ensures UndrawnWall(p, k) == UndrawnBulk(p, k) * 1.10
  {
    PowerNonNegative(Kept(p), k);
    NonNegative(p.tds / 1000.0, Power(Kept(p), k));
    Regroup3(p.tds / 1000.0, Power(Kept(p), k), Kept(p));
  }

  lemma Regroup3(x: real, y: real, z: real)
    ensures x * (y * z) == x * y * z
  {}

  /** The channel after k segments that drew nothing. */
  predicate Untouched(p: Plant, s: State, k: nat)
    requires p.segments > 0 && p.flow != 0.0
  {
    s.q == p.flow && s.permeateFlow == 0.0 && s.salt == Times(UndrawnBulk(p, k), p.flow)
  }

  lemma UntouchedWall(p: Plant, s: State, k: nat)
    requires InRange(p) && !Dry(s) && Untouched(p, s, k)
    ensures WallSalt(s) == UndrawnWall(p, k)
    ensures var salt := Crossed(p.b, WallSalt(s), SegmentArea(p));
      (if salt < s.salt then s.salt - salt else 0.0) == Times(UndrawnBulk(p, k + 1), p.flow)
  {
    BulkSteps(p, k);
    UndrawnSalt(p.flow, UndrawnBulk(p, k), Kept(p), LeakFlow(p), p.b, SegmentArea(p));
    hide UndrawnBulk, Kept, LeakFlow, SegmentArea, UndrawnWall;
  }

  lemma {:induction false} StillUndrawn(p: Plant, osmotic: real -> real, k: nat)
    requires InRange(p) && p.flow > 0.000000001 && forall j :: 0 <= j < k ==> !Drives(p, osmotic, j)
    ensures Untouched(p, March(p, osmotic, k), k)
  {
    hide March, UndrawnBulk, UndrawnWall, Kept, PressureLeft, WallSalt, Crossed, SegmentArea, Times;
    if k == 0 {
      InletIs(p, osmotic);
      BulkSteps(p, 0);
      InletSalt(p);
    } else {
      StillUndrawn(p, osmotic, k - 1);
      var s := March(p, osmotic, k - 1);
      SegmentDraws(p, osmotic, k - 1);
      UntouchedWall(p, s, k - 1);
      assert !Drives(p, osmotic, k - 1);
      NothingDrawn(p.a, PressureLeft(p, k - 1) - osmotic(Times(WallSalt(s), 1000.0)), SegmentArea(p), s.q);
    }
  }

  lemma InletSalt(p: Plant)
    requires InRange(p)
    ensures Times(p.tds / 1000.0, p.flow) == p.tds / 1000.0 * p.flow
  {}

  lemma NothingDrawn(a: real, driving: real, dArea: real, q: real)
    requires driving <= 0.0 && q > 0.0
    ensures Drawn(a, driving, dArea, q) == 0.0
  {}

  lemma SomethingDrawn(a: real, driving: real, dArea: real, q: real)
    requires driving > 0.0 && q > 0.0 && a > 0.0 && dArea > 0.0
    ensures Drawn(a, driving, dArea, q) > 0.0
  {
    Positive(a, driving);
    Positive(a * driving, dArea);
  }

  lemma FirstDrawn(p: Plant, osmotic: real -> real, k: nat)
    requires InRange(p) && p.flow > 0.000000001 && Drives(p, osmotic, k)
    requires forall j :: 0 <= j < k ==> !Drives(p, osmotic, j)
    ensures March(p, osmotic, k + 1).permeateFlow > 0.0
  {
    hide March, UndrawnBulk, UndrawnWall, Kept, PressureLeft, WallSalt, Crossed, SegmentArea, Times;
    StillUndrawn(p, osmotic, k);
    var s := March(p, osmotic, k);
    SegmentDraws(p, osmotic, k);
    UntouchedWall(p, s, k);
    AreaPositive(p);
    SomethingDrawn(p.a, PressureLeft(p, k) - osmotic(Times(WallSalt(s), 1000.0)), SegmentArea(p), s.q);
  }

  /** Permeate is produced if and only if at some segment the feed presses harder than the wall would if no
      water had been drawn before: the pressure left there exceeds the osmotic pressure of the feed's own
      salt, less what has leaked through. */
  lemma ProducesExactly(p: Plant, osmotic: real -> real, n: nat)
    requires InRange(p)
    ensures March(p, osmotic, n).permeateFlow > 0.0 <==>
      p.flow > 0.000000001 && exists k :: 0 <= k < n && Drives(p, osmotic, k)
  {
    hide March, Drives;
    if p.flow <= 0.000000001 {
      InletIs(p, osmotic);
      StaysDry(p, osmotic, 0, n);
    } else if k :| 0 <= k < n && Drives(p, osmotic, k) {
      var first := Least(p, osmotic, k);
      FirstDrawn(p, osmotic, first);
      FlowFalls(p, osmotic, first + 1, n);
      Conserved(p, osmotic, first + 1);
      Conserved(p, osmotic, n);
    } else {
      StillUndrawn(p, osmotic, n);
    }
  }

  lemma Least(p: Plant, osmotic: real -> real, k: nat) returns (first: nat)
    requires p.segments > 0 && p.flow != 0.0 && Drives(p, osmotic, k)
    ensures first <= k && Drives(p, osmotic, first) && forall j :: 0 <= j < first ==> !Drives(p, osmotic, j)
  {
    first := 0;
    while !Drives(p, osmotic, first)
      invariant first <= k && forall j :: 0 <= j < first ==> !Drives(p, osmotic, j)
      decreases k - first
    {
      first := first + 1;
    }
  }

  /** A feed that presses harder than its own wall at the inlet always yields permeate. */
  lemma InletDrives(p: Plant, osmotic: real -> real)
    requires InRange(p) && p.flow > 0.000000001
    requires p.pressure > osmotic(p.tds * 1.10)
    ensures Run(p, osmotic).permeateFlow > 0.0
  {
    assert Drives(p, osmotic, 0) by {
      PressureSteps(p, 0);
      assert UndrawnWall(p, 0) == p.tds / 1000.0 * 1.10;
      assert Times(UndrawnWall(p, 0), 1000.0) == p.tds * 1.10;
    }
    ProducesExactly(p, osmotic, p.segments);
  }

  /** The relation the solve uses: osmotic pressure proportional to concentration. */
  function Linear(o: real): real -> real { (x: real) => o * x }

  /** The inlet alone does not decide: with two segments or more and no channel drop, a feed that only just
      fails to press through the inlet's wall still yields permeate, since salt leaks out on the way. */
  lemma LeakStartsPermeate(p: Plant, o: real)
    requires InRange(p) && p.flow > 0.000000001 && p.segments >= 2 && p.drop == 0.0
    requires o > 0.0 && p.pressure == o * (p.tds * 1.10)
    ensures Run(p, Linear(o)).permeateFlow > 0.0
  {
    var osmotic := Linear(o);
    PressureSteps(p, 0);
    AreaPositive(p);
    BulkSteps(p, 0);
    BulkSteps(p, 1);
    KeptBelowOne(p);
    var t := p.tds * 1.10;
    ScaleOrder(Kept(p), 1.0, t);
    ScaleOrder(t * Kept(p), t, o);
    assert UndrawnBulk(p, 1) == p.tds / 1000.0 * Kept(p);
    assert Times(UndrawnWall(p, 1), 1000.0) == t * Kept(p);
    assert osmotic(t * Kept(p)) == o * (t * Kept(p)) < o * t;
    assert Drives(p, osmotic, 1);
    ProducesExactly(p, osmotic, p.segments);
  }

  lemma KeptBelowOne(p: Plant)
    requires InRange(p)
    ensures 0.0 <= Kept(p) < 1.0
  {
    AreaPositive(p);
    Positive(p.b * BETA, SegmentArea(p));
    var x := LeakFlow(p) / p.flow;
    Undivide(LeakFlow(p), p.flow);
    ScaleOrder(x, 0.0, p.flow);
  }

  // ---- how recovery answers pressure and permeability ------------------------------------------------

  /** The same plant at another pressure and permeability. */
  function Driven(p: Plant, pressure: real, a: real): Plant { p.(pressure := pressure, a := a) }

  /** Concentrations of two channels, the second with less water and no more salt. */
  lemma Concentrates(s: real, s': real, q: real, q': real, salt: real, least: real)
    requires 0.0 < least <= q' <= q && 0.0 <= s' <= s <= salt
    ensures (s' / q' - s / q) * (least * least) <= salt * (q - q')
  {
    var x, y := s' / q', s / q;
    Undivide(s', q');
    Undivide(s, q);
    assert x * q' == s' && y * q == s;
    ScaleOrder(0.0, y, q);
    NonNegative(y, q - q');
    assert (x - y) * q' <= y * (q - q') by { assert (x - y) * q' == s' - y * q'; assert y * (q - q') == s - y * q'; }
    NonNegative(y, q - least);
    assert y * least <= salt;
    Scaled(x - y, q', y, q - q', salt, least, least * least);
  }

  lemma Scaled(z: real, q: real, y: real, d: real, salt: real, least: real, square: real)
    requires 0.0 < least <= q && d >= 0.0 && z * q <= y * d && 0.0 <= y * least <= salt && square == least * least
    ensures z * square <= salt * d
  {
    NonNegative(salt - y * least, d);
    assert y * least * d <= salt * d;
    if z >= 0.0 {
      ScaleOrder(z * q, y * d, least);
      assert z * q * least <= salt * d;
      NonNegative(z * least, q - least);
      assert z * least * (q - least) == z * q * least - z * square;
    } else {
      ProductPositive(least, least, square);
      Positive(-z, square);
      assert -z * square == -(z * square);
      NonNegative(salt, d);
    }
  }

  // One segment of two channels: the second at no less pressure and permeability, with no more water and
  // no more salt.

  /** The channel flow left by a draw. */
  function Left(k: real, driving: real, q: real): real {
    Max(q - k * Max(driving, 0.0), 0.0)
  }

  lemma LeftIs(a: real, driving: real, dArea: real, q: real)
    requires q >= 0.0
    ensures q - Drawn(a, driving, dArea, q) == Left(a * dArea / 1000.0, driving, q)
  {
    assert a * Max(driving, 0.0) * dArea / 1000.0 == a * dArea / 1000.0 * Max(driving, 0.0);
  }

  lemma LessLeft(k: real, k': real, pressure: real, pressure': real, osmotic: real, osmotic': real, q: real, q': real)
    requires 0.0 <= k <= k' && pressure <= pressure' && q' <= q
    requires k' * (osmotic' - osmotic) <= q - q'
    ensures Left(k', pressure' - osmotic', q') <= Left(k, pressure - osmotic, q)
  {
    var n, n' := Max(pressure - osmotic, 0.0), Max(pressure' - osmotic', 0.0);
    NonNegative(k' - k, n);
    assert k * n <= k' * n;
    if osmotic' >= osmotic {
      NonNegative(k', n' + (osmotic' - osmotic) - n);
      assert k' * n <= k' * n' + k' * (osmotic' - osmotic);
    } else {
      NonNegative(k', n' - n);
      assert k' * n <= k' * n';
    }
  }

  /** The salt left when the leak flow carries some off. */
  function SaltLeft(leak: real, s: real, q: real): real
    requires q != 0.0
  {
    Max(s - leak * (s / q), 0.0)
  }

  lemma SaltLeftIs(b: real, s: real, q: real, dArea: real, leak: real)
    requires q != 0.0 && leak == b * BETA * dArea / 1000.0
    ensures var salt := Crossed(b, s / q * 1.10, dArea); (if salt < s then s - salt else 0.0) == SaltLeft(leak, s, q)
  {
    assert Crossed(b, s / q * 1.10, dArea) == leak * (s / q);
  }

  lemma LessSaltLeft(leak: real, s: real, s': real, q: real, q': real)
    requires leak >= 0.0 && 0.0 <= s' <= s && 0.0 < q' <= q
    ensures SaltLeft(leak, s', q') <= SaltLeft(leak, s, q) <= s
  {
    var x, y := s' / q', s / q;
    Undivide(s', q');
    Undivide(s, q);
    ScaleOrder(0.0, x, q');
    ScaleOrder(0.0, y, q);
    NonNegative(leak, y);
    assert s - leak * y == y * (q - leak) && s' - leak * x == x * (q' - leak);
    if q' > leak {
      Positive(q, q');
      Steeper(leak, s, s', q, q');
      assert x * (q' - leak) * (q * q') == s' * (q' - leak) * q;
      assert y * (q - leak) * (q * q') == s * (q - leak) * q';
      ScaleOrder(x * (q' - leak), y * (q - leak), q * q');
    } else {
      NonNegative(x, leak - q');
    }
  }

  lemma Steeper(leak: real, s: real, s': real, q: real, q': real)
    requires leak >= 0.0 && 0.0 <= s' <= s && leak < q' <= q
    ensures s' * (q' - leak) * q <= s * (q - leak) * q'
  {
    Positive(q' - leak, q);
    NonNegative(s - s', (q' - leak) * q);
    NonNegative(leak, q - q');
    NonNegative(s, leak * (q - q'));
    assert (q - leak) * q' - (q' - leak) * q == leak * (q - q');
    assert s * ((q - leak) * q') - s * ((q' - leak) * q) == s * (leak * (q - q'));
    assert s' * (q' - leak) * q == s' * ((q' - leak) * q) && s * (q - leak) * q' == s * ((q - leak) * q');
  }

  lemma WithinReach(g: real, z: real, d: real, salt: real, square: real)
    requires g >= 0.0 && g * salt <= square && z * square <= salt * d && d >= 0.0 && square > 0.0
    ensures g * z <= d
  {
    NonNegative(g, salt * d - z * square);
    NonNegative(square - g * salt, d);
    assert g * z * square <= g * salt * d <= square * d;
    ScaleOrder(g * z, d, square);
  }

  /** Water passed per unit of driving pressure. */
  function Lift(p: Plant): real
    requires p.segments > 0
  {
    p.a * SegmentArea(p) / 1000.0
  }

  /** Osmotic pressure of the wall per unit of bulk concentration. */
  function PerSalt(o: real): real { o * 1000.0 * 1.10 }

  function Bulk(s: State): real
    requires s.q != 0.0
  {
    s.salt / s.q
  }

  /** How much less water a segment draws for a unit of bulk concentration more. */
  function Stiffness(p: Plant, o: real): real
    requires p.segments > 0
  {
    Times(Lift(p), PerSalt(o))
  }

  lemma WallOsmotic(o: real, s: State)
    requires s.q != 0.0
    ensures Linear(o)(Times(WallSalt(s), 1000.0)) == Times(PerSalt(o), Bulk(s))
  {}

  lemma LiftLeft(p: Plant, driving: real, q: real)
    requires p.segments > 0 && q >= 0.0
    ensures q - Drawn(p.a, driving, SegmentArea(p), q) == Left(Lift(p), driving, q)
  {
    LeftIs(p.a, driving, SegmentArea(p), q);
  }

  lemma LeakLeft(p: Plant, s: State)
    requires p.segments > 0 && s.q != 0.0
    ensures var salt := Crossed(p.b, WallSalt(s), SegmentArea(p));
      (if salt < s.salt then s.salt - salt else 0.0) == SaltLeft(LeakFlow(p), s.salt, s.q)
  {
    SaltLeftIs(p.b, s.salt, s.q, SegmentArea(p), LeakFlow(p));
  }

  /** A segment in quantities, for a proportional osmotic relation. */
  lemma StepIs(p: Plant, o: real, k: nat)
    requires InRange(p) && !Dry(March(p, Linear(o), k))
    ensures var s, t := March(p, Linear(o), k), March(p, Linear(o), k + 1);
      && t.q == Left(Lift(p), PressureLeft(p, k) - Times(PerSalt(o), Bulk(s)), s.q)
      && t.salt == SaltLeft(LeakFlow(p), s.salt, s.q)
  {
    hide March, PressureLeft, Drawn, Crossed, SegmentArea, Left, SaltLeft, Linear, LeakFlow, Times, PerSalt, Bulk, Lift, WallSalt;
    var s := March(p, Linear(o), k);
    SegmentDraws(p, Linear(o), k);
    WallOsmotic(o, s);
    LiftLeft(p, PressureLeft(p, k) - Times(PerSalt(o), Bulk(s)), s.q);
    LeakLeft(p, s);
  }

  /** The channel of the second plant never holds more water or salt than that of the first. */
  predicate Ahead(p: Plant, r: Plant, o: real, k: nat)
    requires p.segments > 0 && r.segments > 0
  {
    var s, t := March(p, Linear(o), k), March(r, Linear(o), k);
    t.q <= s.q && 0.0 <= t.salt <= s.salt <= FeedSalt(p)
  }

  lemma StaysAhead(p: Plant, pressure: real, a: real, o: real, least: real, k: nat)
    requires InRange(p) && p.pressure <= pressure && p.a <= a && o >= 0.0 && least > 0.000000001
    requires var r := Driven(p, pressure, a);
      Ahead(p, r, o, k) && March(r, Linear(o), k).q >= least && Times(Stiffness(r, o), FeedSalt(p)) <= Times(least, least)
    ensures Ahead(p, Driven(p, pressure, a), o, k + 1)
  {
    hide March, PressureLeft, SegmentArea, Left, SaltLeft, LeakFlow, FeedSalt, Times, PerSalt, Bulk, Lift, Stiffness;
    var r := Driven(p, pressure, a);
    var s, t := March(p, Linear(o), k), March(r, Linear(o), k);
    StepIs(p, o, k);
    StepIs(r, o, k);
    SameShares(p, pressure, a, k);
    Resists(p, r, o, least, s, t);
    LessLeft(Lift(p), Lift(r), PressureLeft(p, k), PressureLeft(r, k), Times(PerSalt(o), Bulk(s)), Times(PerSalt(o), Bulk(t)), s.q, t.q);
    LeakNonNegative(p);
    LessSaltLeft(LeakFlow(p), s.salt, t.salt, s.q, t.q);
    SaltLeftNonNegative(LeakFlow(p), t.salt, t.q);
  }

  /** What the saltier wall takes back is at most what the channel is already ahead. */
  lemma Resists(p: Plant, r: Plant, o: real, least: real, s: State, t: State)
    requires InRange(r) && p.segments > 0 && o >= 0.0
    requires 0.0 < least <= t.q <= s.q && 0.0 <= t.salt <= s.salt <= FeedSalt(p)
    requires Times(Stiffness(r, o), FeedSalt(p)) <= Times(least, least)
    ensures Lift(r) * (Times(PerSalt(o), Bulk(t)) - Times(PerSalt(o), Bulk(s))) <= s.q - t.q
  {
    hide FeedSalt, Lift, PerSalt;
    Concentrates(s.salt, t.salt, s.q, t.q, FeedSalt(p), least);
    StiffnessNonNegative(r, o);
    ProductPositive(least, least, least * least);
    WithinReach(Stiffness(r, o), Bulk(t) - Bulk(s), s.q - t.q, FeedSalt(p), least * least);
    Difference(Lift(r), PerSalt(o), Bulk(t), Bulk(s));
  }

  lemma Difference(k: real, c: real, x: real, y: real)
    ensures Times(k, c) * (x - y) == k * (Times(c, x) - Times(c, y))
  {}

  lemma SaltLeftNonNegative(leak: real, s: real, q: real)
    requires q != 0.0
    ensures SaltLeft(leak, s, q) >= 0.0
  {}

  lemma LeakNonNegative(p: Plant)
    requires InRange(p)
    ensures LeakFlow(p) >= 0.0
  {
    AreaPositive(p);
    Positive(p.b * BETA, SegmentArea(p));
  }

  lemma StiffnessNonNegative(p: Plant, o: real)
    requires InRange(p) && o >= 0.0
    ensures Stiffness(p, o) >= 0.0
  {
    AreaPositive(p);
    Positive(p.a, SegmentArea(p));
    NonNegative(Lift(p), PerSalt(o));
  }

  /** Pressure and permeability change neither the shares of the area nor the leak, and keep their order. */
  lemma SameShares(p: Plant, pressure: real, a: real, k: nat)
    requires InRange(p) && p.pressure <= pressure && p.a <= a
    ensures var r := Driven(p, pressure, a);
      && InRange(r) && LeakFlow(r) == LeakFlow(p) && FeedSalt(r) == FeedSalt(p)
      && PressureLeft(p, k) <= PressureLeft(r, k)
      && 0.0 <= Lift(p) <= Lift(r)
  {
    AreaPositive(p);
    ScaleOrder(p.a, a, SegmentArea(p));
    Positive(p.a, SegmentArea(p));
  }

  lemma {:induction false} AlwaysAhead(p: Plant, pressure: real, a: real, o: real, least: real, k: nat)
    requires InRange(p) && p.pressure <= pressure && p.a <= a && o >= 0.0 && least > 0.000000001 && k <= p.segments
    requires var r := Driven(p, pressure, a);
      March(r, Linear(o), p.segments).q >= least && Times(Stiffness(r, o), FeedSalt(p)) <= Times(least, least)
    ensures Ahead(p, Driven(p, pressure, a), o, k)
  {
    hide March, FeedSalt, Times, Stiffness, SegmentArea, LeakFlow, Lift, PressureLeft;
    var r := Driven(p, pressure, a);
    if k == 0 {
      InletIs(p, Linear(o));
      InletIs(r, Linear(o));
      SaltOfFeed(p);
    } else {
      AlwaysAhead(p, pressure, a, o, least, k - 1);
      FlowFalls(r, Linear(o), k - 1, p.segments);
      StaysAhead(p, pressure, a, o, least, k - 1);
    }
  }

  lemma SaltOfFeed(p: Plant)
    requires InRange(p)
    ensures FeedSalt(p) == p.tds / 1000.0 * p.flow >= 0.0
  {
    Positive(p.tds / 1000.0, p.flow);
  }

  /** More pressure and more permeability never lower the recovery, as long as the channel they leave is not
      so thin that one segment's answer to salt exceeds it: with the concentrate flow Q at the higher
      setting, stiffness times feed salt is at most the square of Q. */
  lemma RecoveryRises(p: Plant, pressure: real, a: real, o: real)
    requires InRange(p) && p.pressure <= pressure && p.a <= a && o >= 0.0
    requires var r := Driven(p, pressure, a); var least := March(r, Linear(o), p.segments).q;
      least > 0.000000001 && Times(Stiffness(r, o), FeedSalt(p)) <= Times(least, least)
    ensures Run(p, Linear(o)).recovery <= Run(Driven(p, pressure, a), Linear(o)).recovery
  {
    hide March, FeedSalt, Times, Stiffness, SpecificEnergy, Linear;
    var r := Driven(p, pressure, a);
    AlwaysAhead(p, pressure, a, o, March(r, Linear(o), p.segments).q, p.segments);
    MorePermeate(p, r, o);
  }

  lemma MorePermeate(p: Plant, r: Plant, o: real)
    requires InRange(p) && InRange(r) && r.flow == p.flow && r.segments == p.segments
    ensures Run(p, Linear(o)).recovery <= Run(r, Linear(o)).recovery <==>
      March(r, Linear(o), p.segments).q <= March(p, Linear(o), p.segments).q
  {
    hide March, SpecificEnergy, Linear, Run;
    RecoveryIs(p, Linear(o));
    RecoveryIs(r, Linear(o));
    ScaleOrder(Run(p, Linear(o)).recovery, Run(r, Linear(o)).recovery, p.flow);
  }

  lemma RecoveryIs(p: Plant, osmotic: real -> real)
    requires InRange(p)
    ensures Run(p, osmotic).recovery * p.flow == March(p, osmotic, p.segments).permeateFlow
    ensures March(p, osmotic, p.segments).q == p.flow - March(p, osmotic, p.segments).permeateFlow
  {
    hide March, SpecificEnergy;
    Conserved(p, osmotic, p.segments);
    Undivide(March(p, osmotic, p.segments).permeateFlow, p.flow);
  }
}
