/** Where more pressure or permeability lowers the recovery: the march takes one segment at a time, and a
    channel drawn too thin in one segment is too salty to yield anything in the next. */
module RecoveryLimits {
  import opened Reals
  import opened ReverseOsmosis
  import opened MembranePhysics
  import OM = OperatingModel

  /** The osmotic coefficient of sodium chloride at 25 C, in bar per mg/l. */
  function VantHoff(): (o: real)
    ensures 0.000848 <= o <= 0.000849
  {
    OM.Osmotic(1.0, 25.0)
  }

  // ---- one segment ---------------------------------------------------------------------------------

  lemma OneSegmentRises(p: Plant, pressure: real, a: real, o: real)
    requires InRange(p) && p.segments == 1 && p.pressure <= pressure && p.a <= a
    ensures Run(p, Linear(o)).recovery <= Run(Driven(p, pressure, a), Linear(o)).recovery
  {
    hide March, SpecificEnergy, Linear, Left, SaltLeft, Lift, PressureLeft, Run, Bulk, Times, PerSalt, FeedSalt;
    var r := Driven(p, pressure, a);
    SameShares(p, pressure, a, 0);
    AtInlet(p, o);
    AtInlet(r, o);
    var s, t := March(p, Linear(o), 0), March(r, Linear(o), 0);
    if p.flow <= 0.000000001 {
      StaysDry(p, Linear(o), 0, 1);
      StaysDry(r, Linear(o), 0, 1);
    } else {
      StepIs(p, o, 0);
      StepIs(r, o, 0);
      SameBulk(s, t);
      var wall := Times(PerSalt(o), Bulk(s));
      LessLeft(Lift(p), Lift(r), PressureLeft(p, 0), PressureLeft(r, 0), wall, wall, p.flow, p.flow);
    }
    MorePermeate(p, r, o);
  }

  lemma AtInlet(p: Plant, o: real)
    requires p.segments > 0
    ensures March(p, Linear(o), 0).q == p.flow && March(p, Linear(o), 0).salt == FeedSalt(p)
  {}

  lemma SameBulk(s: State, t: State)
    requires s.salt == t.salt && s.q == t.q != 0.0
    ensures Bulk(s) == Bulk(t)
  {}

  // ---- a channel drawn too thin ------------------------------------------------------------------------

  /** 100 m3/h of brackish water over a large, tight membrane. */
  function Deep(n: nat, pressure: real, a: real): Plant
    requires n > 0
  {
    Plant(100.0, 5000.0, pressure, 2000.0 * n as real / 3.0, a, 0.1 / n as real, 0.8, 0.95, true, 0.0, n)
  }

  lemma DeepIs(n: nat, pressure: real, a: real, k: nat)
    requires n > 0 && a > 0.0
    ensures var p := Deep(n, pressure, a);
      && InRange(p) && Lift(p) == a * 2.0 / 3.0 && LeakFlow(p) * n as real == 0.22 / 3.0
      && PressureLeft(p, k) == pressure && FeedSalt(p) == 500.0
  {
    var m, p := n as real, Deep(n, pressure, a);
    Undivide(0.1, m);
    ThirdOf(m);
    assert SegmentArea(p) == 2000.0 / 3.0;
    assert LeakFlow(p) == 0.1 / m * (BETA * (2000.0 / 3.0) / 1000.0);
    Nothing(k);
  }

  lemma ThirdOf(m: real)
    requires m > 0.0
    ensures 2000.0 * m / 3.0 / m == 2000.0 / 3.0 && 2000.0 * m / 3.0 > 0.0 && 0.1 / m > 0.0
  {
    Undivide(2000.0 * m / 3.0, m);
    Undivide(0.1, m);
    ScaleOrder(0.1 / m, 0.0, m);
    Cancel(m, 2000.0 * m / 3.0 / m, 2000.0 / 3.0);
  }

  lemma Nothing(k: nat)
    ensures k as real * 0.0 == 0.0
  {}

  lemma WallBounds(o: real, s: State, low: real, high: real)
    requires 0.000848 <= o <= 0.000849 && s.q > 0.0 && 0.0 <= low * s.q <= s.salt <= high * s.q
    ensures 0.9328 * low <= Times(PerSalt(o), Bulk(s)) <= 0.9339 * high
  {
    var x := Bulk(s);
    Undivide(s.salt, s.q);
    ScaleOrder(low, x, s.q);
    ScaleOrder(x, high, s.q);
    ScaleOrder(0.0, x, s.q);
    NonNegative(PerSalt(o) - 0.9328, x);
    NonNegative(0.9339 - PerSalt(o), x);
    assert (PerSalt(o) - 0.9328) * x == PerSalt(o) * x - 0.9328 * x;
    assert (0.9339 - PerSalt(o)) * x == 0.9339 * x - PerSalt(o) * x;
  }

  /** The wall's osmotic pressure at the inlet. */
  function FirstWall(o: real): real { Times(PerSalt(o), 5.0) }

  /** After the first segment. */
  lemma DeepFirst(n: nat, pressure: real, a: real, o: real)
    requires n >= 1 && a > 0.0 && 0.000848 <= o <= 0.000849 && pressure >= 5.0
    ensures var p := Deep(n, pressure, a); var t := March(p, Linear(o), 1);
      && 4.664 <= FirstWall(o) <= 4.6695 && t.q == Left(a * 2.0 / 3.0, pressure - FirstWall(o), 100.0)
      && 499.6 <= t.salt <= 500.0
  {
    hide March, Left, Lift, PressureLeft, LeakFlow;
    var p := Deep(n, pressure, a);
    DeepIs(n, pressure, a, 0);
    InletIs(p, Linear(o));
    var s := March(p, Linear(o), 0);
    WallBounds(o, s, 5.0, 5.0);
    StepIs(p, o, 0);
    LeakSmall(LeakFlow(p), n as real);
    assert s.salt / s.q == 5.0;
  }

  lemma LeakSmall(leak: real, n: real)
    requires leak * n == 0.22 / 3.0 && n >= 1.0
    ensures 0.0 <= leak <= 0.0734
  {
    ScaleOrder(0.0, leak, n);
    NonNegative(if leak >= 0.0 then leak else 0.0, n - 1.0);
    assert leak >= 0.0;
    assert leak * (n - 1.0) == leak * n - leak;
  }

  /** From then on a channel this thin yields nothing more: its wall stays above the feed pressure. */
  lemma {:induction false} Stalls(n: nat, pressure: real, a: real, o: real, k: nat)
    requires 1 <= k <= n && a > 0.0 && 0.000848 <= o <= 0.000849 && 5.0 <= pressure <= 52.0
    requires var t := March(Deep(n, pressure, a), Linear(o), 1); 5.3 <= t.q <= 5.95 && 499.6 <= t.salt <= 500.0
    ensures var p := Deep(n, pressure, a);
      && March(p, Linear(o), k).q == March(p, Linear(o), 1).q
      && 499.6 - 7.0 * (k - 1) as real / n as real <= March(p, Linear(o), k).salt <= 500.0
  {
    hide March, Lift, PressureLeft, LeakFlow, PerSalt, Times, Bulk;
    if k > 1 {
      Stalls(n, pressure, a, o, k - 1);
      var p := Deep(n, pressure, a);
      var s := March(p, Linear(o), k - 1);
      DeepIs(n, pressure, a, k - 1);
      StepIs(p, o, k - 1);
      LossBound(k, n);
      WallBounds(o, s, 80.0, 500.0);
      LeakPerSegment(LeakFlow(p), n as real, s.salt, s.q);
      Shares(k, n);
    }
  }

  /** At most seven units of salt leak out along the whole channel. */
  lemma LossBound(k: nat, n: nat)
    requires 1 < k <= n
    ensures 7.0 * (k - 2) as real / n as real <= 7.0
  {
    ScaleOrder(7.0 * (k - 2) as real / n as real, 7.0, n as real);
    Undivide(7.0 * (k - 2) as real, n as real);
  }

  lemma Shares(k: nat, n: nat)
    requires 1 < k <= n
    ensures 7.0 * (k - 1) as real / n as real == 7.0 * (k - 2) as real / n as real + 7.0 / n as real
  {}

  lemma LeakPerSegment(leak: real, n: real, salt: real, q: real)
    requires leak * n == 0.22 / 3.0 && n >= 1.0 && 0.0 <= salt <= 500.0 && q >= 5.3
    ensures salt - 7.0 / n <= SaltLeft(leak, salt, q) <= salt
  {
    var x := salt / q;
    Undivide(salt, q);
    ScaleOrder(0.0, x, q);
    ScaleOrder(x, 95.0, q);
    LeakSmall(leak, n);
    NonNegative(leak, x);
    NonNegative(leak, 95.0 - x);
    Undivide(7.0, n);
    ScaleOrder(leak * 95.0, 7.0 / n, n);
    assert leak * 95.0 * n == leak * n * 95.0;
  }

  /** At 45 bar and A = 3 the second segment takes all that the first has left. */
  lemma RunsDry(n: nat, o: real)
    requires n >= 2 && 0.000848 <= o <= 0.000849
    ensures March(Deep(n, 45.0, 3.0), Linear(o), n).q == 0.0
  {
    hide March, Lift, PressureLeft, LeakFlow, PerSalt, Times, Bulk, SaltLeft;
    var p := Deep(n, 45.0, 3.0);
    DeepFirst(n, 45.0, 3.0, o);
    DeepIs(n, 45.0, 3.0, 1);
    var s := March(p, Linear(o), 1);
    assert 19.3 <= s.q <= 19.4;
    WallBounds(o, s, 0.0, 26.0);
    StepIs(p, o, 1);
    StaysDry(p, Linear(o), 2, n);
  }

  /** Both settings leave the channel after the first segment too thin and too salty to yield more. */
  lemma RunsThin(n: nat, o: real)
    requires n >= 1 && 0.000848 <= o <= 0.000849
    ensures March(Deep(n, 52.0, 3.0), Linear(o), n).q > 0.0
    ensures March(Deep(n, 45.0, 3.5), Linear(o), n).q > 0.0
  {
    hide March;
    DeepFirst(n, 52.0, 3.0, o);
    Stalls(n, 52.0, 3.0, o, n);
    DeepFirst(n, 45.0, 3.5, o);
    Stalls(n, 45.0, 3.5, o, n);
  }

  /** With two segments or more there are feeds that yield less at 52 bar than at 45, and less through a
      membrane of A = 3.5 than through one of A = 3. */
  lemma RecoveryCanFall(n: nat)
    requires n >= 2
    ensures var p := Deep(n, 45.0, 3.0); var osmotic := Linear(VantHoff());
      && InRange(p)
      && Run(Driven(p, 52.0, 3.0), osmotic).recovery < Run(p, osmotic).recovery
      && Run(Driven(p, 45.0, 3.5), osmotic).recovery < Run(p, osmotic).recovery
  {
    hide March, SpecificEnergy, Linear, Run, VantHoff;
    var o, p := VantHoff(), Deep(n, 45.0, 3.0);
    DeepIs(n, 45.0, 3.0, 0);
    DeepIs(n, 52.0, 3.0, 0);
    DeepIs(n, 45.0, 3.5, 0);
    RunsDry(n, o);
    RunsThin(n, o);
    assert Driven(p, 52.0, 3.0) == Deep(n, 52.0, 3.0) && Driven(p, 45.0, 3.5) == Deep(n, 45.0, 3.5);
    MorePermeate(Deep(n, 52.0, 3.0), p, o);
    MorePermeate(p, Deep(n, 52.0, 3.0), o);
    MorePermeate(Deep(n, 45.0, 3.5), p, o);
    MorePermeate(p, Deep(n, 45.0, 3.5), o);
  }

  /** With n segments, more pressure and permeability never lower the recovery of any plant. */
  ghost predicate AlwaysRises(n: nat) {
    forall p: Plant, pressure: real, a: real ::
      InRange(p) && p.segments == n && p.pressure <= pressure && p.a <= a ==>
        Run(p, Linear(VantHoff())).recovery <= Run(Driven(p, pressure, a), Linear(VantHoff())).recovery
  }

  /** That holds for a single segment and for no finer march. */
  lemma AlwaysRisesExactly(n: nat)
    requires n > 0
    ensures AlwaysRises(n) <==> n == 1
  {
    hide Run, Linear, VantHoff;
    if n == 1 {
      forall p: Plant, pressure: real, a: real | InRange(p) && p.segments == n && p.pressure <= pressure && p.a <= a
        ensures Run(p, Linear(VantHoff())).recovery <= Run(Driven(p, pressure, a), Linear(VantHoff())).recovery
      {
        OneSegmentRises(p, pressure, a, VantHoff());
      }
    } else {
      RecoveryCanFall(n);
      assert Driven(Deep(n, 45.0, 3.0), 52.0, 3.0).pressure == 52.0;
    }
  }
}
