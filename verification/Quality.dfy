/** Data-quality flags: a per-signal state machine, told by the signal's history. */
module Quality {
  import opened Reals
  import opened Options

  type Signal = (string, string)

  datatype Sample = NonFinite | Finite(value: real)

  datatype Flag = Good | NotFinite | OutOfRange | Stale | Frozen | Deadband

  datatype Assessment = Assessment(flag: Flag, reasons: seq<Flag>, valid: bool)

  datatype Limits = Limits(ranges: map<string, (real, real)>, staleness: real, frozen: nat, deadband: real)

  /** The constructor's clamping of the two limits. */
  function MakeLimits(ranges: map<string, (real, real)>, staleness: real, frozen: int, deadband: real): Limits {
    Limits(ranges, staleness, if frozen < 1 then 1 else frozen, if deadband < 0.0 then 0.0 else deadband)
  }

  // ---- the meaning, from the history of finite values alone ---------------------------------

  /** The length of the longest run of equal values at the end. */
  function RunLength(history: seq<real>): (r: nat)
    ensures r <= |history| && (history != [] ==> r >= 1)
  {
    if history == [] then 0
    else
      var n := |history| - 1;
      if n > 0 && history[n - 1] == history[n] then RunLength(history[..n]) + 1 else 1
  }

  predicate InRange(limits: Limits, metric: string, v: real) {
    metric in limits.ranges ==> limits.ranges[metric].0 <= v <= limits.ranges[metric].1
  }

  predicate TooOld(limits: Limits, age: Option<real>) { age.Some? && age.value > limits.staleness }

  /** Never on the first sample of a signal; afterwards, when the run reaches the limit. */
  predicate IsFrozen(limits: Limits, history: seq<real>, v: real) {
    history != [] && RunLength(history + [v]) >= limits.frozen
  }

  predicate InDeadband(limits: Limits, history: seq<real>, v: real) {
    && history != [] && v != history[|history| - 1]
    && limits.deadband > 0.0 && Abs(v - history[|history| - 1]) <= limits.deadband
  }

  function When(b: bool, f: Flag): seq<Flag> { if b then [f] else [] }

  /** The triggered reasons, most severe first. */
  function Listed(outOfRange: bool, stale: bool, frozen: bool, deadband: bool): seq<Flag> {
    When(outOfRange, OutOfRange) + When(stale, Stale) + When(frozen, Frozen) + When(deadband, Deadband)
  }

  /** The primary flag is the most severe reason; only range and finiteness make a value unusable. */
  function Worst(reasons: seq<Flag>): Assessment {
    if reasons == [] then Assessment(Good, [Good], true)
    else Assessment(reasons[0], reasons, reasons[0] != OutOfRange)
  }

  function Judged(limits: Limits, metric: string, age: Option<real>, history: seq<real>, sample: Sample): Assessment {
    match sample
    case NonFinite => Assessment(NotFinite, [NotFinite], false)
    case Finite(v) =>
      Worst(Listed(!InRange(limits, metric, v), TooOld(limits, age), IsFrozen(limits, history, v), InDeadband(limits, history, v)))
  }

  lemma FirstReason(outOfRange: bool, stale: bool, frozen: bool, deadband: bool)
    ensures var reasons := Listed(outOfRange, stale, frozen, deadband);
      Worst(reasons) ==
        if outOfRange then Assessment(OutOfRange, reasons, false)
        else if stale then Assessment(Stale, reasons, true)
        else if frozen then Assessment(Frozen, reasons, true)
        else if deadband then Assessment(Deadband, reasons, true)
        else Assessment(Good, [Good], true)
  {}

  function HistoryOf(seen: map<Signal, seq<real>>, key: Signal): seq<real> {
    if key in seen then seen[key] else []
  }

  // ---- the monitor ----------------------------------------------------------------------------

  datatype SignalState = SignalState(last: real, repeats: nat)

  class QualityMonitor {
    const limits: Limits
    var state: map<Signal, SignalState>
    ghost var seen: map<Signal, seq<real>>

    /** The counters summarise the finite values seen so far. */
    ghost predicate Valid()
      reads this
    {
      && limits.frozen >= 1
      && state.Keys == seen.Keys
      && forall k :: k in seen ==> seen[k] != [] && state[k] == SignalState(seen[k][|seen[k]| - 1], RunLength(seen[k]))
    }

    constructor (ranges: map<string, (real, real)>, staleness: real, frozen: int, deadband: real)
      ensures Valid() && seen == map[] && limits == MakeLimits(ranges, staleness, frozen, deadband)
    {
      limits := MakeLimits(ranges, staleness, frozen, deadband);
      state, seen := map[], map[];
    }

    /** Advance the state of one signal and report the two stateful checks. */
    method Track(key: Signal, value: real) returns (frozen: bool, deadbandHit: bool)
      requires Valid()
      modifies this
      ensures Valid() && seen == old(seen)[key := HistoryOf(old(seen), key) + [value]]
      ensures frozen == IsFrozen(limits, HistoryOf(old(seen), key), value)
      ensures deadbandHit == InDeadband(limits, HistoryOf(old(seen), key), value)
    {
      ghost var history := HistoryOf(seen, key);
      assert (history + [value])[..|history|] == history;
      frozen, deadbandHit := false, false;
      if key in state {
        var s := state[key];
        var repeats := 1;
        if value == s.last {
          repeats := s.repeats + 1;
        } else if limits.deadband > 0.0 && Abs(value - s.last) <= limits.deadband {
          deadbandHit := true;
        }
        if repeats >= limits.frozen { frozen := true; }
        state := state[key := SignalState(value, repeats)];
      } else {
        state := state[key := SignalState(value, 1)];
      }
      seen := seen[key := history + [value]];
    }

    method Evaluate(asset: string, metric: string, sample: Sample, age: Option<real>) returns (r: Assessment)
      requires Valid()
      modifies this
      ensures Valid()
      ensures r == Judged(limits, metric, age, HistoryOf(old(seen), (asset, metric)), sample)
      ensures seen == if sample.NonFinite? then old(seen)
                      else old(seen)[(asset, metric) := HistoryOf(old(seen), (asset, metric)) + [sample.value]]
    {
      if sample.NonFinite? { return Assessment(NotFinite, [NotFinite], false); }
      var value := sample.value;
      hide Listed, Worst, InRange, TooOld, IsFrozen, InDeadband;
      var outOfRange := !InRange(limits, metric, value);
      var reasons := When(outOfRange, OutOfRange);
      var stale := TooOld(limits, age);
      reasons := reasons + When(stale, Stale);
      var frozen, deadbandHit := Track((asset, metric), value);
      reasons := reasons + When(frozen, Frozen);
      reasons := reasons + When(deadbandHit, Deadband);
      ListedIs(outOfRange, stale, frozen, deadbandHit);
      FirstReason(outOfRange, stale, frozen, deadbandHit);
      if outOfRange { return Assessment(OutOfRange, reasons, false); }
      if stale { return Assessment(Stale, reasons, true); }
      if frozen { return Assessment(Frozen, reasons, true); }
      if deadbandHit { return Assessment(Deadband, reasons, true); }
      return Assessment(Good, [Good], true);
    }
  }

  lemma ListedIs(outOfRange: bool, stale: bool, frozen: bool, deadband: bool)
    ensures Listed(outOfRange, stale, frozen, deadband)
         == When(outOfRange, OutOfRange) + When(stale, Stale) + When(frozen, Frozen) + When(deadband, Deadband)
  {}

  // ---- what the flags mean ------------------------------------------------------------------------

  ghost predicate LastEqual(history: seq<real>, k: nat) {
    k <= |history| && forall i :: |history| - k <= i < |history| ==> history[i] == history[|history| - 1]
  }

  /** A run of length k: the last k values are equal. */
  lemma {:induction false} RunLengthMeans(history: seq<real>, k: nat)
    requires k >= 1
    ensures RunLength(history) >= k <==> LastEqual(history, k)
  {
    if history != [] && k > 1 {
      var n := |history| - 1;
      var before := history[..n];
      RunLengthMeans(before, k - 1);
      if LastEqual(history, k) { assert history[n - 1] == history[n]; }
      if n > 0 && history[n - 1] == history[n] && LastEqual(before, k - 1) {
        assert forall i :: |before| - (k - 1) <= i < |before| ==> before[i] == history[i];
      }
    }
  }

  /** Frozen means that the last `limit` finite samples are equal; a limit of one is different only
      in that the very first sample of a signal is spared. */
  lemma FrozenMeans(limits: Limits, history: seq<real>, v: real)
    requires limits.frozen >= 1
    ensures IsFrozen(limits, history, v) <==> history != [] && LastEqual(history + [v], limits.frozen)
    ensures limits.frozen == 1 ==> (IsFrozen(limits, history, v) <==> history != [])
  {
    RunLengthMeans(history + [v], limits.frozen);
  }

  /** What the reasons say of a finite sample, each in its own terms. */
  lemma ReasonsMean(limits: Limits, metric: string, age: Option<real>, history: seq<real>, v: real)
    requires limits.frozen >= 1
    ensures var r := Judged(limits, metric, age, history, Finite(v));
      && (OutOfRange in r.reasons <==> metric in limits.ranges && (v < limits.ranges[metric].0 || v > limits.ranges[metric].1))
      && (Stale in r.reasons <==> age.Some? && age.value > limits.staleness)
      && (Frozen in r.reasons <==> history != [] && LastEqual(history + [v], limits.frozen))
      && (Deadband in r.reasons <==> history != [] && SmallChange(limits, history[|history| - 1], v))
      && (r.valid <==> OutOfRange !in r.reasons)
      && (r.flag == if OutOfRange in r.reasons then OutOfRange else if Stale in r.reasons then Stale
                    else if Frozen in r.reasons then Frozen else if Deadband in r.reasons then Deadband else Good)
  {
    hide Listed, Worst, IsFrozen, RunLength, LastEqual;
    FrozenMeans(limits, history, v);
    var o, t, f, d := !InRange(limits, metric, v), TooOld(limits, age), IsFrozen(limits, history, v), InDeadband(limits, history, v);
    FirstReason(o, t, f, d);
    ListedHas(o, t, f, d);
  }

  /** A change, and one no larger than the deadband. */
  predicate SmallChange(limits: Limits, last: real, v: real) {
    limits.deadband > 0.0 && v != last && -limits.deadband <= v - last <= limits.deadband
  }

  lemma ListedHas(outOfRange: bool, stale: bool, frozen: bool, deadband: bool)
    ensures var r := Listed(outOfRange, stale, frozen, deadband);
      && (OutOfRange in r <==> outOfRange) && (Stale in r <==> stale) && (Frozen in r <==> frozen) && (Deadband in r <==> deadband)
      && Good !in r
  {}

  /** The constructor raises a frozen limit below 1 to 1 and a negative deadband to 0. */
  lemma LimitsClamped(ranges: map<string, (real, real)>, staleness: real, frozen: int, deadband: real)
    ensures var l := MakeLimits(ranges, staleness, frozen, deadband);
      && l.ranges == ranges && l.staleness == staleness
      && l.frozen >= 1 && (frozen >= 1 ==> l.frozen == frozen) && (frozen < 1 ==> l.frozen == 1)
      && l.deadband >= 0.0 && (deadband >= 0.0 ==> l.deadband == deadband) && (deadband < 0.0 ==> l.deadband == 0.0)
  {}

  /** A frozen value is never also a deadband hit unless the limit is one. */
  lemma FrozenExcludesDeadband(limits: Limits, history: seq<real>, v: real)
    requires limits.frozen >= 2 && IsFrozen(limits, history, v)
    ensures !InDeadband(limits, history, v)
  {
    FrozenMeans(limits, history, v);
    assert (history + [v])[|history| - 1] == history[|history| - 1];
  }
}
