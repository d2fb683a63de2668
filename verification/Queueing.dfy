/** The stability controller (apohara_context_forge/scheduling/queueing_controller.py) over
    exact reals: Welford statistics, the floor of INVARIANT-11 and the throttled eviction
    target. Clock readings and values of exp are inputs. */
module Queueing {
  import opened Wrappers

  // ----- running statistics

  ghost function Sum(xs: seq<real>): real {
    if xs == [] then 0.0 else Sum(xs[..|xs| - 1]) + xs[|xs| - 1]
  }

  ghost function Mean(xs: seq<real>): real {
    if xs == [] then 0.0 else Sum(xs) / |xs| as real
  }

  ghost function Square(x: real): real { x * x }

  /** Sum of squared deviations from a centre. */
  ghost function Deviations(xs: seq<real>, c: real): real {
    if xs == [] then 0.0 else Deviations(xs[..|xs| - 1], c) + Square(xs[|xs| - 1] - c)
  }

  lemma {:induction false} DeviationsNotNegative(xs: seq<real>, c: real)
    ensures Deviations(xs, c) >= 0.0
  {
    if xs != [] {
      DeviationsNotNegative(xs[..|xs| - 1], c);
      SquareNotNegative(xs[|xs| - 1] - c);
    }
  }

  lemma SquareNotNegative(x: real)
    ensures Square(x) >= 0.0
  {
  }

  /** How much moving the centre c of n values with sum s by e changes the deviations. */
  ghost function Shift(n: real, s: real, c: real, e: real): real {
    n * (e * e) - 2.0 * e * (s - n * c)
  }

  lemma ShiftStep(n: real, s: real, c: real, e: real, x: real)
    ensures Shift(n, s, c, e) + Square(x - (c + e)) == Shift(n + 1.0, s + x, c, e) + Square(x - c)
  {
    var d := x - c;
    assert Square(d - e) == d * d - 2.0 * e * d + e * e;
    assert s + x - (n + 1.0) * c == (s - n * c) + d;
    assert 2.0 * e * ((s - n * c) + d) == 2.0 * e * (s - n * c) + 2.0 * e * d;
    assert (n + 1.0) * (e * e) == n * (e * e) + e * e;
  }

  lemma {:induction false} ShiftCentre(xs: seq<real>, n: real, c: real, e: real)
    requires n == |xs| as real
    ensures Deviations(xs, c + e) == Deviations(xs, c) + Shift(n, Sum(xs), c, e)
  {
    if xs != [] {
      ShiftCentre(xs[..|xs| - 1], n - 1.0, c, e);
      ShiftStep(n - 1.0, Sum(xs[..|xs| - 1]), c, e, xs[|xs| - 1]);
    }
  }

  class WelfordStatistics {
    var count: nat
    var mean: real
    var m2: real
    /** All observations, in order. */
    ghost var seen: seq<real>

    /** The running fields are the batch statistics of everything seen. */
    ghost predicate Valid()
      reads this
    {
      count == |seen| && mean == Mean(seen) && m2 == Deviations(seen, mean)
    }

    constructor ()
      ensures Valid() && seen == []
    {
      count, mean, m2, seen := 0, 0.0, 0.0, [];
    }

    method Update(value: real)
      requires Valid()
      modifies this
      ensures Valid() && seen == old(seen) + [value]
    {
      ghost var mean0, m0 := mean, m2;
      count := count + 1;
      var delta := value - mean;
      mean := mean + delta / count as real;
      var delta2 := value - mean;
      m2 := m2 + delta * delta2;
      FieldsStayBatch(seen, mean0, m0, value, count, delta, mean, delta2, m2);
      seen := seen + [value];
    }

    /** The population variance of everything seen, never negative. */
    method Variance() returns (v: real)
      requires Valid()
      ensures v >= 0.0 && v == if |seen| < 2 then 0.0 else Deviations(seen, Mean(seen)) / |seen| as real
    {
      if count < 2 {
        return 0.0;
      }
      DeviationsNotNegative(seen, mean);
      v := m2 / count as real;
    }
  }

  /** The assignments of an update, as equations between its variables. */
  lemma FieldsStayBatch(xs: seq<real>, mean0: real, m0: real, x: real, n: nat, delta: real, mean: real, delta2: real,
                        m2: real)
    requires mean0 == Mean(xs) && m0 == Deviations(xs, mean0) && n == |xs| + 1
    requires delta == x - mean0 && mean == mean0 + delta / n as real && delta2 == x - mean && m2 == m0 + delta * delta2
    ensures mean == Mean(xs + [x]) && m2 == Deviations(xs + [x], mean)
  {
    UpdateIsBatch(xs, mean0, x, delta / n as real);
  }

  /** One Welford step, which moves the mean by e, carries the batch mean and the batch sum of
      squared deviations over. */
  lemma UpdateIsBatch(xs: seq<real>, m: real, x: real, e: real)
    requires m == Mean(xs) && e == (x - m) / (|xs| + 1) as real
    ensures m + e == Mean(xs + [x])
    ensures Deviations(xs + [x], m + e) == Deviations(xs, m) + (x - m) * (x - (m + e))
  {
    var n := |xs| as real;
    var ys := xs + [x];
    assert ys[..|xs|] == xs && |ys| as real == n + 1.0;
    SumIsMean(xs, n, m);
    MeanStep(Sum(xs), n, m, x, e);
    ShiftCentre(xs, n, m, e);
    WelfordStep(Sum(xs), n, m, x, e);
  }

  lemma SumIsMean(xs: seq<real>, n: real, m: real)
    requires m == Mean(xs) && n == |xs| as real
    ensures Sum(xs) == n * m
  {
    if xs != [] {
      assert m == Sum(xs) / n;
      assert m * n == Sum(xs);
    }
  }

  lemma MeanStep(s: real, n: real, m: real, x: real, e: real)
    requires n >= 0.0 && s == n * m && e == (x - m) / (n + 1.0)
    ensures m + e == (s + x) / (n + 1.0)
  {
    assert e * (n + 1.0) == x - m;
    assert (m + e) * (n + 1.0) == s + x;
  }

  lemma WelfordStep(s: real, n: real, m: real, x: real, e: real)
    requires n >= 0.0 && s == n * m && e == (x - m) / (n + 1.0)
    ensures Shift(n, s, m, e) + Square(x - (m + e)) == (x - m) * (x - (m + e))
  {
    assert Shift(n, s, m, e) == n * (e * e);
    var r := x - (m + e);
    assert x - m == e * (n + 1.0);
    assert r == e * n;
    assert n * (e * e) == e * r;
    assert Square(r) == r * r;
    assert (x - m) * r == e * r + r * r;
  }

  // ----- the floor

  /** _ceiling_int */
  function CeilingInt(value: real): (c: nat) {
    if value < 0.0 then 0
    else if value.Floor as real == value then value.Floor else value.Floor + 1
  }

  /** The least natural number that is not below the value. */
  lemma CeilingIsLeast(value: real, n: nat)
    ensures CeilingInt(value) <= n <==> value <= n as real
  {
  }

  datatype Config = Config(safetyMargin: real, blockSize: nat, minEvictionIntervalMs: real)

  /** The estimates a state is computed from. */
  datatype Estimates = Estimates(arrivalRate: real, serviceTime: real, blocks: real)

  datatype StabilityState = StabilityState(
    rho: real, isStable: bool, lambdaCritical: Option<real>, minimumStableBlocks: nat, marginPct: real)

  function RawMinimum(e: Estimates, margin: real): real {
    e.arrivalRate * e.serviceTime * e.blocks * margin
  }

  /** The arrival rate at which the free blocks would just be the floor; None is infinity. */
  function CriticalRate(e: Estimates, margin: real, free: int): Option<real>
    requires e.serviceTime > 0.0
  {
    if e.blocks > 0.0 && margin > 0.0 then
      UnitPositive(e.serviceTime, e.blocks, margin);
      Some(free as real / (e.serviceTime * e.blocks * margin))
    else None
  }

  function MaxReal(a: real, b: real): real { if a >= b then a else b }

  function MinReal(a: real, b: real): real { if a <= b then a else b }

  /** compute_stability_state before its fields are rounded for display; None is infinity. */
  function StateOf(e: Estimates, margin: real, free: int): StabilityState
    requires e.serviceTime > 0.0
  {
    var mu := 1.0 / e.serviceTime;
    var rho := MinReal(e.arrivalRate / MaxReal(mu, 0.000000001), 0.9999);
    var least := CeilingInt(RawMinimum(e, margin));
    StabilityState(
      rho,
      rho < 1.0 && free >= least,
      CriticalRate(e, margin, free),
      least,
      (1.0 - rho) * 100.0)
  }

  /** Utilization is capped below 1 before it is tested, so the state reports stable exactly
      when the free blocks reach the floor, however high the load. */
  lemma StableIsFloorOnly(e: Estimates, margin: real, free: int)
    requires e.serviceTime > 0.0
    ensures var s := StateOf(e, margin, free); s.isStable <==> free >= s.minimumStableBlocks
  {
  }

  /** Below a service time of 10^9 the utilization is lambda * E[s], capped at 0.9999. */
  lemma UtilizationIs(e: Estimates, margin: real, free: int)
    requires e.serviceTime > 0.0 && 0.000000001 * e.serviceTime <= 1.0
    ensures var s, load := StateOf(e, margin, free), e.arrivalRate * e.serviceTime;
            && s.rho == (if load <= 0.9999 then load else 0.9999)
            && s.marginPct == 100.0 - 100.0 * s.rho
  {
    var mu := 1.0 / e.serviceTime;
    assert mu * e.serviceTime == 1.0;
    Quotient(1.0, e.serviceTime, 0.000000001);
    OverInverse(e.arrivalRate, e.serviceTime, mu);
  }

  lemma OverInverse(rate: real, time: real, mu: real)
    requires mu > 0.0 && mu * time == 1.0
    ensures rate / mu == rate * time
  {
    var q := rate / mu;
    assert q * mu == rate;
    assert q * (mu * time) == (q * mu) * time;
  }

  lemma Quotient(free: real, unit: real, rate: real)
    requires unit > 0.0
    ensures rate * unit <= free <==> rate <= free / unit
  {
    var q := free / unit;
    assert q * unit == free;
    if rate <= q {
      assert (q - rate) * unit >= 0.0;
    } else {
      assert (rate - q) * unit > 0.0;
    }
  }

  /** The free blocks reach the floor exactly when the arrival rate is at most the unrounded
      critical rate ... */
  lemma FloorAgainstCriticalRate(e: Estimates, margin: real, free: int)
    requires e.serviceTime > 0.0 && e.blocks > 0.0 && margin > 0.0 && e.arrivalRate > 0.0
    ensures CriticalRate(e, margin, free).Some?
    ensures free >= CeilingInt(RawMinimum(e, margin)) <==> e.arrivalRate <= CriticalRate(e, margin, free).value
  {
    var unit := e.serviceTime * e.blocks * margin;
    UnitPositive(e.serviceTime, e.blocks, margin);
    Reassociate(e.arrivalRate, e.serviceTime, e.blocks, margin);
    UnitPositive(e.arrivalRate, unit, 1.0);
    Quotient(free as real, unit, e.arrivalRate);
    CeilingAgainst(RawMinimum(e, margin), free);
  }

  lemma CeilingAgainst(value: real, free: int)
    requires value > 0.0
    ensures free >= CeilingInt(value) <==> value <= free as real
  {
  }

  /** ... and without a positive margin the floor is 0 and no rate is critical. */
  lemma NoMarginNoFloor(e: Estimates, margin: real, free: int)
    requires e.serviceTime > 0.0 && e.blocks > 0.0 && margin <= 0.0 && e.arrivalRate >= 0.0
    ensures CriticalRate(e, margin, free) == None && CeilingInt(RawMinimum(e, margin)) == 0
  {
    NoMargin(e.arrivalRate, e.serviceTime, e.blocks, margin);
    CeilingIsLeast(RawMinimum(e, margin), 0);
  }

  /** The same holds without a block per request, as before ten completions with a block size
      of 0. */
  lemma NoBlocksNoFloor(e: Estimates, margin: real, free: int)
    requires e.serviceTime > 0.0 && e.blocks == 0.0
    ensures CriticalRate(e, margin, free) == None && CeilingInt(RawMinimum(e, margin)) == 0
  {
    CeilingIsLeast(RawMinimum(e, margin), 0);
  }

  lemma UnitPositive(s: real, b: real, m: real)
    requires s > 0.0 && b > 0.0 && m > 0.0
    ensures s * b * m > 0.0
  {
    assert s * b > 0.0;
  }

  lemma Reassociate(l: real, s: real, b: real, m: real)
    ensures l * s * b * m == l * (s * b * m)
  {
  }

  lemma NoMargin(l: real, s: real, b: real, m: real)
    requires l >= 0.0 && s > 0.0 && b > 0.0 && m <= 0.0
    ensures l * s * b * m <= 0.0
  {
    assert l * s >= 0.0;
    assert l * s * b >= 0.0;
  }

  // ----- the controller

  /** The estimates as functions of the completions observed: service times and positive block
      counts enter as their means. */
  ghost predicate Estimated(e: Estimates, blockSize: nat, ema: real, services: seq<real>, blocks: seq<real>) {
    if |services| < 10 then e == Estimates(0.1, 1.0, blockSize as real)
    else
      && e.arrivalRate == (if ema > 0.0 then ema else 0.1)
      && IsGreater(e.serviceTime, 0.001, Mean(services))
      && IsGreater(e.blocks, 1.0, Mean(blocks))
  }

  /** lambda * E[s] * E[m] * (1 + epsilon) blocks or more. */
  predicate CarriesLoad(n: nat, e: Estimates, margin: real) {
    e.arrivalRate * e.serviceTime * e.blocks * margin <= n as real
  }

  predicate IsGreater(m: real, a: real, b: real) {
    m >= a && m >= b && (m == a || m == b)
  }

  /** The eviction target of Algorithm 1, without the throttle. */
  function Needed(free: int, requested: int, least: nat): nat {
    if free - requested >= least then 0 else requested - free + least
  }

  /** It is the least number of evicted blocks that keeps the free blocks at the floor. */
  lemma NeededIsLeast(free: int, requested: int, least: nat, k: nat)
    ensures free - requested + k >= least <==> k >= Needed(free, requested, least)
  {
  }

  class QueueingController {
    const config: Config
    const serviceStats: WelfordStatistics
    const blocksStats: WelfordStatistics
    var lambdaEma: real
    var lastArrival: Option<real>
    var lastEviction: real
    /** The times, in milliseconds, of all evictions that were asked for. */
    ghost var evictions: seq<real>

    /** Evictions that were asked for keep the configured distance. */
    ghost predicate Valid()
      reads this, serviceStats, blocksStats
    {
      && serviceStats != blocksStats && serviceStats.Valid() && blocksStats.Valid()
      && (lambdaEma >= 0.0)
      && Spaced(evictions, config.minEvictionIntervalMs)
      && (evictions != [] ==> lastEviction == evictions[|evictions| - 1])
    }

    constructor (config: Config)
      ensures Valid() && evictions == [] && this.config == config
      ensures fresh(serviceStats) && fresh(blocksStats)
    {
      this.config := config;
      serviceStats := new WelfordStatistics();
      blocksStats := new WelfordStatistics();
      lambdaEma, lastArrival, lastEviction, evictions := 0.0, None, 0.0, [];
    }

    /** Blends the instantaneous rate into the estimate; `decay` is exp(-dt / window). A clock
        that does not advance leaves the estimate alone. */
    method RecordArrival(timestamp: real, decay: real)
      requires Valid() && 0.0 <= decay <= 1.0
      modifies this`lambdaEma, this`lastArrival
      ensures Valid() && lastArrival == Some(timestamp)
      ensures lambdaEma == match old(lastArrival)
                case Some(t) =>
                  if timestamp > t then (1.0 - decay) * (1.0 / (timestamp - t)) + decay * old(lambdaEma)
                  else old(lambdaEma)
                case None => old(lambdaEma)
    {
      if lastArrival.Some? {
        var dt := timestamp - lastArrival.value;
        if dt > 0.0 {
          var alpha := 1.0 - decay;
          var rate := 1.0 / dt;
          BlendNotNegative(alpha, rate, lambdaEma);
          lambdaEma := alpha * rate + (1.0 - alpha) * lambdaEma;
        }
      }
      lastArrival := Some(timestamp);
    }

    method RecordCompletion(serviceTimeMs: real, blocksConsumed: int)
      requires Valid()
      modifies serviceStats, blocksStats
      ensures Valid()
      ensures serviceStats.seen == old(serviceStats.seen) + [serviceTimeMs / 1000.0]
      ensures blocksStats.seen == old(blocksStats.seen) + if blocksConsumed > 0 then [blocksConsumed as real] else []
    {
      serviceStats.Update(serviceTimeMs / 1000.0);
      if blocksConsumed > 0 {
        blocksStats.Update(blocksConsumed as real);
      }
    }

    /** Conservative constants until ten requests have completed, then the running estimates
        kept away from zero. */
    function CurrentEstimates(): (e: Estimates)
      requires Valid()
      reads this, serviceStats, blocksStats
      ensures Estimated(e, config.blockSize, lambdaEma, serviceStats.seen, blocksStats.seen)
      ensures e.arrivalRate > 0.0 && e.serviceTime > 0.0
      ensures e.blocks > 0.0 <==> serviceStats.count >= 10 || config.blockSize > 0
    {
      if serviceStats.count < 10 then Estimates(0.1, 1.0, config.blockSize as real)
      else Estimates(if lambdaEma <= 0.0 then 0.1 else lambdaEma, MaxReal(0.001, serviceStats.mean),
                     MaxReal(1.0, blocksStats.mean))
    }

    /** The least number of blocks not below what the estimated load keeps in use, with its
        margin. */
    function Floor(): (least: nat)
      requires Valid()
      reads this, serviceStats, blocksStats
      ensures var e := CurrentEstimates();
              forall n: nat :: least <= n <==> CarriesLoad(n, e, config.safetyMargin)
    {
      StateOf(CurrentEstimates(), config.safetyMargin, 0).minimumStableBlocks
    }

    /** The throttled target: exactly what is needed, or nothing within the interval after
        the last eviction. The free blocks stay at the floor exactly when no eviction was
        needed or the throttle did not refuse it. */
    method GetEvictionTargetBlocks(free: int, requested: int, nowMs: real) returns (k: nat)
      requires Valid()
      modifies this`lastEviction, this`evictions
      ensures Valid()
      ensures var need := Needed(free, requested, Floor());
              var throttled := nowMs - old(lastEviction) < config.minEvictionIntervalMs;
              && k == (if throttled then 0 else need)
              && (free - requested + k >= Floor() <==> need == 0 || !throttled)
              && evictions == old(evictions) + (if k > 0 then [nowMs] else [])
    {
      var state := StateOf(CurrentEstimates(), config.safetyMargin, free);
      var projected := free - requested;
      if projected >= state.minimumStableBlocks {
        return 0;
      }
      var needed := requested - free + state.minimumStableBlocks;
      var since := nowMs - lastEviction;
      if since < config.minEvictionIntervalMs && needed > 0 {
        return 0;
      }
      SpacedAppend(evictions, nowMs, config.minEvictionIntervalMs);
      lastEviction := nowMs;
      evictions := evictions + [nowMs];
      assert projected + needed >= state.minimumStableBlocks;
      k := needed;
    }
  }

  lemma BlendNotNegative(a: real, r: real, l: real)
    requires 0.0 <= a <= 1.0 && r >= 0.0 && l >= 0.0
    ensures a * r + (1.0 - a) * l >= 0.0
  {
    assert a * r >= 0.0 && (1.0 - a) * l >= 0.0;
  }

  /** Consecutive times are at least the interval apart. */
  ghost predicate Spaced(times: seq<real>, interval: real) {
    forall i :: 0 <= i < |times| - 1 ==> times[i + 1] - times[i] >= interval
  }

  lemma SpacedAppend(times: seq<real>, now: real, interval: real)
    requires Spaced(times, interval) && (times != [] ==> now - times[|times| - 1] >= interval)
    ensures Spaced(times + [now], interval)
  {
  }

  /** Any two evictions are apart by the interval times the number of steps between them:
      a time window never holds a storm. */
  lemma {:induction false} NoEvictionStorm(times: seq<real>, interval: real, i: nat, j: nat)
    requires Spaced(times, interval) && i <= j < |times|
    ensures times[j] - times[i] >= (j - i) as real * interval
  {
    if i < j {
      NoEvictionStorm(times, interval, i, j - 1);
      OneStepMore((j - 1 - i) as real, interval);
    }
  }

  lemma OneStepMore(n: real, interval: real)
    ensures (n + 1.0) * interval == n * interval + interval
  {
  }
}
