/** Completeness and speed of the metering-edge search on monotone meters: it finds an
    in-band dimension if and only if one exists, in logarithmically many observations. */
module BudgetMeters {
  import opened Prelude
  import opened BudgetTargeting
  import opened BudgetSearch

  // ----- meters -----

  /** Each dimension's consumption as a function of its own knob. */
  datatype Meter = Meter(cpu: u64 -> u64, mem: u64 -> u64, builtin: u64 -> u64)

  predicate Nondecreasing(f: u64 -> u64) { forall x: u64, y: u64 :: x <= y ==> f(x) <= f(y) }

  predicate Monotone(m: Meter) { Nondecreasing(m.cpu) && Nondecreasing(m.mem) && Nondecreasing(m.builtin) }

  function Measure(m: Meter, knobs: BudgetKnobs): ConsumptionSample {
    ConsumptionSample(m.cpu(knobs.loopCount), m.mem(knobs.vecLen), m.builtin(knobs.stringLen))
  }

  /** What the search sees when its current knobs are run. */
  function Outcome(config: BudgetTargetConfig, m: Meter, s: Search): Verdict {
    Judge(config, Measure(m, s.knobs))
  }

  function Reading(m: Meter, d: MeterDimension, x: u64): u64 {
    match d case Cpu => m.cpu(x) case Mem => m.mem(x) case MinBuiltin => m.builtin(x)
  }

  function StatusAt(config: BudgetTargetConfig, m: Meter, d: MeterDimension, x: u64): BandStatus {
    config.band.Status(UtilizationBps(Reading(m, d, x), config.limits.For(d)))
  }

  /** Value x of the dimension's knob is allowed and lands in the target band. */
  predicate InBandAt(config: BudgetTargetConfig, m: Meter, d: MeterDimension, x: u64) {
    B(config, AxisOf(d)).lo <= x <= B(config, AxisOf(d)).hi && StatusAt(config, m, d, x) == InBand
  }

  predicate Reachable(config: BudgetTargetConfig, m: Meter) {
    exists d: MeterDimension, x: u64 :: InBandAt(config, m, d, x)
  }

  lemma {:induction false} ProductMonotone(d: nat, x: nat, y: nat)
    requires x <= y
    ensures d * x <= d * y
  {}

  lemma {:induction false} FactorOrder(d: nat, x: nat, y: nat)
    requires d * x < d * y
    ensures x < y
  {
    if y <= x {
      ProductMonotone(d, y, x);
    }
  }

  lemma {:induction false} QuotientMonotone(a: nat, b: nat, d: nat)
    requires a <= b && 0 < d
    ensures a / d <= b / d
  {
    assert d * (a / d) <= a && b < d * (b / d) + d == d * (b / d + 1);
    FactorOrder(d, a / d, b / d + 1);
  }

  lemma {:induction false} UtilizationMonotone(x: u64, y: u64, limit: u64)
    requires x <= y
    ensures UtilizationBps(x, limit) <= UtilizationBps(y, limit)
  {
    if 0 < limit {
      QuotientMonotone(x * LIMIT_BPS, y * LIMIT_BPS, limit);
    }
  }

  function Level(s: BandStatus): nat { match s case BelowTarget => 0 case InBand => 1 case AboveTarget => 2 }

  lemma {:induction false} StatusMonotone(config: BudgetTargetConfig, m: Meter, d: MeterDimension, x: u64, y: u64)
    requires Monotone(m) && x <= y
    ensures Level(StatusAt(config, m, d, x)) <= Level(StatusAt(config, m, d, y))
  {
    assert Reading(m, d, x) <= Reading(m, d, y);
    UtilizationMonotone(Reading(m, d, x), Reading(m, d, y), config.limits.For(d));
  }

  lemma {:induction false} OutcomeStatus(config: BudgetTargetConfig, m: Meter, s: Search, d: MeterDimension)
    ensures AxisStatus(Outcome(config, m, s), AxisOf(d)) == StatusAt(config, m, d, K(s, AxisOf(d)))
    ensures DimensionInBand(config, Measure(m, s.knobs), d) <==> StatusAt(config, m, d, K(s, AxisOf(d))) == InBand
  {}

  // ----- nothing in band is ever discarded -----

  /** Every in-band value is still inside its axis's range. */
  predicate NothingLost(config: BudgetTargetConfig, m: Meter, s: Search) {
    forall d: MeterDimension, x: u64 :: InBandAt(config, m, d, x) ==> R(s, AxisOf(d)).lo <= x <= R(s, AxisOf(d)).hi
  }

  /** An axis with an in-band value x left moves, keeps x, and drops the side of its
      knob that x is not on. */
  lemma {:induction false} AxisClosesIn(config: BudgetTargetConfig, m: Meter, s: Search, d: MeterDimension, x: u64)
    requires Monotone(m) && Bracketed(config, s) && InBandAt(config, m, d, x)
    requires R(s, AxisOf(d)).lo <= x <= R(s, AxisOf(d)).hi && Outcome(config, m, s).edge.None?
    ensures Moves(s, Outcome(config, m, s), AxisOf(d))
    ensures var q := AdjustedRange(R(s, AxisOf(d)), K(s, AxisOf(d)), AxisStatus(Outcome(config, m, s), AxisOf(d))).value;
            && q.lo <= x <= q.hi
            && ((K(s, AxisOf(d)) < q.lo && q.hi == R(s, AxisOf(d)).hi) || (q.hi < K(s, AxisOf(d)) && q.lo == R(s, AxisOf(d)).lo))
  {
    var current := K(s, AxisOf(d));
    assert AxisBracketed(config, s, AxisOf(d));
    EdgeNone(config, Measure(m, s.knobs));
    OutcomeStatus(config, m, s, d);
    assert !DimensionInBand(config, Measure(m, s.knobs), d);
    if x <= current {
      StatusMonotone(config, m, d, x, current);
    } else {
      StatusMonotone(config, m, d, current, x);
    }
  }

  lemma {:induction false} NarrowAxis(s: Search, v: Verdict, a: KnobAxis)
    requires Moves(s, v, a)
    ensures SomeAxisMoves(s, v)
    ensures var q := AdjustedRange(R(s, a), K(s, a), AxisStatus(v, a)).value;
            R(NarrowStep(s, v), a) == q && K(NarrowStep(s, v), a) == Midpoint(q)
  {
    NarrowEffect(s, v);
    assert AxisStep(R(s, a), K(s, a), AxisStatus(v, a), R(NarrowStep(s, v), a), K(NarrowStep(s, v), a));
  }

  lemma {:induction false} NarrowLosesNothing(config: BudgetTargetConfig, m: Meter, s: Search)
    requires Monotone(m) && Bracketed(config, s) && NothingLost(config, m, s) && Outcome(config, m, s).edge.None?
    ensures NothingLost(config, m, NarrowStep(s, Outcome(config, m, s)))
    ensures !SomeAxisMoves(s, Outcome(config, m, s)) ==> !Reachable(config, m)
  {
    var v := Outcome(config, m, s);
    var t := NarrowStep(s, v);
    forall d: MeterDimension, x: u64 | InBandAt(config, m, d, x)
      ensures SomeAxisMoves(s, v) && R(t, AxisOf(d)).lo <= x <= R(t, AxisOf(d)).hi
    {
      AxisClosesIn(config, m, s, d, x);
      NarrowAxis(s, v, AxisOf(d));
    }
  }

  /** An observation at which no axis moves proves that no allowed knob value of any
      dimension lands in the band. */
  lemma {:induction false} NoMoveProvesUnreachable(config: BudgetTargetConfig, m: Meter, s: Search)
    requires Monotone(m) && Bracketed(config, s) && NothingLost(config, m, s)
    requires Outcome(config, m, s).edge.None? && !SomeAxisMoves(s, Outcome(config, m, s))
    ensures !Reachable(config, m)
  {
    NarrowLosesNothing(config, m, s);
  }

  // ----- the closed loop of search and meter -----

  /** One round: run the current knobs and observe the outcome. */
  function Round(config: BudgetTargetConfig, m: Meter, s: Search): Search {
    ObserveStep(config, s, Outcome(config, m, s))
  }

  function Iterate(f: Search -> Search, s: Search, k: nat): Search {
    if k == 0 then s else f(Iterate(f, s, k - 1))
  }

  /** The search after k rounds. */
  function Trajectory(config: BudgetTargetConfig, m: Meter, s: Search, k: nat): Search {
    Iterate(t => Round(config, m, t), s, k)
  }

  lemma {:induction false} FixpointStays(f: Search -> Search, s: Search, j: nat, k: nat)
    requires j <= k && f(Iterate(f, s, j)) == Iterate(f, s, j)
    ensures Iterate(f, s, k) == Iterate(f, s, j)
  {
    if j < k {
      FixpointStays(f, s, j, k - 1);
    }
  }

  lemma {:induction false} IterateShift(f: Search -> Search, s: Search, k: nat)
    ensures Iterate(f, s, k + 1) == Iterate(f, f(s), k)
  {
    if k > 0 {
      IterateShift(f, s, k - 1);
    } else {
      assert Iterate(f, s, 0) == s;
    }
  }

  lemma {:induction false} ConvergedRound(config: BudgetTargetConfig, m: Meter, s: Search)
    requires s.budgetEdge.Some?
    ensures Round(config, m, s) == s
  {}

  lemma {:induction false} ConvergedStays(config: BudgetTargetConfig, m: Meter, s: Search, j: nat, k: nat)
    requires j <= k && Trajectory(config, m, s, j).budgetEdge.Some?
    ensures Trajectory(config, m, s, k) == Trajectory(config, m, s, j)
  {
    ConvergedRound(config, m, Trajectory(config, m, s, j));
    FixpointStays(t => Round(config, m, t), s, j, k);
  }

  /** Brackets hold, an unconverged search has lost nothing, a nudged or stalled one
      has proved there is nothing to find, and a converged one has found something. */
  predicate Sound(config: BudgetTargetConfig, m: Meter, s: Search) {
    && Bracketed(config, s)
    && (s.budgetEdge.None? ==> NothingLost(config, m, s))
    && (s.stalled || s.nudged ==> !Reachable(config, m))
    && (s.budgetEdge.Some? ==> Reachable(config, m))
  }

  lemma {:induction false} EdgeMeansReachable(config: BudgetTargetConfig, m: Meter, s: Search)
    requires Bracketed(config, s) && Outcome(config, m, s).edge.Some?
    ensures Reachable(config, m)
  {
    EdgeExact(config, Measure(m, s.knobs));
    var d := Outcome(config, m, s).edge.value.dimension;
    OutcomeStatus(config, m, s, d);
    assert AxisBracketed(config, s, AxisOf(d));
    assert InBandAt(config, m, d, K(s, AxisOf(d)));
  }

  lemma {:induction false} NarrowSound(config: BudgetTargetConfig, m: Meter, s: Search)
    requires Monotone(m) && Sound(config, m, s) && s.budgetEdge.None? && Outcome(config, m, s).edge.None?
    ensures Sound(config, m, NarrowStep(s, Outcome(config, m, s)))
  {
    NarrowLosesNothing(config, m, s);
    NarrowKeepsBracket(config, s, Outcome(config, m, s));
    NarrowEffect(s, Outcome(config, m, s));
    NarrowKeepsRecord(s, Outcome(config, m, s));
  }

  /** Soundness depends only on ranges, knobs, and the stall, nudge and edge fields. */
  lemma {:induction false} SoundFields(config: BudgetTargetConfig, m: Meter, s: Search, t: Search)
    requires Sound(config, m, s) && t.ranges == s.ranges && t.knobs == s.knobs && t.iterations <= config.maxIterations
    requires t.stalled == s.stalled && t.nudged == s.nudged
    requires t.budgetEdge == s.budgetEdge || Reachable(config, m)
    requires t.budgetEdge.None? ==> s.budgetEdge.None?
    ensures Sound(config, m, t)
  {
    SameKnobsBracketed(config, s, t);
    assert forall a: KnobAxis :: R(s, a) == R(t, a);
  }

  lemma {:induction false} RoundSound(config: BudgetTargetConfig, m: Meter, s: Search)
    requires Monotone(m) && Sound(config, m, s)
    ensures Sound(config, m, Round(config, m, s))
  {
    var v := Outcome(config, m, s);
    if v.edge.Some? {
      EdgeMeansReachable(config, m, s);
    }
    if Terminal(config, s) || v.edge.Some? {
      SoundFields(config, m, s, Round(config, m, s));
    } else {
      var c := CountSample(config, s, v.peak);
      SoundFields(config, m, s, c);
      NarrowSound(config, m, c);
      NarrowKeepsRecord(c, v);
      SoundFields(config, m, NarrowStep(c, v), Round(config, m, s));
    }
  }

  lemma {:induction false} TrajectorySound(config: BudgetTargetConfig, m: Meter, s: Search, k: nat)
    requires Monotone(m) && Sound(config, m, s)
    ensures Sound(config, m, Trajectory(config, m, s, k))
  {
    if k > 0 {
      TrajectorySound(config, m, s, k - 1);
      RoundSound(config, m, Trajectory(config, m, s, k - 1));
    }
  }

  lemma {:induction false} NewSearchSound(config: BudgetTargetConfig, rngSeed: bv64, m: Meter)
    ensures Sound(config, m, NewSearch(config, rngSeed))
  {
    NewSearchBracketed(config, rngSeed);
  }

  lemma {:induction false} DictionarySearchSound(config: BudgetTargetConfig, rngSeed: bv64, m: Meter, d: MeterDimension, value: u64)
    ensures Sound(config, m, DictionarySearch(config, rngSeed, d, value))
  {
    forall a: KnobAxis ensures AxisBracketed(config, DictionarySearch(config, rngSeed, d, value), a) {}
  }

  // ----- logarithmic convergence -----

  /** floor(log2 n). */
  function Log2(n: nat): nat
    requires 0 < n
  {
    if n == 1 then 0 else 1 + Log2(n / 2)
  }

  lemma {:induction false} Log2Exact(n: nat)
    requires 0 < n
    ensures Pow2(Log2(n)) <= n < Pow2(Log2(n) + 1)
  {
    if n > 1 {
      Log2Exact(n / 2);
    }
  }

  /** The number of values an axis allows. */
  function Values(r: Range): nat { r.hi - r.lo + 1 }

  /** The most observations a search from the midpoint needs on this dimension. */
  function Schedule(config: BudgetTargetConfig, d: MeterDimension): nat {
    Log2(Values(B(config, AxisOf(d)))) + 1
  }

  /** n halved k times, rounding down. */
  function Halve(n: nat, k: nat): nat { if k == 0 then n else Halve(n, k - 1) / 2 }

  lemma {:induction false} HalveShift(n: nat, k: nat)
    requires 0 < k
    ensures Halve(n, k) == Halve(n / 2, k - 1)
  {
    if k > 1 {
      HalveShift(n, k - 1);
    }
  }

  lemma {:induction false} HalvesToZero(n: nat)
    requires 0 < n
    ensures Halve(n, Log2(n) + 1) == 0
  {
    if n > 1 {
      HalvesToZero(n / 2);
      HalveShift(n, Log2(n) + 1);
    } else {
      assert Halve(n, 0) == 1;
    }
  }

  /** The axis's knob is at the midpoint of its range, which has been halved k times. */
  predicate Halved(config: BudgetTargetConfig, s: Search, a: KnobAxis, k: nat) {
    K(s, a) == Midpoint(R(s, a)) && Values(R(s, a)) <= Halve(Values(B(config, a)), k)
  }

  lemma {:induction false} HalvingArithmetic(r: Range, q: Range)
    requires (q.lo > Midpoint(r) && q.hi <= r.hi) || (q.lo >= r.lo && q.hi < Midpoint(r))
    ensures 2 * Values(q) <= Values(r)
  {}

  lemma {:induction false} UnconvergedRound(config: BudgetTargetConfig, m: Meter, s: Search)
    requires Round(config, m, s).budgetEdge.None?
    ensures s.budgetEdge.None? && Outcome(config, m, s).edge.None?
  {
    EdgeOnlyFromVerdict(config, s, Outcome(config, m, s));
  }

  /** One inconclusive round with an in-band value to find: it is counted, and leaves the
      axis at the midpoint of a range that still holds the value. */
  lemma {:induction false} RoundClosesIn(config: BudgetTargetConfig, m: Meter, s: Search, d: MeterDimension, x: u64)
    requires Monotone(m) && Sound(config, m, s) && InBandAt(config, m, d, x)
    requires s.iterations < config.maxIterations && Round(config, m, s).budgetEdge.None?
    ensures var t, a := Round(config, m, s), AxisOf(d);
            && t.iterations == s.iterations + 1
            && K(t, a) == Midpoint(R(t, a))
            && Values(R(t, a)) <= Values(R(s, a))
            && (K(s, a) == Midpoint(R(s, a)) ==> 2 * Values(R(t, a)) <= Values(R(s, a)))
  {
    var a := AxisOf(d);
    UnconvergedRound(config, m, s);
    var v := Outcome(config, m, s);
    var c := CountSample(config, s, v.peak);
    SoundFields(config, m, s, c);
    AxisClosesIn(config, m, c, d, x);
    NarrowAxis(c, v, a);
    NarrowKeepsRecord(c, v);
    if K(s, a) == Midpoint(R(s, a)) {
      HalvingArithmetic(R(s, a), R(NarrowStep(c, v), a));
    }
  }

  /** k rounds after a start that had counted i observations, the search has converged
      or is on schedule: every round counted and the axis halved k times. */
  predicate OnSchedule(config: BudgetTargetConfig, m: Meter, s: Search, d: MeterDimension, i: nat, k: nat) {
    s.budgetEdge.Some? || (Sound(config, m, s) && s.iterations == i + k && Halved(config, s, AxisOf(d), k))
  }

  lemma {:induction false} RoundOnSchedule(config: BudgetTargetConfig, m: Meter, s: Search, d: MeterDimension, x: u64, i: nat, k: nat)
    requires Monotone(m) && InBandAt(config, m, d, x)
    requires OnSchedule(config, m, s, d, i, k) && i + k < config.maxIterations
    ensures OnSchedule(config, m, Round(config, m, s), d, i, k + 1)
  {
    if Round(config, m, s).budgetEdge.None? {
      UnconvergedRound(config, m, s);
      RoundSound(config, m, s);
      RoundClosesIn(config, m, s, d, x);
    }
  }

  /** A property that every round carries from stage j to stage j + 1 holds after k. */
  lemma {:induction false} RoundByRound(f: Search -> Search, p: (Search, nat) -> bool, s: Search, k: nat)
    requires p(s, 0)
    requires forall t: Search, j: nat :: j < k && p(t, j) ==> p(f(t), j + 1)
    ensures p(Iterate(f, s, k), k)
  {
    if k > 0 {
      RoundByRound(f, p, s, k - 1);
    }
  }

  lemma {:induction false} StaysOnSchedule(config: BudgetTargetConfig, m: Meter, s: Search, d: MeterDimension, x: u64, k: nat)
    requires Monotone(m) && InBandAt(config, m, d, x) && Sound(config, m, s) && Halved(config, s, AxisOf(d), 0)
    requires s.iterations + k <= config.maxIterations
    ensures OnSchedule(config, m, Trajectory(config, m, s, k), d, s.iterations, k)
  {
    var i := s.iterations;
    forall t: Search, j: nat | j < k && OnSchedule(config, m, t, d, i, j)
      ensures OnSchedule(config, m, Round(config, m, t), d, i, j + 1)
    {
      RoundOnSchedule(config, m, t, d, x, i, j);
    }
    RoundByRound(t => Round(config, m, t), (t: Search, j: nat) => OnSchedule(config, m, t, d, i, j), s, k);
  }

  lemma {:induction false} MidpointHalved(config: BudgetTargetConfig, m: Meter, s: Search, a: KnobAxis)
    requires Sound(config, m, s) && K(s, a) == Midpoint(R(s, a))
    ensures Halved(config, s, a, 0)
  {
    assert AxisBracketed(config, s, a);
  }

  /** At the end of its schedule a search has converged. */
  lemma {:induction false} ScheduleEnds(config: BudgetTargetConfig, m: Meter, t: Search, d: MeterDimension, i: nat)
    requires OnSchedule(config, m, t, d, i, Schedule(config, d))
    ensures t.budgetEdge.Some?
  {
    HalvesToZero(Values(B(config, AxisOf(d))));
  }

  /** A sound search at its midpoint with an in-band value left converges on schedule. */
  lemma {:induction false} ConvergesFromMidpoint(config: BudgetTargetConfig, m: Meter, s: Search, d: MeterDimension, x: u64)
    requires Monotone(m) && InBandAt(config, m, d, x) && Sound(config, m, s)
    requires K(s, AxisOf(d)) == Midpoint(R(s, AxisOf(d))) && s.iterations + Schedule(config, d) <= config.maxIterations
    ensures Trajectory(config, m, s, Schedule(config, d)).budgetEdge.Some?
  {
    MidpointHalved(config, m, s, AxisOf(d));
    StaysOnSchedule(config, m, s, d, x, Schedule(config, d));
    ScheduleEnds(config, m, Trajectory(config, m, s, Schedule(config, d)), d, s.iterations);
  }

  lemma {:induction false} ReachableNeverStalls(config: BudgetTargetConfig, m: Meter, s: Search, j: nat)
    requires Monotone(m) && Sound(config, m, s) && Reachable(config, m)
    ensures !Trajectory(config, m, s, j).stalled && !Trajectory(config, m, s, j).nudged
  {
    TrajectorySound(config, m, s, j);
  }

  /** Completeness and speed: if some allowed value of a dimension's knob lands in band,
      a new search converges within floor(log2 n) + 1 observations, n being the number
      of values of that knob, and never nudges or stalls. */
  lemma {:induction false} ConvergesLogarithmically(config: BudgetTargetConfig, m: Meter, rngSeed: bv64, d: MeterDimension, x: u64)
    requires Monotone(m) && InBandAt(config, m, d, x)
    requires Log2(Values(B(config, AxisOf(d)))) + 1 <= config.maxIterations
    ensures Trajectory(config, m, NewSearch(config, rngSeed), Log2(Values(B(config, AxisOf(d)))) + 1).budgetEdge.Some?
    ensures forall j: nat :: !Trajectory(config, m, NewSearch(config, rngSeed), j).stalled
                          && !Trajectory(config, m, NewSearch(config, rngSeed), j).nudged
  {
    var s := NewSearch(config, rngSeed);
    NewSearchSound(config, rngSeed, m);
    ConvergesFromMidpoint(config, m, s, d, x);
    forall j: nat
      ensures !Trajectory(config, m, s, j).stalled && !Trajectory(config, m, s, j).nudged
    {
      ReachableNeverStalls(config, m, s, j);
    }
  }

  lemma {:induction false} ConvergesFromAnywhere(config: BudgetTargetConfig, m: Meter, s: Search, d: MeterDimension, x: u64)
    requires Monotone(m) && InBandAt(config, m, d, x) && Sound(config, m, s)
    requires s.iterations + Schedule(config, d) + 1 <= config.maxIterations
    ensures Trajectory(config, m, s, Schedule(config, d) + 1).budgetEdge.Some?
  {
    var t := Round(config, m, s);
    RoundSound(config, m, s);
    IterateShift(u => Round(config, m, u), s, Schedule(config, d));
    if t.budgetEdge.None? {
      RoundClosesIn(config, m, s, d, x);
      ConvergesFromMidpoint(config, m, t, d, x);
    } else {
      ConvergedStays(config, m, t, 0, Schedule(config, d));
    }
  }

  /** Started from any dictionary entry, whatever its value, the search needs at most one
      observation more: floor(log2 n) + 2. */
  lemma {:induction false} DictionaryStartConverges(config: BudgetTargetConfig, m: Meter, rngSeed: bv64, entry: MeterDimension, value: u64,
                                 d: MeterDimension, x: u64)
    requires Monotone(m) && InBandAt(config, m, d, x)
    requires Log2(Values(B(config, AxisOf(d)))) + 2 <= config.maxIterations
    ensures Trajectory(config, m, DictionarySearch(config, rngSeed, entry, value),
                       Log2(Values(B(config, AxisOf(d)))) + 2).budgetEdge.Some?
  {
    var s := DictionarySearch(config, rngSeed, entry, value);
    DictionarySearchSound(config, rngSeed, m, entry, value);
    assert s.iterations == 0;
    ConvergesFromAnywhere(config, m, s, d, x);
  }

  /** The search decides: with a cap of at least 65, which covers every u64 range, it
      has converged after any 65 or more observations if and only if some allowed knob
      value of some dimension lands in band. */
  lemma {:induction false} SearchDecides(config: BudgetTargetConfig, m: Meter, rngSeed: bv64, k: nat)
    requires Monotone(m) && 65 <= config.maxIterations && 65 <= k
    ensures Trajectory(config, m, NewSearch(config, rngSeed), k).budgetEdge.Some? <==> Reachable(config, m)
  {
    var s := NewSearch(config, rngSeed);
    NewSearchSound(config, rngSeed, m);
    TrajectorySound(config, m, s, k);
    if Reachable(config, m) {
      var d: MeterDimension, x: u64 :| InBandAt(config, m, d, x);
      ScheduleAtMost65(config, d);
      ConvergesFromMidpoint(config, m, s, d, x);
      ConvergedStays(config, m, s, Schedule(config, d), k);
    }
  }

  lemma {:induction false} Log2Below(n: nat, k: nat)
    requires 0 < n <= Pow2(k)
    ensures Log2(n) <= k
  {
    if n > 1 && k > 0 {
      Log2Below(n / 2, k - 1);
    }
  }

  lemma {:induction false} ScheduleAtMost65(config: BudgetTargetConfig, d: MeterDimension)
    ensures Schedule(config, d) <= 65
  {
    Pow2Of64();
    Log2Below(Values(B(config, AxisOf(d))), 64);
  }
}
