/** What the search of budget_targeting.rs does with the numbers of a sample: utilization,
    bands and convergence by cross-multiplied consumption, and where each knob goes. */
module BudgetNumbers {
  import opened Prelude
  import opened BudgetTargeting
  import opened BudgetSearch
  import Prng

  // ----- utilization -----

  lemma {:induction false} QuotientBounds(x: nat, limit: nat)
    requires limit > 0
    ensures (x / limit) * limit <= x < (x / limit + 1) * limit
  {
    assert x == limit * (x / limit) + x % limit;
  }

  lemma {:induction false} ProductLeq(a: nat, b: nat, limit: nat)
    requires a <= b
    ensures a * limit <= b * limit
  {}

  /** Utilization is how many ten-thousandths of the limit are used, rounded down, up to the
      largest u32; without a limit, any consumption is that. */
  lemma {:induction false} UtilizationExact(v: u64, limit: u64)
    ensures var u := UtilizationBps(v, limit);
            if limit == 0 then u == (if v == 0 then 0 else 0xFFFF_FFFF)
            else if u < 0xFFFF_FFFF then u * limit <= 10_000 * v < (u + 1) * limit
            else 10_000 * v >= 0xFFFF_FFFF * limit
  {
    if limit > 0 {
      QuotientBounds(v * 10_000, limit);
      if v * 10_000 / limit >= 0xFFFF_FFFF {
        ProductLeq(0xFFFF_FFFF, v * 10_000 / limit, limit);
      }
    }
  }

  /** A quotient is below m exactly when the number is below m times the divisor. */
  lemma {:induction false} QuotientBelow(x: nat, limit: nat, m: nat)
    requires limit > 0
    ensures x / limit < m <==> x < m * limit
  {
    QuotientBounds(x, limit);
    if x / limit < m {
      ProductLeq(x / limit + 1, m, limit);
    } else {
      ProductLeq(m, x / limit, limit);
    }
  }

  predicate BelowByNumbers(v: u64, limit: u64, width: u32) {
    if limit == 0 then v == 0 && width < 10_000 else 10_000 * v < (10_000 - width) * limit
  }

  predicate AboveByNumbers(v: u64, limit: u64, width: u32) {
    10_000 + width < 0xFFFF_FFFF && if limit == 0 then v > 0 else 10_000 * v >= (10_001 + width) * limit
  }

  lemma {:induction false} NegativeProduct(a: int, limit: nat)
    requires a <= 0
    ensures a * limit <= 0
  {}

  /** The band by cross-multiplied numbers: width ten-thousandths of the limit to both
      sides of it, where the upper side includes what rounds down to it. */
  lemma {:induction false} StatusExact(v: u64, limit: u64, width: u32)
    ensures var status := TargetBand(width).Status(UtilizationBps(v, limit));
            && (status == BelowTarget <==> BelowByNumbers(v, limit, width))
            && (status == AboveTarget <==> AboveByNumbers(v, limit, width))
  {
    if limit > 0 {
      QuotientBelow(10_000 * v, limit, Max(10_000 - width, 0));
      QuotientBelow(10_000 * v, limit, 10_001 + width);
      if width >= 10_000 {
        NegativeProduct(10_000 - width, limit);
      }
    }
  }

  // ----- convergence -----

  predicate InBandByNumbers(v: u64, limit: u64, width: u32) {
    !BelowByNumbers(v, limit, width) && !AboveByNumbers(v, limit, width)
  }

  /** An observation converges exactly when the numbers of some resource are in the band,
      and on that resource. */
  lemma {:induction false} ConvergesByNumbers(config: BudgetTargetConfig, s: Search, sample: ConsumptionSample)
    requires s.budgetEdge.None?
    ensures var w, edge := config.band.widthBps, ObserveStep(config, s, Judge(config, sample)).budgetEdge;
            && (edge.Some? <==> (|| InBandByNumbers(sample.cpuInsns, config.limits.cpuInsns, w)
                                 || InBandByNumbers(sample.memBytes, config.limits.memBytes, w)
                                 || InBandByNumbers(sample.minBuiltin, config.limits.minBuiltin, w)))
            && (edge.Some? ==> match edge.value.dimension
                               case Cpu => InBandByNumbers(sample.cpuInsns, config.limits.cpuInsns, w)
                               case Mem => InBandByNumbers(sample.memBytes, config.limits.memBytes, w)
                               case MinBuiltin => InBandByNumbers(sample.minBuiltin, config.limits.minBuiltin, w))
  {
    ConvergenceExactAndFinal(config, s, sample);
    BandsByNumbers(config, sample);
    var edge := ObserveStep(config, s, Judge(config, sample)).budgetEdge;
    if edge.None? {
      assert !DimensionInBand(config, sample, Cpu) && !DimensionInBand(config, sample, Mem) && !DimensionInBand(config, sample, MinBuiltin);
    }
  }

  lemma {:induction false} BandsByNumbers(config: BudgetTargetConfig, sample: ConsumptionSample)
    ensures var w := config.band.widthBps;
            && (DimensionInBand(config, sample, Cpu) <==> InBandByNumbers(sample.cpuInsns, config.limits.cpuInsns, w))
            && (DimensionInBand(config, sample, Mem) <==> InBandByNumbers(sample.memBytes, config.limits.memBytes, w))
            && (DimensionInBand(config, sample, MinBuiltin) <==> InBandByNumbers(sample.minBuiltin, config.limits.minBuiltin, w))
  {
    var w := config.band.widthBps;
    assert config.band == TargetBand(w);
    StatusExact(sample.cpuInsns, config.limits.cpuInsns, w);
    StatusExact(sample.memBytes, config.limits.memBytes, w);
    StatusExact(sample.minBuiltin, config.limits.minBuiltin, w);
  }

  /** The peak is the largest of the three utilizations. */
  lemma {:induction false} PeakIsLargest(sample: ConsumptionSample, limits: MeteringLimits)
    ensures var p := PeakUtilization(sample, limits);
            var c, m, b := UtilizationBps(sample.cpuInsns, limits.cpuInsns), UtilizationBps(sample.memBytes, limits.memBytes),
                           UtilizationBps(sample.minBuiltin, limits.minBuiltin);
            p >= c && p >= m && p >= b && (p == c || p == m || p == b)
  {}

  // ----- where the knobs go -----

  /** How a range with this knob is cut: the values above it below target, those below it
      above target, with the knob in the middle. */
  predicate CutByNumbers(r: Range, knob: u64, below: bool, above: bool, r': Range, knob': u64) {
    if below && knob < r.hi then r'.lo == knob + 1 && r'.hi == r.hi && 2 * knob' <= r'.lo + r'.hi <= 2 * knob' + 1
    else if below && r.hi == U64_MAX then r'.lo == r'.hi == knob' == U64_MAX
    else if above && r.lo < knob then r'.lo == r.lo && r'.hi == knob - 1 && 2 * knob' <= r'.lo + r'.hi <= 2 * knob' + 1
    else r' == r && knob' == knob
  }

  lemma {:induction false} StepByNumbers(r: Range, knob: u64, status: BandStatus, r': Range, knob': u64)
    requires r.lo <= knob <= r.hi && AxisStep(r, knob, status, r', knob')
    ensures CutByNumbers(r, knob, status == BelowTarget, status == AboveTarget, r', knob')
  {}

  predicate AllBelow(config: BudgetTargetConfig, sample: ConsumptionSample) {
    var w := config.band.widthBps;
    && BelowByNumbers(sample.cpuInsns, config.limits.cpuInsns, w)
    && BelowByNumbers(sample.memBytes, config.limits.memBytes, w)
    && BelowByNumbers(sample.minBuiltin, config.limits.minBuiltin, w)
  }

  predicate AnyAbove(config: BudgetTargetConfig, sample: ConsumptionSample) {
    var w := config.band.widthBps;
    || AboveByNumbers(sample.cpuInsns, config.limits.cpuInsns, w)
    || AboveByNumbers(sample.memBytes, config.limits.memBytes, w)
    || AboveByNumbers(sample.minBuiltin, config.limits.minBuiltin, w)
  }

  lemma {:induction false} VerdictByNumbers(config: BudgetTargetConfig, sample: ConsumptionSample)
    ensures var v, w := Judge(config, sample), config.band.widthBps;
            && (v.cpu == BelowTarget <==> BelowByNumbers(sample.cpuInsns, config.limits.cpuInsns, w))
            && (v.cpu == AboveTarget <==> AboveByNumbers(sample.cpuInsns, config.limits.cpuInsns, w))
            && (v.mem == BelowTarget <==> BelowByNumbers(sample.memBytes, config.limits.memBytes, w))
            && (v.mem == AboveTarget <==> AboveByNumbers(sample.memBytes, config.limits.memBytes, w))
            && (v.minBuiltin == BelowTarget <==> BelowByNumbers(sample.minBuiltin, config.limits.minBuiltin, w))
            && (v.minBuiltin == AboveTarget <==> AboveByNumbers(sample.minBuiltin, config.limits.minBuiltin, w))
            && (v.overall == BelowTarget <==> AllBelow(config, sample))
            && (v.overall == AboveTarget <==> AnyAbove(config, sample))
  {
    var w := config.band.widthBps;
    assert config.band == TargetBand(w);
    StatusExact(sample.cpuInsns, config.limits.cpuInsns, w);
    StatusExact(sample.memBytes, config.limits.memBytes, w);
    StatusExact(sample.minBuiltin, config.limits.minBuiltin, w);
    PeakIsLargest(sample, config.limits);
  }

  /** One observation that neither ends the search nor leaves every knob where it is cuts
      each range by the numbers of its own resource: loops by cpu, vectors by memory,
      strings by builtins, nesting by all of them. */
  lemma {:induction false} KnobsByNumbers(config: BudgetTargetConfig, s: Search, sample: ConsumptionSample)
    requires Bracketed(config, s) && !Terminal(config, s) && Judge(config, sample).edge.None?
    requires SomeAxisMoves(s, Judge(config, sample))
    ensures var t, w := ObserveStep(config, s, Judge(config, sample)), config.band.widthBps;
            && CutByNumbers(s.ranges.loopCount, s.knobs.loopCount,
                            BelowByNumbers(sample.cpuInsns, config.limits.cpuInsns, w),
                            AboveByNumbers(sample.cpuInsns, config.limits.cpuInsns, w), t.ranges.loopCount, t.knobs.loopCount)
            && CutByNumbers(s.ranges.vecLen, s.knobs.vecLen,
                            BelowByNumbers(sample.memBytes, config.limits.memBytes, w),
                            AboveByNumbers(sample.memBytes, config.limits.memBytes, w), t.ranges.vecLen, t.knobs.vecLen)
            && CutByNumbers(s.ranges.stringLen, s.knobs.stringLen,
                            BelowByNumbers(sample.minBuiltin, config.limits.minBuiltin, w),
                            AboveByNumbers(sample.minBuiltin, config.limits.minBuiltin, w), t.ranges.stringLen, t.knobs.stringLen)
            && CutByNumbers(s.ranges.nestedDepth, s.knobs.nestedDepth, AllBelow(config, sample), AnyAbove(config, sample),
                            t.ranges.nestedDepth, t.knobs.nestedDepth)
  {
    var v := Judge(config, sample);
    VerdictByNumbers(config, sample);
    AxisCut(config, s, v, LoopCount);
    AxisCut(config, s, v, VecLen);
    AxisCut(config, s, v, StringLen);
    AxisCut(config, s, v, NestedDepth);
  }

  lemma {:induction false} AxisCut(config: BudgetTargetConfig, s: Search, v: Verdict, a: KnobAxis)
    requires Bracketed(config, s) && !Terminal(config, s) && v.edge.None? && SomeAxisMoves(s, v)
    ensures var t := ObserveStep(config, s, v);
            CutByNumbers(R(s, a), K(s, a), AxisStatus(v, a) == BelowTarget, AxisStatus(v, a) == AboveTarget, R(t, a), K(t, a))
  {
    var c := CountSample(config, s, v.peak);
    var t := NarrowStep(c, v);
    MovesFromKnobs(s, c, v);
    NarrowEffect(c, v);
    assert AxisBracketed(config, s, a);
    assert AxisStep(R(c, a), K(c, a), AxisStatus(v, a), R(t, a), K(t, a));
    StepByNumbers(R(s, a), K(s, a), AxisStatus(v, a), R(t, a), K(t, a));
  }

  lemma {:induction false} MovesFromKnobs(s: Search, t: Search, v: Verdict)
    requires s.ranges == t.ranges && s.knobs == t.knobs && SomeAxisMoves(s, v)
    ensures SomeAxisMoves(t, v)
  {
    var a: KnobAxis :| Moves(s, v, a);
    assert Moves(t, v, a);
  }

  /** Some knob moves exactly when the numbers leave it room to. */
  lemma {:induction false} MovesByNumbers(config: BudgetTargetConfig, s: Search, sample: ConsumptionSample)
    requires Bracketed(config, s)
    ensures var w := config.band.widthBps;
            SomeAxisMoves(s, Judge(config, sample)) <==>
              || RoomByNumbers(s.ranges.loopCount, s.knobs.loopCount, BelowByNumbers(sample.cpuInsns, config.limits.cpuInsns, w),
                               AboveByNumbers(sample.cpuInsns, config.limits.cpuInsns, w))
              || RoomByNumbers(s.ranges.vecLen, s.knobs.vecLen, BelowByNumbers(sample.memBytes, config.limits.memBytes, w),
                               AboveByNumbers(sample.memBytes, config.limits.memBytes, w))
              || RoomByNumbers(s.ranges.stringLen, s.knobs.stringLen, BelowByNumbers(sample.minBuiltin, config.limits.minBuiltin, w),
                               AboveByNumbers(sample.minBuiltin, config.limits.minBuiltin, w))
              || RoomByNumbers(s.ranges.nestedDepth, s.knobs.nestedDepth, AllBelow(config, sample), AnyAbove(config, sample))
  {
    var v := Judge(config, sample);
    VerdictByNumbers(config, sample);
    forall a: KnobAxis
      ensures Moves(s, v, a) <==> RoomByNumbers(R(s, a), K(s, a), AxisStatus(v, a) == BelowTarget, AxisStatus(v, a) == AboveTarget)
    {
      assert AxisBracketed(config, s, a);
    }
    assert SomeAxisMoves(s, v) <==> Moves(s, v, LoopCount) || Moves(s, v, VecLen) || Moves(s, v, StringLen) || Moves(s, v, NestedDepth);
  }

  predicate RoomByNumbers(r: Range, knob: u64, below: bool, above: bool) {
    (below && (knob < r.hi || r.hi == U64_MAX)) || (above && r.lo < knob)
  }

  // ----- counting, and the end -----

  /** The answer is also what is remembered: in band when the search has converged,
      otherwise where the largest utilization lies. */
  lemma {:induction false} AnswerIsRemembered(config: BudgetTargetConfig, s: Search, sample: ConsumptionSample)
    requires s.budgetEdge.None?
    ensures var v := Judge(config, sample);
            var t, answer := ObserveStep(config, s, v), ObserveStatus(s, v);
            && t.lastStatus == Some(answer)
            && (t.budgetEdge.Some? ==> answer == InBand)
            && (t.budgetEdge.None? ==> (answer == BelowTarget <==> AllBelow(config, sample)) && (answer == AboveTarget <==> AnyAbove(config, sample)))
  {
    VerdictByNumbers(config, sample);
    var v := Judge(config, sample);
    if !Terminal(config, s) && v.edge.None? {
      NarrowKeepsRecord(CountSample(config, s, v.peak), v);
    }
  }

  /** Below the cap every sample is counted until the search stalls; once it has stalled, or
      at the cap, nothing moves any more. */
  lemma {:induction false} CountedUpToCap(config: BudgetTargetConfig, s: Search, sample: ConsumptionSample)
    requires s.budgetEdge.None?
    ensures var t := ObserveStep(config, s, Judge(config, sample));
            if s.iterations < config.maxIterations && !s.stalled then t.iterations == s.iterations + 1
            else t.iterations == s.iterations && t.ranges == s.ranges && t.knobs == s.knobs && t.rng == s.rng
                 && t.stalled == s.stalled && t.nudged == s.nudged
  {
    var v := Judge(config, sample);
    if !Terminal(config, s) && v.edge.None? {
      NarrowKeepsRecord(CountSample(config, s, v.peak), v);
    }
  }

  // ----- starting points -----

  /** A dictionary entry of a value up to its limit puts that resource's knob at the same
      share of its range, rounded down. */
  lemma {:induction false} EntryByNumbers(r: Range, value: u64, limit: u64)
    requires 0 < value <= limit
    ensures var knob := ScaledKnob(r, value, limit);
            r.lo <= knob <= r.hi && (knob - r.lo) * limit <= (r.hi - r.lo) * value < (knob - r.lo + 1) * limit
  {
    var width := r.hi - r.lo;
    ShareFits(width, value, limit);
    QuotientBounds(width * value, limit);
    assert ScaledKnob(r, value, limit) == r.lo + width * value / limit;
  }

  /** A value above its limit puts the knob at the top, unless its share, 2^64 or more,
      was cut. */
  lemma {:induction false} EntryAboveLimit(r: Range, value: u64, limit: u64)
    requires 0 < limit < value && (r.hi - r.lo) * value < TWO_64 * limit
    ensures ScaledKnob(r, value, limit) == r.hi
  {
    var width := r.hi - r.lo;
    ProductLeq(limit, value, width);
    QuotientBelow(width * value, limit, width);
    QuotientBelow(width * value, limit, TWO_64);
    SmallModulo(width * value / limit, TWO_64);
    assert ScaledKnob(r, value, limit) == Min(Min(r.lo + (width * value / limit) % TWO_64, U64_MAX), r.hi);
  }

  /** A share of a width is at most the width, so that nothing is cut off. */
  lemma {:induction false} ShareFits(width: nat, value: nat, limit: nat)
    requires 0 < value <= limit
    ensures width * value / limit <= width
    ensures width < TWO_64 ==> (width * value / limit) % TWO_64 == width * value / limit
  {
    ProductAtMost(width, value, limit);
    QuotientBelow(width * value, limit, width + 1);
    SmallModulo(width * value / limit, TWO_64);
  }

  lemma {:induction false} SmallModulo(x: nat, n: nat)
    ensures x < n ==> x % n == x
  {}

  lemma {:induction false} ProductAtMost(width: nat, value: nat, limit: nat)
    requires value <= limit && limit > 0
    ensures width * value < (width + 1) * limit
  {
    ProductLeq(value, limit, width);
    assert (width + 1) * limit == width * limit + limit;
  }

  /** A new search starts in the middle of every range. */
  lemma {:induction false} StartsInTheMiddle(config: BudgetTargetConfig, rngSeed: bv64)
    ensures var b, mids := config.bounds, NewSearch(config, rngSeed).knobs;
            && Middle(b.loopCount, mids.loopCount) && Middle(b.vecLen, mids.vecLen)
            && Middle(b.stringLen, mids.stringLen) && Middle(b.nestedDepth, mids.nestedDepth)
  {}

  predicate Middle(r: Range, knob: u64) { 2 * knob <= r.lo + r.hi <= 2 * knob + 1 }

  predicate Keeps(k: BudgetKnobs, b: KnobBounds) {
    && b.loopCount.lo <= k.loopCount <= b.loopCount.hi && b.vecLen.lo <= k.vecLen <= b.vecLen.hi
    && b.stringLen.lo <= k.stringLen <= b.stringLen.hi && b.nestedDepth.lo <= k.nestedDepth <= b.nestedDepth.hi
  }

  lemma {:induction false} ClampedInside(k: BudgetKnobs, b: KnobBounds)
    requires Keeps(k, b)
    ensures Clamped(k, b) == k
  {}

  lemma {:induction false} SmallFits(x: u64)
    requires x < TWO_32
    ensures Truncate32(x) == x
  {}

  /** A dictionary entry moves only its own resource's knob. */
  lemma {:induction false} EntryMovesOneKnob(config: BudgetTargetConfig, rngSeed: bv64, value: u64)
    ensures var b, mids, l := config.bounds, NewSearch(config, rngSeed).knobs, config.limits;
            && DictionarySearch(config, rngSeed, Cpu, value).knobs == mids.(loopCount := ScaledKnob(b.loopCount, value, l.cpuInsns))
            && ScaledKnob(b.vecLen, value, l.memBytes) < TWO_32 && ScaledKnob(b.stringLen, value, l.minBuiltin) < TWO_32
            && DictionarySearch(config, rngSeed, Mem, value).knobs == mids.(vecLen := ScaledKnob(b.vecLen, value, l.memBytes))
            && DictionarySearch(config, rngSeed, MinBuiltin, value).knobs == mids.(stringLen := ScaledKnob(b.stringLen, value, l.minBuiltin))
  {
    var b, mids, l := config.bounds, MidKnobs(config.bounds), config.limits;
    ScaledInside(b.loopCount, value, l.cpuInsns);
    ScaledInside(b.vecLen, value, l.memBytes);
    ScaledInside(b.stringLen, value, l.minBuiltin);
    SmallFits(ScaledKnob(b.vecLen, value, l.memBytes));
    SmallFits(ScaledKnob(b.stringLen, value, l.minBuiltin));
    ClampedInside(mids.(loopCount := ScaledKnob(b.loopCount, value, l.cpuInsns)), b);
    ClampedInside(mids.(vecLen := ScaledKnob(b.vecLen, value, l.memBytes)), b);
    ClampedInside(mids.(stringLen := ScaledKnob(b.stringLen, value, l.minBuiltin)), b);
  }

  lemma {:induction false} ScaledInside(r: Range, value: u64, limit: u64)
    ensures r.lo <= ScaledKnob(r, value, limit) <= r.hi
    ensures limit == 0 ==> ScaledKnob(r, value, limit) == r.hi
  {}

  // ----- nudging -----

  /** What a nudge of one knob by one step gives. */
  function Stepped(k: BudgetKnobs, axis: nat, up: bool): Option<BudgetKnobs> {
    match axis
    case 0 => if up then (if k.loopCount < U64_MAX then Some(k.(loopCount := k.loopCount + 1)) else None)
              else if k.loopCount > 0 then Some(k.(loopCount := k.loopCount - 1)) else None
    case 1 => if up then (if k.vecLen < U32_MAX then Some(k.(vecLen := k.vecLen + 1)) else None)
              else if k.vecLen > 0 then Some(k.(vecLen := k.vecLen - 1)) else None
    case 2 => if up then (if k.stringLen < U32_MAX then Some(k.(stringLen := k.stringLen + 1)) else None)
              else if k.stringLen > 0 then Some(k.(stringLen := k.stringLen - 1)) else None
    case _ => if up then (if k.nestedDepth < U32_MAX then Some(k.(nestedDepth := k.nestedDepth + 1)) else None)
              else if k.nestedDepth > 0 then Some(k.(nestedDepth := k.nestedDepth - 1)) else None
  }

  predicate Possible(r: KnobBounds, k: BudgetKnobs, axis: nat, up: bool) {
    Stepped(k, axis, up).Some? && Keeps(Stepped(k, axis, up).value, r)
  }

  /** The i-th axis from the drawn one on, in one direction. */
  predicate TurnFits(r: KnobBounds, k: BudgetKnobs, start: nat, up: bool, i: nat) { Possible(r, k, (start + i) % 4, up) }

  function Turn(k: BudgetKnobs, start: nat, up: bool, i: nat): Option<BudgetKnobs> { Stepped(k, (start + i) % 4, up) }

  /** The n-th try of a nudge: four axes from the drawn one in the drawn direction, then
      four in the other. */
  predicate TryFits(r: KnobBounds, k: BudgetKnobs, start: nat, firstUp: bool, n: nat) {
    if n < 4 then TurnFits(r, k, start, firstUp, n) else TurnFits(r, k, start, !firstUp, n - 4)
  }

  function TryResult(k: BudgetKnobs, start: nat, firstUp: bool, n: nat): Option<BudgetKnobs> {
    if n < 4 then Turn(k, start, firstUp, n) else Turn(k, start, !firstUp, n - 4)
  }

  function AxisAt(n: nat): KnobAxis { match n case 0 => LoopCount case 1 => VecLen case 2 => StringLen case _ => NestedDepth }

  lemma {:induction false} AxesInOrder(n: nat)
    requires n < 4
    ensures KNOB_AXES[n] == AxisAt(n)
  {
    assert KNOB_AXES[0] == LoopCount && KNOB_AXES[1] == VecLen && KNOB_AXES[2] == StringLen && KNOB_AXES[3] == NestedDepth;
  }

  lemma {:induction false} FitsByNumbers(r: KnobBounds, k: BudgetKnobs, n: nat, up: bool)
    requires Keeps(k, r) && n < 4
    ensures NudgeFits(BoundsPair(r, AxisAt(n)), GetKnob(k, AxisAt(n)), up) <==> Possible(r, k, n, up)
  {}

  lemma {:induction false} StepByNudge(r: KnobBounds, k: BudgetKnobs, n: nat, up: bool)
    requires Keeps(k, r) && n < 4 && Possible(r, k, n, up)
    ensures Some(SetKnob(k, AxisAt(n), NudgedValue(GetKnob(k, AxisAt(n)), up))) == Stepped(k, n, up)
  {}

  /** The first turn from the n-th on that fits, or none. */
  ghost predicate FirstFit(r: KnobBounds, k: BudgetKnobs, start: nat, up: bool, n: nat, result: Option<BudgetKnobs>) {
    match result
    case None => forall i: nat :: n <= i < 4 ==> !TurnFits(r, k, start, up, i)
    case Some(k') => exists i: nat :: n <= i < 4 && TurnFits(r, k, start, up, i) && Some(k') == Turn(k, start, up, i)
                                      && forall j: nat :: n <= j < i ==> !TurnFits(r, k, start, up, j)
  }

  lemma {:induction false} FitsHere(r: KnobBounds, k: BudgetKnobs, start: nat, up: bool, n: nat)
    requires n < 4 && TurnFits(r, k, start, up, n)
    ensures FirstFit(r, k, start, up, n, Turn(k, start, up, n))
  {}

  lemma {:induction false} FitsLater(r: KnobBounds, k: BudgetKnobs, start: nat, up: bool, n: nat, result: Option<BudgetKnobs>)
    requires !TurnFits(r, k, start, up, n) && FirstFit(r, k, start, up, n + 1, result)
    ensures FirstFit(r, k, start, up, n, result)
  {
    if result.Some? {
      var i: nat :| n + 1 <= i < 4 && TurnFits(r, k, start, up, i) && Some(result.value) == Turn(k, start, up, i)
                    && forall j: nat :: n + 1 <= j < i ==> !TurnFits(r, k, start, up, j);
      forall j: nat | n <= j < i ensures !TurnFits(r, k, start, up, j) {}
    }
  }

  lemma {:induction false} FirstNudgeByNumbers(r: KnobBounds, k: BudgetKnobs, start: nat, up: bool, axes: seq<KnobAxis>, n: nat)
    requires Keeps(k, r) && n <= 4 && axes == AxesFrom(start)[n..]
    ensures FirstFit(r, k, start, up, n, FirstNudge(axes, up, r, k))
    decreases 4 - n
  {
    if n < 4 {
      var axis := (start + n) % 4;
      assert axes[0] == KNOB_AXES[axis] && axes[1..] == AxesFrom(start)[n + 1..];
      AxesInOrder(axis);
      FitsByNumbers(r, k, axis, up);
      if TurnFits(r, k, start, up, n) {
        StepByNudge(r, k, axis, up);
        FitsHere(r, k, start, up, n);
      } else {
        FirstNudgeByNumbers(r, k, start, up, axes[1..], n + 1);
        FitsLater(r, k, start, up, n, FirstNudge(axes[1..], up, r, k));
      }
    }
  }

  /** The nudge is the first of its eight tries that stays in range, and there is none
      exactly when no try does; the first draw modulo 4 gives the first axis, and an even
      second draw the direction up. */
  lemma {:induction false} NudgeByNumbers(r: KnobBounds, k: BudgetKnobs, rng: bv64)
    requires Keeps(k, r)
    ensures var s1 := Prng.NextState(rng);
            var start, firstUp := (Prng.Scramble(s1) as int) % 4, (Prng.Scramble(Prng.NextState(s1)) as int) % 2 == 0;
            match Nudge(r, k, rng)
            case None => forall n: nat :: n < 8 ==> !TryFits(r, k, start, firstUp, n)
            case Some(k') => exists n: nat :: n < 8 && TryFits(r, k, start, firstUp, n) && Some(k') == TryResult(k, start, firstUp, n)
                                              && forall m: nat :: m < n ==> !TryFits(r, k, start, firstUp, m)
  {
    var s1 := Prng.NextState(rng);
    var start, firstUp := (Prng.Scramble(s1) as int) % 4, (Prng.Scramble(Prng.NextState(s1)) as int) % 2 == 0;
    NudgeFromByNumbers(r, k, start, firstUp);
  }

  lemma {:induction false} NudgeFromByNumbers(r: KnobBounds, k: BudgetKnobs, start: nat, firstUp: bool)
    requires Keeps(k, r)
    ensures match NudgeFrom(start, firstUp, r, k)
            case None => forall n: nat :: n < 8 ==> !TryFits(r, k, start, firstUp, n)
            case Some(k') => exists n: nat :: n < 8 && TryFits(r, k, start, firstUp, n) && Some(k') == TryResult(k, start, firstUp, n)
                                              && forall m: nat :: m < n ==> !TryFits(r, k, start, firstUp, m)
  {
    var other := !firstUp;
    assert AxesFrom(start)[0..] == AxesFrom(start);
    FirstNudgeByNumbers(r, k, start, firstUp, AxesFrom(start), 0);
    FirstNudgeByNumbers(r, k, start, other, AxesFrom(start), 0);
    match FirstNudge(AxesFrom(start), firstUp, r, k) {
      case Some(k') =>
        var i: nat :| i < 4 && TurnFits(r, k, start, firstUp, i) && Some(k') == Turn(k, start, firstUp, i)
                      && forall j: nat :: j < i ==> !TurnFits(r, k, start, firstUp, j);
        assert TryFits(r, k, start, firstUp, i);
      case None =>
        match FirstNudge(AxesFrom(start), other, r, k) {
          case Some(k') =>
            var i: nat :| i < 4 && TurnFits(r, k, start, other, i) && Some(k') == Turn(k, start, other, i)
                          && forall j: nat :: j < i ==> !TurnFits(r, k, start, other, j);
            assert TryFits(r, k, start, firstUp, i + 4);
          case None =>
        }
    }
  }
}
