/** What the metering-edge search guarantees for arbitrary samples: brackets that keep
    every cast exact, termination, convergence that is exact and final, and an honest
    best-so-far. */
module BudgetSearch {
  import opened Prelude
  import opened BudgetTargeting
  import Prng

  function R(s: Search, a: KnobAxis): Range { BoundsPair(s.ranges, a) }
  function K(s: Search, a: KnobAxis): u64 { GetKnob(s.knobs, a) }
  function B(config: BudgetTargetConfig, a: KnobAxis): Range { BoundsPair(config.bounds, a) }

  // ----- one step, axis by axis -----

  /** How one axis goes from (r, current) to (r', current') under a status. */
  predicate AxisStep(r: Range, current: u64, status: BandStatus, r': Range, current': u64) {
    match AdjustedRange(r, current, status)
    case None => r' == r && current' == current
    case Some(q) => r' == q && current' == Midpoint(q)
  }

  lemma {:induction false} BoundsCastExact(b: KnobBounds, axis: KnobAxis, r: Range)
    requires Fits(axis, r.hi)
    ensures BoundsPair(SetBoundsPair(b, axis, r), axis) == r
    ensures forall other: KnobAxis :: other != axis ==> BoundsPair(SetBoundsPair(b, axis, r), other) == BoundsPair(b, other)
  {}

  lemma {:induction false} KnobCastExact(k: BudgetKnobs, axis: KnobAxis, value: u64)
    requires Fits(axis, value)
    ensures GetKnob(SetKnob(k, axis, value), axis) == value
    ensures forall other: KnobAxis :: other != axis ==> GetKnob(SetKnob(k, axis, value), other) == GetKnob(k, other)
  {}

  /** Adjusting an axis stores exactly the untruncated bounds and midpoint, and
      touches no other axis. */
  lemma {:induction false} AdjustAxisExact(ranges: KnobBounds, knobs: BudgetKnobs, axis: KnobAxis, status: BandStatus)
    ensures var a := AdjustAxisOf(ranges, knobs, axis, status);
            && AxisStep(BoundsPair(ranges, axis), GetKnob(knobs, axis), status,
                        BoundsPair(a.ranges, axis), GetKnob(a.knobs, axis))
            && a.moved == AdjustedRange(BoundsPair(ranges, axis), GetKnob(knobs, axis), status).Some?
            && forall b: KnobAxis :: b != axis ==>
                 BoundsPair(a.ranges, b) == BoundsPair(ranges, b) && GetKnob(a.knobs, b) == GetKnob(knobs, b)
  {
    match AdjustedRange(BoundsPair(ranges, axis), GetKnob(knobs, axis), status)
    case None =>
    case Some(r) =>
      BoundsCastExact(ranges, axis, r);
      KnobCastExact(knobs, axis, Midpoint(r));
  }

  predicate Moves(s: Search, v: Verdict, a: KnobAxis) {
    AdjustedRange(R(s, a), K(s, a), AxisStatus(v, a)).Some?
  }

  predicate SomeAxisMoves(s: Search, v: Verdict) {
    exists a: KnobAxis :: Moves(s, v, a)
  }

  lemma {:induction false} AdjustAxesEffect(axes: seq<KnobAxis>, s: Search, v: Verdict)
    requires forall i, j :: 0 <= i < j < |axes| ==> axes[i] != axes[j]
    ensures var after := AdjustAxes(axes, s.ranges, s.knobs, v);
            && (after.moved <==> exists a :: a in axes && Moves(s, v, a))
            && forall a: KnobAxis ::
                 if a in axes
                 then AxisStep(R(s, a), K(s, a), AxisStatus(v, a), BoundsPair(after.ranges, a), GetKnob(after.knobs, a))
                 else BoundsPair(after.ranges, a) == R(s, a) && GetKnob(after.knobs, a) == K(s, a)
  {
    if axes != [] {
      var init, last := axes[..|axes| - 1], axes[|axes| - 1];
      AdjustAxesEffect(init, s, v);
      assert last !in init;
      assert forall a :: a in axes <==> a in init || a == last;
      var before := AdjustAxes(init, s.ranges, s.knobs, v);
      AdjustAxisExact(before.ranges, before.knobs, last, AxisStatus(v, last));
    }
  }

  lemma {:induction false} EveryAxisListed(a: KnobAxis)
    ensures a in KNOB_AXES
  {
    assert KNOB_AXES[0] == LoopCount && KNOB_AXES[1] == VecLen && KNOB_AXES[2] == StringLen && KNOB_AXES[3] == NestedDepth;
  }

  lemma {:induction false} SameByAxis(r: KnobBounds, r': KnobBounds, k: BudgetKnobs, k': BudgetKnobs)
    requires forall a: KnobAxis :: BoundsPair(r, a) == BoundsPair(r', a) && GetKnob(k, a) == GetKnob(k', a)
    ensures r == r' && k == k'
  {
    assert BoundsPair(r, LoopCount) == BoundsPair(r', LoopCount) && GetKnob(k, LoopCount) == GetKnob(k', LoopCount);
    assert BoundsPair(r, VecLen) == BoundsPair(r', VecLen) && GetKnob(k, VecLen) == GetKnob(k', VecLen);
    assert BoundsPair(r, StringLen) == BoundsPair(r', StringLen) && GetKnob(k, StringLen) == GetKnob(k', StringLen);
    assert BoundsPair(r, NestedDepth) == BoundsPair(r', NestedDepth) && GetKnob(k, NestedDepth) == GetKnob(k', NestedDepth);
  }

  /** The tail of an inconclusive observation: if some axis moves, every axis takes
      its own step; if none does, ranges stay and the search nudges once or stalls. */
  lemma {:induction false} NarrowEffect(s: Search, v: Verdict)
    ensures var t := NarrowStep(s, v);
            if SomeAxisMoves(s, v) then
              && t == s.(ranges := t.ranges, knobs := t.knobs)
              && forall a: KnobAxis :: AxisStep(R(s, a), K(s, a), AxisStatus(v, a), R(t, a), K(t, a))
            else
              && t.ranges == s.ranges
              && if !s.nudged && Nudge(s.ranges, s.knobs, s.rng).Some?
                 then t.nudged && t.stalled == s.stalled && Some(t.knobs) == Nudge(s.ranges, s.knobs, s.rng)
                 else t.stalled && t.nudged == s.nudged && t.knobs == s.knobs
  {
    AdjustAxesEffect(KNOB_AXES, s, v);
    forall a: KnobAxis ensures a in KNOB_AXES { EveryAxisListed(a); }
    var after := AdjustAxes(KNOB_AXES, s.ranges, s.knobs, v);
    if !SomeAxisMoves(s, v) {
      forall a: KnobAxis
        ensures BoundsPair(after.ranges, a) == BoundsPair(s.ranges, a) && GetKnob(after.knobs, a) == GetKnob(s.knobs, a)
      {
        assert !Moves(s, v, a);
      }
      SameByAxis(after.ranges, s.ranges, after.knobs, s.knobs);
    }
  }

  lemma {:induction false} NarrowKeepsRecord(s: Search, v: Verdict)
    ensures var t := NarrowStep(s, v);
            && t.budgetEdge == s.budgetEdge && t.iterations == s.iterations
            && t.bestDistance == s.bestDistance && t.bestUtilizationBps == s.bestUtilizationBps && t.bestKnobs == s.bestKnobs
  {}

  // ----- safety under arbitrary samples -----

  /** bounds.lo <= range.lo <= knob <= range.hi <= bounds.hi on one axis. */
  predicate AxisBracketed(config: BudgetTargetConfig, s: Search, a: KnobAxis) {
    B(config, a).lo <= R(s, a).lo <= K(s, a) <= R(s, a).hi <= B(config, a).hi
  }

  /** Every axis is bracketed and the observation count is within the cap. */
  predicate Bracketed(config: BudgetTargetConfig, s: Search) {
    s.iterations <= config.maxIterations && forall a: KnobAxis :: AxisBracketed(config, s, a)
  }

  lemma {:induction false} SameKnobsBracketed(config: BudgetTargetConfig, s: Search, t: Search)
    requires Bracketed(config, s) && t.ranges == s.ranges && t.knobs == s.knobs && t.iterations <= config.maxIterations
    ensures Bracketed(config, t)
  {
    forall a: KnobAxis ensures AxisBracketed(config, t, a) { assert AxisBracketed(config, s, a); }
  }

  lemma {:induction false} NewSearchBracketed(config: BudgetTargetConfig, rngSeed: bv64)
    ensures Bracketed(config, NewSearch(config, rngSeed))
  {}

  lemma {:induction false} FirstNudgeEffect(axes: seq<KnobAxis>, up: bool, s: Search, a: KnobAxis)
    requires R(s, a).lo <= K(s, a) <= R(s, a).hi
    ensures var k := FirstNudge(axes, up, s.ranges, s.knobs);
            k.Some? ==> R(s, a).lo <= GetKnob(k.value, a) <= R(s, a).hi
  {
    if axes != [] {
      FirstNudgeEffect(axes[1..], up, s, a);
    }
  }

  lemma {:induction false} NudgeStaysInRange(s: Search, a: KnobAxis)
    requires R(s, a).lo <= K(s, a) <= R(s, a).hi && Nudge(s.ranges, s.knobs, s.rng).Some?
    ensures R(s, a).lo <= GetKnob(Nudge(s.ranges, s.knobs, s.rng).value, a) <= R(s, a).hi
  {
    var start := Prng.Index(Prng.Scramble(Prng.NextState(s.rng)), 4);
    FirstNudgeEffect(AxesFrom(start), true, s, a);
    FirstNudgeEffect(AxesFrom(start), false, s, a);
  }

  lemma {:induction false} NarrowKeepsBracket(config: BudgetTargetConfig, s: Search, v: Verdict)
    requires Bracketed(config, s)
    ensures Bracketed(config, NarrowStep(s, v))
  {
    var t := NarrowStep(s, v);
    NarrowEffect(s, v);
    NarrowKeepsRecord(s, v);
    forall a: KnobAxis
      ensures AxisBracketed(config, t, a)
    {
      assert AxisBracketed(config, s, a);
      if SomeAxisMoves(s, v) {
        assert AxisStep(R(s, a), K(s, a), AxisStatus(v, a), R(t, a), K(t, a));
      } else if Nudge(s.ranges, s.knobs, s.rng).Some? {
        NudgeStaysInRange(s, a);
      }
    }
  }

  lemma {:induction false} ObserveKeepsBracket(config: BudgetTargetConfig, s: Search, v: Verdict)
    requires Bracketed(config, s)
    ensures Bracketed(config, ObserveStep(config, s, v))
  {
    if Terminal(config, s) || v.edge.Some? {
      SameKnobsBracketed(config, s, ObserveStep(config, s, v));
    } else {
      var c := CountSample(config, s, v.peak);
      SameKnobsBracketed(config, s, c);
      NarrowKeepsBracket(config, c, v);
      SameKnobsBracketed(config, NarrowStep(c, v), ObserveStep(config, s, v));
    }
  }

  // ----- termination -----

  function Width(s: Search, a: KnobAxis): nat { R(s, a).hi - R(s, a).lo }

  function TotalWidth(s: Search): nat {
    Width(s, LoopCount) + Width(s, VecLen) + Width(s, StringLen) + Width(s, NestedDepth)
  }

  /** The lexicographic measure (total width, not yet nudged, not yet stalled). */
  predicate Decreases(t: Search, s: Search) {
    || TotalWidth(t) < TotalWidth(s)
    || (TotalWidth(t) == TotalWidth(s) &&
        (|| (t.nudged && !s.nudged)
         || (t.nudged == s.nudged && t.stalled && !s.stalled)))
  }

  /** The one step that makes no progress: the loop range has shrunk to the single
      value u64::MAX, its dimension is still below the band, so that the saturating
      increment "moves" the knob onto itself, and no other axis moves. */
  predicate SaturatedLoop(s: Search, v: Verdict) {
    && R(s, LoopCount) == Interval(U64_MAX, U64_MAX)
    && AxisStatus(v, LoopCount) == BelowTarget
    && forall a: KnobAxis :: a != LoopCount ==> !Moves(s, v, a)
  }

  lemma {:induction false} AxisWidthStep(config: BudgetTargetConfig, s: Search, v: Verdict, a: KnobAxis)
    requires Bracketed(config, s) && SomeAxisMoves(s, v)
    ensures var t := NarrowStep(s, v);
            && Width(t, a) <= Width(s, a)
            && (Width(t, a) < Width(s, a) <==>
                  Moves(s, v, a) && !(R(s, a).lo == U64_MAX && AxisStatus(v, a) == BelowTarget))
  {
    var t := NarrowStep(s, v);
    NarrowEffect(s, v);
    assert AxisStep(R(s, a), K(s, a), AxisStatus(v, a), R(t, a), K(t, a));
    assert AxisBracketed(config, s, a);
  }

  lemma {:induction false} NarrowDecreases(config: BudgetTargetConfig, s: Search, v: Verdict)
    requires Bracketed(config, s) && !s.stalled
    ensures Decreases(NarrowStep(s, v), s) <==> !SaturatedLoop(s, v)
  {
    NarrowEffect(s, v);
    assert AxisBracketed(config, s, LoopCount);
    if SomeAxisMoves(s, v) {
      AxisWidthStep(config, s, v, LoopCount);
      AxisWidthStep(config, s, v, VecLen);
      AxisWidthStep(config, s, v, StringLen);
      AxisWidthStep(config, s, v, NestedDepth);
      var a: KnobAxis :| Moves(s, v, a);
    } else {
      assert !Moves(s, v, LoopCount);
    }
  }

  lemma {:induction false} SaturationFromKnobs(s: Search, t: Search, v: Verdict)
    requires s.ranges == t.ranges && s.knobs == t.knobs
    ensures SaturatedLoop(s, v) <==> SaturatedLoop(t, v)
  {
    assert forall a: KnobAxis :: Moves(s, v, a) == Moves(t, v, a);
  }

  lemma {:induction false} MeasureFromFields(t: Search, t': Search, s: Search, s': Search)
    requires t.ranges == t'.ranges && t.nudged == t'.nudged && t.stalled == t'.stalled
    requires s.ranges == s'.ranges && s.nudged == s'.nudged && s.stalled == s'.stalled
    ensures Decreases(t, s) <==> Decreases(t', s')
  {}

  /** Every non-terminal observation that does not converge strictly decreases the
      measure, except exactly a saturated one. */
  lemma {:induction false} ObservationDecreases(config: BudgetTargetConfig, s: Search, v: Verdict)
    requires Bracketed(config, s) && !Terminal(config, s) && v.edge.None?
    ensures Decreases(ObserveStep(config, s, v), s) <==> !SaturatedLoop(s, v)
  {
    var c := CountSample(config, s, v.peak);
    SameKnobsBracketed(config, s, c);
    NarrowDecreases(config, c, v);
    SaturationFromKnobs(s, c, v);
    MeasureFromFields(NarrowStep(c, v), ObserveStep(config, s, v), c, s);
  }

  /** With a loop bound below u64::MAX every such observation makes progress. */
  lemma {:induction false} UnsaturatedAlwaysDecreases(config: BudgetTargetConfig, s: Search, v: Verdict)
    requires Bracketed(config, s) && !Terminal(config, s) && v.edge.None?
    requires config.bounds.loopCount.hi < U64_MAX
    ensures Decreases(ObserveStep(config, s, v), s)
  {
    ObservationDecreases(config, s, v);
    assert AxisBracketed(config, s, LoopCount);
  }

  /** The only loop count allowed is u64::MAX, every other knob is fixed, and a
      contract that consumes nothing is below the band on every dimension. */
  predicate Saturating(config: BudgetTargetConfig) {
    && config.bounds.loopCount == Interval(U64_MAX, U64_MAX)
    && config.bounds.vecLen.lo == config.bounds.vecLen.hi
    && config.bounds.stringLen.lo == config.bounds.stringLen.hi
    && config.bounds.nestedDepth.lo == config.bounds.nestedDepth.hi
    && config.band.widthBps < LIMIT_BPS
  }

  const SILENT: ConsumptionSample := ConsumptionSample(0, 0, 0)

  lemma {:induction false} SilentIsBelow(config: BudgetTargetConfig, a: KnobAxis)
    requires config.band.widthBps < LIMIT_BPS
    ensures AxisStatus(Judge(config, SILENT), a) == BelowTarget && Judge(config, SILENT).edge.None?
  {
    assert Utilization(SILENT, config.limits, Cpu) == 0;
    assert Utilization(SILENT, config.limits, Mem) == 0;
    assert Utilization(SILENT, config.limits, MinBuiltin) == 0;
    EdgeNone(config, SILENT);
  }

  lemma {:induction false} OnlyTheLoopMoves(config: BudgetTargetConfig, s: Search, v: Verdict, a: KnobAxis)
    requires Saturating(config) && s.ranges == config.bounds && s.knobs == MidKnobs(config.bounds)
    requires AxisStatus(v, a) == BelowTarget
    ensures Moves(s, v, a) <==> a == LoopCount
    ensures AxisStep(R(s, a), K(s, a), AxisStatus(v, a), R(s, a), K(s, a))
  {}

  lemma {:induction false} SaturatedNarrow(config: BudgetTargetConfig, s: Search, v: Verdict)
    requires Saturating(config) && s.ranges == config.bounds && s.knobs == MidKnobs(config.bounds)
    requires forall a: KnobAxis :: AxisStatus(v, a) == BelowTarget
    ensures NarrowStep(s, v) == s
  {
    OnlyTheLoopMoves(config, s, v, LoopCount);
    var t := NarrowStep(s, v);
    NarrowEffect(s, v);
    forall a: KnobAxis
      ensures BoundsPair(t.ranges, a) == BoundsPair(s.ranges, a) && GetKnob(t.knobs, a) == GetKnob(s.knobs, a)
    {
      OnlyTheLoopMoves(config, s, v, a);
      assert AxisStep(R(s, a), K(s, a), AxisStatus(v, a), R(t, a), K(t, a));
    }
    SameByAxis(t.ranges, s.ranges, t.knobs, s.knobs);
  }

  /** Saturated observations do happen: such a configuration exists, and over it a silent
      sample neither narrows nor nudges nor stalls the search. */
  lemma {:induction false} SaturatedLoopHappens(config: BudgetTargetConfig, s: Search)
    requires Saturating(config) && s.ranges == config.bounds && s.knobs == MidKnobs(config.bounds)
    requires !Terminal(config, s)
    ensures SaturatedLoop(s, Judge(config, SILENT))
    ensures var t := ObserveStep(config, s, Judge(config, SILENT));
            t.ranges == s.ranges && t.knobs == s.knobs && t.nudged == s.nudged && !t.stalled
    ensures Saturating(BudgetTargetConfig(MeteringLimits(100, 100, 100), TargetBand(500),
              KnobBounds(Interval(U64_MAX, U64_MAX), Interval(1, 1), Interval(1, 1), Interval(1, 1)), 32))
  {
    var v := Judge(config, SILENT);
    forall a: KnobAxis
      ensures AxisStatus(v, a) == BelowTarget && v.edge.None? && (Moves(s, v, a) <==> a == LoopCount)
    {
      SilentIsBelow(config, a);
      OnlyTheLoopMoves(config, s, v, a);
    }
    SilentIsBelow(config, LoopCount);
    SaturatedNarrow(config, CountSample(config, s, v.peak), v);
  }

  // ----- convergence is exact and final -----

  predicate DimensionInBand(config: BudgetTargetConfig, sample: ConsumptionSample, d: MeterDimension) {
    config.band.Status(Utilization(sample, config.limits, d)) == InBand
  }

  function Rank(d: MeterDimension): nat { match d case Cpu => 0 case Mem => 1 case MinBuiltin => 2 }

  /** The edge is the in-band dimension closest to the limit, the earliest on ties. */
  predicate IsEdge(config: BudgetTargetConfig, sample: ConsumptionSample, e: BudgetEdge) {
    && DimensionInBand(config, sample, e.dimension)
    && e.utilizationBps == Utilization(sample, config.limits, e.dimension)
    && forall d: MeterDimension :: DimensionInBand(config, sample, d) ==>
         var mine := AbsDiff(e.utilizationBps, LIMIT_BPS);
         var other := AbsDiff(Utilization(sample, config.limits, d), LIMIT_BPS);
         mine < other || (mine == other && Rank(e.dimension) <= Rank(d))
  }

  function EdgeStep(config: BudgetTargetConfig, sample: ConsumptionSample, best: Option<BudgetEdge>, d: MeterDimension): Option<BudgetEdge> {
    var u := Utilization(sample, config.limits, d);
    if config.band.Status(u) == InBand
       && (best.None? || AbsDiff(u, LIMIT_BPS) < AbsDiff(best.value.utilizationBps, LIMIT_BPS))
    then Some(BudgetEdge(d, u))
    else best
  }

  lemma {:induction false} EdgeUnfolds(config: BudgetTargetConfig, sample: ConsumptionSample)
    ensures Judge(config, sample).edge
         == EdgeStep(config, sample, EdgeStep(config, sample, EdgeStep(config, sample, None, Cpu), Mem), MinBuiltin)
  {
    var l, b := config.limits, config.band;
    assert DIMENSIONS[..2] == [Cpu, Mem] && [Cpu, Mem][..1] == [Cpu] && [Cpu][..0] == [];
    assert EdgeAmong([], sample, l, b) == None;
    assert EdgeAmong([Cpu], sample, l, b) == EdgeStep(config, sample, None, Cpu);
    assert EdgeAmong([Cpu, Mem], sample, l, b) == EdgeStep(config, sample, EdgeAmong([Cpu], sample, l, b), Mem);
  }

  lemma {:induction false} EdgeExact(config: BudgetTargetConfig, sample: ConsumptionSample)
    ensures match Judge(config, sample).edge
            case Some(e) => IsEdge(config, sample, e)
            case None => forall d: MeterDimension :: !DimensionInBand(config, sample, d)
  {
    EdgeUnfolds(config, sample);
  }

  lemma {:induction false} EdgeNone(config: BudgetTargetConfig, sample: ConsumptionSample)
    ensures Judge(config, sample).edge.None? <==> forall d: MeterDimension :: !DimensionInBand(config, sample, d)
  {
    EdgeExact(config, sample);
    if Judge(config, sample).edge.Some? {
      assert DimensionInBand(config, sample, Judge(config, sample).edge.value.dimension);
    }
  }

  /** The peak is in band only if its own dimension is. */
  lemma {:induction false} PeakOutOfBand(config: BudgetTargetConfig, sample: ConsumptionSample)
    ensures var v := Judge(config, sample); v.edge.None? ==> v.overall != InBand
  {
    EdgeNone(config, sample);
    if Judge(config, sample).edge.None? {
      assert !DimensionInBand(config, sample, Cpu) && !DimensionInBand(config, sample, Mem)
          && !DimensionInBand(config, sample, MinBuiltin);
    }
  }

  lemma {:induction false} EdgeOnlyFromVerdict(config: BudgetTargetConfig, s: Search, v: Verdict)
    ensures ObserveStep(config, s, v).budgetEdge == (if s.budgetEdge.Some? then s.budgetEdge else v.edge)
  {
    if !Terminal(config, s) && v.edge.None? {
      NarrowKeepsRecord(CountSample(config, s, v.peak), v);
    }
  }

  /** `observe` answers InBand exactly when an edge is set afterwards; a new edge is
      the sample's in-band dimension closest to the limit, and there is one exactly when
      some dimension is in band; once set, nothing changes. */
  lemma {:induction false} ConvergenceExactAndFinal(config: BudgetTargetConfig, s: Search, sample: ConsumptionSample)
    ensures var v := Judge(config, sample);
            var t := ObserveStep(config, s, v);
            && (ObserveStatus(s, v) == InBand <==> t.budgetEdge.Some?)
            && (s.budgetEdge.Some? ==> t == s)
            && (s.budgetEdge.None? && t.budgetEdge.Some? ==> IsEdge(config, sample, t.budgetEdge.value))
            && (s.budgetEdge.None? && t.budgetEdge.None? ==> forall d: MeterDimension :: !DimensionInBand(config, sample, d))
  {
    EdgeExact(config, sample);
    PeakOutOfBand(config, sample);
    EdgeOnlyFromVerdict(config, s, Judge(config, sample));
  }

  // ----- runs -----

  /** The search after observing the samples in order. */
  function Run(config: BudgetTargetConfig, s: Search, samples: seq<ConsumptionSample>): Search {
    if samples == [] then s
    else ObserveStep(config, Run(config, s, samples[..|samples| - 1]), Judge(config, samples[|samples| - 1]))
  }

  /** Over every run from a new search, with any samples: brackets hold, so the u32
      casts are exact, and at most max_iterations observations are counted. */
  lemma {:induction false} RunsStayBracketed(config: BudgetTargetConfig, rngSeed: bv64, samples: seq<ConsumptionSample>)
    ensures Bracketed(config, Run(config, NewSearch(config, rngSeed), samples))
  {
    if samples == [] {
      NewSearchBracketed(config, rngSeed);
    } else {
      var init := samples[..|samples| - 1];
      RunsStayBracketed(config, rngSeed, init);
      ObserveKeepsBracket(config, Run(config, NewSearch(config, rngSeed), init), Judge(config, samples[|samples| - 1]));
    }
  }

  /** Whether the i-th sample was looked at, that is, came before or at convergence. */
  function Consumed(config: BudgetTargetConfig, s: Search, samples: seq<ConsumptionSample>): (cs: seq<bool>)
    ensures |cs| == |samples|
  {
    if samples == [] then []
    else
      var init := samples[..|samples| - 1];
      Consumed(config, s, init) + [Run(config, s, init).budgetEdge.None?]
  }

  /** Each sample's distance from the limit. */
  function Distances(config: BudgetTargetConfig, samples: seq<ConsumptionSample>): (ds: seq<nat>)
    ensures |ds| == |samples|
  {
    if samples == [] then []
    else Distances(config, samples[..|samples| - 1]) + [AbsDiff(PeakUtilization(samples[|samples| - 1], config.limits), LIMIT_BPS)]
  }

  /** i is the first of the flagged positions with the least distance. */
  predicate FirstLeast(ds: seq<nat>, flags: seq<bool>, i: nat)
    requires |ds| == |flags|
  {
    && i < |ds| && flags[i]
    && forall j: nat :: j < |ds| && flags[j] ==> if j < i then ds[i] < ds[j] else ds[i] <= ds[j]
  }

  lemma {:induction false} FirstLeastExtends(ds: seq<nat>, flags: seq<bool>, i: nat, d: nat, flag: bool)
    requires |ds| == |flags| && FirstLeast(ds, flags, i)
    ensures FirstLeast(ds + [d], flags + [flag], if flag && d < ds[i] then |ds| else i)
  {}

  lemma {:induction false} ObserveRecordsBest(config: BudgetTargetConfig, s: Search, v: Verdict)
    requires s.budgetEdge.None?
    ensures var t, r := ObserveStep(config, s, v), RecordPeak(s, v.peak);
            t.bestDistance == r.bestDistance && t.bestUtilizationBps == r.bestUtilizationBps && t.bestKnobs == r.bestKnobs
  {
    if !Terminal(config, s) {
      NarrowKeepsRecord(CountSample(config, s, v.peak), v);
    }
  }

  /** What the best-so-far fields must say when sample i is the best. */
  predicate BestIs(config: BudgetTargetConfig, s: Search, samples: seq<ConsumptionSample>, i: nat, t: Search)
    requires i < |samples|
  {
    && t.bestUtilizationBps == PeakUtilization(samples[i], config.limits)
    && t.bestDistance == Distances(config, samples)[i]
    && t.bestKnobs == Run(config, s, samples[..i]).knobs
  }

  lemma {:induction false} BestIsExtends(config: BudgetTargetConfig, s: Search, samples: seq<ConsumptionSample>, i: nat, t: Search)
    requires samples != [] && i < |samples| - 1 && BestIs(config, s, samples[..|samples| - 1], i, t)
    ensures BestIs(config, s, samples, i, t)
  {
    assert samples[..|samples| - 1][..i] == samples[..i];
  }

  /** After any non-empty run the reported best utilization and knobs are those of the
      first consumed sample closest to the limit. */
  lemma {:induction false} BestIsFirstClosest(config: BudgetTargetConfig, rngSeed: bv64, samples: seq<ConsumptionSample>) returns (i: nat)
    requires samples != []
    ensures FirstLeast(Distances(config, samples), Consumed(config, NewSearch(config, rngSeed), samples), i)
    ensures BestIs(config, NewSearch(config, rngSeed), samples, i, Run(config, NewSearch(config, rngSeed), samples))
  {
    var s := NewSearch(config, rngSeed);
    var last := |samples| - 1;
    var init := samples[..last];
    var before := Run(config, s, init);
    var v := Judge(config, samples[last]);
    if last == 0 {
      i := 0;
      ObserveRecordsBest(config, s, v);
    } else {
      i := BestIsFirstClosest(config, rngSeed, init);
      var ds := Distances(config, init);
      FirstLeastExtends(ds, Consumed(config, s, init), i, AbsDiff(v.peak, LIMIT_BPS), before.budgetEdge.None?);
      if before.budgetEdge.None? {
        ObserveRecordsBest(config, before, v);
      }
      if before.budgetEdge.None? && AbsDiff(v.peak, LIMIT_BPS) < ds[i] {
        i := last;
      } else {
        BestIsExtends(config, s, samples, i, Run(config, s, samples));
      }
    }
  }
}
