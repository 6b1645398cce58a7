/** When a search of budget_targeting.rs can make an observation without progress: on which
    configurations some run ever comes to the saturated loop step. */
module BudgetSaturation {
  import opened Prelude
  import opened BudgetTargeting
  import opened BudgetSearch
  import opened BudgetMeters

  /** Observing this sample next neither ends the search nor makes progress. */
  predicate Saturates(config: BudgetTargetConfig, s: Search, sample: ConsumptionSample) {
    !Terminal(config, s) && Judge(config, sample).edge.None? && SaturatedLoop(s, Judge(config, sample))
  }

  /** Somewhere in some run from a new search. */
  ghost predicate SomeRunSaturates(config: BudgetTargetConfig, rngSeed: bv64) {
    exists samples, sample :: Saturates(config, Run(config, NewSearch(config, rngSeed), samples), sample)
  }

  /** The loop count may be as large as a word, and there is something below the band. */
  predicate CanSaturate(config: BudgetTargetConfig) {
    config.bounds.loopCount.hi == U64_MAX && config.band.widthBps < LIMIT_BPS
  }

  lemma {:induction false} SaturationNeeds(config: BudgetTargetConfig, s: Search, sample: ConsumptionSample)
    requires Bracketed(config, s) && Saturates(config, s, sample)
    ensures CanSaturate(config)
  {
    assert AxisBracketed(config, s, LoopCount);
  }

  // ----- halving -----

  lemma {:induction false} HalveBelow(n: nat, k: nat, m: nat)
    ensures Halve(n, k) < m <==> n < m * Pow2(k)
  {
    if k > 0 {
      HalveBelow(n, k - 1, 2 * m);
      assert Halve(n, k) < m <==> Halve(n, k - 1) < 2 * m;
      assert m * (2 * Pow2(k - 1)) == 2 * m * Pow2(k - 1);
    }
  }

  lemma {:induction false} Pow2Grows(j: nat, k: nat)
    requires j <= k
    ensures Pow2(j) <= Pow2(k)
  {
    if j < k {
      Pow2Grows(j, k - 1);
    }
  }

  // ----- silent runs -----

  /** What n silent observations make of one axis: its upper half, again and again. */
  predicate AxisStanding(bounds: Range, r: Range, current: u64, n: nat) {
    r.hi == bounds.hi && current == Midpoint(r) && Values(r) == Max(Halve(Values(bounds), n), 1)
  }

  predicate AllStanding(config: BudgetTargetConfig, s: Search, n: nat) {
    forall a: KnobAxis :: AxisStanding(B(config, a), R(s, a), K(s, a), n)
  }

  predicate Standing(config: BudgetTargetConfig, s: Search, n: nat) {
    s.budgetEdge.None? && !s.stalled && !s.nudged && s.iterations == n && AllStanding(config, s, n)
  }

  predicate AllBelow(v: Verdict) { v.edge.None? && forall a: KnobAxis :: AxisStatus(v, a) == BelowTarget }

  lemma {:induction false} SilentIsAllBelow(config: BudgetTargetConfig)
    requires config.band.widthBps < LIMIT_BPS
    ensures AllBelow(Judge(config, SILENT))
  {
    forall a: KnobAxis ensures AxisStatus(Judge(config, SILENT), a) == BelowTarget && Judge(config, SILENT).edge.None? {
      SilentIsBelow(config, a);
    }
    SilentIsBelow(config, LoopCount);
  }

  /** From its midpoint, a range below target keeps the upper half of its values, and the
      last one. */
  lemma {:induction false} BelowStep(r: Range, r': Range, current': u64)
    requires AxisStep(r, Midpoint(r), BelowTarget, r', current')
    ensures r'.hi == r.hi && current' == Midpoint(r') && Values(r') == Max(Values(r) / 2, 1)
    ensures AdjustedRange(r, Midpoint(r), BelowTarget).Some? <==> Values(r) > 1 || r.hi == U64_MAX
  {}

  lemma {:induction false} LoopMovesAtTop(config: BudgetTargetConfig, s: Search, v: Verdict, n: nat)
    requires CanSaturate(config) && AllBelow(v) && AllStanding(config, s, n)
    ensures SomeAxisMoves(s, v)
  {
    assert AxisStanding(B(config, LoopCount), R(s, LoopCount), K(s, LoopCount), n);
    assert Moves(s, v, LoopCount);
  }

  lemma {:induction false} SilentNarrow(config: BudgetTargetConfig, s: Search, v: Verdict, n: nat)
    requires CanSaturate(config) && AllBelow(v) && AllStanding(config, s, n)
    ensures AllStanding(config, NarrowStep(s, v), n + 1)
    ensures NarrowStep(s, v) == s.(ranges := NarrowStep(s, v).ranges, knobs := NarrowStep(s, v).knobs)
  {
    var t := NarrowStep(s, v);
    LoopMovesAtTop(config, s, v, n);
    NarrowEffect(s, v);
    forall a: KnobAxis ensures AxisStanding(B(config, a), R(t, a), K(t, a), n + 1) {
      assert AxisStanding(B(config, a), R(s, a), K(s, a), n);
      assert AxisStep(R(s, a), K(s, a), AxisStatus(v, a), R(t, a), K(t, a));
      BelowStep(R(s, a), R(t, a), K(t, a));
    }
  }

  lemma {:induction false} SameStanding(config: BudgetTargetConfig, s: Search, t: Search, n: nat)
    requires AllStanding(config, s, n) && t.ranges == s.ranges && t.knobs == s.knobs
    ensures AllStanding(config, t, n)
  {
    forall a: KnobAxis ensures AxisStanding(B(config, a), R(t, a), K(t, a), n) {
      assert AxisStanding(B(config, a), R(s, a), K(s, a), n);
    }
  }

  lemma {:induction false} SilentStep(config: BudgetTargetConfig, s: Search, v: Verdict, n: nat)
    requires CanSaturate(config) && AllBelow(v) && Standing(config, s, n) && n < config.maxIterations
    ensures Standing(config, ObserveStep(config, s, v), n + 1)
  {
    var c := CountSample(config, s, v.peak);
    SameStanding(config, s, c, n);
    SilentNarrow(config, c, v, n);
    SameStanding(config, NarrowStep(c, v), ObserveStep(config, s, v), n + 1);
  }

  function Silences(n: nat): seq<ConsumptionSample> { seq(n, _ => SILENT) }

  function AfterSilence(config: BudgetTargetConfig, rngSeed: bv64, n: nat): Search {
    Run(config, NewSearch(config, rngSeed), Silences(n))
  }

  lemma {:induction false} OneMoreSilence(config: BudgetTargetConfig, rngSeed: bv64, n: nat)
    requires n > 0
    ensures AfterSilence(config, rngSeed, n) == ObserveStep(config, AfterSilence(config, rngSeed, n - 1), Judge(config, SILENT))
  {
    assert Silences(n)[..n - 1] == Silences(n - 1) && Silences(n)[n - 1] == SILENT;
  }

  lemma {:induction false} SilenceStands(config: BudgetTargetConfig, rngSeed: bv64, n: nat)
    requires CanSaturate(config) && n <= config.maxIterations
    ensures Standing(config, AfterSilence(config, rngSeed, n), n)
  {
    if n == 0 {
      var s := NewSearch(config, rngSeed);
      forall a: KnobAxis ensures AxisStanding(B(config, a), R(s, a), K(s, a), 0) {}
    } else {
      SilenceStands(config, rngSeed, n - 1);
      SilentIsAllBelow(config);
      SilentStep(config, AfterSilence(config, rngSeed, n - 1), Judge(config, SILENT), n - 1);
      OneMoreSilence(config, rngSeed, n);
    }
  }

  lemma {:induction false} SilenceEnds(config: BudgetTargetConfig, rngSeed: bv64, n: nat)
    requires CanSaturate(config) && n >= config.maxIterations
    ensures Terminal(config, AfterSilence(config, rngSeed, n))
  {
    if n == config.maxIterations {
      SilenceStands(config, rngSeed, n);
    } else {
      SilenceEnds(config, rngSeed, n - 1);
      OneMoreSilence(config, rngSeed, n);
    }
  }

  lemma {:induction false} StandingSaturatesIff(config: BudgetTargetConfig, s: Search, v: Verdict, n: nat)
    requires CanSaturate(config) && Standing(config, s, n) && AllBelow(v)
    ensures SaturatedLoop(s, v) <==> forall a: KnobAxis :: Values(B(config, a)) < Pow2(n + 1)
  {
    forall a: KnobAxis
      ensures Values(R(s, a)) == 1 <==> Values(B(config, a)) < Pow2(n + 1)
      ensures Moves(s, v, a) <==> Values(R(s, a)) > 1 || a == LoopCount
    {
      assert AxisStanding(B(config, a), R(s, a), K(s, a), n);
      assert AxisStatus(v, a) == BelowTarget;
      HalveBelow(Values(B(config, a)), n, 2);
    }
    assert AxisStanding(B(config, LoopCount), R(s, LoopCount), K(s, LoopCount), n);
    assert R(s, LoopCount) == Interval(U64_MAX, U64_MAX) <==> Values(R(s, LoopCount)) == 1;
    assert AxisStatus(v, LoopCount) == BelowTarget;
  }

  /** A contract that consumes nothing: the observation after n others makes no progress if
      and only if the configuration can saturate, the cap is not reached, and every range
      is narrowed to one value by then. So it goes on until the cap. */
  lemma {:induction false} SilentSaturatesIff(config: BudgetTargetConfig, rngSeed: bv64, n: nat)
    ensures Saturates(config, AfterSilence(config, rngSeed, n), SILENT)
       <==> CanSaturate(config) && n < config.maxIterations && forall a: KnobAxis :: Values(B(config, a)) < Pow2(n + 1)
  {
    var s := AfterSilence(config, rngSeed, n);
    RunsStayBracketed(config, rngSeed, Silences(n));
    if Saturates(config, s, SILENT) {
      SaturationNeeds(config, s, SILENT);
    }
    if CanSaturate(config) {
      if n < config.maxIterations {
        SilenceStands(config, rngSeed, n);
        SilentIsAllBelow(config);
        StandingSaturatesIff(config, s, Judge(config, SILENT), n);
      } else {
        SilenceEnds(config, rngSeed, n);
      }
    }
  }

  // ----- any runs -----

  /** While the loop range keeps the top, its knob is in the middle or next to it. */
  predicate AtTop(s: Search) {
    R(s, LoopCount).hi == U64_MAX ==> K(s, LoopCount) == Midpoint(R(s, LoopCount)) || Values(R(s, LoopCount)) <= 2
  }

  /** And observations have halved it at best. */
  predicate HalvedAtBest(config: BudgetTargetConfig, s: Search) {
    R(s, LoopCount).hi == U64_MAX ==> Halve(Values(B(config, LoopCount)), s.iterations) <= Values(R(s, LoopCount))
  }

  /** From a midpoint, or with at most two values, any step that keeps the top halves the
      range at best. */
  lemma {:induction false} TopStep(r: Range, current: u64, status: BandStatus, r': Range, current': u64)
    requires AxisStep(r, current, status, r', current') && r.lo <= current <= r.hi
    requires r.hi == U64_MAX ==> current == Midpoint(r) || Values(r) <= 2
    ensures r'.hi == U64_MAX ==>
              && r.hi == U64_MAX && Values(r') >= Values(r) / 2
              && (current' == Midpoint(r') || Values(r') <= 2)
  {}

  /** At the top the loop stays put only with at most two values left. */
  lemma {:induction false} TopStuck(r: Range, current: u64, status: BandStatus)
    requires status != InBand && AdjustedRange(r, current, status).None?
    requires r.hi == U64_MAX ==> current == Midpoint(r) || Values(r) <= 2
    ensures r.hi == U64_MAX ==> Values(r) <= 2
  {}

  lemma {:induction false} LoopNarrows(config: BudgetTargetConfig, s: Search, v: Verdict)
    requires Bracketed(config, s) && AtTop(s) && v.cpu != InBand
    ensures var t := NarrowStep(s, v);
            && AtTop(t)
            && (R(t, LoopCount).hi == U64_MAX ==>
                  R(s, LoopCount).hi == U64_MAX && Values(R(t, LoopCount)) >= Values(R(s, LoopCount)) / 2)
  {
    var t := NarrowStep(s, v);
    NarrowEffect(s, v);
    assert AxisBracketed(config, s, LoopCount);
    if SomeAxisMoves(s, v) {
      assert AxisStep(R(s, LoopCount), K(s, LoopCount), v.cpu, R(t, LoopCount), K(t, LoopCount));
      TopStep(R(s, LoopCount), K(s, LoopCount), v.cpu, R(t, LoopCount), K(t, LoopCount));
    } else {
      assert !Moves(s, v, LoopCount);
      TopStuck(R(s, LoopCount), K(s, LoopCount), v.cpu);
    }
  }

  lemma {:induction false} CpuOutOfBand(config: BudgetTargetConfig, sample: ConsumptionSample)
    requires Judge(config, sample).edge.None?
    ensures Judge(config, sample).cpu != InBand
  {
    EdgeExact(config, sample);
    assert !DimensionInBand(config, sample, Cpu);
  }

  lemma {:induction false} ObservationStands(config: BudgetTargetConfig, s: Search, sample: ConsumptionSample)
    requires Bracketed(config, s) && AtTop(s) && HalvedAtBest(config, s)
    ensures AtTop(ObserveStep(config, s, Judge(config, sample)))
    ensures HalvedAtBest(config, ObserveStep(config, s, Judge(config, sample)))
  {
    var v := Judge(config, sample);
    if !Terminal(config, s) && v.edge.None? {
      var c := CountSample(config, s, v.peak);
      SameKnobsBracketed(config, s, c);
      CpuOutOfBand(config, sample);
      LoopNarrows(config, c, v);
      NarrowKeepsRecord(c, v);
    }
  }

  lemma {:induction false} RunsStand(config: BudgetTargetConfig, rngSeed: bv64, samples: seq<ConsumptionSample>)
    ensures var s := Run(config, NewSearch(config, rngSeed), samples); AtTop(s) && HalvedAtBest(config, s)
  {
    if samples != [] {
      var init := samples[..|samples| - 1];
      RunsStand(config, rngSeed, init);
      RunsStayBracketed(config, rngSeed, init);
      ObservationStands(config, Run(config, NewSearch(config, rngSeed), init), samples[|samples| - 1]);
    }
  }

  /** Before a saturated observation the loop range was halved to its last value, which
      takes observations. */
  lemma {:induction false} SaturationTakesTime(config: BudgetTargetConfig, rngSeed: bv64, samples: seq<ConsumptionSample>, sample: ConsumptionSample)
    requires Saturates(config, Run(config, NewSearch(config, rngSeed), samples), sample)
    ensures CanSaturate(config) && Values(config.bounds.loopCount) < Pow2(config.maxIterations)
  {
    var s := Run(config, NewSearch(config, rngSeed), samples);
    RunsStayBracketed(config, rngSeed, samples);
    SaturationNeeds(config, s, sample);
    RunsStand(config, rngSeed, samples);
    HalveBelow(Values(B(config, LoopCount)), s.iterations, 2);
    Pow2Grows(s.iterations + 1, config.maxIterations);
  }

  /** The loop count has as many values as any knob. */
  predicate LoopWidest(config: BudgetTargetConfig) {
    forall a: KnobAxis :: Values(B(config, a)) <= Values(B(config, LoopCount))
  }

  lemma {:induction false} SilenceSaturates(config: BudgetTargetConfig, rngSeed: bv64)
    requires CanSaturate(config) && forall a: KnobAxis :: Values(B(config, a)) < Pow2(config.maxIterations)
    ensures SomeRunSaturates(config, rngSeed)
  {
    assert Values(B(config, LoopCount)) < Pow2(config.maxIterations);
    SilentSaturatesIff(config, rngSeed, config.maxIterations - 1);
    assert Saturates(config, Run(config, NewSearch(config, rngSeed), Silences(config.maxIterations - 1)), SILENT);
  }

  lemma {:induction false} WordsFit(config: BudgetTargetConfig, a: KnobAxis)
    requires config.maxIterations >= 65
    ensures Values(B(config, a)) < Pow2(config.maxIterations)
  {
    Pow2Of64();
    Pow2Grows(65, config.maxIterations);
  }

  /** Some run from a new search comes to an observation without progress, if and only if
      the loop bound is u64::MAX, the band leaves room below it, and the cap leaves time to
      narrow the loop range to that value: for every cap if no other range is wider, and
      for all ranges if the cap is at least 65. In general the cap must leave that time,
      and it is enough if it leaves it for every range. */
  lemma {:induction false} RunsSaturateIff(config: BudgetTargetConfig, rngSeed: bv64)
    ensures SomeRunSaturates(config, rngSeed) ==> CanSaturate(config) && Values(config.bounds.loopCount) < Pow2(config.maxIterations)
    ensures CanSaturate(config) && (forall a: KnobAxis :: Values(B(config, a)) < Pow2(config.maxIterations))
            ==> SomeRunSaturates(config, rngSeed)
    ensures LoopWidest(config) || config.maxIterations >= 65 ==>
              (SomeRunSaturates(config, rngSeed) <==> CanSaturate(config) && Values(config.bounds.loopCount) < Pow2(config.maxIterations))
  {
    if SomeRunSaturates(config, rngSeed) {
      var samples, sample :| Saturates(config, Run(config, NewSearch(config, rngSeed), samples), sample);
      SaturationTakesTime(config, rngSeed, samples, sample);
    }
    if CanSaturate(config) && forall a: KnobAxis :: Values(B(config, a)) < Pow2(config.maxIterations) {
      assert Values(B(config, LoopCount)) < Pow2(config.maxIterations);
      SilenceSaturates(config, rngSeed);
    }
    if config.maxIterations >= 65 {
      forall a: KnobAxis ensures Values(B(config, a)) < Pow2(config.maxIterations) {
        WordsFit(config, a);
      }
    }
  }
}
