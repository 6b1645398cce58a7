/** The metering-edge search of budget_targeting.rs: utilization bands, knobs, and
    `BudgetTargeter`, a simultaneous binary search over four knob ranges.

    `Observe` on values (`ObserveStep`) specifies the class; what the search is for
    is proved about it in BudgetSearch.dfy. */
module BudgetTargeting {
  import opened Prelude
  import Prng

  const LIMIT_BPS: u32 := 10_000

  // ----- consumption and bands -----

  datatype MeterDimension = Cpu | Mem | MinBuiltin

  const DIMENSIONS: seq<MeterDimension> := [Cpu, Mem, MinBuiltin]

  datatype MeteringLimits = MeteringLimits(cpuInsns: u64, memBytes: u64, minBuiltin: u64) {
    function For(d: MeterDimension): u64 {
      match d case Cpu => cpuInsns case Mem => memBytes case MinBuiltin => minBuiltin
    }
  }

  datatype ConsumptionSample = ConsumptionSample(cpuInsns: u64, memBytes: u64, minBuiltin: u64) {
    function For(d: MeterDimension): u64 {
      match d case Cpu => cpuInsns case Mem => memBytes case MinBuiltin => minBuiltin
    }
  }

  datatype BandStatus = BelowTarget | InBand | AboveTarget

  datatype TargetBand = TargetBand(widthBps: u32) {
    function LowBps(): u32 { Max(LIMIT_BPS - widthBps, 0) }
    function HighBps(): u32 { Min(LIMIT_BPS + widthBps, U32_MAX) }
    function Status(utilization: u32): BandStatus {
      if utilization < LowBps() then BelowTarget
      else if utilization > HighBps() then AboveTarget
      else InBand
    }
  }

  /** Utilization in basis points, capped at the largest u32. */
  function UtilizationBps(value: u64, limit: u64): u32 {
    if limit == 0 then (if value == 0 then 0 else U32_MAX)
    else Min(value * LIMIT_BPS / limit, U32_MAX)
  }

  function Utilization(sample: ConsumptionSample, limits: MeteringLimits, d: MeterDimension): u32 {
    UtilizationBps(sample.For(d), limits.For(d))
  }

  function PeakUtilization(sample: ConsumptionSample, limits: MeteringLimits): u32 {
    Max(Max(Utilization(sample, limits, Cpu), Utilization(sample, limits, Mem)),
        Utilization(sample, limits, MinBuiltin))
  }

  datatype BudgetEdge = BudgetEdge(dimension: MeterDimension, utilizationBps: u32)

  /** The best in-band dimension among ds: least distance to the limit, earliest on ties. */
  function EdgeAmong(ds: seq<MeterDimension>, sample: ConsumptionSample, limits: MeteringLimits, band: TargetBand): Option<BudgetEdge> {
    if ds == [] then None
    else
      var best := EdgeAmong(ds[..|ds| - 1], sample, limits, band);
      var d := ds[|ds| - 1];
      var u := Utilization(sample, limits, d);
      if band.Status(u) == InBand
         && (best.None? || AbsDiff(u, LIMIT_BPS) < AbsDiff(best.value.utilizationBps, LIMIT_BPS))
      then Some(BudgetEdge(d, u))
      else best
  }

  method InBandDimension(sample: ConsumptionSample, limits: MeteringLimits, band: TargetBand)
    returns (best: Option<BudgetEdge>)
    ensures best == EdgeAmong(DIMENSIONS, sample, limits, band)
  {
    best := None;
    for i := 0 to |DIMENSIONS|
      invariant best == EdgeAmong(DIMENSIONS[..i], sample, limits, band)
    {
      assert DIMENSIONS[..i + 1][..i] == DIMENSIONS[..i];
      var d := DIMENSIONS[i];
      var u := Utilization(sample, limits, d);
      if band.Status(u) != InBand {
        continue;
      }
      var better := best.None? || AbsDiff(u, LIMIT_BPS) < AbsDiff(best.value.utilizationBps, LIMIT_BPS);
      if better {
        best := Some(BudgetEdge(d, u));
      }
    }
    assert DIMENSIONS[..|DIMENSIONS|] == DIMENSIONS;
  }

  // ----- knobs and their ranges -----

  datatype KnobAxis = LoopCount | VecLen | StringLen | NestedDepth

  const KNOB_AXES: seq<KnobAxis> := [LoopCount, VecLen, StringLen, NestedDepth]

  datatype Interval = Interval(lo: u64, hi: u64)

  /** A `(min, max)` pair; `midpoint` demands `min <= max` of every pair it is given. */
  type Range = r: Interval | r.lo <= r.hi witness Interval(0, 0)
  type Range32 = r: Range | r.hi < TWO_32 witness Interval(0, 0)

  datatype KnobBounds = KnobBounds(loopCount: Range, vecLen: Range32, stringLen: Range32, nestedDepth: Range32)

  datatype BudgetKnobs = BudgetKnobs(loopCount: u64, vecLen: u32, stringLen: u32, nestedDepth: u32)

  /** The `as u32` cast. */
  function Truncate32(x: u64): u32 { x % TWO_32 }

  /** Whether a value fits the axis's field: a u64 for the loop count, else a u32. */
  predicate Fits(axis: KnobAxis, value: u64) { axis == LoopCount || value < TWO_32 }

  function BoundsPair(b: KnobBounds, axis: KnobAxis): (r: Range)
    ensures Fits(axis, r.hi)
  {
    match axis
    case LoopCount => b.loopCount
    case VecLen => b.vecLen
    case StringLen => b.stringLen
    case NestedDepth => b.nestedDepth
  }

  function SetBoundsPair(b: KnobBounds, axis: KnobAxis, r: Range): KnobBounds
    requires Fits(axis, r.hi)
  {
    var narrow := Interval(Truncate32(r.lo), Truncate32(r.hi));
    match axis
    case LoopCount => b.(loopCount := r)
    case VecLen => b.(vecLen := narrow)
    case StringLen => b.(stringLen := narrow)
    case NestedDepth => b.(nestedDepth := narrow)
  }

  function GetKnob(k: BudgetKnobs, axis: KnobAxis): u64 {
    match axis
    case LoopCount => k.loopCount
    case VecLen => k.vecLen
    case StringLen => k.stringLen
    case NestedDepth => k.nestedDepth
  }

  function SetKnob(k: BudgetKnobs, axis: KnobAxis, value: u64): BudgetKnobs {
    match axis
    case LoopCount => k.(loopCount := value)
    case VecLen => k.(vecLen := Truncate32(value))
    case StringLen => k.(stringLen := Truncate32(value))
    case NestedDepth => k.(nestedDepth := Truncate32(value))
  }

  function Midpoint(r: Range): u64 { r.lo + (r.hi - r.lo) / 2 }

  function MidKnobs(b: KnobBounds): BudgetKnobs {
    BudgetKnobs(Midpoint(b.loopCount), Midpoint(b.vecLen), Midpoint(b.stringLen), Midpoint(b.nestedDepth))
  }

  datatype BudgetTargetConfig =
    BudgetTargetConfig(limits: MeteringLimits, band: TargetBand, bounds: KnobBounds, maxIterations: u32)

  // ----- dictionary starting points -----

  function AxisOf(d: MeterDimension): KnobAxis {
    match d case Cpu => LoopCount case Mem => VecLen case MinBuiltin => StringLen
  }

  /** A limit-space value scaled into a knob range: the quotient is cut to 64 bits, the
      sum saturates, and the result is capped at the range. */
  function ScaledKnob(r: Range, value: u64, limit: u64): u64 {
    if limit == 0 then r.hi
    else Min(Min(r.lo + ((r.hi - r.lo) * value / limit) % TWO_64, U64_MAX), r.hi)
  }

  function Clamp(x: u64, r: Range): u64 { Min(Max(x, r.lo), r.hi) }

  function Clamped(k: BudgetKnobs, b: KnobBounds): BudgetKnobs {
    BudgetKnobs(Clamp(k.loopCount, b.loopCount), Clamp(k.vecLen, b.vecLen),
                Clamp(k.stringLen, b.stringLen), Clamp(k.nestedDepth, b.nestedDepth))
  }

  function InitialKnobs(config: BudgetTargetConfig, d: MeterDimension, value: u64): BudgetKnobs {
    var scaled := ScaledKnob(BoundsPair(config.bounds, AxisOf(d)), value, config.limits.For(d));
    Clamped(SetKnob(MidKnobs(config.bounds), AxisOf(d), scaled), config.bounds)
  }

  // ----- one observation, on values -----

  datatype Search = Search(
    ranges: KnobBounds,
    knobs: BudgetKnobs,
    rng: bv64,
    iterations: u32,
    lastStatus: Option<BandStatus>,
    budgetEdge: Option<BudgetEdge>,
    stalled: bool,
    nudged: bool,
    bestDistance: u32,
    bestUtilizationBps: u32,
    bestKnobs: BudgetKnobs)

  function NewSearch(config: BudgetTargetConfig, rngSeed: bv64): Search {
    var knobs := MidKnobs(config.bounds);
    Search(config.bounds, knobs, Prng.SeedState(rngSeed), 0, None, None, false, false, U32_MAX, 0, knobs)
  }

  function DictionarySearch(config: BudgetTargetConfig, rngSeed: bv64, d: MeterDimension, value: u64): Search {
    var knobs := InitialKnobs(config, d, value);
    NewSearch(config, rngSeed).(knobs := knobs, bestKnobs := knobs)
  }

  /** Where adjusting one knob leaves that knob's range; None when it cannot move. */
  function AdjustedRange(r: Range, current: u64, status: BandStatus): (s: Option<Range>)
    ensures s.Some? ==> r.lo <= s.value.lo && s.value.hi <= r.hi
  {
    match status
    case InBand => None
    case BelowTarget =>
      var newLo := Max(Min(current + 1, U64_MAX), r.lo);
      if newLo > r.hi then None else Some(Interval(newLo, r.hi))
    case AboveTarget =>
      if current <= r.lo then None else Some(Interval(r.lo, Min(r.hi, current - 1)))
  }

  datatype Adjusted = Adjusted(moved: bool, ranges: KnobBounds, knobs: BudgetKnobs)

  function AdjustAxisOf(ranges: KnobBounds, knobs: BudgetKnobs, axis: KnobAxis, status: BandStatus): Adjusted {
    match AdjustedRange(BoundsPair(ranges, axis), GetKnob(knobs, axis), status)
    case None => Adjusted(false, ranges, knobs)
    case Some(r) => Adjusted(true, SetBoundsPair(ranges, axis, r), SetKnob(knobs, axis, Midpoint(r)))
  }

  /** All that `observe` reads off a sample: its peak, its edge if any, and the status
      of each dimension and of the peak. */
  datatype Verdict = Verdict(peak: u32, edge: Option<BudgetEdge>,
                             cpu: BandStatus, mem: BandStatus, minBuiltin: BandStatus, overall: BandStatus)

  function Judge(config: BudgetTargetConfig, sample: ConsumptionSample): Verdict {
    var peak := PeakUtilization(sample, config.limits);
    Verdict(peak, EdgeAmong(DIMENSIONS, sample, config.limits, config.band),
            config.band.Status(Utilization(sample, config.limits, Cpu)),
            config.band.Status(Utilization(sample, config.limits, Mem)),
            config.band.Status(Utilization(sample, config.limits, MinBuiltin)),
            config.band.Status(peak))
  }

  /** The status that steers an axis: its own dimension's, or the peak's for nesting depth. */
  function AxisStatus(v: Verdict, axis: KnobAxis): BandStatus {
    match axis case LoopCount => v.cpu case VecLen => v.mem case StringLen => v.minBuiltin case NestedDepth => v.overall
  }

  /** The axes adjusted in turn; `moved` is the disjunction. */
  function AdjustAxes(axes: seq<KnobAxis>, ranges: KnobBounds, knobs: BudgetKnobs, v: Verdict): Adjusted {
    if axes == [] then Adjusted(false, ranges, knobs)
    else
      var before := AdjustAxes(axes[..|axes| - 1], ranges, knobs, v);
      var axis := axes[|axes| - 1];
      var after := AdjustAxisOf(before.ranges, before.knobs, axis, AxisStatus(v, axis));
      after.(moved := before.moved || after.moved)
  }

  function NudgedValue(current: u64, up: bool): u64 {
    if up then Min(current + 1, U64_MAX) else Max(current - 1, 0)
  }

  /** A nudge moves the knob and keeps it inside its range. */
  predicate NudgeFits(r: Range, current: u64, up: bool) {
    var next := NudgedValue(current, up);
    next != current && r.lo <= next <= r.hi
  }

  /** The four axes in the order tried, starting from the drawn one. */
  function AxesFrom(start: nat): seq<KnobAxis> { seq(4, k => KNOB_AXES[(start + k) % 4]) }

  /** The first of these axes whose nudge fits, nudged; None when none fits. */
  function FirstNudge(axes: seq<KnobAxis>, up: bool, ranges: KnobBounds, knobs: BudgetKnobs): Option<BudgetKnobs> {
    if axes == [] then None
    else
      var current := GetKnob(knobs, axes[0]);
      if NudgeFits(BoundsPair(ranges, axes[0]), current, up)
      then Some(SetKnob(knobs, axes[0], NudgedValue(current, up)))
      else FirstNudge(axes[1..], up, ranges, knobs)
  }

  /** Around once in the drawn direction, then once in the other. */
  function NudgeFrom(start: nat, firstUp: bool, ranges: KnobBounds, knobs: BudgetKnobs): Option<BudgetKnobs> {
    var first := FirstNudge(AxesFrom(start), firstUp, ranges, knobs);
    if first.Some? then first else FirstNudge(AxesFrom(start), !firstUp, ranges, knobs)
  }

  function Nudge(ranges: KnobBounds, knobs: BudgetKnobs, rng: bv64): Option<BudgetKnobs> {
    var s1 := Prng.NextState(rng);
    var s2 := Prng.NextState(s1);
    NudgeFrom(Prng.Index(Prng.Scramble(s1), 4), Prng.Index(Prng.Scramble(s2), 2) == 0, ranges, knobs)
  }

  function RngAfterNudge(rng: bv64): bv64 { Prng.NextState(Prng.NextState(rng)) }

  /** `stall_or_nudge`. */
  function StallOrNudgeStep(s: Search): Search {
    if s.nudged then s.(stalled := true)
    else match Nudge(s.ranges, s.knobs, s.rng)
      case None => s.(stalled := true, rng := RngAfterNudge(s.rng))
      case Some(k) => s.(nudged := true, knobs := k, rng := RngAfterNudge(s.rng))
  }

  predicate Terminal(config: BudgetTargetConfig, s: Search) {
    s.budgetEdge.Some? || s.stalled || s.iterations >= config.maxIterations
  }

  /** The best-so-far bookkeeping, done for every sample before convergence. */
  function RecordPeak(s: Search, peak: u32): Search {
    if AbsDiff(peak, LIMIT_BPS) < s.bestDistance
    then s.(bestDistance := AbsDiff(peak, LIMIT_BPS), bestUtilizationBps := peak, bestKnobs := s.knobs)
    else s
  }

  /** Shrinking every range by one sample, or nudging or stalling when none moves. */
  function NarrowStep(s: Search, v: Verdict): Search {
    var a := AdjustAxes(KNOB_AXES, s.ranges, s.knobs, v);
    var t := s.(ranges := a.ranges, knobs := a.knobs);
    if a.moved then t else StallOrNudgeStep(t)
  }

  /** A sample recorded, and counted unless the search is over. */
  function CountSample(config: BudgetTargetConfig, s: Search, peak: u32): Search {
    var recorded := RecordPeak(s, peak);
    if Terminal(config, s) then recorded else recorded.(iterations := s.iterations + 1)
  }

  /** One call of `observe`. */
  function ObserveStep(config: BudgetTargetConfig, s: Search, v: Verdict): Search {
    if s.budgetEdge.Some? then s
    else
      var counted := CountSample(config, s, v.peak);
      match v.edge
      case Some(e) => counted.(budgetEdge := Some(e), lastStatus := Some(InBand))
      case None =>
        if Terminal(config, s) then counted.(lastStatus := Some(v.overall))
        else NarrowStep(counted, v).(lastStatus := Some(v.overall))
  }

  /** What that call returns. */
  function ObserveStatus(s: Search, v: Verdict): BandStatus {
    if s.budgetEdge.Some? || v.edge.Some? then InBand else v.overall
  }

  // ----- the targeter itself -----

  class BudgetTargeter {
    const config: BudgetTargetConfig
    var ranges: KnobBounds
    var knobs: BudgetKnobs
    var rng: Prng.SeededPrng
    var iterations: u32
    var lastStatus: Option<BandStatus>
    var budgetEdge: Option<BudgetEdge>
    var stalled: bool
    var nudged: bool
    var bestDistance: u32
    var bestUtilizationBps: u32
    var bestKnobs: BudgetKnobs

    ghost function State(): Search
      reads this, rng
    {
      Search(ranges, knobs, rng.state, iterations, lastStatus, budgetEdge, stalled, nudged,
             bestDistance, bestUtilizationBps, bestKnobs)
    }

    constructor (config: BudgetTargetConfig, rngSeed: bv64)
      ensures this.config == config && fresh(rng)
      ensures State() == NewSearch(config, rngSeed)
    {
      var mid := MidKnobs(config.bounds);
      this.config := config;
      ranges := config.bounds;
      knobs := mid;
      rng := new Prng.SeededPrng(rngSeed);
      iterations := 0;
      lastStatus := None;
      budgetEdge := None;
      stalled, nudged := false, false;
      bestDistance, bestUtilizationBps, bestKnobs := U32_MAX, 0, mid;
    }

    constructor WithDictionarySeed(config: BudgetTargetConfig, rngSeed: bv64, d: MeterDimension, value: u64)
      ensures this.config == config && fresh(rng)
      ensures State() == DictionarySearch(config, rngSeed, d, value)
    {
      var start := InitialKnobs(config, d, value);
      this.config := config;
      ranges := config.bounds;
      knobs := start;
      rng := new Prng.SeededPrng(rngSeed);
      iterations := 0;
      lastStatus := None;
      budgetEdge := None;
      stalled, nudged := false, false;
      bestDistance, bestUtilizationBps, bestKnobs := U32_MAX, 0, start;
    }

    method Observe(sample: ConsumptionSample) returns (result: BandStatus)
      modifies this, rng
      ensures rng == old(rng)
      ensures State() == ObserveStep(config, old(State()), Judge(config, sample))
      ensures result == ObserveStatus(old(State()), Judge(config, sample))
    {
      if budgetEdge.Some? {
        return InBand;
      }
      var band := config.band;
      var peak := PeakUtilization(sample, config.limits);
      var edge := InBandDimension(sample, config.limits, band);
      result := Absorb(Verdict(peak, edge,
                               band.Status(Utilization(sample, config.limits, Cpu)),
                               band.Status(Utilization(sample, config.limits, Mem)),
                               band.Status(Utilization(sample, config.limits, MinBuiltin)),
                               band.Status(peak)));
    }

    /** The part of `observe` that updates the search, the readings having been taken. */
    method Absorb(v: Verdict) returns (result: BandStatus)
      requires budgetEdge.None?
      modifies this, rng
      ensures rng == old(rng)
      ensures State() == ObserveStep(config, old(State()), v)
      ensures result == ObserveStatus(old(State()), v)
    {
      var terminal := Count(v.peak);
      if v.edge.Some? {
        budgetEdge := v.edge;
        lastStatus := Some(InBand);
        return InBand;
      }
      if terminal {
        lastStatus := Some(v.overall);
        return v.overall;
      }
      Settle(v);
      return v.overall;
    }

    /** The end of an observation that neither converges nor finds the search over. */
    method Settle(v: Verdict)
      modifies this`ranges, this`knobs, this`stalled, this`nudged, this`lastStatus, rng
      ensures State() == NarrowStep(old(State()), v).(lastStatus := Some(v.overall))
    {
      Narrow(v);
      lastStatus := Some(v.overall);
    }

    method Count(peak: u32) returns (terminal: bool)
      modifies this`iterations, this`bestDistance, this`bestUtilizationBps, this`bestKnobs
      ensures State() == CountSample(config, old(State()), peak) && terminal == Terminal(config, old(State()))
    {
      Record(peak);
      terminal := budgetEdge.Some? || stalled || iterations >= config.maxIterations;
      if !terminal {
        iterations := iterations + 1;
      }
    }

    method Record(peak: u32)
      modifies this`bestDistance, this`bestUtilizationBps, this`bestKnobs
      ensures State() == RecordPeak(old(State()), peak)
    {
      var distance := AbsDiff(peak, LIMIT_BPS);
      if distance < bestDistance {
        bestDistance := distance;
        bestUtilizationBps := peak;
        bestKnobs := knobs;
      }
    }

    /** Every range shrunk toward its own dimension's band, or a nudge or stall. */
    method Narrow(v: Verdict)
      modifies this`ranges, this`knobs, this`stalled, this`nudged, rng
      ensures State() == NarrowStep(old(State()), v)
    {
      var moved := false;
      for i := 0 to |KNOB_AXES|
        invariant Adjusted(moved, ranges, knobs) == AdjustAxes(KNOB_AXES[..i], old(ranges), old(knobs), v)
        invariant stalled == old(stalled) && nudged == old(nudged) && rng.state == old(rng.state)
      {
        assert KNOB_AXES[..i + 1][..i] == KNOB_AXES[..i];
        var axis := KNOB_AXES[i];
        var axisMoved := AdjustAxis(axis, AxisStatus(v, axis));
        moved := moved || axisMoved;
      }
      assert KNOB_AXES[..|KNOB_AXES|] == KNOB_AXES;
      if !moved {
        StallOrNudge();
      }
    }

    method AdjustAxis(axis: KnobAxis, status: BandStatus) returns (moved: bool)
      modifies this`ranges, this`knobs
      ensures Adjusted(moved, ranges, knobs) == AdjustAxisOf(old(ranges), old(knobs), axis, status)
    {
      var r := BoundsPair(ranges, axis);
      var current := GetKnob(knobs, axis);
      match status {
        case InBand =>
          return false;
        case BelowTarget =>
          var newLo := Max(Min(current + 1, U64_MAX), r.lo);
          if newLo > r.hi {
            return false;
          }
          ranges := SetBoundsPair(ranges, axis, Interval(newLo, r.hi));
          knobs := SetKnob(knobs, axis, Midpoint(Interval(newLo, r.hi)));
          return true;
        case AboveTarget =>
          if current <= r.lo {
            return false;
          }
          var newHi := Min(r.hi, current - 1);
          ranges := SetBoundsPair(ranges, axis, Interval(r.lo, newHi));
          knobs := SetKnob(knobs, axis, Midpoint(Interval(r.lo, newHi)));
          return true;
      }
    }

    method StallOrNudge()
      modifies this`stalled, this`nudged, this`knobs, rng
      ensures State() == StallOrNudgeStep(old(State()))
    {
      if nudged {
        stalled := true;
      } else {
        var done := NudgeWithinRanges();
        if !done {
          stalled := true;
        } else {
          nudged := true;
        }
      }
    }

    method NudgeWithinRanges() returns (done: bool)
      modifies this`knobs, rng
      ensures rng.state == RngAfterNudge(old(rng.state))
      ensures done == Nudge(ranges, old(knobs), old(rng.state)).Some?
      ensures knobs == (if done then Nudge(ranges, old(knobs), old(rng.state)).value else old(knobs))
    {
      var x := rng.NextU64();
      var start := Prng.Index(x, 4);
      var y := rng.NextU64();
      var firstUp := Prng.Index(y, 2) == 0;
      for round := 0 to 2
        invariant knobs == old(knobs) && rng.state == RngAfterNudge(old(rng.state))
        invariant round >= 1 ==> FirstNudge(AxesFrom(start), firstUp, ranges, knobs).None?
        invariant round == 2 ==> FirstNudge(AxesFrom(start), !firstUp, ranges, knobs).None?
      {
        var up := if round == 0 then firstUp else !firstUp;
        var nudged := NudgeRound(start, up);
        if nudged {
          return true;
        }
      }
      return false;
    }

    method NudgeRound(start: nat, up: bool) returns (done: bool)
      modifies this`knobs
      ensures done == FirstNudge(AxesFrom(start), up, ranges, old(knobs)).Some?
      ensures knobs == (if done then FirstNudge(AxesFrom(start), up, ranges, old(knobs)).value else old(knobs))
    {
      ghost var axes := AxesFrom(start);
      for offset := 0 to |KNOB_AXES|
        invariant knobs == old(knobs)
        invariant FirstNudge(axes[offset..], up, ranges, knobs) == FirstNudge(axes, up, ranges, knobs)
      {
        assert axes[offset..][1..] == axes[offset + 1..];
        var axis := KNOB_AXES[(start + offset) % |KNOB_AXES|];
        var r := BoundsPair(ranges, axis);
        var current := GetKnob(knobs, axis);
        var next := NudgedValue(current, up);
        if next != current && next >= r.lo && next <= r.hi {
          knobs := SetKnob(knobs, axis, next);
          return true;
        }
      }
      return false;
    }
  }
}
