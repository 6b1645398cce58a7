/** The seed quota shared by every worker of a scope (capacity.rs): `QuotaGuard::admit_seed`
    as a state machine whose steps are the atomic loads and compare-exchanges of any
    number of threads, and a proof that every interleaving is linearizable. */
module Capacity {
  import opened Prelude

  // ----- priority classes and their share of a limit -----

  datatype CampaignClass = Interactive | Nightly | Deep

  /** What `effective_limit` takes off: no, 1000 or 2500 basis points of the limit, rounded
      down. */
  function Headroom(limit: u64, c: CampaignClass): u64 {
    match c case Interactive => 0 case Nightly => limit * 1_000 / 10_000 case Deep => limit * 2_500 / 10_000
  }

  function EffectiveLimit(limit: u64, c: CampaignClass): u64 { limit - Headroom(limit, c) }

  /** A class may use all of a limit, nine tenths of it, or three quarters, rounded up. */
  lemma {:induction false} EffectiveLimitByNumbers(limit: u64)
    ensures EffectiveLimit(limit, Interactive) == limit
    ensures 9 * limit <= 10 * EffectiveLimit(limit, Nightly) < 9 * limit + 10
    ensures 3 * limit <= 4 * EffectiveLimit(limit, Deep) < 3 * limit + 4
  {}

  /** The part of the allowance a class may not touch. */
  function Reserved(allowance: u64, c: CampaignClass): u64 { allowance - EffectiveLimit(allowance, c) }

  /** Interactive < Nightly < Deep in how much they must leave. */
  function Restriction(c: CampaignClass): nat { match c case Interactive => 0 case Nightly => 1 case Deep => 2 }

  lemma {:induction false} HeadroomOrdered(allowance: u64, c: CampaignClass, d: CampaignClass)
    requires Restriction(c) <= Restriction(d)
    ensures Reserved(allowance, c) <= Reserved(allowance, d) <= allowance
  {}

  // ----- the sequential meaning of one call -----

  datatype ThrottleDecision = Proceed | Throttled(remaining: u64, reserved: u64)

  /** One indivisible test-and-decrement. */
  function AdmitDecision(allowance: u64, remaining: u64, c: CampaignClass): ThrottleDecision {
    if remaining <= Reserved(allowance, c) then Throttled(remaining, Reserved(allowance, c)) else Proceed
  }

  /** A call proceeds when more is left than is reserved: nothing, a tenth of the allowance,
      or a quarter, rounded down. Otherwise it reports both. */
  lemma {:induction false} ThrottleByNumbers(allowance: u64, remaining: u64, c: CampaignClass)
    ensures var reserved := match c case Interactive => 0 case Nightly => allowance / 10 case Deep => allowance / 4;
            AdmitDecision(allowance, remaining, c) == if remaining > reserved then Proceed else Throttled(remaining, reserved)
  {}

  /** Indivisible calls admit a class exactly while fewer than its effective limit have
      been admitted in all. */
  lemma {:induction false} AdmitsUpToEffectiveLimit(allowance: u64, admitted: nat, c: CampaignClass)
    requires admitted <= allowance
    ensures AdmitDecision(allowance, allowance - admitted, c).Proceed? <==> admitted < EffectiveLimit(allowance, c)
  {}

  // ----- threads and their atomic steps -----

  datatype Pc =
    | Idle
    | Called(class_: CampaignClass)
    | Testing(class_: CampaignClass, current: u64)
    | Swapping(class_: CampaignClass, current: u64)
    | Returning(class_: CampaignClass, decision: ThrottleDecision)

  /** What a run leaves behind. `Effect` marks the moment a call is claimed to take
      effect; it is bookkeeping, on which no step depends. */
  datatype Event =
    | Invoke(thread: nat, class_: CampaignClass)
    | Effect(thread: nat, class_: CampaignClass, decision: ThrottleDecision)
    | Return(thread: nat, class_: CampaignClass, decision: ThrottleDecision)

  datatype Pool = Pool(allowance: u64, remaining: u64, threads: seq<Pc>, log: seq<Event>)

  /** The steps a thread can take. `SwapFail` is a failed weak compare-exchange, spurious
      or not, which also reads the counter. */
  datatype Action = Call(thread: nat, class_: CampaignClass) | Load(thread: nat) | Test(thread: nat)
                  | SwapOk(thread: nat) | SwapFail(thread: nat) | Reply(thread: nat)

  predicate Enabled(p: Pool, a: Action) {
    a.thread < |p.threads| &&
    var pc := p.threads[a.thread];
    match a
    case Call(_, _) => pc.Idle?
    case Load(_) => pc.Called?
    case Test(_) => pc.Testing?
    case SwapOk(_) => pc.Swapping? && p.remaining == pc.current
    case SwapFail(_) => pc.Swapping?
    case Reply(_) => pc.Returning?
  }

  /** What one step does: the thread's next program counter, the counter, and the event
      it leaves, if any. */
  datatype Move = Move(pc: Pc, remaining: u64, event: Option<Event>)

  /** Thread t reads the counter on behalf of a call of class c. A read at or below the
      reserve settles the call. */
  function ReadCounter(allowance: u64, remaining: u64, t: nat, c: CampaignClass): Move {
    Move(Testing(c, remaining), remaining,
         if remaining <= Reserved(allowance, c)
         then Some(Effect(t, c, Throttled(remaining, Reserved(allowance, c)))) else None)
  }

  /** The step itself. The subtraction in SwapOk never saturates: the invariant below
      shows that a thread swaps only above its reserve. */
  function MoveOf(p: Pool, a: Action): Move
    requires Enabled(p, a)
  {
    var t, pc := a.thread, p.threads[a.thread];
    match a
    case Call(_, c) => Move(Called(c), p.remaining, Some(Invoke(t, c)))
    case Load(_) => ReadCounter(p.allowance, p.remaining, t, pc.class_)
    case Test(_) =>
      var reserved := Reserved(p.allowance, pc.class_);
      Move(if pc.current <= reserved then Returning(pc.class_, Throttled(pc.current, reserved))
           else Swapping(pc.class_, pc.current), p.remaining, None)
    case SwapOk(_) =>
      Move(Returning(pc.class_, Proceed), Max(pc.current - 1, 0), Some(Effect(t, pc.class_, Proceed)))
    case SwapFail(_) => ReadCounter(p.allowance, p.remaining, t, pc.class_)
    case Reply(_) => Move(Idle, p.remaining, Some(Return(t, pc.class_, pc.decision)))
  }

  function Apply(p: Pool, t: nat, m: Move): Pool
    requires t < |p.threads|
  {
    Pool(p.allowance, m.remaining, p.threads[t := m.pc],
         if m.event.Some? then p.log + [m.event.value] else p.log)
  }

  function Step(p: Pool, a: Action): Pool
    requires Enabled(p, a)
  {
    Apply(p, a.thread, MoveOf(p, a))
  }

  function NewPool(allowance: u64, threads: nat): Pool {
    Pool(allowance, allowance, seq(threads, _ => Idle), [])
  }

  /** The pool after a sequence of actions; None if one of them was not enabled. */
  function Run(p: Pool, actions: seq<Action>): Option<Pool> {
    if actions == [] then Some(p)
    else match Run(p, actions[..|actions| - 1])
      case None => None
      case Some(q) =>
        var a := actions[|actions| - 1];
        if Enabled(q, a) then Some(Step(q, a)) else None
  }

  // ----- sequential histories -----

  predicate IsProceed(e: Event) { e.Effect? && e.decision.Proceed? }

  function Admitted(log: seq<Event>): nat {
    if log == [] then 0 else Admitted(log[..|log| - 1]) + if IsProceed(log[|log| - 1]) then 1 else 0
  }

  function AdmittedOf(log: seq<Event>, c: CampaignClass): nat {
    if log == [] then 0
    else AdmittedOf(log[..|log| - 1], c) + if IsProceed(log[|log| - 1]) && log[|log| - 1].class_ == c then 1 else 0
  }

  /** Taken in log order, the effects are exactly what indivisible calls would answer,
      each finding allowance minus the earlier admissions in the pool. */
  predicate Sequential(allowance: u64, log: seq<Event>) {
    log == [] ||
    (var before, e := log[..|log| - 1], log[|log| - 1];
     && Sequential(allowance, before)
     && (e.Effect? ==>
           && Admitted(before) <= allowance
           && e.decision == AdmitDecision(allowance, allowance - Admitted(before), e.class_)))
  }

  lemma {:induction false} ClassesPartition(log: seq<Event>)
    ensures Admitted(log) == AdmittedOf(log, Interactive) + AdmittedOf(log, Nightly) + AdmittedOf(log, Deep)
  {
    if log != [] {
      ClassesPartition(log[..|log| - 1]);
    }
  }

  /** A sequential history admits at most the allowance, leaves the nightly headroom to
      interactive work and the deep headroom to both. */
  lemma {:induction false} HeadroomKept(allowance: u64, log: seq<Event>)
    requires Sequential(allowance, log)
    ensures Admitted(log) <= allowance
    ensures AdmittedOf(log, Deep) <= EffectiveLimit(allowance, Deep)
    ensures AdmittedOf(log, Deep) + AdmittedOf(log, Nightly) <= EffectiveLimit(allowance, Nightly)
  {
    if log != [] {
      var before, e := log[..|log| - 1], log[|log| - 1];
      HeadroomKept(allowance, before);
      ClassesPartition(before);
      HeadroomOrdered(allowance, Nightly, Deep);
    }
  }

  lemma {:induction false} AdmittedGrows(log: seq<Event>, i: nat)
    requires i <= |log|
    ensures Admitted(log[..i]) <= Admitted(log)
  {
    if i < |log| {
      AdmittedGrows(log[..|log| - 1], i);
      assert log[..|log| - 1][..i] == log[..i];
    } else {
      assert log[..i] == log;
    }
  }

  lemma {:induction false} EffectAt(allowance: u64, log: seq<Event>, i: nat)
    requires Sequential(allowance, log) && i < |log| && log[i].Effect?
    ensures Admitted(log[..i]) <= allowance
    ensures log[i].decision == AdmitDecision(allowance, allowance - Admitted(log[..i]), log[i].class_)
  {
    if i < |log| - 1 {
      EffectAt(allowance, log[..|log| - 1], i);
      assert log[..|log| - 1][..i] == log[..i];
    }
  }

  /** Once a class has been throttled, it and every more restricted class stay throttled. */
  lemma {:induction false} ThrottleIsSticky(allowance: u64, log: seq<Event>, i: nat, j: nat)
    requires Sequential(allowance, log) && i < j < |log| && log[i].Effect? && log[j].Effect?
    requires log[i].decision.Throttled? && Restriction(log[i].class_) <= Restriction(log[j].class_)
    ensures log[j].decision.Throttled?
  {
    EffectAt(allowance, log, i);
    EffectAt(allowance, log, j);
    AdmittedGrows(log[..j], i);
    assert log[..j][..i] == log[..i];
    HeadroomOrdered(allowance, log[i].class_, log[j].class_);
  }

  // ----- what one thread has done so far -----

  datatype Phase = Quiet | Pending(class_: CampaignClass) | Settled(class_: CampaignClass, decision: ThrottleDecision) | Broken

  /** Thread t's events must cycle through invoke, effect, return, of one class and one
      decision; anything else is Broken. */
  function PhaseAfter(phase: Phase, e: Event, t: nat): Phase {
    if e.thread != t then phase
    else match e
      case Invoke(_, c) => if phase.Quiet? then Pending(c) else Broken
      case Effect(_, c, d) => if phase == Pending(c) then Settled(c, d) else Broken
      case Return(_, c, d) => if phase == Settled(c, d) then Quiet else Broken
  }

  function PhaseOf(log: seq<Event>, t: nat): Phase {
    if log == [] then Quiet else PhaseAfter(PhaseOf(log[..|log| - 1], t), log[|log| - 1], t)
  }

  function ExpectedPhase(allowance: u64, pc: Pc): Phase {
    match pc
    case Idle => Quiet
    case Called(c) => Pending(c)
    case Testing(c, current) =>
      if current <= Reserved(allowance, c) then Settled(c, Throttled(current, Reserved(allowance, c))) else Pending(c)
    case Swapping(c, current) => Pending(c)
    case Returning(c, d) => Settled(c, d)
  }

  // ----- the invariant of every interleaving -----

  predicate Invariant(p: Pool) {
    && Sequential(p.allowance, p.log)
    && p.remaining + Admitted(p.log) == p.allowance
    && (forall t :: 0 <= t < |p.threads| ==> PhaseOf(p.log, t) == ExpectedPhase(p.allowance, p.threads[t]))
    && (forall t :: 0 <= t < |p.threads| ==> AboveReserve(p.allowance, p.threads[t]))
  }

  lemma {:induction false} LogAppend(allowance: u64, log: seq<Event>, e: Event)
    ensures Admitted(log + [e]) == Admitted(log) + if IsProceed(e) then 1 else 0
    ensures Sequential(allowance, log + [e]) <==>
              Sequential(allowance, log)
              && (e.Effect? ==> Admitted(log) <= allowance
                                && e.decision == AdmitDecision(allowance, allowance - Admitted(log), e.class_))
    ensures forall u: nat :: PhaseOf(log + [e], u) == PhaseAfter(PhaseOf(log, u), e, u)
  {
    assert (log + [e])[..|log + [e]| - 1] == log && (log + [e])[|log + [e]| - 1] == e;
  }

  predicate AboveReserve(allowance: u64, pc: Pc) {
    pc.Swapping? ==> pc.current > Reserved(allowance, pc.class_)
  }

  /** What a move of a thread at pc must respect: the phase its events show, the counter
      they account for, and, for an effect, the answer an indivisible call would give. */
  predicate GoodMove(allowance: u64, remaining: u64, t: nat, pc: Pc, m: Move) {
    && AboveReserve(allowance, m.pc)
    && match m.event
       case None => m.remaining == remaining && ExpectedPhase(allowance, m.pc) == ExpectedPhase(allowance, pc)
       case Some(e) =>
         && e.thread == t
         && ExpectedPhase(allowance, m.pc) == PhaseAfter(ExpectedPhase(allowance, pc), e, t)
         && m.remaining == remaining - (if IsProceed(e) then 1 else 0)
         && (e.Effect? ==> e.decision == AdmitDecision(allowance, remaining, e.class_))
  }

  lemma {:induction false} MovesAreGood(p: Pool, a: Action)
    requires Enabled(p, a) && AboveReserve(p.allowance, p.threads[a.thread])
    ensures GoodMove(p.allowance, p.remaining, a.thread, p.threads[a.thread], MoveOf(p, a))
  {}

  lemma {:induction false} GoodMoveKeepsInvariant(p: Pool, t: nat, m: Move)
    requires Invariant(p) && t < |p.threads| && GoodMove(p.allowance, p.remaining, t, p.threads[t], m)
    ensures Invariant(Apply(p, t, m))
  {
    if m.event.Some? {
      LogAppend(p.allowance, p.log, m.event.value);
    }
  }

  lemma {:induction false} RunKeepsInvariant(p: Pool, actions: seq<Action>)
    requires Invariant(p) && Run(p, actions).Some?
    ensures Invariant(Run(p, actions).value) && Run(p, actions).value.allowance == p.allowance
  {
    if actions != [] {
      var init := actions[..|actions| - 1];
      RunKeepsInvariant(p, init);
      var q, a := Run(p, init).value, actions[|actions| - 1];
      MovesAreGood(q, a);
      GoodMoveKeepsInvariant(q, a.thread, MoveOf(q, a));
    }
  }

  /** In every interleaving of any number of threads: each thread's calls are properly
      bracketed, every call takes effect once between its invocation and its return with
      the decision it returns, and in order of effect the calls answer as indivisible
      test-and-decrements. The pool always holds the allowance minus the admissions, and
      no class eats into the headroom of those above it. */
  lemma {:induction false} EveryInterleavingIsLinearizable(allowance: u64, threads: nat, actions: seq<Action>)
    requires Run(NewPool(allowance, threads), actions).Some?
    ensures var p := Run(NewPool(allowance, threads), actions).value;
            && Sequential(allowance, p.log)
            && (forall t :: 0 <= t < |p.threads| ==> !PhaseOf(p.log, t).Broken?)
            && p.remaining + Admitted(p.log) == allowance
            && AdmittedOf(p.log, Deep) <= EffectiveLimit(allowance, Deep)
            && AdmittedOf(p.log, Deep) + AdmittedOf(p.log, Nightly) <= EffectiveLimit(allowance, Nightly)
  {
    RunKeepsInvariant(NewPool(allowance, threads), actions);
    HeadroomKept(allowance, Run(NewPool(allowance, threads), actions).value.log);
  }

  // ----- counting returned results -----

  predicate IsReturnedProceed(e: Event) { e.Return? && e.decision.Proceed? }

  function ReturnedProceeds(log: seq<Event>): nat {
    if log == [] then 0
    else ReturnedProceeds(log[..|log| - 1]) + if IsReturnedProceed(log[|log| - 1]) then 1 else 0
  }

  predicate AboutToProceed(pc: Pc) { pc.Returning? && pc.decision.Proceed? }

  function Flag(pc: Pc): nat { if AboutToProceed(pc) then 1 else 0 }

  function InFlight(threads: seq<Pc>): nat {
    if threads == [] then 0
    else InFlight(threads[..|threads| - 1]) + Flag(threads[|threads| - 1])
  }

  lemma {:induction false} InFlightUpdate(threads: seq<Pc>, t: nat, pc: Pc)
    requires t < |threads|
    ensures InFlight(threads[t := pc]) + Flag(threads[t]) == InFlight(threads) + Flag(pc)
  {
    var last := |threads| - 1;
    if t == last {
      assert threads[t := pc][..last] == threads[..last];
    } else {
      InFlightUpdate(threads[..last], t, pc);
      assert threads[t := pc][..last] == threads[..last][t := pc];
    }
  }

  lemma {:induction false} IdleInFlight(threads: seq<Pc>)
    requires forall t :: 0 <= t < |threads| ==> threads[t].Idle?
    ensures InFlight(threads) == 0
  {
    if threads != [] {
      IdleInFlight(threads[..|threads| - 1]);
    }
  }

  lemma {:induction false} ReturnsAppend(log: seq<Event>, e: Event)
    ensures ReturnedProceeds(log + [e]) == ReturnedProceeds(log) + if IsReturnedProceed(e) then 1 else 0
  {
    assert (log + [e])[..|log + [e]| - 1] == log;
  }

  lemma {:induction false} MovesBalance(p: Pool, a: Action)
    requires Enabled(p, a)
    ensures var m, pc := MoveOf(p, a), p.threads[a.thread];
            if m.event.Some?
            then (if IsProceed(m.event.value) then 1 else 0) + Flag(pc)
              == (if IsReturnedProceed(m.event.value) then 1 else 0) + Flag(m.pc)
            else Flag(pc) == Flag(m.pc)
  {}

  /** An admission whose result is not yet handed out is exactly a thread about to
      return Proceed. */
  lemma {:induction false} StepKeepsCount(p: Pool, a: Action)
    requires Enabled(p, a) && Admitted(p.log) == ReturnedProceeds(p.log) + InFlight(p.threads)
    ensures Admitted(Step(p, a).log) == ReturnedProceeds(Step(p, a).log) + InFlight(Step(p, a).threads)
  {
    var m := MoveOf(p, a);
    MovesBalance(p, a);
    ApplyCounts(p, a.thread, m);
  }

  lemma {:induction false} ApplyCounts(p: Pool, t: nat, m: Move)
    requires t < |p.threads|
    ensures var q := Apply(p, t, m);
            && InFlight(q.threads) + Flag(p.threads[t]) == InFlight(p.threads) + Flag(m.pc)
            && Admitted(q.log) == Admitted(p.log) + (if m.event.Some? && IsProceed(m.event.value) then 1 else 0)
            && ReturnedProceeds(q.log) == ReturnedProceeds(p.log)
                                          + (if m.event.Some? && IsReturnedProceed(m.event.value) then 1 else 0)
  {
    InFlightUpdate(p.threads, t, m.pc);
    if m.event.Some? {
      LogAppend(p.allowance, p.log, m.event.value);
      ReturnsAppend(p.log, m.event.value);
    }
  }

  lemma {:induction false} RunKeepsCount(p: Pool, actions: seq<Action>)
    requires Run(p, actions).Some? && Admitted(p.log) == ReturnedProceeds(p.log) + InFlight(p.threads)
    ensures var q := Run(p, actions).value; Admitted(q.log) == ReturnedProceeds(q.log) + InFlight(q.threads)
  {
    if actions != [] {
      var init := actions[..|actions| - 1];
      RunKeepsCount(p, init);
      StepKeepsCount(Run(p, init).value, actions[|actions| - 1]);
    }
  }

  /** When no call is in progress, the pool holds exactly the allowance minus the
      Proceed results handed out. */
  lemma {:induction false} QuiescentConservation(allowance: u64, threads: nat, actions: seq<Action>)
    requires Run(NewPool(allowance, threads), actions).Some?
    requires forall t :: 0 <= t < |Run(NewPool(allowance, threads), actions).value.threads|
               ==> Run(NewPool(allowance, threads), actions).value.threads[t].Idle?
    ensures var p := Run(NewPool(allowance, threads), actions).value;
            p.remaining + ReturnedProceeds(p.log) == allowance
  {
    var start := NewPool(allowance, threads);
    IdleInFlight(start.threads);
    RunKeepsInvariant(start, actions);
    RunKeepsCount(start, actions);
    IdleInFlight(Run(start, actions).value.threads);
  }

  // ----- lock freedom -----

  predicate NotBelow(pc: Pc, remaining: u64) {
    pc.Testing? || pc.Swapping? ==> remaining <= pc.current
  }

  lemma {:induction false} StepKeepsNotBelow(p: Pool, a: Action)
    requires Invariant(p) && Enabled(p, a)
    requires forall t :: 0 <= t < |p.threads| ==> NotBelow(p.threads[t], p.remaining)
    ensures forall t :: 0 <= t < |p.threads| ==> NotBelow(Step(p, a).threads[t], Step(p, a).remaining)
  {
    MovesAreGood(p, a);
    assert NotBelow(p.threads[a.thread], p.remaining);
    assert MoveOf(p, a).remaining <= p.remaining && NotBelow(MoveOf(p, a).pc, MoveOf(p, a).remaining);
    forall t | 0 <= t < |p.threads|
      ensures NotBelow(Step(p, a).threads[t], Step(p, a).remaining)
    {
      assert NotBelow(p.threads[t], p.remaining);
    }
  }

  /** A compare-exchange that fails because the counter moved, rather than spuriously, was
      overtaken by an admission: the counter is below what the thread had read. */
  lemma {:induction false} OvertakenMeansProgress(allowance: u64, threads: nat, actions: seq<Action>)
    requires Run(NewPool(allowance, threads), actions).Some?
    ensures var p := Run(NewPool(allowance, threads), actions).value;
            forall t :: 0 <= t < |p.threads| ==>
              NotBelow(p.threads[t], p.remaining)
              && (p.threads[t].Swapping? && p.threads[t].current != p.remaining ==> p.remaining < p.threads[t].current)
  {
    if actions != [] {
      var init := actions[..|actions| - 1];
      OvertakenMeansProgress(allowance, threads, init);
      RunKeepsInvariant(NewPool(allowance, threads), init);
      var q := Run(NewPool(allowance, threads), init).value;
      StepKeepsNotBelow(q, actions[|actions| - 1]);
    }
  }
}
