/** The IP layer of the request limiter (rate-limit.ts): fixed windows by client key, the
    invisible cleanup of expired buckets, and how many requests any interval admits.

    Times are whole milliseconds, as the clock gives them. */
module RateLimit {
  import opened Prelude

  datatype Config = Config(window: int, maximum: int)

  /** Both settings are read as positive integers. */
  predicate Positive(cfg: Config) { cfg.window > 0 && cfg.maximum > 0 }

  datatype Bucket = Bucket(count: nat, resetAt: int)

  datatype State = State(buckets: map<string, Bucket>, lastCleanup: int)

  const INITIAL: State := State(map[], 0)

  datatype Decision = Decision(allowed: bool, remaining: int, resetAt: int, resetSeconds: int)

  datatype Request = Request(key: string, at: int)

  /** `Math.ceil(ms / 1000)`. */
  function CeilSeconds(ms: int): int { -((-ms) / 1000) }

  /** The least number of seconds that covers the milliseconds. */
  lemma {:induction false} CeilByNumbers(ms: int)
    ensures 1000 * (CeilSeconds(ms) - 1) < ms <= 1000 * CeilSeconds(ms)
  {}

  // ----- one request -----

  predicate Expired(b: Bucket, now: int) { b.resetAt <= now }

  function Swept(buckets: map<string, Bucket>, now: int): map<string, Bucket> {
    map key | key in buckets && !Expired(buckets[key], now) :: buckets[key]
  }

  function Clean(cfg: Config, s: State, now: int): State {
    if now - s.lastCleanup < cfg.window then s else State(Swept(s.buckets, now), now)
  }

  /** The key's live bucket, if it has one. */
  function View(buckets: map<string, Bucket>, key: string, now: int): Option<Bucket> {
    if key in buckets && !Expired(buckets[key], now) then Some(buckets[key]) else None
  }

  /** The bucket after counting one more request. */
  function Counted(cfg: Config, live: Option<Bucket>, now: int): Bucket {
    match live
    case Some(b) => Bucket(b.count + 1, b.resetAt)
    case None => Bucket(1, now + cfg.window)
  }

  function Decide(cfg: Config, b: Bucket, now: int): Decision {
    Decision(b.count <= cfg.maximum, Max(cfg.maximum - b.count, 0), b.resetAt, CeilSeconds(b.resetAt - now))
  }

  function Visit(cfg: Config, buckets: map<string, Bucket>, r: Request): (map<string, Bucket>, Decision) {
    var b := Counted(cfg, View(buckets, r.key, r.at), r.at);
    (buckets[r.key := b], Decide(cfg, b, r.at))
  }

  class IpLimiter {
    const cfg: Config
    var buckets: map<string, Bucket>
    var lastCleanup: int

    function Data(): State
      reads this
    {
      State(buckets, lastCleanup)
    }

    constructor (cfg: Config)
      ensures this.cfg == cfg && Data() == INITIAL
    {
      this.cfg := cfg;
      buckets, lastCleanup := map[], 0;
    }

    /** `cleanupExpiredBuckets`. */
    method CleanupExpiredBuckets(now: int)
      modifies this
      ensures Data() == Clean(cfg, old(Data()), now)
    {
      if now - lastCleanup < cfg.window {
        return;
      }
      var rest := buckets.Keys;
      ghost var all := buckets;
      while rest != {}
        invariant rest <= all.Keys && lastCleanup == old(lastCleanup)
        invariant forall key :: key in buckets <==> key in all && (key in rest || !Expired(all[key], now))
        invariant forall key :: key in buckets ==> buckets[key] == all[key]
        decreases |rest|
      {
        var key :| key in rest;
        rest := rest - {key};
        if buckets[key].resetAt <= now {
          buckets := buckets - {key};
        }
      }
      lastCleanup := now;
      assert buckets == Swept(all, now);
    }

    /** `currentBucket`: a live bucket, or a new one for a window opening now. */
    method CurrentBucket(key: string, now: int) returns (b: Bucket)
      modifies this
      ensures lastCleanup == old(lastCleanup) && buckets == old(buckets)[key := b]
      ensures match View(old(buckets), key, now)
              case Some(live) => b == live
              case None => b == Bucket(0, now + cfg.window)
    {
      if key in buckets && buckets[key].resetAt > now {
        b := buckets[key];
        assert buckets == buckets[key := b];
        return;
      }
      b := Bucket(0, now + cfg.window);
      buckets := buckets[key := b];
    }

    /** The IP layer of `proxy`. */
    method Handle(r: Request) returns (d: Decision)
      modifies this
      ensures var cleaned := Clean(cfg, old(Data()), r.at);
              && (buckets, d) == Visit(cfg, cleaned.buckets, r)
              && lastCleanup == cleaned.lastCleanup
    {
      CleanupExpiredBuckets(r.at);
      ghost var cleaned := buckets;
      var bucket := CurrentBucket(r.key, r.at);
      bucket := bucket.(count := bucket.count + 1);
      buckets := buckets[r.key := bucket];
      assert buckets == cleaned[r.key := bucket];
      var remaining := Max(cfg.maximum - bucket.count, 0);
      var resetSeconds := CeilSeconds(bucket.resetAt - r.at);
      d := Decision(!(bucket.count > cfg.maximum), remaining, bucket.resetAt, resetSeconds);
    }
  }

  // ----- runs, with and without cleanup -----

  predicate Nondecreasing(reqs: seq<Request>) { forall i, j :: 0 <= i < j < |reqs| ==> reqs[i].at <= reqs[j].at }

  function Run(cfg: Config, reqs: seq<Request>): (State, seq<Decision>) {
    if reqs == [] then (INITIAL, [])
    else
      var before, r := Run(cfg, reqs[..|reqs| - 1]), reqs[|reqs| - 1];
      var cleaned := Clean(cfg, before.0, r.at);
      var visited := Visit(cfg, cleaned.buckets, r);
      (State(visited.0, cleaned.lastCleanup), before.1 + [visited.1])
  }

  /** The same limiter without `cleanupExpiredBuckets`. */
  function RunKeepingAll(cfg: Config, reqs: seq<Request>): (map<string, Bucket>, seq<Decision>) {
    if reqs == [] then (map[], [])
    else
      var before, r := RunKeepingAll(cfg, reqs[..|reqs| - 1]), reqs[|reqs| - 1];
      var visited := Visit(cfg, before.0, r);
      (visited.0, before.1 + [visited.1])
  }

  lemma {:induction false} DecisionsLength(cfg: Config, reqs: seq<Request>)
    ensures |Run(cfg, reqs).1| == |RunKeepingAll(cfg, reqs).1| == |reqs|
  {
    if reqs != [] {
      DecisionsLength(cfg, reqs[..|reqs| - 1]);
    }
  }

  /** What was decided does not depend on later requests. */
  lemma {:induction false} DecisionsOfPrefix(cfg: Config, reqs: seq<Request>, n: nat)
    requires n <= |reqs|
    ensures |Run(cfg, reqs).1| == |RunKeepingAll(cfg, reqs).1| == |reqs|
    ensures Run(cfg, reqs).1[..n] == Run(cfg, reqs[..n]).1
    ensures RunKeepingAll(cfg, reqs).1[..n] == RunKeepingAll(cfg, reqs[..n]).1
  {
    DecisionsLength(cfg, reqs);
    if n < |reqs| {
      var init := reqs[..|reqs| - 1];
      DecisionsOfPrefix(cfg, init, n);
      assert init[..n] == reqs[..n];
      assert Run(cfg, reqs).1[..n] == Run(cfg, init).1[..n];
      assert RunKeepingAll(cfg, reqs).1[..n] == RunKeepingAll(cfg, init).1[..n];
    } else {
      assert reqs[..n] == reqs;
    }
  }

  // ----- when cleanup shows -----

  function Times(reqs: seq<Request>): (ts: seq<int>)
    ensures |ts| == |reqs|
  {
    seq(|reqs|, i requires 0 <= i < |reqs| => reqs[i].at)
  }

  /** The last cleanup follows from the times alone. */
  function LastCleanup(cfg: Config, ts: seq<int>): int {
    if ts == [] then 0
    else
      var before, now := LastCleanup(cfg, ts[..|ts| - 1]), ts[|ts| - 1];
      if now - before < cfg.window then before else now
  }

  predicate Sweeps(cfg: Config, ts: seq<int>, j: nat) { j < |ts| && ts[j] - LastCleanup(cfg, ts[..j]) >= cfg.window }

  /** A window opened at i ends before the cleanup at j, but the clock says at k that it has
      not ended. */
  predicate RunsBack(cfg: Config, ts: seq<int>, i: nat, j: nat, k: nat) {
    i < j < k < |ts| && Sweeps(cfg, ts, j) && ts[k] < ts[i] + cfg.window <= ts[j]
  }

  ghost predicate RunsBackOverSweep(cfg: Config, ts: seq<int>) { exists i: nat, j: nat, k: nat :: RunsBack(cfg, ts, i, j, k) }

  /** Every kept bucket has a request that opened its window. */
  ghost predicate Opened(cfg: Config, ts: seq<int>, b: Bucket) { exists i: nat :: i < |ts| && b.resetAt == ts[i] + cfg.window }

  ghost predicate Removed(cfg: Config, ts: seq<int>, b: Bucket, i: nat, j: nat) {
    i < j < |ts| && Sweeps(cfg, ts, j) && b.resetAt == ts[i] + cfg.window <= ts[j]
  }

  /** The buckets are those of a limiter that keeps all, but for some whose window opened
      before, and ended by, a cleanup. */
  ghost predicate Behind(cfg: Config, ts: seq<int>, a: map<string, Bucket>, b: map<string, Bucket>) {
    && (forall key :: key in a ==> key in b && a[key] == b[key])
    && (forall key :: key in b ==> Opened(cfg, ts, b[key]))
    && (forall key :: key in b && key !in a ==> exists i: nat, j: nat :: Removed(cfg, ts, b[key], i, j))
  }

  lemma {:induction false} SweepsPrefix(cfg: Config, ts: seq<int>, t: int, j: nat)
    requires j < |ts|
    ensures Sweeps(cfg, ts + [t], j) == Sweeps(cfg, ts, j)
  {
    assert (ts + [t])[..j] == ts[..j];
  }

  lemma {:induction false} BehindNext(cfg: Config, ts: seq<int>, s: State, b: map<string, Bucket>, now: int)
    requires Behind(cfg, ts, s.buckets, b) && s.lastCleanup == LastCleanup(cfg, ts)
    ensures Behind(cfg, ts + [now], Clean(cfg, s, now).buckets, b)
    ensures Clean(cfg, s, now).lastCleanup == LastCleanup(cfg, ts + [now])
  {
    var a, all := Clean(cfg, s, now).buckets, ts + [now];
    assert all[..|ts|] == ts;
    forall key | key in b ensures Opened(cfg, all, b[key]) {
      var i: nat :| i < |ts| && b[key].resetAt == ts[i] + cfg.window;
      assert all[i] == ts[i];
    }
    forall key | key in b && key !in a ensures exists i: nat, j: nat :: Removed(cfg, all, b[key], i, j) {
      if key in s.buckets {
        var i: nat :| i < |ts| && b[key].resetAt == ts[i] + cfg.window;
        assert Removed(cfg, all, b[key], i, |ts|);
      } else {
        var i: nat, j: nat :| Removed(cfg, ts, b[key], i, j);
        SweepsPrefix(cfg, ts, now, j);
        assert Removed(cfg, all, b[key], i, j);
      }
    }
  }

  lemma {:induction false} BehindSeesTheSame(cfg: Config, ts: seq<int>, a: map<string, Bucket>, b: map<string, Bucket>, key: string)
    requires ts != [] && Behind(cfg, ts, a, b) && !RunsBackOverSweep(cfg, ts)
    ensures View(a, key, ts[|ts| - 1]) == View(b, key, ts[|ts| - 1])
  {
    if key in b && key !in a {
      var i: nat, j: nat :| Removed(cfg, ts, b[key], i, j);
      assert !RunsBack(cfg, ts, i, j, |ts| - 1);
    }
  }

  lemma {:induction false} RunsAgree(cfg: Config, reqs: seq<Request>)
    requires !RunsBackOverSweep(cfg, Times(reqs))
    ensures Run(cfg, reqs).1 == RunKeepingAll(cfg, reqs).1
    ensures Behind(cfg, Times(reqs), Run(cfg, reqs).0.buckets, RunKeepingAll(cfg, reqs).0)
    ensures Run(cfg, reqs).0.lastCleanup == LastCleanup(cfg, Times(reqs))
  {
    if reqs != [] {
      var init, r := reqs[..|reqs| - 1], reqs[|reqs| - 1];
      var ts := Times(init);
      assert Times(reqs) == ts + [r.at];
      RunsBackLater(cfg, ts, r.at);
      RunsAgree(cfg, init);
      BehindNext(cfg, ts, Run(cfg, init).0, RunKeepingAll(cfg, init).0, r.at);
      var a, b := Clean(cfg, Run(cfg, init).0, r.at).buckets, RunKeepingAll(cfg, init).0;
      BehindSeesTheSame(cfg, Times(reqs), a, b, r.key);
      BehindAfterVisit(cfg, Times(reqs), a, b, r);
    }
  }

  lemma {:induction false} RunsBackLater(cfg: Config, ts: seq<int>, t: int)
    ensures RunsBackOverSweep(cfg, ts) ==> RunsBackOverSweep(cfg, ts + [t])
  {
    if RunsBackOverSweep(cfg, ts) {
      var i: nat, j: nat, k: nat :| RunsBack(cfg, ts, i, j, k);
      SweepsPrefix(cfg, ts, t, j);
      assert RunsBack(cfg, ts + [t], i, j, k);
    }
  }

  lemma {:induction false} BehindAfterVisit(cfg: Config, ts: seq<int>, a: map<string, Bucket>, b: map<string, Bucket>, r: Request)
    requires Behind(cfg, ts, a, b) && ts != [] && ts[|ts| - 1] == r.at && View(a, r.key, r.at) == View(b, r.key, r.at)
    ensures Visit(cfg, a, r).1 == Visit(cfg, b, r).1 && Behind(cfg, ts, Visit(cfg, a, r).0, Visit(cfg, b, r).0)
  {
    var counted := Counted(cfg, View(b, r.key, r.at), r.at);
    assert counted.resetAt == ts[|ts| - 1] + cfg.window || (r.key in b && counted.resetAt == b[r.key].resetAt);
    assert Opened(cfg, ts, counted);
  }

  /** Up to request k, requests i and k are all that their client sends. */
  predicate OnlyThese(reqs: seq<Request>, i: nat, k: nat) {
    i < k < |reqs| && forall m :: 0 <= m <= k ==> (reqs[m].key == reqs[i].key <==> m == i || m == k)
  }

  /** After n requests that client has a bucket if nothing is ever removed, and otherwise at
      most until the cleanup at j. */
  predicate OnTheWay(cfg: Config, ts: seq<int>, client: string, i: nat, j: nat, n: nat, a: State, b: map<string, Bucket>)
    requires i < |ts| && n <= |ts|
  {
    var first := Bucket(1, ts[i] + cfg.window);
    && a.lastCleanup == LastCleanup(cfg, ts[..n])
    && (n <= i ==> client !in a.buckets && client !in b)
    && (i < n ==> client in b && b[client] == first)
    && (i < n && client in a.buckets ==> n <= j && a.buckets[client] == first)
  }

  lemma {:induction false} OnTheWayNext(cfg: Config, ts: seq<int>, client: string, i: nat, j: nat, k: nat, n: nat,
                                        a: State, b: map<string, Bucket>, r: Request)
    requires RunsBack(cfg, ts, i, j, k) && n < k && OnTheWay(cfg, ts, client, i, j, n, a, b)
    requires r.at == ts[n] && (r.key == client <==> n == i)
    ensures var cleaned := Clean(cfg, a, r.at);
            OnTheWay(cfg, ts, client, i, j, n + 1, State(Visit(cfg, cleaned.buckets, r).0, cleaned.lastCleanup), Visit(cfg, b, r).0)
  {
    assert ts[..n + 1][..n] == ts[..n];
  }

  lemma {:induction false} SweptOnTheWay(cfg: Config, reqs: seq<Request>, i: nat, j: nat, k: nat, n: nat)
    requires RunsBack(cfg, Times(reqs), i, j, k) && OnlyThese(reqs, i, k) && n <= k
    ensures OnTheWay(cfg, Times(reqs), reqs[i].key, i, j, n, Run(cfg, reqs[..n]).0, RunKeepingAll(cfg, reqs[..n]).0)
  {
    if n > 0 {
      SweptOnTheWay(cfg, reqs, i, j, k, n - 1);
      var before := reqs[..n - 1];
      assert reqs[..n][..n - 1] == before;
      OnTheWayNext(cfg, Times(reqs), reqs[i].key, i, j, k, n - 1, Run(cfg, before).0, RunKeepingAll(cfg, before).0, reqs[n - 1]);
    }
  }

  /** Whenever the clock runs back over a cleanup, a client with a request before and one
      after it can tell. */
  lemma {:induction false} CleanupShowsWhenTimeRunsBack(cfg: Config, reqs: seq<Request>, i: nat, j: nat, k: nat)
    requires Positive(cfg) && RunsBack(cfg, Times(reqs), i, j, k) && OnlyThese(reqs, i, k)
    ensures Run(cfg, reqs).1 != RunKeepingAll(cfg, reqs).1
  {
    SweptOnTheWay(cfg, reqs, i, j, k, k);
    var first := reqs[..k + 1];
    assert first[..k] == reqs[..k];
    LastDecisionsDiffer(cfg, first, reqs[i].at);
    DifferFromThen(cfg, reqs, k + 1);
  }

  lemma {:induction false} DifferFromThen(cfg: Config, reqs: seq<Request>, n: nat)
    requires n <= |reqs| && Run(cfg, reqs[..n]).1 != RunKeepingAll(cfg, reqs[..n]).1
    ensures Run(cfg, reqs).1 != RunKeepingAll(cfg, reqs).1
  {
    DecisionsOfPrefix(cfg, reqs, n);
    assert Run(cfg, reqs).1[..n] != RunKeepingAll(cfg, reqs).1[..n];
  }

  /** A client that is swept but should have been counted is counted anew. */
  lemma {:induction false} LastDecisionsDiffer(cfg: Config, reqs: seq<Request>, start: int)
    requires Positive(cfg) && reqs != []
    requires var init, r := reqs[..|reqs| - 1], reqs[|reqs| - 1];
             && r.key !in Run(cfg, init).0.buckets && r.at < start + cfg.window
             && r.key in RunKeepingAll(cfg, init).0 && RunKeepingAll(cfg, init).0[r.key] == Bucket(1, start + cfg.window)
    ensures Run(cfg, reqs).1 != RunKeepingAll(cfg, reqs).1
  {
    var init, r := reqs[..|reqs| - 1], reqs[|reqs| - 1];
    DecisionsLength(cfg, init);
    assert Run(cfg, reqs).1[|init|] == Decide(cfg, Bucket(1, r.at + cfg.window), r.at);
    assert RunKeepingAll(cfg, reqs).1[|init|] == Decide(cfg, Bucket(2, start + cfg.window), r.at);
  }

  /** Requests at these times, i and k from one client and the rest from another. */
  function TwoClients(ts: seq<int>, i: nat, k: nat): (reqs: seq<Request>)
    ensures Times(reqs) == ts && (i < k < |ts| ==> OnlyThese(reqs, i, k))
  {
    seq(|ts|, m requires 0 <= m < |ts| => Request(if m == i || m == k then "a" else "b", ts[m]))
  }

  /** Whoever sends the requests, nobody can tell that buckets are cleaned up, if and only if
      the clock never runs back over a cleanup that a window had ended by. */
  lemma {:induction false} CleanupIsInvisibleIff(cfg: Config, ts: seq<int>)
    requires Positive(cfg)
    ensures (forall reqs :: Times(reqs) == ts ==> Run(cfg, reqs).1 == RunKeepingAll(cfg, reqs).1)
       <==> !RunsBackOverSweep(cfg, ts)
  {
    if RunsBackOverSweep(cfg, ts) {
      var i: nat, j: nat, k: nat :| RunsBack(cfg, ts, i, j, k);
      CleanupShowsWhenTimeRunsBack(cfg, TwoClients(ts, i, k), i, j, k);
    } else {
      forall reqs | Times(reqs) == ts ensures Run(cfg, reqs).1 == RunKeepingAll(cfg, reqs).1 {
        RunsAgree(cfg, reqs);
      }
    }
  }

  /** A clock that jumps ahead by more than a window and back does that. */
  lemma {:induction false} ClockJumpRunsBack(cfg: Config, t: int)
    requires Positive(cfg) && t >= cfg.window
    ensures RunsBackOverSweep(cfg, [t, t + cfg.window, t])
  {
    var ts := [t, t + cfg.window, t];
    assert ts[..1] == [t] && [t][..0] == [];
    assert LastCleanup(cfg, []) == 0 && LastCleanup(cfg, [t]) == t;
    assert RunsBack(cfg, ts, 0, 1, 2);
  }

  /** In particular with a clock that never runs back at all. */
  lemma {:induction false} CleanupIsInvisible(cfg: Config, reqs: seq<Request>)
    requires Nondecreasing(reqs)
    ensures Run(cfg, reqs).1 == RunKeepingAll(cfg, reqs).1
  {
    forall i: nat, j: nat, k: nat ensures !RunsBack(cfg, Times(reqs), i, j, k) {
      assert i < j < k < |reqs| ==> Times(reqs)[j] == reqs[j].at <= reqs[k].at == Times(reqs)[k];
    }
    RunsAgree(cfg, reqs);
  }

  // ----- one client's windows -----

  /** The times of one client's requests. */
  function TimesOf(key: string, reqs: seq<Request>): seq<int> {
    if reqs == [] then []
    else
      var before, r := TimesOf(key, reqs[..|reqs| - 1]), reqs[|reqs| - 1];
      if r.key == key then before + [r.at] else before
  }

  /** The position of the request that opened the window of the last one: the first
      request opens a window, and so does the first at or after the end of the open one. */
  function Opener(cfg: Config, ts: seq<int>): (o: nat)
    requires ts != []
    ensures o < |ts|
  {
    if |ts| == 1 then 0
    else
      var o := Opener(cfg, ts[..|ts| - 1]);
      if ts[|ts| - 1] < ts[o] + cfg.window then o else |ts| - 1
  }

  /** Whether the last request is among the first of its window. */
  predicate Admitted(cfg: Config, ts: seq<int>)
    requires ts != []
  {
    |ts| - Opener(cfg, ts) <= cfg.maximum
  }

  /** One client's bucket, from its own requests alone. */
  function BucketFrom(cfg: Config, ts: seq<int>): Bucket
    requires ts != []
  {
    Bucket(|ts| - Opener(cfg, ts), ts[Opener(cfg, ts)] + cfg.window)
  }

  lemma {:induction false} BucketNext(cfg: Config, ts: seq<int>, now: int)
    requires Positive(cfg)
    ensures BucketFrom(cfg, ts + [now])
            == Counted(cfg, if ts == [] || Expired(BucketFrom(cfg, ts), now) then None else Some(BucketFrom(cfg, ts)), now)
  {
    assert (ts + [now])[..|ts|] == ts;
  }

  lemma {:induction false} BucketsFrom(cfg: Config, reqs: seq<Request>, key: string)
    requires Positive(cfg)
    ensures var buckets, ts := RunKeepingAll(cfg, reqs).0, TimesOf(key, reqs);
            && (key in buckets <==> ts != [])
            && (ts != [] ==> buckets[key] == BucketFrom(cfg, ts))
  {
    if reqs != [] {
      var init, r := reqs[..|reqs| - 1], reqs[|reqs| - 1];
      BucketsFrom(cfg, init, key);
      if r.key == key {
        BucketNext(cfg, TimesOf(key, init), r.at);
      }
    }
  }

  /** Clients do not affect each other, and each window admits exactly its first requests:
      the last of a run is admitted if and only if fewer than the maximum of its own client
      came before it in the window. */
  lemma {:induction false} WindowsAdmitTheirFirst(cfg: Config, reqs: seq<Request>)
    requires Positive(cfg) && Nondecreasing(reqs) && reqs != []
    ensures var r, ts := reqs[|reqs| - 1], TimesOf(reqs[|reqs| - 1].key, reqs);
            var d := Run(cfg, reqs).1;
            && ts != [] && |d| == |reqs|
            && (d[|reqs| - 1].allowed <==> Admitted(cfg, ts))
            && d[|reqs| - 1].resetAt == ts[Opener(cfg, ts)] + cfg.window
            && d[|reqs| - 1].remaining == Max(cfg.maximum - (|ts| - Opener(cfg, ts)), 0)
  {
    CleanupIsInvisible(cfg, reqs);
    LastDecision(cfg, reqs);
  }

  /** The last decision follows from the client's own requests. */
  lemma {:induction false} LastDecision(cfg: Config, reqs: seq<Request>)
    requires Positive(cfg) && reqs != []
    ensures var r, ts := reqs[|reqs| - 1], TimesOf(reqs[|reqs| - 1].key, reqs);
            var d := RunKeepingAll(cfg, reqs).1;
            ts != [] && |d| == |reqs| && d[|reqs| - 1] == Decide(cfg, BucketFrom(cfg, ts), r.at)
  {
    var init, r := reqs[..|reqs| - 1], reqs[|reqs| - 1];
    DecisionsLength(cfg, init);
    BucketsFrom(cfg, init, r.key);
    BucketNext(cfg, TimesOf(r.key, init), r.at);
  }

  // ----- any interval as long as a window -----

  predicate Ascending(ts: seq<int>) { forall i, j :: 0 <= i < j < |ts| ==> ts[i] <= ts[j] }

  /** How many requests between x and one window later, both included, were admitted. */
  function AdmittedWithin(cfg: Config, ts: seq<int>, x: int): nat {
    if ts == [] then 0
    else AdmittedWithin(cfg, ts[..|ts| - 1], x)
         + if x <= ts[|ts| - 1] <= x + cfg.window && Admitted(cfg, ts) then 1 else 0
  }

  lemma {:induction false} NoneBefore(cfg: Config, ts: seq<int>, x: int)
    requires forall i :: 0 <= i < |ts| ==> ts[i] < x
    ensures AdmittedWithin(cfg, ts, x) == 0
  {
    if ts != [] {
      NoneBefore(cfg, ts[..|ts| - 1], x);
    }
  }

  /** Every request comes before the end of the last window. */
  lemma {:induction false} AllBeforeReset(cfg: Config, ts: seq<int>)
    requires Positive(cfg) && Ascending(ts) && ts != []
    ensures forall i :: 0 <= i < |ts| ==> ts[i] < ts[Opener(cfg, ts)] + cfg.window
  {
    if |ts| > 1 {
      AllBeforeReset(cfg, ts[..|ts| - 1]);
    }
  }

  /** What the window open at the end leaves room for. */
  function Allowance(cfg: Config, ts: seq<int>, x: int): int
    requires ts != []
  {
    var o := Opener(cfg, ts);
    if ts[o] <= x then Min(|ts| - o, cfg.maximum)
    else if ts[o] <= x + cfg.window then cfg.maximum + Min(|ts| - o, cfg.maximum)
    else 2 * cfg.maximum
  }

  lemma {:induction false} WithinAllowance(cfg: Config, ts: seq<int>, x: int)
    requires Positive(cfg) && Ascending(ts) && ts != []
    ensures AdmittedWithin(cfg, ts, x) <= Allowance(cfg, ts, x)
  {
    if |ts| > 1 {
      var init, t := ts[..|ts| - 1], ts[|ts| - 1];
      WithinAllowance(cfg, init, x);
      var o := Opener(cfg, init);
      if ts[o] + cfg.window <= t && t <= x {
        AllBeforeReset(cfg, init);
        NoneBefore(cfg, init, x);
      }
    } else {
      assert ts[..0] == [];
    }
  }

  /** How many of a client's requests between x and one window later, both included, were
      allowed. */
  function AllowedWithin(cfg: Config, reqs: seq<Request>, ds: seq<Decision>, key: string, x: int): nat
    requires |reqs| == |ds|
  {
    if reqs == [] then 0
    else
      var r, d := reqs[|reqs| - 1], ds[|ds| - 1];
      AllowedWithin(cfg, reqs[..|reqs| - 1], ds[..|ds| - 1], key, x)
      + if r.key == key && x <= r.at <= x + cfg.window && d.allowed then 1 else 0
  }

  /** The last request is among the first of its client's window. */
  predicate LastAdmitted(cfg: Config, reqs: seq<Request>)
    requires reqs != []
  {
    var ts := TimesOf(reqs[|reqs| - 1].key, reqs);
    ts != [] && Admitted(cfg, ts)
  }

  lemma {:induction false} AllowedCountsAdmitted(cfg: Config, reqs: seq<Request>, ds: seq<Decision>, key: string, x: int)
    requires |ds| == |reqs| && forall n :: 0 < n <= |reqs| ==> (ds[n - 1].allowed <==> LastAdmitted(cfg, reqs[..n]))
    ensures AllowedWithin(cfg, reqs, ds, key, x) == AdmittedWithin(cfg, TimesOf(key, reqs), x)
  {
    if reqs != [] {
      var last := |reqs| - 1;
      forall n | 0 < n <= last ensures ds[..last][n - 1].allowed <==> LastAdmitted(cfg, reqs[..last][..n]) {
        assert reqs[..last][..n] == reqs[..n];
      }
      AllowedCountsAdmitted(cfg, reqs[..last], ds[..last], key, x);
      assert reqs[..last + 1] == reqs;
      assert ds[last].allowed <==> LastAdmitted(cfg, reqs[..last + 1]);
      var before := TimesOf(key, reqs[..last]);
      assert (before + [reqs[last].at])[..|before|] == before;
    }
  }

  /** The limiter's own decisions are those of each client's windows. */
  lemma {:induction false} AllowedIsAdmitted(cfg: Config, reqs: seq<Request>, key: string, x: int)
    requires Positive(cfg) && Nondecreasing(reqs)
    ensures |Run(cfg, reqs).1| == |reqs|
    ensures AllowedWithin(cfg, reqs, Run(cfg, reqs).1, key, x) == AdmittedWithin(cfg, TimesOf(key, reqs), x)
  {
    var ds := Run(cfg, reqs).1;
    DecisionsLength(cfg, reqs);
    forall n | 0 < n <= |reqs| ensures ds[n - 1].allowed <==> LastAdmitted(cfg, reqs[..n]) {
      DecisionsOfPrefix(cfg, reqs, n);
      WindowsAdmitTheirFirst(cfg, reqs[..n]);
      assert ds[n - 1] == ds[..n][n - 1];
    }
    AllowedCountsAdmitted(cfg, reqs, ds, key, x);
  }

  /** In no interval as long as a window does the limiter allow a client more than twice the
      maximum. */
  lemma {:induction false} AtMostTwiceTheMaximum(cfg: Config, reqs: seq<Request>, key: string, x: int)
    requires Positive(cfg) && Nondecreasing(reqs)
    ensures |Run(cfg, reqs).1| == |reqs|
    ensures AllowedWithin(cfg, reqs, Run(cfg, reqs).1, key, x) <= 2 * cfg.maximum
  {
    var ts := TimesOf(key, reqs);
    AllowedIsAdmitted(cfg, reqs, key, x);
    TimesAscend(key, reqs);
    if ts != [] {
      WithinAllowance(cfg, ts, x);
    }
  }

  /** A full burst when a window opens and another when it ends. */
  function TwoBursts(cfg: Config, n: nat): seq<int>
    requires Positive(cfg)
  {
    seq(cfg.maximum, _ => 0) + seq(n, _ => cfg.window)
  }

  lemma {:induction false} FirstBurst(cfg: Config, n: nat)
    requires Positive(cfg) && n <= cfg.maximum
    ensures n > 0 ==> Opener(cfg, seq(n, _ => 0)) == 0
    ensures AdmittedWithin(cfg, seq(n, _ => 0), 0) == n
  {
    if n > 0 {
      FirstBurst(cfg, n - 1);
      assert seq(n, _ => 0)[..n - 1] == seq(n - 1, _ => 0);
    }
  }

  lemma {:induction false} SecondBurst(cfg: Config, n: nat)
    requires Positive(cfg) && n <= cfg.maximum
    ensures Opener(cfg, TwoBursts(cfg, n)) == if n == 0 then 0 else cfg.maximum
    ensures AdmittedWithin(cfg, TwoBursts(cfg, n), 0) == cfg.maximum + n
  {
    if n == 0 {
      FirstBurst(cfg, cfg.maximum);
      assert TwoBursts(cfg, 0) == seq(cfg.maximum, _ => 0);
    } else {
      SecondBurst(cfg, n - 1);
      assert TwoBursts(cfg, n)[..cfg.maximum + n - 1] == TwoBursts(cfg, n - 1);
    }
  }

  function OneClient(ts: seq<int>): seq<Request> { seq(|ts|, i requires 0 <= i < |ts| => Request("a", ts[i])) }

  lemma {:induction false} TimesOfOneClient(ts: seq<int>)
    ensures TimesOf("a", OneClient(ts)) == ts
  {
    if ts != [] {
      var init := ts[..|ts| - 1];
      TimesOfOneClient(init);
      assert OneClient(ts)[..|ts| - 1] == OneClient(init);
    }
  }

  /** The bound is reached, by one client alone. */
  lemma {:induction false} BoundIsReached(cfg: Config)
    requires Positive(cfg)
    ensures var reqs := OneClient(TwoBursts(cfg, cfg.maximum));
            && Nondecreasing(reqs) && |Run(cfg, reqs).1| == |reqs|
            && AllowedWithin(cfg, reqs, Run(cfg, reqs).1, "a", 0) == 2 * cfg.maximum
  {
    var ts := TwoBursts(cfg, cfg.maximum);
    SecondBurst(cfg, cfg.maximum);
    TimesOfOneClient(ts);
    AllowedIsAdmitted(cfg, OneClient(ts), "a", 0);
  }

  lemma {:induction false} TimesAscend(key: string, reqs: seq<Request>)
    requires Nondecreasing(reqs)
    ensures Ascending(TimesOf(key, reqs))
    ensures reqs != [] ==> forall i :: 0 <= i < |TimesOf(key, reqs)| ==> TimesOf(key, reqs)[i] <= reqs[|reqs| - 1].at
  {
    if reqs != [] {
      TimesAscend(key, reqs[..|reqs| - 1]);
    }
  }

  // ----- one decision in numbers -----

  /** What the n-th request of a window is told, the window having opened at `from`: allowed
      up to the maximum, how many more are, and when and in how many seconds the window ends. */
  lemma {:induction false} DecisionByNumbers(cfg: Config, n: nat, from: int, now: int)
    requires Positive(cfg)
    ensures var d := Decide(cfg, Bucket(n, from + cfg.window), now);
            && (d.allowed <==> n <= cfg.maximum)
            && d.remaining == (if n < cfg.maximum then cfg.maximum - n else 0)
            && d.resetAt == from + cfg.window
            && 1000 * (d.resetSeconds - 1) < from + cfg.window - now <= 1000 * d.resetSeconds
  {
    CeilByNumbers(from + cfg.window - now);
  }
}
