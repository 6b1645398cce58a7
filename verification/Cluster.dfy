/** Failure clustering (cluster.rs): the incremental store and the batch meaning of a
    cluster, independence of arrival order, and restoring from a snapshot.

    Signature normalization, the cluster id and the class labels are opaque functions held
    by `Rules`; `Faithful` is the only property of them that is ever assumed, and only for
    restoring. */
module Clusters {
  import opened Prelude
  import opened Sorting

  datatype FailureClass =
    | Auth | Budget | State | Xdr | InvalidEnumTag | EmptyInput | OversizedInput | Unknown
    | Timeout | InternalPanic | RpcTransport | RpcRateLimited | RpcSequence | RpcResource
    | RpcContract | RpcNotFound | BudgetExhaustedCpu | BudgetExhaustedMem | HostError | TrapContract

  datatype Rules = Rules(
    version: u32,
    normalize: string -> string,
    labelOf: FailureClass -> string,
    classOf: string -> Option<FailureClass>,
    clusterId: (string, string, u32) -> string)

  /** Every class label is recognised again. */
  ghost predicate Faithful(rules: Rules) { forall c :: rules.classOf(rules.labelOf(c)) == Some(c) }

  datatype Observation = Observation(failureClass: FailureClass, raw: string, seedId: u64, payloadLen: u64, at: u64)

  datatype Member = Member(seedId: u64, payloadLen: u64, raw: string, at: u64)

  datatype ClusterKey = ClusterKey(failureClass: FailureClass, version: u32, normalized: string)

  datatype FailureCluster = FailureCluster(
    id: string, category: string, normalized: string, version: u32,
    count: nat,
    exemplar: Exemplar,
    firstSeen: u64, lastSeen: u64,
    members: seq<Member>)

  datatype Exemplar = Exemplar(seedId: u64, payloadLen: u64, raw: string)

  function KeyOf(rules: Rules, o: Observation): ClusterKey {
    ClusterKey(o.failureClass, rules.version, rules.normalize(o.raw))
  }

  function MemberOf(o: Observation): Member { Member(o.seedId, o.payloadLen, o.raw, o.at) }

  function ExemplarOf(m: Member): Exemplar { Exemplar(m.seedId, m.payloadLen, m.raw) }

  /** Shorter payload first, then lower seed id. */
  predicate Beats(m: Member, e: Exemplar) {
    m.payloadLen < e.payloadLen || (m.payloadLen == e.payloadLen && m.seedId < e.seedId)
  }

  // ----- the batch meaning of a cluster -----

  /** The logged observations with this key, in order. */
  function MembersFor(rules: Rules, key: ClusterKey, log: seq<Observation>): seq<Member> {
    if log == [] then []
    else
      var before, o := MembersFor(rules, key, log[..|log| - 1]), log[|log| - 1];
      if KeyOf(rules, o) == key then before + [MemberOf(o)] else before
  }

  /** e is the first member that no member beats. */
  ghost predicate FirstSmallest(e: Exemplar, ms: seq<Member>) {
    && (forall i :: 0 <= i < |ms| ==> !Beats(ms[i], e))
    && exists i :: 0 <= i < |ms| && ExemplarOf(ms[i]) == e && forall j :: 0 <= j < i ==> Beats(ms[i], ExemplarOf(ms[j]))
  }

  ghost predicate Bounds(first: u64, last: u64, ms: seq<Member>) {
    && (forall i :: 0 <= i < |ms| ==> first <= ms[i].at <= last)
    && (exists i :: 0 <= i < |ms| && ms[i].at == first)
    && (exists i :: 0 <= i < |ms| && ms[i].at == last)
  }

  predicate Named(rules: Rules, key: ClusterKey, c: FailureCluster) {
    && c.category == rules.labelOf(key.failureClass)
    && c.normalized == key.normalized
    && c.version == key.version
    && c.id == rules.clusterId(c.category, c.normalized, c.version)
  }

  ghost predicate Summarizes(rules: Rules, key: ClusterKey, c: FailureCluster, ms: seq<Member>) {
    && Named(rules, key, c)
    && c.members == ms
    && c.count == |ms| > 0
    && FirstSmallest(c.exemplar, ms)
    && Bounds(c.firstSeen, c.lastSeen, ms)
  }

  /** There is a cluster for this key when something with it was logged, summarizing it. */
  ghost predicate Fits(rules: Rules, clusters: map<ClusterKey, FailureCluster>, log: seq<Observation>, key: ClusterKey) {
    && (key in clusters <==> MembersFor(rules, key, log) != [])
    && (key in clusters ==> Summarizes(rules, key, clusters[key], MembersFor(rules, key, log)))
  }

  /** The clusters are exactly those of the logged observations, each summarizing its own. */
  ghost predicate Represents(rules: Rules, clusters: map<ClusterKey, FailureCluster>, log: seq<Observation>) {
    forall key :: Fits(rules, clusters, log, key)
  }

  // ----- the store -----

  function Extended(c: FailureCluster, m: Member): FailureCluster {
    c.(count := c.count + 1,
       firstSeen := Min(c.firstSeen, m.at),
       lastSeen := Max(c.lastSeen, m.at),
       exemplar := if Beats(m, c.exemplar) then ExemplarOf(m) else c.exemplar,
       members := c.members + [m])
  }

  function Started(rules: Rules, key: ClusterKey, m: Member): FailureCluster {
    var category := rules.labelOf(key.failureClass);
    FailureCluster(rules.clusterId(category, key.normalized, key.version), category, key.normalized, key.version,
                   1, ExemplarOf(m), m.at, m.at, [m])
  }

  lemma {:induction false} ExtendSummarizes(rules: Rules, key: ClusterKey, c: FailureCluster, ms: seq<Member>, m: Member)
    requires Summarizes(rules, key, c, ms)
    ensures Summarizes(rules, key, Extended(c, m), ms + [m])
  {
    var d, ns := Extended(c, m), ms + [m];
    ExtendSmallest(c.exemplar, ms, m);
    ExtendBounds(c.firstSeen, c.lastSeen, ms, m);
    assert Summarizes(rules, key, d, ns);
  }

  lemma {:induction false} ExtendSmallest(e: Exemplar, ms: seq<Member>, m: Member)
    requires FirstSmallest(e, ms)
    ensures FirstSmallest(if Beats(m, e) then ExemplarOf(m) else e, ms + [m])
  {
    var ns := ms + [m];
    var i :| 0 <= i < |ms| && ExemplarOf(ms[i]) == e && forall j :: 0 <= j < i ==> Beats(ms[i], ExemplarOf(ms[j]));
    if Beats(m, e) {
      forall j | 0 <= j < |ms| ensures Beats(m, ExemplarOf(ms[j])) {
        assert !Beats(ms[j], e);
      }
      assert ns[|ms|] == m;
    } else {
      assert ns[i] == ms[i];
    }
  }

  lemma {:induction false} ExtendBounds(first: u64, last: u64, ms: seq<Member>, m: Member)
    requires Bounds(first, last, ms)
    ensures Bounds(Min(first, m.at), Max(last, m.at), ms + [m])
  {
    var ns := ms + [m];
    var i :| 0 <= i < |ms| && ms[i].at == first;
    var j :| 0 <= j < |ms| && ms[j].at == last;
    assert ns[i] == ms[i] && ns[j] == ms[j] && ns[|ms|] == m;
  }

  lemma {:induction false} StartSummarizes(rules: Rules, key: ClusterKey, m: Member)
    ensures Summarizes(rules, key, Started(rules, key, m), [m])
  {
    assert [m][0] == m;
  }

  lemma {:induction false} MembersAfter(rules: Rules, key: ClusterKey, log: seq<Observation>, o: Observation)
    ensures MembersFor(rules, key, log + [o])
            == MembersFor(rules, key, log) + if KeyOf(rules, o) == key then [MemberOf(o)] else []
  {
    assert (log + [o])[..|log|] == log;
  }

  /** One ingested observation keeps the store equal to the batch over the longer log. */
  lemma {:induction false} IngestRepresents(rules: Rules, clusters: map<ClusterKey, FailureCluster>, log: seq<Observation>, o: Observation, c: FailureCluster)
    requires Represents(rules, clusters, log)
    requires var key := KeyOf(rules, o);
             c == if key in clusters then Extended(clusters[key], MemberOf(o)) else Started(rules, key, MemberOf(o))
    ensures Represents(rules, clusters[KeyOf(rules, o) := c], log + [o])
  {
    var after, longer := clusters[KeyOf(rules, o) := c], log + [o];
    forall key
      ensures Fits(rules, after, longer, key)
    {
      assert Fits(rules, clusters, log, key);
      MembersAfter(rules, key, log, o);
      if key == KeyOf(rules, o) {
        if key in clusters {
          ExtendSummarizes(rules, key, clusters[key], MembersFor(rules, key, log), MemberOf(o));
        } else {
          StartSummarizes(rules, key, MemberOf(o));
        }
      }
    }
  }

  class ClusterStore {
    const rules: Rules
    var clusters: map<ClusterKey, FailureCluster>
    var total: nat
    ghost var log: seq<Observation>

    ghost predicate Valid()
      reads this
    {
      Represents(rules, clusters, log) && total == |log|
    }

    constructor (rules: Rules)
      ensures Valid() && this.rules == rules && log == [] && clusters == map[]
    {
      this.rules := rules;
      clusters, total, log := map[], 0, [];
    }

    /** Whatever is ingested, the store stays the batch clustering of the whole log. */
    method Ingest(o: Observation)
      requires Valid()
      modifies this
      ensures Valid() && log == old(log) + [o]
    {
      var key := ClusterKey(o.failureClass, rules.version, rules.normalize(o.raw));
      total := total + 1;
      var member := Member(o.seedId, o.payloadLen, o.raw, o.at);
      var cluster: FailureCluster;
      if key in clusters {
        cluster := clusters[key];
        cluster := cluster.(count := cluster.count + 1);
        cluster := cluster.(firstSeen := Min(cluster.firstSeen, o.at), lastSeen := Max(cluster.lastSeen, o.at));
        if Beats(member, cluster.exemplar) {
          cluster := cluster.(exemplar := Exemplar(o.seedId, o.payloadLen, o.raw));
        }
        cluster := cluster.(members := cluster.members + [member]);
      } else {
        cluster := Started(rules, key, member);
      }
      IngestRepresents(rules, clusters, log, o, cluster);
      clusters := clusters[key := cluster];
      log := log + [o];
    }

    /** `clusters`: every cluster once, in triage order. */
    method Clusters() returns (all: seq<FailureCluster>)
      requires Valid() && Faithful(rules)
      ensures Lists(clusters, all) && Ordered(TriageLeq, all)
    {
      RepresentsCoherent(rules, clusters, log);
      var unsorted := Values(rules, clusters);
      all := Sort(TriageLeq, unsorted);
      SortLists(clusters, unsorted);
    }

    /** `from_snapshot`: each persisted cluster with its exemplar recomputed, under the key
        its fields spell; a label that is not recognised only counts towards the total. */
    constructor FromSnapshot(snapshot: seq<FailureCluster>, rules: Rules, ghost past: seq<Observation>)
      ensures this.rules == rules && clusters == Restored(rules, snapshot) && total == SumCounts(snapshot)
      ensures log == past
    {
      this.rules := rules;
      clusters, total, log := map[], 0, past;
      new;
      for i := 0 to |snapshot|
        invariant clusters == Restored(rules, snapshot[..i]) && total == SumCounts(snapshot[..i])
        invariant this.rules == rules && log == past
      {
        assert snapshot[..i + 1][..i] == snapshot[..i];
        total := total + snapshot[i].count;
        var cluster := Recomputed(snapshot[i]);
        match rules.classOf(cluster.category) {
          case Some(known) =>
            clusters := clusters[ClusterKey(known, cluster.version, cluster.normalized) := cluster];
          case None =>
        }
      }
      assert snapshot[..|snapshot|] == snapshot;
    }
  }

  // ----- triage order -----

  /** Descending count, then normalized text, then label. Equal so far, clusters keep the
      key order of the map, which then is the order of rule versions. */
  function TriageLeq(a: FailureCluster, b: FailureCluster): bool {
    if a.count != b.count then a.count > b.count
    else if a.normalized != b.normalized then StringLeq(a.normalized, b.normalized)
    else if a.category != b.category then StringLeq(a.category, b.category)
    else a.version <= b.version
  }

  ghost predicate ListsKeys(clusters: map<ClusterKey, FailureCluster>, keys: set<ClusterKey>, all: seq<FailureCluster>) {
    && Distinct(all)
    && (forall c :: c in all <==> exists key :: key in keys && key in clusters && clusters[key] == c)
  }

  /** Every cluster, once. */
  ghost predicate Lists(clusters: map<ClusterKey, FailureCluster>, all: seq<FailureCluster>) {
    ListsKeys(clusters, clusters.Keys, all)
  }

  ghost predicate Holds(clusters: map<ClusterKey, FailureCluster>, c: FailureCluster) {
    exists key :: key in clusters && clusters[key] == c
  }

  lemma {:induction false} ListedHolds(clusters: map<ClusterKey, FailureCluster>, all: seq<FailureCluster>)
    requires Lists(clusters, all)
    ensures forall i :: 0 <= i < |all| ==> Holds(clusters, all[i])
  {
    assert forall i :: 0 <= i < |all| ==> all[i] in all;
  }

  lemma {:induction false} NamesDiffer(rules: Rules, key: ClusterKey, other: ClusterKey, c: FailureCluster)
    requires Faithful(rules) && Named(rules, key, c) && Named(rules, other, c)
    ensures key == other
  {
    assert rules.classOf(c.category) == Some(key.failureClass);
  }

  lemma {:induction false} ListMore(rules: Rules, clusters: map<ClusterKey, FailureCluster>, keys: set<ClusterKey>,
                 all: seq<FailureCluster>, key: ClusterKey)
    requires Coherent(rules, clusters) && Faithful(rules)
    requires ListsKeys(clusters, keys, all) && key in clusters && key !in keys
    ensures ListsKeys(clusters, keys + {key}, all + [clusters[key]])
  {
    var c, more := clusters[key], all + [clusters[key]];
    forall other | other in keys && other in clusters ensures clusters[other] != c {
      KeyForIsOwn(rules, key, c);
      KeyForIsOwn(rules, other, clusters[other]);
    }
    assert c !in all;
    forall d ensures d in more <==> exists k :: k in keys + {key} && k in clusters && clusters[k] == d {
      if d in more && d !in all {
        assert d == c;
      }
    }
  }

  /** What listing and restoring rely on: every cluster spells its own key and holds its
      first smallest member as exemplar. */
  ghost predicate Coherent(rules: Rules, clusters: map<ClusterKey, FailureCluster>) {
    forall key :: key in clusters ==> Named(rules, key, clusters[key]) && Recomputed(clusters[key]) == clusters[key]
  }

  lemma {:induction false} RepresentsCoherent(rules: Rules, clusters: map<ClusterKey, FailureCluster>, log: seq<Observation>)
    requires Represents(rules, clusters, log)
    ensures Coherent(rules, clusters)
  {
    forall key | key in clusters
      ensures Named(rules, key, clusters[key]) && Recomputed(clusters[key]) == clusters[key]
    {
      assert Fits(rules, clusters, log, key);
      RecomputeChangesNothing(rules, key, clusters[key], MembersFor(rules, key, log));
    }
  }

  method Values(rules: Rules, clusters: map<ClusterKey, FailureCluster>) returns (all: seq<FailureCluster>)
    requires Coherent(rules, clusters) && Faithful(rules)
    ensures Lists(clusters, all)
  {
    all := [];
    var rest := clusters.Keys;
    while rest != {}
      invariant rest <= clusters.Keys
      invariant ListsKeys(clusters, clusters.Keys - rest, all)
      decreases |rest|
    {
      var key :| key in rest;
      ListMore(rules, clusters, clusters.Keys - rest, all, key);
      assert clusters.Keys - (rest - {key}) == (clusters.Keys - rest) + {key};
      all, rest := all + [clusters[key]], rest - {key};
    }
    assert clusters.Keys - rest == clusters.Keys;
  }

  lemma {:induction false} TriageOrder()
    ensures Total(TriageLeq) && Antisymmetric(StringLeq) && Total(StringLeq)
  {
    StringOrder();
  }

  lemma {:induction false} SortLists(clusters: map<ClusterKey, FailureCluster>, all: seq<FailureCluster>)
    requires Lists(clusters, all)
    ensures Lists(clusters, Sort(TriageLeq, all)) && Ordered(TriageLeq, Sort(TriageLeq, all))
  {
    TriageOrder();
    SortOrdered(TriageLeq, all);
    DistinctAscending(TriageLeq, all);
    forall c ensures c in Sort(TriageLeq, all) <==> c in all {
      SortMembers(TriageLeq, all, c);
    }
  }

  /** The triage order leaves no choice: a store has one listing. */
  lemma {:induction false} ListingUnique(rules: Rules, clusters: map<ClusterKey, FailureCluster>,
                      s: seq<FailureCluster>, t: seq<FailureCluster>)
    requires Coherent(rules, clusters) && Faithful(rules)
    requires Lists(clusters, s) && Ordered(TriageLeq, s) && Lists(clusters, t) && Ordered(TriageLeq, t)
    ensures s == t
  {
    TriageOrder();
    forall x, y | x in s && y in s && TriageLeq(x, y) && TriageLeq(y, x)
      ensures x == y
    {
      var j :| j in clusters && clusters[j] == x;
      var k :| k in clusters && clusters[k] == y;
      assert Named(rules, k, x);
      NamesDiffer(rules, j, k, x);
    }
    AscendingUniqueOn(TriageLeq, s, t);
  }

  // ----- snapshots -----

  /** The position of the first smallest member. */
  function Smallest(ms: seq<Member>): (i: nat)
    requires ms != []
    ensures i < |ms|
  {
    if |ms| == 1 then 0
    else
      var before := Smallest(ms[..|ms| - 1]);
      if Beats(ms[|ms| - 1], ExemplarOf(ms[before])) then |ms| - 1 else before
  }

  function Recomputed(c: FailureCluster): FailureCluster {
    if c.members == [] then c else c.(exemplar := ExemplarOf(c.members[Smallest(c.members)]))
  }

  function Restored(rules: Rules, snapshot: seq<FailureCluster>): map<ClusterKey, FailureCluster> {
    if snapshot == [] then map[]
    else
      var before, c := Restored(rules, snapshot[..|snapshot| - 1]), Recomputed(snapshot[|snapshot| - 1]);
      match rules.classOf(c.category)
      case Some(known) => before[ClusterKey(known, c.version, c.normalized) := c]
      case None => before
  }

  function SumCounts(snapshot: seq<FailureCluster>): nat {
    if snapshot == [] then 0 else SumCounts(snapshot[..|snapshot| - 1]) + snapshot[|snapshot| - 1].count
  }

  lemma {:induction false} SmallestIsFirst(ms: seq<Member>)
    requires ms != []
    ensures FirstSmallest(ExemplarOf(ms[Smallest(ms)]), ms)
  {
    if |ms| == 1 {
      assert FirstSmallest(ExemplarOf(ms[0]), ms);
    } else {
      var init, last := ms[..|ms| - 1], ms[|ms| - 1];
      SmallestIsFirst(init);
      ExtendSmallest(ExemplarOf(init[Smallest(init)]), init, last);
      assert ms == init + [last];
    }
  }

  lemma {:induction false} FirstSmallestUnique(e: Exemplar, f: Exemplar, ms: seq<Member>)
    requires FirstSmallest(e, ms) && FirstSmallest(f, ms)
    ensures e == f
  {
    var i :| 0 <= i < |ms| && ExemplarOf(ms[i]) == e && forall j :: 0 <= j < i ==> Beats(ms[i], ExemplarOf(ms[j]));
    var k :| 0 <= k < |ms| && ExemplarOf(ms[k]) == f && forall j :: 0 <= j < k ==> Beats(ms[k], ExemplarOf(ms[j]));
    assert !Beats(ms[k], e) && !Beats(ms[i], f);
  }

  lemma {:induction false} RecomputeChangesNothing(rules: Rules, key: ClusterKey, c: FailureCluster, ms: seq<Member>)
    requires Summarizes(rules, key, c, ms)
    ensures Recomputed(c) == c
  {
    SmallestIsFirst(ms);
    FirstSmallestUnique(c.exemplar, ExemplarOf(ms[Smallest(ms)]), ms);
  }

  /** Restoring part of a store's own listing gives back exactly those clusters. */
  lemma {:induction false} RestoresListed(rules: Rules, clusters: map<ClusterKey, FailureCluster>, part: seq<FailureCluster>)
    requires Coherent(rules, clusters) && Faithful(rules)
    requires forall i :: 0 <= i < |part| ==> Holds(clusters, part[i])
    ensures forall key :: key in Restored(rules, part) <==> key in clusters && clusters[key] in part
    ensures forall key :: key in Restored(rules, part) ==> Restored(rules, part)[key] == clusters[key]
  {
    if part != [] {
      var init, c := part[..|part| - 1], part[|part| - 1];
      assert part == init + [c];
      RestoresListed(rules, clusters, init);
      assert Holds(clusters, part[|part| - 1]);
      var own :| own in clusters && clusters[own] == c;
      assert rules.classOf(c.category) == Some(own.failureClass);
      assert Restored(rules, part) == Restored(rules, init)[own := c];
      forall key | key in clusters && clusters[key] == c
        ensures key == own
      {
        NamesDiffer(rules, key, own, c);
      }
    }
  }

  lemma {:induction false} RestoresListing(rules: Rules, clusters: map<ClusterKey, FailureCluster>, snapshot: seq<FailureCluster>)
    requires Coherent(rules, clusters) && Faithful(rules) && Lists(clusters, snapshot)
    ensures Restored(rules, snapshot) == clusters
  {
    ListedHolds(clusters, snapshot);
    RestoresListed(rules, clusters, snapshot);
    forall key ensures key in clusters <==> key in Restored(rules, snapshot) {
      if key in clusters {
        assert clusters[key] in snapshot;
      }
    }
  }

  // ----- conservation: the total is the sum of the counts -----

  function SumMembers(rules: Rules, keys: seq<ClusterKey>, log: seq<Observation>): nat {
    if keys == [] then 0
    else SumMembers(rules, keys[..|keys| - 1], log) + |MembersFor(rules, keys[|keys| - 1], log)|
  }

  lemma {:induction false} SumOneMore(rules: Rules, keys: seq<ClusterKey>, log: seq<Observation>, o: Observation)
    requires Distinct(keys)
    ensures SumMembers(rules, keys, log + [o]) == SumMembers(rules, keys, log) + if KeyOf(rules, o) in keys then 1 else 0
  {
    if keys != [] {
      var init, last := keys[..|keys| - 1], keys[|keys| - 1];
      assert keys == init + [last];
      SumOneMore(rules, init, log, o);
      MembersAfter(rules, last, log, o);
    }
  }

  lemma {:induction false} EveryObservationCounted(rules: Rules, keys: seq<ClusterKey>, log: seq<Observation>)
    requires Distinct(keys) && forall o :: o in log ==> KeyOf(rules, o) in keys
    ensures SumMembers(rules, keys, log) == |log|
  {
    if log == [] {
      NothingCounted(rules, keys);
    } else {
      var init, o := log[..|log| - 1], log[|log| - 1];
      assert log == init + [o];
      EveryObservationCounted(rules, keys, init);
      SumOneMore(rules, keys, init, o);
    }
  }

  lemma {:induction false} NothingCounted(rules: Rules, keys: seq<ClusterKey>)
    ensures SumMembers(rules, keys, []) == 0
  {
    if keys != [] {
      NothingCounted(rules, keys[..|keys| - 1]);
    }
  }

  /** The key a listed cluster is stored under. */
  function KeyFor(rules: Rules, c: FailureCluster): ClusterKey {
    match rules.classOf(c.category)
    case Some(known) => ClusterKey(known, c.version, c.normalized)
    case None => ClusterKey(Unknown, c.version, c.normalized)
  }

  function KeysFor(rules: Rules, all: seq<FailureCluster>): seq<ClusterKey> {
    seq(|all|, i requires 0 <= i < |all| => KeyFor(rules, all[i]))
  }

  lemma {:induction false} SumsAgree(rules: Rules, log: seq<Observation>, part: seq<FailureCluster>)
    requires forall i :: 0 <= i < |part| ==> part[i].count == |MembersFor(rules, KeyFor(rules, part[i]), log)|
    ensures SumCounts(part) == SumMembers(rules, KeysFor(rules, part), log)
  {
    if part != [] {
      var init, c := part[..|part| - 1], part[|part| - 1];
      assert part == init + [c];
      SumsAgree(rules, log, init);
      assert KeysFor(rules, part)[..|part| - 1] == KeysFor(rules, init);
    }
  }

  lemma {:induction false} KeyForIsOwn(rules: Rules, key: ClusterKey, c: FailureCluster)
    requires Faithful(rules) && Named(rules, key, c)
    ensures KeyFor(rules, c) == key
  {
    assert rules.classOf(c.category) == Some(key.failureClass);
  }

  lemma {:induction false} LoggedHasMembers(rules: Rules, log: seq<Observation>, o: Observation)
    requires o in log
    ensures MembersFor(rules, KeyOf(rules, o), log) != []
  {
    var init, last := log[..|log| - 1], log[|log| - 1];
    assert log == init + [last];
    if o != last {
      LoggedHasMembers(rules, init, o);
    }
  }

  /** Every observation is counted in exactly one cluster. */
  lemma {:induction false} CountsAddUp(rules: Rules, clusters: map<ClusterKey, FailureCluster>, log: seq<Observation>, all: seq<FailureCluster>)
    requires Represents(rules, clusters, log) && Faithful(rules) && Lists(clusters, all)
    ensures SumCounts(all) == |log|
  {
    ListedHolds(clusters, all);
    forall i | 0 <= i < |all|
      ensures all[i].count == |MembersFor(rules, KeyFor(rules, all[i]), log)|
    {
      assert Holds(clusters, all[i]);
      var key :| key in clusters && clusters[key] == all[i];
      assert Fits(rules, clusters, log, key);
      KeyForIsOwn(rules, key, all[i]);
    }
    SumsAgree(rules, log, all);
    var keys := KeysFor(rules, all);
    forall i, j | 0 <= i < j < |keys|
      ensures keys[i] != keys[j]
    {
      assert all[i] in all && all[j] in all;
      var a :| a in clusters && clusters[a] == all[i];
      var b :| b in clusters && clusters[b] == all[j];
      assert Fits(rules, clusters, log, a) && Fits(rules, clusters, log, b);
      KeyForIsOwn(rules, a, all[i]);
      KeyForIsOwn(rules, b, all[j]);
    }
    forall o | o in log
      ensures KeyOf(rules, o) in keys
    {
      LoggedHasMembers(rules, log, o);
      var key := KeyOf(rules, o);
      assert Fits(rules, clusters, log, key);
      assert clusters[key] in all;
      var i :| 0 <= i < |all| && all[i] == clusters[key];
      KeyForIsOwn(rules, key, all[i]);
      assert keys[i] == key;
    }
    EveryObservationCounted(rules, keys, log);
  }

  /** Restoring the snapshot of a store gives the same clusters and the same total. */
  lemma {:induction false} SnapshotRoundTrip(rules: Rules, clusters: map<ClusterKey, FailureCluster>, log: seq<Observation>,
                          snapshot: seq<FailureCluster>)
    requires Represents(rules, clusters, log) && Faithful(rules) && Lists(clusters, snapshot)
    ensures Restored(rules, snapshot) == clusters && SumCounts(snapshot) == |log|
  {
    CountsAddUp(rules, clusters, log, snapshot);
    RepresentsCoherent(rules, clusters, log);
    RestoresListing(rules, clusters, snapshot);
  }

  // ----- arrival order -----

  function WithKey(rules: Rules, key: ClusterKey): Observation -> bool { (o: Observation) => KeyOf(rules, o) == key }

  function MembersOf(os: seq<Observation>): seq<Member> { seq(|os|, i requires 0 <= i < |os| => MemberOf(os[i])) }

  lemma {:induction false} MembersAreThose(rules: Rules, key: ClusterKey, log: seq<Observation>)
    ensures MembersFor(rules, key, log) == MembersOf(Those(WithKey(rules, key), log))
  {
    if log != [] {
      MembersAreThose(rules, key, log[..|log| - 1]);
    }
  }

  lemma {:induction false} SameMembersAnyOrder(rules: Rules, key: ClusterKey, log: seq<Observation>, other: seq<Observation>, m: Member)
    requires multiset(log) == multiset(other)
    ensures |MembersFor(rules, key, log)| == |MembersFor(rules, key, other)|
    ensures m in MembersFor(rules, key, log) ==> m in MembersFor(rules, key, other)
  {
    ThoseAnyOrder(WithKey(rules, key), log, other);
    MembersAreThose(rules, key, log);
    MembersAreThose(rules, key, other);
    MembersAnyOrder(Those(WithKey(rules, key), log), Those(WithKey(rules, key), other), m);
  }

  lemma {:induction false} MembersAnyOrder(a: seq<Observation>, b: seq<Observation>, m: Member)
    requires multiset(a) == multiset(b)
    ensures |a| == |b| && (m in MembersOf(a) ==> m in MembersOf(b))
  {
    assert |a| == |multiset(a)| && |b| == |multiset(b)|;
    if m in MembersOf(a) {
      var i :| 0 <= i < |a| && MemberOf(a[i]) == m;
      SameMembers(a, b, a[i]);
      var j :| 0 <= j < |b| && b[j] == a[i];
      assert MembersOf(b)[j] == m;
    }
  }

  /** Two members that neither beats the other, with different raw signatures. */
  ghost predicate Tie(ms: seq<Member>) {
    exists i, j :: 0 <= i < |ms| && 0 <= j < |ms| && ms[i].payloadLen == ms[j].payloadLen && ms[i].seedId == ms[j].seedId && ms[i].raw != ms[j].raw
  }

  /** Equal but for the order of members, and for the exemplar's raw text when two members
      tie. */
  ghost predicate SameTriage(c: FailureCluster, d: FailureCluster) {
    && c.id == d.id && c.category == d.category && c.normalized == d.normalized && c.version == d.version
    && c.count == d.count && c.firstSeen == d.firstSeen && c.lastSeen == d.lastSeen
    && c.exemplar.seedId == d.exemplar.seedId && c.exemplar.payloadLen == d.exemplar.payloadLen
    && (forall m :: m in c.members <==> m in d.members)
    && (c.exemplar.raw == d.exemplar.raw || Tie(c.members))
  }

  lemma {:induction false} SummariesAgree(rules: Rules, key: ClusterKey, c: FailureCluster, d: FailureCluster, ms: seq<Member>, ns: seq<Member>)
    requires Summarizes(rules, key, c, ms) && Summarizes(rules, key, d, ns)
    requires |ms| == |ns| && forall m :: m in ms <==> m in ns
    ensures SameTriage(c, d)
  {
    BoundsAgree(c.firstSeen, c.lastSeen, d.firstSeen, d.lastSeen, ms, ns);
    var i :| 0 <= i < |ms| && ExemplarOf(ms[i]) == c.exemplar;
    var k :| 0 <= k < |ns| && ExemplarOf(ns[k]) == d.exemplar;
    assert ms[i] in ns && ns[k] in ms;
    var i' :| 0 <= i' < |ns| && ns[i'] == ms[i];
    var k' :| 0 <= k' < |ms| && ms[k'] == ns[k];
    assert !Beats(ns[i'], d.exemplar) && !Beats(ms[k'], c.exemplar);
    if ms[i].raw != ms[k'].raw {
      assert Tie(ms);
    }
  }

  lemma {:induction false} BoundsAgree(first: u64, last: u64, first': u64, last': u64, ms: seq<Member>, ns: seq<Member>)
    requires Bounds(first, last, ms) && Bounds(first', last', ns) && forall m :: m in ms <==> m in ns
    ensures first == first' && last == last'
  {
    BoundsWithin(first, last, first', last', ms, ns);
    BoundsWithin(first', last', first, last, ns, ms);
  }

  lemma {:induction false} BoundsWithin(first: u64, last: u64, first': u64, last': u64, ms: seq<Member>, ns: seq<Member>)
    requires Bounds(first, last, ms) && Bounds(first', last', ns) && forall m :: m in ms ==> m in ns
    ensures first' <= first && last <= last'
  {
    var i :| 0 <= i < |ms| && ms[i].at == first;
    var j :| 0 <= j < |ms| && ms[j].at == last;
    assert ms[i] in ns && ms[j] in ns;
  }

  /** Clustering forgets arrival order. */
  lemma {:induction false} ArrivalOrderIrrelevant(rules: Rules, clusters: map<ClusterKey, FailureCluster>, log: seq<Observation>,
                               others: map<ClusterKey, FailureCluster>, other: seq<Observation>)
    requires Represents(rules, clusters, log) && Represents(rules, others, other)
    requires multiset(log) == multiset(other)
    ensures clusters.Keys == others.Keys
    ensures forall key :: key in clusters ==> SameTriage(clusters[key], others[key])
  {
    forall key
      ensures key in clusters <==> key in others
      ensures key in clusters ==> SameTriage(clusters[key], others[key])
    {
      assert Fits(rules, clusters, log, key) && Fits(rules, others, other, key);
      var ms, ns := MembersFor(rules, key, log), MembersFor(rules, key, other);
      forall m ensures m in ms <==> m in ns {
        SameMembersAnyOrder(rules, key, log, other, m);
        SameMembersAnyOrder(rules, key, other, log, m);
      }
      SameMembersAnyOrder(rules, key, log, other, Member(0, 0, "", 0));
      if key in clusters {
        SummariesAgree(rules, key, clusters[key], others[key], ms, ns);
      }
    }
  }

  // ----- clusters in numbers -----

  /** m has the least payload length, and the least id among those of that length; it is the
      first member with both. */
  ghost predicate LeastFirst(ms: seq<Member>, i: nat) {
    && i < |ms|
    && (forall j :: 0 <= j < |ms| ==> ms[i].payloadLen <= ms[j].payloadLen)
    && (forall j :: 0 <= j < |ms| && ms[j].payloadLen == ms[i].payloadLen ==> ms[i].seedId <= ms[j].seedId)
    && (forall j :: 0 <= j < i ==> ms[j].payloadLen != ms[i].payloadLen || ms[j].seedId != ms[i].seedId)
  }

  lemma {:induction false} FirstSmallestByNumbers(e: Exemplar, ms: seq<Member>) returns (i: nat)
    requires FirstSmallest(e, ms)
    ensures LeastFirst(ms, i) && e == Exemplar(ms[i].seedId, ms[i].payloadLen, ms[i].raw)
  {
    i :| 0 <= i < |ms| && ExemplarOf(ms[i]) == e && forall j :: 0 <= j < i ==> Beats(ms[i], ExemplarOf(ms[j]));
    forall j | 0 <= j < |ms| ensures !Beats(ms[j], e) {}
  }

  /** The exemplar of every cluster is its first member of least payload length and then least
      seed id. */
  lemma {:induction false} ExemplarByNumbers(rules: Rules, clusters: map<ClusterKey, FailureCluster>, log: seq<Observation>, key: ClusterKey)
    returns (i: nat)
    requires Represents(rules, clusters, log) && key in clusters
    ensures var c := clusters[key];
            LeastFirst(c.members, i) && c.exemplar == Exemplar(c.members[i].seedId, c.members[i].payloadLen, c.members[i].raw)
  {
    assert Fits(rules, clusters, log, key);
    i := FirstSmallestByNumbers(clusters[key].exemplar, clusters[key].members);
  }

  /** The exemplar a snapshot is restored with is the same. */
  lemma {:induction false} RecomputedByNumbers(ms: seq<Member>)
    requires ms != []
    ensures LeastFirst(ms, Smallest(ms))
  {
    if |ms| > 1 {
      var init, last := ms[..|ms| - 1], ms[|ms| - 1];
      RecomputedByNumbers(init);
      assert init[Smallest(init)] == ms[Smallest(init)];
    }
  }

  /** Where the observations of one class and normalized text are in the log. */
  function Places(rules: Rules, key: ClusterKey, log: seq<Observation>): seq<nat> {
    if log == [] then []
    else
      var before, o := Places(rules, key, log[..|log| - 1]), log[|log| - 1];
      if o.failureClass == key.failureClass && rules.version == key.version && rules.normalize(o.raw) == key.normalized
      then before + [|log| - 1] else before
  }

  ghost predicate LoggedThere(rules: Rules, key: ClusterKey, log: seq<Observation>, ks: seq<nat>, ms: seq<Member>) {
    && |ms| == |ks|
    && (forall i, j :: 0 <= i < j < |ks| ==> ks[i] < ks[j])
    && (forall i :: 0 <= i < |ks| ==> ks[i] < |log| && ms[i] == Member(log[ks[i]].seedId, log[ks[i]].payloadLen, log[ks[i]].raw, log[ks[i]].at))
    && (forall k: nat :: k in ks <==> k < |log| && log[k].failureClass == key.failureClass && rules.version == key.version
                                      && rules.normalize(log[k].raw) == key.normalized)
  }

  lemma {:induction false} MembersLogged(rules: Rules, key: ClusterKey, log: seq<Observation>)
    ensures LoggedThere(rules, key, log, Places(rules, key, log), MembersFor(rules, key, log))
  {
    if log != [] {
      MembersLogged(rules, key, log[..|log| - 1]);
    }
  }

  /** A cluster's members are the logged observations of its class and normalized text, each
      with its own numbers, in the order of the log; there is a cluster exactly when there
      are any, and it is named and dated by them. */
  lemma {:induction false} MembersByLog(rules: Rules, clusters: map<ClusterKey, FailureCluster>, log: seq<Observation>, key: ClusterKey)
    requires Represents(rules, clusters, log)
    ensures key in clusters <==> Places(rules, key, log) != []
    ensures LoggedThere(rules, key, log, Places(rules, key, log), if key in clusters then clusters[key].members else [])
    ensures key in clusters ==>
              var c := clusters[key];
              && c.count == |Places(rules, key, log)|
              && c.category == rules.labelOf(key.failureClass) && c.normalized == key.normalized && c.version == key.version
              && (forall k :: k in Places(rules, key, log) ==> k < |log| && c.firstSeen <= log[k].at <= c.lastSeen)
              && (exists k :: k in Places(rules, key, log) && k < |log| && log[k].at == c.firstSeen)
              && (exists k :: k in Places(rules, key, log) && k < |log| && log[k].at == c.lastSeen)
  {
    MembersLogged(rules, key, log);
    assert Fits(rules, clusters, log, key);
    if key in clusters {
      DatedByLog(rules, key, log, clusters[key]);
    }
  }

  lemma {:induction false} DatedByLog(rules: Rules, key: ClusterKey, log: seq<Observation>, c: FailureCluster)
    requires LoggedThere(rules, key, log, Places(rules, key, log), c.members) && Bounds(c.firstSeen, c.lastSeen, c.members)
    ensures var ks := Places(rules, key, log);
            && (forall k :: k in ks ==> k < |log| && c.firstSeen <= log[k].at <= c.lastSeen)
            && (exists k :: k in ks && k < |log| && log[k].at == c.firstSeen)
            && (exists k :: k in ks && k < |log| && log[k].at == c.lastSeen)
  {
    var ks, ms := Places(rules, key, log), c.members;
    forall k | k in ks ensures k < |log| && c.firstSeen <= log[k].at <= c.lastSeen {
      var i :| 0 <= i < |ks| && ks[i] == k;
      assert ms[i].at == log[k].at;
    }
    var f :| 0 <= f < |ms| && ms[f].at == c.firstSeen;
    var l :| 0 <= l < |ms| && ms[l].at == c.lastSeen;
    assert ks[f] in ks && ks[l] in ks;
  }

  // ----- restoring in fields -----

  /** A cluster restores under this key: its label stands for that class. */
  predicate RestoresAs(rules: Rules, c: FailureCluster, key: ClusterKey) {
    rules.classOf(c.category) == Some(key.failureClass) && c.version == key.version && c.normalized == key.normalized
  }

  /** The last of a snapshot's clusters with this key. */
  predicate LastAs(rules: Rules, snapshot: seq<FailureCluster>, key: ClusterKey, i: nat) {
    i < |snapshot| && RestoresAs(rules, snapshot[i], key) && forall j :: i < j < |snapshot| ==> !RestoresAs(rules, snapshot[j], key)
  }

  /** The same cluster, its exemplar read off its members if it has any. */
  ghost predicate SameButExemplar(c: FailureCluster, r: FailureCluster) {
    && r == c.(exemplar := r.exemplar)
    && (if c.members == [] then r.exemplar == c.exemplar
        else exists i: nat :: LeastFirst(c.members, i) && r.exemplar == Exemplar(c.members[i].seedId, c.members[i].payloadLen, c.members[i].raw))
  }

  lemma {:induction false} RecomputedByFields(c: FailureCluster)
    ensures SameButExemplar(c, Recomputed(c))
  {
    if c.members != [] {
      RecomputedByNumbers(c.members);
    }
  }

  /** What the map holds under this key. */
  ghost predicate RestoredFor(rules: Rules, snapshot: seq<FailureCluster>, key: ClusterKey, m: map<ClusterKey, FailureCluster>) {
    && (key in m <==> exists i: nat :: i < |snapshot| && RestoresAs(rules, snapshot[i], key))
    && (key in m ==> exists i: nat :: LastAs(rules, snapshot, key, i) && SameButExemplar(snapshot[i], m[key]))
  }

  lemma {:induction false} RestoredHere(rules: Rules, init: seq<FailureCluster>, c: FailureCluster, key: ClusterKey,
                                        m: map<ClusterKey, FailureCluster>)
    requires RestoresAs(rules, c, key) && key in m && SameButExemplar(c, m[key])
    ensures RestoredFor(rules, init + [c], key, m)
  {
    var all := init + [c];
    assert all[|init|] == c && LastAs(rules, all, key, |init|);
  }

  lemma {:induction false} RestoredBefore(rules: Rules, init: seq<FailureCluster>, c: FailureCluster, key: ClusterKey,
                                          m: map<ClusterKey, FailureCluster>)
    requires RestoredFor(rules, init, key, m) && !RestoresAs(rules, c, key)
    ensures RestoredFor(rules, init + [c], key, m)
  {
    var all := init + [c];
    assert forall i: nat :: i < |init| ==> all[i] == init[i];
    if key in m {
      var i: nat :| LastAs(rules, init, key, i) && SameButExemplar(init[i], m[key]);
      assert all[i] == init[i] && LastAs(rules, all, key, i);
    }
  }

  lemma {:induction false} OnlyThatKey(rules: Rules, snapshot: seq<FailureCluster>, key: ClusterKey,
                                       m: map<ClusterKey, FailureCluster>, n: map<ClusterKey, FailureCluster>)
    requires RestoredFor(rules, snapshot, key, m)
    requires (key in n <==> key in m) && (key in m ==> n[key] == m[key])
    ensures RestoredFor(rules, snapshot, key, n)
  {}

  /** A restored map holds exactly the clusters whose label is recognised, each under its own
      class, version and text; of those with one key, the last. */
  lemma {:induction false} RestoredByFields(rules: Rules, snapshot: seq<FailureCluster>, key: ClusterKey)
    ensures RestoredFor(rules, snapshot, key, Restored(rules, snapshot))
  {
    if snapshot != [] {
      var init, c := snapshot[..|snapshot| - 1], snapshot[|snapshot| - 1];
      var before, after := Restored(rules, init), Restored(rules, snapshot);
      assert init + [c] == snapshot;
      RestoredByFields(rules, init, key);
      RecomputedByFields(c);
      if RestoresAs(rules, c, key) {
        RestoredHere(rules, init, c, key, after);
      } else {
        RestoredBefore(rules, init, c, key, before);
        OnlyThatKey(rules, snapshot, key, before, after);
      }
    }
  }

  /** The restored total adds up the counts of all clusters, recognised or not. */
  lemma {:induction false} TotalAddsUp(a: seq<FailureCluster>, b: seq<FailureCluster>)
    ensures SumCounts(a + b) == SumCounts(a) + SumCounts(b)
    ensures |b| == 1 ==> SumCounts(b) == b[0].count
  {
    if b == [] {
      assert a + b == a;
    } else {
      TotalAddsUp(a, b[..|b| - 1]);
      assert (a + b)[..|a + b| - 1] == a + b[..|b| - 1];
    }
  }

  /** In triage order the larger count comes first, then the earlier text, then the earlier
      label, then the lower version. */
  lemma {:induction false} TriageByNumbers(all: seq<FailureCluster>, i: nat, j: nat)
    requires Ordered(TriageLeq, all) && i < j < |all|
    ensures var a, b := all[i], all[j];
            || a.count > b.count
            || (a.count == b.count && TextBefore(a.normalized, b.normalized))
            || (a.count == b.count && a.normalized == b.normalized && TextBefore(a.category, b.category))
            || (a.count == b.count && a.normalized == b.normalized && a.category == b.category && a.version <= b.version)
  {
    var a, b := all[i], all[j];
    assert TriageLeq(a, b);
    StringLeqMeans(a.normalized, b.normalized);
    StringLeqMeans(a.category, b.category);
  }
}
