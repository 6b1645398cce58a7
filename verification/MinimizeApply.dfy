/** Applying a minimization plan (corpus_minimize.rs): tombstones only, nothing of value is
    lost, the report is the plan's, and planning again finds a fixed point. */
module MinimizationApply {
  import opened Prelude
  import opened Sorting
  import opened Minimization

  function Tombstone(ids: seq<u64>, r: CorpusRecord): CorpusRecord {
    if !r.tombstoned && r.seed.id in ids then r.(tombstoned := true) else r
  }

  function Applied(ids: seq<u64>, store: seq<CorpusRecord>): seq<CorpusRecord> {
    seq(|store|, i requires 0 <= i < |store| => Tombstone(ids, store[i]))
  }

  /** `apply_minimization`. */
  method ApplyMinimization(plan: MinimizationPlan, store: array<CorpusRecord>) returns (report: ApplyReport)
    modifies store
    ensures store[..] == Applied(plan.remove, old(store[..]))
    ensures report == ApplyReport(|Marked(plan.remove, old(store[..]))|, TotalLen(Marked(plan.remove, old(store[..]))))
  {
    var tombstoned, bytes := 0, 0;
    ghost var before := store[..];
    for i := 0 to store.Length
      invariant forall k :: 0 <= k < i ==> store[k] == Tombstone(plan.remove, before[k])
      invariant forall k :: i <= k < store.Length ==> store[k] == before[k]
      invariant tombstoned == |Marked(plan.remove, before[..i])| && bytes == TotalLen(Marked(plan.remove, before[..i]))
    {
      var r := store[i];
      MarkOne(plan.remove, before[..i], r);
      assert before[..i + 1] == before[..i] + [r];
      if !r.tombstoned && r.seed.id in plan.remove {
        store[i] := r.(tombstoned := true);
        tombstoned := tombstoned + 1;
        bytes := bytes + |r.seed.payload|;
      }
    }
    assert before[..store.Length] == before;
    assert store[..] == Applied(plan.remove, before);
    report := ApplyReport(tombstoned, bytes);
  }

  lemma {:induction false} MarkOne(ids: seq<u64>, store: seq<CorpusRecord>, r: CorpusRecord)
    ensures var marked := Marked(ids, store + [r]);
            if !r.tombstoned && r.seed.id in ids
            then |marked| == |Marked(ids, store)| + 1 && TotalLen(marked) == TotalLen(Marked(ids, store)) + |r.seed.payload|
            else marked == Marked(ids, store)
  {
    ThoseSnoc((o: CorpusRecord) => !o.tombstoned && o.seed.id in ids, store, r);
    SumSnoc((o: CorpusRecord) => |o.seed.payload|, Marked(ids, store), r);
  }

  // ----- what a described plan does -----

  /** Every live id is kept or removed, never both. */
  lemma {:induction false} KeepAndRemovePartition(classify: Classifier, store: seq<CorpusRecord>, plan: MinimizationPlan, id: u64)
    requires LiveIdsDistinct(store) && Describes(classify, store, plan)
    ensures !(id in plan.keep && id in plan.remove)
    ensures id in plan.keep || id in plan.remove <==> exists r :: Live(store, r) && r.seed.id == id
  {
    var stays := Staying(classify, store);
    if id in plan.keep && id in plan.remove {
      var r :| Live(store, r) && stays(r) && r.seed.id == id;
      var o :| Live(store, o) && Not(stays)(o) && o.seed.id == id;
      SameIdSameRecord(store, r, o);
    }
    if r :| Live(store, r) && r.seed.id == id {
      assert stays(r) || Not(stays)(r);
    }
  }

  /** Exactly the retained records stay live. */
  lemma {:induction false} LiveAfter(classify: Classifier, store: seq<CorpusRecord>, plan: MinimizationPlan, r: CorpusRecord)
    requires LiveIdsDistinct(store) && Describes(classify, store, plan)
    ensures Live(Applied(plan.remove, store), r) <==> Live(store, r) && Retained(classify, store, r)
  {
    var after := Applied(plan.remove, store);
    var stays := Staying(classify, store);
    if Live(after, r) {
      var i :| 0 <= i < |after| && after[i] == r;
      assert store[i] == r;
      assert !Not(stays)(r);
    }
    if Live(store, r) && stays(r) {
      var i :| 0 <= i < |store| && store[i] == r;
      if r.seed.id in plan.remove {
        var o :| Live(store, o) && Not(stays)(o) && o.seed.id == r.seed.id;
        SameIdSameRecord(store, r, o);
      }
      assert after[i] == r;
    }
  }

  /** Some live record is a least one among those with its key. */
  lemma {:induction false} LeastExists(classify: Classifier, store: seq<CorpusRecord>, key: BehaviorKey, r: CorpusRecord) returns (least: CorpusRecord)
    requires Live(store, r) && KeyOf(classify, r) == key
    ensures Live(store, least) && KeyOf(classify, least) == key && Representative(classify, store, least)
  {
    var alive := Those(IsLive, store);
    var bucket := Those(Keyed(classify, key), alive);
    var sorted := Sort(SizeLeq, bucket);
    assert Total(SizeLeq);
    SortOrdered(SizeLeq, bucket);
    forall o ensures o in sorted <==> Live(store, o) && KeyOf(classify, o) == key {
      SortMembers(SizeLeq, bucket, o);
      ThoseMembers(Keyed(classify, key), alive, o);
      ThoseMembers(IsLive, store, o);
    }
    least := sorted[0];
    forall o | Live(store, o) && KeyOf(classify, o) == key ensures SizeLeq(least, o) {
      var j :| 0 <= j < |sorted| && sorted[j] == o;
    }
  }

  /** Every behavior keeps a live seed of least size, and no uniquely tagged seed is lost. */
  lemma {:induction false} NothingOfValueLost(classify: Classifier, store: seq<CorpusRecord>, plan: MinimizationPlan, r: CorpusRecord)
    requires LiveIdsDistinct(store) && Describes(classify, store, plan) && Live(store, r)
    ensures exists least :: Live(Applied(plan.remove, store), least) && KeyOf(classify, least) == KeyOf(classify, r)
                            && Representative(classify, store, least)
    ensures UniquelyTagged(store, r) ==> Live(Applied(plan.remove, store), r)
  {
    LiveAfter(classify, store, plan, r);
    var least := LeastExists(classify, store, KeyOf(classify, r), r);
    LiveAfter(classify, store, plan, least);
  }

  /** The report of applying a plan repeats the plan's own counts. */
  lemma {:induction false} ReportMatchesPlan(classify: Classifier, store: seq<CorpusRecord>, plan: MinimizationPlan)
    requires LiveIdsDistinct(store) && Describes(classify, store, plan)
    ensures |Marked(plan.remove, store)| == |plan.remove|
    ensures TotalLen(Marked(plan.remove, store)) == plan.bytesSaved
  {
    var marked := Marked(plan.remove, store);
    var ids := Ids(marked);
    MarkedDistinct(plan.remove, store);
    forall i, j | 0 <= i < j < |ids| ensures ids[i] != ids[j] {
      assert marked[i] in marked && marked[j] in marked;
      MarkedMembers(plan.remove, store, marked[i]);
      MarkedMembers(plan.remove, store, marked[j]);
      if ids[i] == ids[j] {
        SameIdSameRecord(store, marked[i], marked[j]);
      }
    }
    forall id ensures id in ids <==> id in plan.remove {
      if id in ids {
        var i :| 0 <= i < |ids| && ids[i] == id;
        MarkedMembers(plan.remove, store, marked[i]);
      }
      if id in plan.remove {
        var r :| Live(store, r) && Not(Staying(classify, store))(r) && r.seed.id == id;
        MarkedMembers(plan.remove, store, r);
        var i :| 0 <= i < |marked| && marked[i] == r;
        assert ids[i] == id;
      }
    }
    DistinctSameBag(ids, plan.remove);
  }

  /** Applying the same plan again marks nothing and changes nothing. */
  lemma {:induction false} SecondApplyIsIdle(ids: seq<u64>, store: seq<CorpusRecord>)
    ensures Applied(ids, Applied(ids, store)) == Applied(ids, store) && Marked(ids, Applied(ids, store)) == []
  {
    var after := Applied(ids, store);
    if Marked(ids, after) != [] {
      MarkedMembers(ids, after, Marked(ids, after)[0]);
    }
  }

  lemma {:induction false} StillDistinct(ids: seq<u64>, store: seq<CorpusRecord>)
    requires LiveIdsDistinct(store)
    ensures LiveIdsDistinct(Applied(ids, store))
  {
    forall i: nat, j: nat ensures !Twins(Applied(ids, store), i, j) {
      assert !Twins(store, i, j);
    }
  }

  /** Every survivor would be retained again. */
  lemma {:induction false} SurvivorsRetained(classify: Classifier, store: seq<CorpusRecord>, plan: MinimizationPlan, r: CorpusRecord)
    requires LiveIdsDistinct(store) && Describes(classify, store, plan) && Live(Applied(plan.remove, store), r)
    ensures Retained(classify, Applied(plan.remove, store), r)
  {
    var after := Applied(plan.remove, store);
    LiveAfter(classify, store, plan, r);
    forall o | Live(after, o) ensures Live(store, o) {
      LiveAfter(classify, store, plan, o);
    }
  }

  lemma {:induction false} SameKeysAfter(classify: Classifier, store: seq<CorpusRecord>, plan: MinimizationPlan, key: BehaviorKey)
    requires LiveIdsDistinct(store) && Describes(classify, store, plan)
    ensures (exists r :: Live(Applied(plan.remove, store), r) && KeyOf(classify, r) == key)
            <==> exists r :: Live(store, r) && KeyOf(classify, r) == key
  {
    if r :| Live(store, r) && KeyOf(classify, r) == key {
      NothingOfValueLost(classify, store, plan, r);
    }
    if r :| Live(Applied(plan.remove, store), r) && KeyOf(classify, r) == key {
      LiveAfter(classify, store, plan, r);
    }
  }

  /** Planning again after applying keeps the same ids, removes nothing and sees the same
      behaviors: minimization reaches its fixed point in one step. */
  lemma {:induction false} ReplanIsFixpoint(classify: Classifier, store: seq<CorpusRecord>, plan: MinimizationPlan, again: MinimizationPlan)
    requires LiveIdsDistinct(store) && Describes(classify, store, plan)
    requires Describes(classify, Applied(plan.remove, store), again)
    ensures LiveIdsDistinct(Applied(plan.remove, store))
    ensures again.keep == plan.keep && again.remove == [] && again.bytesSaved == 0
    ensures KeysOf(again.groups) == KeysOf(plan.groups)
  {
    var after := Applied(plan.remove, store);
    StillDistinct(plan.remove, store);
    ReplanRemovesNothing(classify, store, plan, again);
    forall id ensures id in again.keep <==> id in plan.keep {
      ReplanKeeps(classify, store, plan, again, id);
    }
    AscendingUnique(IdOrder, again.keep, plan.keep);
    forall key ensures key in KeysOf(again.groups) <==> key in KeysOf(plan.groups) {
      SameKeysAfter(classify, store, plan, key);
    }
    KeyLeqAntisymmetric();
    AscendingUnique(KeyLeq, KeysOf(again.groups), KeysOf(plan.groups));
  }

  lemma {:induction false} KeyLeqAntisymmetric()
    ensures Antisymmetric(KeyLeq)
  {
    StringOrder();
  }

  lemma {:induction false} ReplanRemovesNothing(classify: Classifier, store: seq<CorpusRecord>, plan: MinimizationPlan, again: MinimizationPlan)
    requires LiveIdsDistinct(store) && Describes(classify, store, plan)
    requires Describes(classify, Applied(plan.remove, store), again)
    ensures again.remove == [] && again.bytesSaved == 0
  {
    var after := Applied(plan.remove, store);
    StillDistinct(plan.remove, store);
    if again.remove != [] {
      assert again.remove[0] in again.remove;
      var r :| Live(after, r) && Not(Staying(classify, after))(r) && r.seed.id == again.remove[0];
      SurvivorsRetained(classify, store, plan, r);
    }
    ReportMatchesPlan(classify, after, again);
  }

  lemma {:induction false} ReplanKeeps(classify: Classifier, store: seq<CorpusRecord>, plan: MinimizationPlan, again: MinimizationPlan, id: u64)
    requires LiveIdsDistinct(store) && Describes(classify, store, plan)
    requires Describes(classify, Applied(plan.remove, store), again)
    ensures id in again.keep <==> id in plan.keep
  {
    var after := Applied(plan.remove, store);
    if id in again.keep {
      var r :| Live(after, r) && Staying(classify, after)(r) && r.seed.id == id;
      LiveAfter(classify, store, plan, r);
      assert Staying(classify, store)(r);
    }
    if id in plan.keep {
      var r :| Live(store, r) && Staying(classify, store)(r) && r.seed.id == id;
      LiveAfter(classify, store, plan, r);
      SurvivorsRetained(classify, store, plan, r);
      assert Staying(classify, after)(r);
    }
  }

  // ----- the plan in numbers -----

  /** Both observed with one category and signature hash, or both unobserved and classified
      alike. */
  predicate SameBehavior(classify: Classifier, a: CorpusRecord, b: CorpusRecord) {
    match (a.observed, b.observed)
    case (Some(s), Some(t)) => s.category == t.category && s.signatureHash == t.signatureHash
    case (None, None) => classify(a.seed) == classify(b.seed)
    case _ => false
  }

  lemma {:induction false} BehaviorByFields(classify: Classifier, a: CorpusRecord, b: CorpusRecord)
    ensures KeyOf(classify, a) == KeyOf(classify, b) <==> SameBehavior(classify, a, b)
  {}

  lemma {:induction false} RetainedIsKept(classify: Classifier, store: seq<CorpusRecord>, plan: MinimizationPlan, r: CorpusRecord)
    requires LiveIdsDistinct(store) && Describes(classify, store, plan) && Live(store, r)
    ensures r.seed.id in plan.keep <==> Retained(classify, store, r)
  {
    var stays := Staying(classify, store);
    assert stays(r) <==> Retained(classify, store, r);
    if r.seed.id in plan.keep {
      var o :| Live(store, o) && stays(o) && o.seed.id == r.seed.id;
      SameIdSameRecord(store, r, o);
    }
  }

  /** For every live seed a kept one of the same behavior is shorter, or as long with an id
      that is not higher. */
  lemma {:induction false} SmallestIsKept(classify: Classifier, store: seq<CorpusRecord>, plan: MinimizationPlan, r: CorpusRecord)
    returns (o: CorpusRecord)
    requires LiveIdsDistinct(store) && Describes(classify, store, plan) && Live(store, r)
    ensures Live(store, o) && o.seed.id in plan.keep && SameBehavior(classify, o, r)
    ensures |o.seed.payload| < |r.seed.payload| || (|o.seed.payload| == |r.seed.payload| && o.seed.id <= r.seed.id)
  {
    o := LeastExists(classify, store, KeyOf(classify, r), r);
    RetainedIsKept(classify, store, plan, o);
    BehaviorByFields(classify, o, r);
    assert SizeLeq(o, r);
  }

  /** For every removed seed it is shorter, or as long with a lower id. */
  lemma {:induction false} RemovedForSmaller(classify: Classifier, store: seq<CorpusRecord>, plan: MinimizationPlan, r: CorpusRecord)
    returns (o: CorpusRecord)
    requires LiveIdsDistinct(store) && Describes(classify, store, plan) && Live(store, r) && r.seed.id in plan.remove
    ensures Live(store, o) && o.seed.id in plan.keep && SameBehavior(classify, o, r)
    ensures |o.seed.payload| < |r.seed.payload| || (|o.seed.payload| == |r.seed.payload| && o.seed.id < r.seed.id)
  {
    o := SmallestIsKept(classify, store, plan, r);
    KeepAndRemovePartition(classify, store, plan, r.seed.id);
  }

  /** The payload bytes of the live seeds. */
  function LiveBytes(store: seq<CorpusRecord>): nat {
    if store == [] then 0
    else
      var last := store[|store| - 1];
      LiveBytes(store[..|store| - 1]) + if last.tombstoned then 0 else |last.seed.payload|
  }

  lemma {:induction false} MarkedBytes(ids: seq<u64>, store: seq<CorpusRecord>)
    ensures LiveBytes(store) == LiveBytes(Applied(ids, store)) + TotalLen(Marked(ids, store))
  {
    if store != [] {
      var init, last := store[..|store| - 1], store[|store| - 1];
      MarkedBytes(ids, init);
      MarkOne(ids, init, last);
      assert store == init + [last];
      assert Applied(ids, store)[..|store| - 1] == Applied(ids, init);
    }
  }

  /** The bytes saved are exactly the live payload bytes that are gone afterwards. */
  lemma {:induction false} BytesConserved(classify: Classifier, store: seq<CorpusRecord>, plan: MinimizationPlan)
    requires LiveIdsDistinct(store) && Describes(classify, store, plan)
    ensures LiveBytes(store) == LiveBytes(Applied(plan.remove, store)) + plan.bytesSaved
  {
    MarkedBytes(plan.remove, store);
  }

  /** All lists of a plan go up: ids as numbers, groups by class text with the unhashed
      first, then by hash. */
  lemma {:induction false} ListsAscend(classify: Classifier, store: seq<CorpusRecord>, plan: MinimizationPlan, i: nat, j: nat)
    requires Describes(classify, store, plan) && i < j
    ensures j < |plan.keep| ==> plan.keep[i] < plan.keep[j]
    ensures j < |plan.remove| ==> plan.remove[i] < plan.remove[j]
    ensures j < |plan.groups| ==>
              var a, b := plan.groups[i].key, plan.groups[j].key;
              || TextBefore(a.outcomeClass, b.outcomeClass)
              || (a.outcomeClass == b.outcomeClass && b.signatureHash.Some?
                  && (a.signatureHash.None? || a.signatureHash.value < b.signatureHash.value))
  {
    if j < |plan.groups| {
      var a, b := KeysOf(plan.groups)[i], KeysOf(plan.groups)[j];
      assert KeyLeq(a, b) && a != b;
      StringLeqMeans(a.outcomeClass, b.outcomeClass);
    }
  }

  lemma {:induction false} GroupsAscend(classify: Classifier, store: seq<CorpusRecord>, plan: MinimizationPlan, g: nat, i: nat, j: nat)
    requires Describes(classify, store, plan) && g < |plan.groups| && i < j < |plan.groups[g].members|
    ensures plan.groups[g].members[i] < plan.groups[g].members[j]
  {
    assert Grouped(classify, store, plan.groups[g]);
  }

  /** Applying changes nothing but the tombstones, sets those of the live records listed, and
      takes none away. */
  lemma {:induction false} AppliedByFields(ids: seq<u64>, store: seq<CorpusRecord>, i: nat)
    requires i < |store|
    ensures var before, after := store[i], Applied(ids, store)[i];
            && after.seed == before.seed && after.provenance == before.provenance && after.observed == before.observed
            && (after.tombstoned <==> before.tombstoned || before.seed.id in ids)
  {}
}
