/** Corpus minimization (corpus_minimize.rs): planning, applying, and why planning again
    finds nothing left to do. `classify_failure` is an opaque function. */
module Minimization {
  import opened Prelude
  import opened Sorting
  import opened Archive

  datatype Signature = Signature(category: string, digest: u64, signatureHash: u64)

  datatype CorpusRecord = CorpusRecord(
    seed: CaseSeed,
    provenance: Option<string>,
    observed: Option<Signature>,
    tombstoned: bool)

  datatype BehaviorKey = BehaviorKey(outcomeClass: string, signatureHash: Option<u64>)

  type Classifier = CaseSeed -> string

  datatype BehaviorGroup = BehaviorGroup(key: BehaviorKey, members: seq<u64>)

  datatype MinimizationPlan = MinimizationPlan(
    groups: seq<BehaviorGroup>, keep: seq<u64>, remove: seq<u64>, bytesSaved: nat)

  datatype MinimizeError = DuplicateSeedId(id: u64)

  datatype ApplyReport = ApplyReport(tombstoned: nat, bytesTombstoned: nat)

  function KeyOf(classify: Classifier, r: CorpusRecord): BehaviorKey {
    match r.observed
    case Some(signature) => BehaviorKey(signature.category, Some(signature.signatureHash))
    case None => BehaviorKey(classify(r.seed), None)
  }

  // ----- what a plan must say -----

  predicate Live(store: seq<CorpusRecord>, r: CorpusRecord) { r in store && !r.tombstoned }

  /** Shorter payload first, then lower id. */
  function SizeLeq(a: CorpusRecord, b: CorpusRecord): bool {
    |a.seed.payload| < |b.seed.payload| || (|a.seed.payload| == |b.seed.payload| && a.seed.id <= b.seed.id)
  }

  ghost predicate Representative(classify: Classifier, store: seq<CorpusRecord>, r: CorpusRecord) {
    forall o :: Live(store, o) && KeyOf(classify, o) == KeyOf(classify, r) ==> SizeLeq(r, o)
  }

  ghost predicate UniquelyTagged(store: seq<CorpusRecord>, r: CorpusRecord) {
    r.provenance.Some? && forall o :: Live(store, o) && o.provenance == r.provenance ==> o == r
  }

  ghost predicate Retained(classify: Classifier, store: seq<CorpusRecord>, r: CorpusRecord) {
    Representative(classify, store, r) || UniquelyTagged(store, r)
  }

  predicate Twins(store: seq<CorpusRecord>, i: nat, j: nat) {
    i < j < |store| && !store[i].tombstoned && !store[j].tombstoned && store[i].seed.id == store[j].seed.id
  }

  ghost predicate LiveIdsDistinct(store: seq<CorpusRecord>) { forall i: nat, j: nat :: !Twins(store, i, j) }

  /** The live records whose ids are listed, in store order. */
  function Marked(ids: seq<u64>, store: seq<CorpusRecord>): seq<CorpusRecord> {
    Those((r: CorpusRecord) => !r.tombstoned && r.seed.id in ids, store)
  }

  function TotalLen(rs: seq<CorpusRecord>): nat { Sum((r: CorpusRecord) => |r.seed.payload|, rs) }

  function IdOrder(a: u64, b: u64): bool { a <= b }

  /** None before any hash, the class text first. */
  function KeyLeq(a: BehaviorKey, b: BehaviorKey): bool {
    if a.outcomeClass != b.outcomeClass then StringLeq(a.outcomeClass, b.outcomeClass)
    else a.signatureHash.None? || (b.signatureHash.Some? && a.signatureHash.value <= b.signatureHash.value)
  }

  ghost predicate Grouped(classify: Classifier, store: seq<CorpusRecord>, g: BehaviorGroup) {
    && Ascending(IdOrder, g.members)
    && (forall id :: id in g.members <==> exists r :: Live(store, r) && KeyOf(classify, r) == g.key && r.seed.id == id)
  }

  function KeysOf(groups: seq<BehaviorGroup>): seq<BehaviorKey> { seq(|groups|, i requires 0 <= i < |groups| => groups[i].key) }

  /** Whether a record is retained, as a function to filter by. */
  ghost function Staying(classify: Classifier, store: seq<CorpusRecord>): CorpusRecord -> bool {
    (r: CorpusRecord) => Retained(classify, store, r)
  }

  function Not(p: CorpusRecord -> bool): CorpusRecord -> bool { (r: CorpusRecord) => !p(r) }

  /** The ids, ascending, of the live records on one side. */
  ghost predicate ListsSide(store: seq<CorpusRecord>, side: CorpusRecord -> bool, ids: seq<u64>) {
    && Ascending(IdOrder, ids)
    && (forall id :: id in ids <==> exists r :: Live(store, r) && side(r) && r.seed.id == id)
  }

  ghost predicate Describes(classify: Classifier, store: seq<CorpusRecord>, plan: MinimizationPlan) {
    && ListsSide(store, Staying(classify, store), plan.keep)
    && ListsSide(store, Not(Staying(classify, store)), plan.remove)
    && plan.bytesSaved == TotalLen(Marked(plan.remove, store))
    && Ascending(KeyLeq, KeysOf(plan.groups))
    && (forall key :: key in KeysOf(plan.groups) <==> exists r :: Live(store, r) && KeyOf(classify, r) == key)
    && (forall i :: 0 <= i < |plan.groups| ==> Grouped(classify, store, plan.groups[i]))
  }

  /** The smallest id shared by two live records. */
  ghost predicate LeastTwin(store: seq<CorpusRecord>, id: u64) {
    && (exists i: nat, j: nat :: Twins(store, i, j) && store[i].seed.id == id)
    && (forall i: nat, j: nat :: Twins(store, i, j) ==> id <= store[i].seed.id)
  }

  // ----- planning -----

  function IsLive(r: CorpusRecord): bool { !r.tombstoned }

  function LiveOf(store: seq<CorpusRecord>): seq<CorpusRecord> { Those(IsLive, store) }

  function IdLeq(a: CorpusRecord, b: CorpusRecord): bool { a.seed.id <= b.seed.id }

  function Ids(rs: seq<CorpusRecord>): seq<u64> { seq(|rs|, i requires 0 <= i < |rs| => rs[i].seed.id) }

  /** Live records in id order, no two sharing an id: what planning works on. */
  ghost predicate Prepared(store: seq<CorpusRecord>, live: seq<CorpusRecord>) {
    && (forall r :: r in live <==> Live(store, r))
    && (forall i, j :: 0 <= i < j < |live| ==> live[i].seed.id < live[j].seed.id)
  }

  function LiveWithId(id: u64): CorpusRecord -> bool { (r: CorpusRecord) => !r.tombstoned && r.seed.id == id }

  function TaggedWith(tag: string): CorpusRecord -> bool { (r: CorpusRecord) => r.provenance == Some(tag) }

  function Keyed(classify: Classifier, key: BehaviorKey): CorpusRecord -> bool { (r: CorpusRecord) => KeyOf(classify, r) == key }

  lemma {:induction false} LiveCount(store: seq<CorpusRecord>, id: u64)
    ensures Count(LiveWithId(id), LiveOf(store)) == Count(LiveWithId(id), store)
  {
    if store != [] {
      var init, last := store[..|store| - 1], store[|store| - 1];
      LiveCount(init, id);
      if !last.tombstoned {
        SumSnoc(Indicator(LiveWithId(id)), LiveOf(init), last);
      }
    }
  }

  /** Sorting the live records keeps each id's number of occurrences. */
  lemma {:induction false} TwinsTransfer(store: seq<CorpusRecord>, id: u64)
    ensures (exists i: nat, j: nat :: Twins(store, i, j) && store[i].seed.id == id)
            <==> exists i: nat, j: nat :: AtTwo(LiveWithId(id), Sort(IdLeq, LiveOf(store)), i, j)
  {
    SortElements(IdLeq, LiveOf(store));
    SumAnyOrder(Indicator(LiveWithId(id)), LiveOf(store), Sort(IdLeq, LiveOf(store)));
    LiveCount(store, id);
    CountTwo(LiveWithId(id), Sort(IdLeq, LiveOf(store)));
    CountTwo(LiveWithId(id), store);
    if i: nat, j: nat :| Twins(store, i, j) && store[i].seed.id == id {
      assert AtTwo(LiveWithId(id), store, i, j);
    }
    if i: nat, j: nat :| AtTwo(LiveWithId(id), store, i, j) {
      assert Twins(store, i, j);
    }
  }

  lemma {:induction false} SortedLive(store: seq<CorpusRecord>)
    ensures Ordered(IdLeq, Sort(IdLeq, LiveOf(store)))
    ensures forall r :: r in Sort(IdLeq, LiveOf(store)) <==> Live(store, r)
  {
    assert Total(IdLeq);
    SortOrdered(IdLeq, LiveOf(store));
    forall r ensures r in Sort(IdLeq, LiveOf(store)) <==> Live(store, r) {
      SortMembers(IdLeq, LiveOf(store), r);
      ThoseMembers(IsLive, store, r);
    }
  }

  /** The first equal neighbours in id order are the twins with the least id. */
  lemma {:induction false} FirstNeighbours(store: seq<CorpusRecord>, live: seq<CorpusRecord>, k: nat)
    requires live == Sort(IdLeq, LiveOf(store)) && k + 1 < |live| && live[k].seed.id == live[k + 1].seed.id
    requires forall i :: 0 <= i < k ==> live[i].seed.id < live[i + 1].seed.id
    ensures LeastTwin(store, live[k].seed.id)
  {
    SortedLive(store);
    assert live[k] in live && live[k + 1] in live;
    assert AtTwo(LiveWithId(live[k].seed.id), live, k, k + 1);
    TwinsTransfer(store, live[k].seed.id);
    forall i: nat, j: nat | Twins(store, i, j)
      ensures live[k].seed.id <= store[i].seed.id
    {
      TwinsTransfer(store, store[i].seed.id);
      var a: nat, b: nat :| AtTwo(LiveWithId(store[i].seed.id), live, a, b);
      assert IdLeq(live[a], live[a + 1]) && (a + 1 == b || IdLeq(live[a + 1], live[b]));
      assert a >= k;
      assert a == k || IdLeq(live[k], live[a]);
    }
  }

  lemma {:induction false} Climbs(live: seq<CorpusRecord>, i: nat, j: nat)
    requires forall k :: 0 <= k < |live| - 1 ==> live[k].seed.id < live[k + 1].seed.id
    requires i < j < |live|
    ensures live[i].seed.id < live[j].seed.id
  {
    assert live[j - 1].seed.id < live[j - 1 + 1].seed.id;
    if i < j - 1 {
      Climbs(live, i, j - 1);
    }
  }

  lemma {:induction false} NoNeighbours(store: seq<CorpusRecord>, live: seq<CorpusRecord>)
    requires live == Sort(IdLeq, LiveOf(store))
    requires forall i :: 0 <= i < |live| - 1 ==> live[i].seed.id < live[i + 1].seed.id
    ensures LiveIdsDistinct(store) && Prepared(store, live)
  {
    SortedLive(store);
    forall i, j | 0 <= i < j < |live| ensures live[i].seed.id < live[j].seed.id {
      Climbs(live, i, j);
    }
    forall id: u64, a: nat, b: nat ensures !AtTwo(LiveWithId(id), live, a, b) {}
    forall i: nat, j: nat ensures !Twins(store, i, j) {
      if Twins(store, i, j) {
        TwinsTransfer(store, store[i].seed.id);
      }
    }
  }

  /** How many of the first records carry each tag. */
  ghost predicate Tallied(counts: map<string, nat>, rs: seq<CorpusRecord>) {
    && (forall tag :: tag in counts ==> counts[tag] == Count(TaggedWith(tag), rs))
    && (forall tag :: tag !in counts ==> Count(TaggedWith(tag), rs) == 0)
  }

  method CountTags(live: seq<CorpusRecord>) returns (counts: map<string, nat>)
    ensures Tallied(counts, live)
  {
    counts := map[];
    for i := 0 to |live|
      invariant Tallied(counts, live[..i])
    {
      assert live[..i + 1] == live[..i] + [live[i]];
      ghost var before := counts;
      forall tag ensures Count(TaggedWith(tag), live[..i + 1]) == Count(TaggedWith(tag), live[..i]) + if live[i].provenance == Some(tag) then 1 else 0 {
        SumSnoc(Indicator(TaggedWith(tag)), live[..i], live[i]);
      }
      match live[i].provenance {
        case Some(tag) =>
          counts := counts[tag := (if tag in counts then counts[tag] else 0) + 1];
        case None =>
      }
    }
    assert live[..|live|] == live;
  }

  predicate HasUniqueProvenance(counts: map<string, nat>, r: CorpusRecord) {
    r.provenance.Some? && r.provenance.value in counts && counts[r.provenance.value] == 1
  }

  lemma {:induction false} UniqueProvenance(store: seq<CorpusRecord>, live: seq<CorpusRecord>, counts: map<string, nat>, r: CorpusRecord)
    requires Prepared(store, live) && Tallied(counts, live) && r in live
    ensures HasUniqueProvenance(counts, r) <==> UniquelyTagged(store, r)
  {
    if r.provenance.Some? {
      var p := TaggedWith(r.provenance.value);
      CountSome(p, live);
      CountTwo(p, live);
      var k: nat :| k < |live| && live[k] == r;
      assert p(live[k]);
      if i: nat, j: nat :| AtTwo(p, live, i, j) {
        assert live[i] in live && live[j] in live;
        assert !UniquelyTagged(store, r);
      } else {
        forall o | Live(store, o) && o.provenance == r.provenance ensures o == r {
          var i: nat :| i < |live| && live[i] == o;
          assert !AtTwo(p, live, i, k) && !AtTwo(p, live, k, i);
        }
      }
    }
  }

  /** The buckets hold the first records by behavior key; `keys` lists each key once. */
  ghost predicate Bucketed(classify: Classifier, keys: seq<BehaviorKey>, buckets: map<BehaviorKey, seq<CorpusRecord>>,
                           rs: seq<CorpusRecord>) {
    && Distinct(keys)
    && (forall key :: key in keys <==> key in buckets)
    && (forall key :: key in buckets ==> buckets[key] == Those(Keyed(classify, key), rs) != [])
    && (forall key :: key !in buckets ==> Those(Keyed(classify, key), rs) == [])
  }

  method FillBuckets(classify: Classifier, live: seq<CorpusRecord>)
    returns (keys: seq<BehaviorKey>, buckets: map<BehaviorKey, seq<CorpusRecord>>)
    ensures Bucketed(classify, keys, buckets, live)
  {
    keys, buckets := [], map[];
    for i := 0 to |live|
      invariant Bucketed(classify, keys, buckets, live[..i])
    {
      assert live[..i + 1] == live[..i] + [live[i]];
      forall key ensures Those(Keyed(classify, key), live[..i + 1])
                         == Those(Keyed(classify, key), live[..i]) + if KeyOf(classify, live[i]) == key then [live[i]] else [] {
        ThoseSnoc(Keyed(classify, key), live[..i], live[i]);
      }
      var key := KeyOf(classify, live[i]);
      if key in buckets {
        buckets := buckets[key := buckets[key] + [live[i]]];
      } else {
        keys, buckets := keys + [key], buckets[key := [live[i]]];
      }
    }
    assert live[..|live|] == live;
  }

  /** What the plan holds once the records in `seen` have been decided: those that stay,
      and the others. */
  ghost predicate Decided(stays: CorpusRecord -> bool, seen: seq<CorpusRecord>, keep: seq<u64>, remove: seq<u64>, bytes: nat) {
    && keep == Ids(Those(stays, seen))
    && remove == Ids(Those(Not(stays), seen))
    && bytes == TotalLen(Those(Not(stays), seen))
  }

  lemma {:induction false} DecideOne(stays: CorpusRecord -> bool, seen: seq<CorpusRecord>, keep: seq<u64>, remove: seq<u64>, bytes: nat, r: CorpusRecord)
    requires Decided(stays, seen, keep, remove, bytes)
    ensures if stays(r) then Decided(stays, seen + [r], keep + [r.seed.id], remove, bytes)
            else Decided(stays, seen + [r], keep, remove + [r.seed.id], bytes + |r.seed.payload|)
  {
    ThoseSnoc(stays, seen, r);
    ThoseSnoc(Not(stays), seen, r);
    SumSnoc((o: CorpusRecord) => |o.seed.payload|, Those(Not(stays), seen), r);
  }

  /** The records with one key, once each, in size order. */
  ghost predicate SizedBucket(classify: Classifier, live: seq<CorpusRecord>, key: BehaviorKey, members: seq<CorpusRecord>) {
    && Distinct(members) && Ordered(SizeLeq, members)
    && (forall r :: r in members <==> r in live && KeyOf(classify, r) == key)
  }

  /** The members of one bucket, sorted by size: the first represents the key, no other
      does. */
  lemma {:induction false} OnlyFirstRepresents(classify: Classifier, store: seq<CorpusRecord>, live: seq<CorpusRecord>, key: BehaviorKey,
                            members: seq<CorpusRecord>, i: nat)
    requires Prepared(store, live) && SizedBucket(classify, live, key, members) && i < |members|
    ensures members[i] in live && (Representative(classify, store, members[i]) <==> i == 0)
  {
    var r := members[i];
    assert r in members && members[0] in members;
    if i == 0 {
      forall o | Live(store, o) && KeyOf(classify, o) == key ensures SizeLeq(r, o) {
        assert o in members;
        var j :| 0 <= j < |members| && members[j] == o;
      }
    } else {
      assert SizeLeq(members[0], r) && members[0] != r;
      var a :| 0 <= a < |live| && live[a] == members[0];
      var b :| 0 <= b < |live| && live[b] == r;
      assert !SizeLeq(r, members[0]);
    }
  }

  lemma {:induction false} BucketMembers(classify: Classifier, live: seq<CorpusRecord>, key: BehaviorKey)
    requires Distinct(live)
    ensures SizedBucket(classify, live, key, Sort(SizeLeq, Those(Keyed(classify, key), live)))
  {
    assert Total(SizeLeq);
    var bucket := Those(Keyed(classify, key), live);
    ThoseDistinct(Keyed(classify, key), live);
    DistinctAscending(SizeLeq, bucket);
    forall r ensures r in Sort(SizeLeq, bucket) <==> r in live && KeyOf(classify, r) == key {
      SortMembers(SizeLeq, bucket, r);
      ThoseMembers(Keyed(classify, key), live, r);
    }
  }

  /** The test the loop makes: first in size order, or uniquely tagged. */
  predicate Passes(counts: map<string, nat>, members: seq<CorpusRecord>, i: nat)
    requires i < |members|
  {
    i == 0 || HasUniqueProvenance(counts, members[i])
  }

  ghost predicate TestIs(stays: CorpusRecord -> bool, counts: map<string, nat>, members: seq<CorpusRecord>) {
    forall i: nat :: i < |members| ==> (Passes(counts, members, i) <==> stays(members[i]))
  }

  lemma {:induction false} TestIsRetention(classify: Classifier, store: seq<CorpusRecord>, live: seq<CorpusRecord>, counts: map<string, nat>,
                        key: BehaviorKey, members: seq<CorpusRecord>)
    requires Prepared(store, live) && Tallied(counts, live) && SizedBucket(classify, live, key, members)
    ensures TestIs(Staying(classify, store), counts, members)
  {
    forall i: nat | i < |members| ensures Passes(counts, members, i) <==> Staying(classify, store)(members[i]) {
      OnlyFirstRepresents(classify, store, live, key, members, i);
      UniqueProvenance(store, live, counts, members[i]);
    }
  }

  method DecideBucket(ghost stays: CorpusRecord -> bool, counts: map<string, nat>, members: seq<CorpusRecord>,
                      ghost seen: seq<CorpusRecord>, keep0: seq<u64>, remove0: seq<u64>, bytes0: nat)
    returns (keep: seq<u64>, remove: seq<u64>, bytes: nat)
    requires TestIs(stays, counts, members) && Decided(stays, seen, keep0, remove0, bytes0)
    ensures Decided(stays, seen + members, keep, remove, bytes)
  {
    keep, remove, bytes := keep0, remove0, bytes0;
    ghost var now := seen;
    for i := 0 to |members|
      invariant now == seen + members[..i] && Decided(stays, now, keep, remove, bytes)
    {
      DecideOne(stays, now, keep, remove, bytes, members[i]);
      now := now + [members[i]];
      if Passes(counts, members, i) {
        keep := keep + [members[i].seed.id];
      } else {
        remove := remove + [members[i].seed.id];
        bytes := bytes + |members[i].seed.payload|;
      }
    }
    assert now == seen + members;
  }

  /** Everything with one of the first keys has been seen, once. */
  ghost predicate Covered(classify: Classifier, live: seq<CorpusRecord>, keys: seq<BehaviorKey>, seen: seq<CorpusRecord>) {
    && Distinct(seen)
    && (forall r :: r in seen <==> r in live && KeyOf(classify, r) in keys)
  }

  lemma {:induction false} CoverMore(classify: Classifier, live: seq<CorpusRecord>, keys: seq<BehaviorKey>, seen: seq<CorpusRecord>,
                  key: BehaviorKey, members: seq<CorpusRecord>)
    requires Covered(classify, live, keys, seen) && key !in keys && SizedBucket(classify, live, key, members)
    ensures Covered(classify, live, keys + [key], seen + members)
  {
    var more := seen + members;
    forall i, j | 0 <= i < j < |more| ensures more[i] != more[j] {
      if i < |seen| <= j {
        assert more[i] in seen && more[j] in members;
      }
    }
  }

  ghost predicate GroupsSoFar(classify: Classifier, store: seq<CorpusRecord>, keys: seq<BehaviorKey>, groups: seq<BehaviorGroup>) {
    && KeysOf(groups) == keys
    && (forall i :: 0 <= i < |groups| ==> Grouped(classify, store, groups[i]))
  }

  /** The sorted ids of a bucket are the group of its key. */
  lemma {:induction false} BucketIsGroup(classify: Classifier, store: seq<CorpusRecord>, live: seq<CorpusRecord>, key: BehaviorKey,
                      members: seq<CorpusRecord>)
    requires Prepared(store, live) && SizedBucket(classify, live, key, members)
    ensures Grouped(classify, store, BehaviorGroup(key, Sort(IdOrder, Ids(members))))
  {
    SortedIds(store, live, members);
    var ids := Sort(IdOrder, Ids(members));
    forall id ensures id in ids <==> exists r :: Live(store, r) && KeyOf(classify, r) == key && r.seed.id == id {
      if id in ids {
        var r :| r in members && r.seed.id == id;
        assert Live(store, r) && KeyOf(classify, r) == key;
      }
      if r :| Live(store, r) && KeyOf(classify, r) == key && r.seed.id == id {
        assert r in members;
      }
    }
  }

  /** Sorted ids of distinct live records: ascending, and exactly their ids. */
  lemma {:induction false} SortedIds(store: seq<CorpusRecord>, live: seq<CorpusRecord>, rs: seq<CorpusRecord>)
    requires Prepared(store, live) && Distinct(rs) && forall r :: r in rs ==> r in live
    ensures Ascending(IdOrder, Sort(IdOrder, Ids(rs)))
    ensures forall id :: id in Sort(IdOrder, Ids(rs)) <==> exists r :: r in rs && r.seed.id == id
  {
    assert Total(IdOrder);
    forall i, j | 0 <= i < j < |rs| ensures Ids(rs)[i] != Ids(rs)[j] {
      assert rs[i] in live && rs[j] in live;
      var a :| 0 <= a < |live| && live[a] == rs[i];
      var b :| 0 <= b < |live| && live[b] == rs[j];
    }
    DistinctAscending(IdOrder, Ids(rs));
    forall id ensures id in Sort(IdOrder, Ids(rs)) <==> exists r :: r in rs && r.seed.id == id {
      SortMembers(IdOrder, Ids(rs), id);
      if id in Ids(rs) {
        var i :| 0 <= i < |rs| && Ids(rs)[i] == id;
        assert rs[i] in rs;
      }
      if r :| r in rs && r.seed.id == id {
        var i :| 0 <= i < |rs| && rs[i] == r;
        assert Ids(rs)[i] == id;
      }
    }
  }

  /** Every live record has been seen, once. */
  ghost predicate AllSeen(store: seq<CorpusRecord>, seen: seq<CorpusRecord>) {
    Distinct(seen) && forall r :: r in seen <==> Live(store, r)
  }

  lemma {:induction false} SideComplete(store: seq<CorpusRecord>, live: seq<CorpusRecord>, seen: seq<CorpusRecord>, side: CorpusRecord -> bool)
    requires Prepared(store, live) && AllSeen(store, seen)
    ensures ListsSide(store, side, Sort(IdOrder, Ids(Those(side, seen))))
  {
    var rs := Those(side, seen);
    ThoseDistinct(side, seen);
    forall r ensures r in rs <==> Live(store, r) && side(r) {
      ThoseMembers(side, seen, r);
    }
    SortedIds(store, live, rs);
  }

  /** The bytes counted while deciding are those of the records the plan removes. */
  lemma {:induction false} SideBytes(store: seq<CorpusRecord>, seen: seq<CorpusRecord>, side: CorpusRecord -> bool, ids: seq<u64>)
    requires LiveIdsDistinct(store) && AllSeen(store, seen) && ListsSide(store, side, ids)
    ensures TotalLen(Marked(ids, store)) == TotalLen(Those(side, seen))
    ensures |Marked(ids, store)| == |Those(side, seen)|
  {
    var marked, rs := Marked(ids, store), Those(side, seen);
    ThoseDistinct(side, seen);
    MarkedDistinct(ids, store);
    forall r ensures r in marked <==> r in rs {
      MarkedMembers(ids, store, r);
      ThoseMembers(side, seen, r);
      if Live(store, r) && r.seed.id in ids {
        var o :| Live(store, o) && side(o) && o.seed.id == r.seed.id;
        SameIdSameRecord(store, r, o);
      }
    }
    DistinctSameBag(marked, rs);
    SumAnyOrder((r: CorpusRecord) => |r.seed.payload|, marked, rs);
  }

  lemma {:induction false} MarkedMembers(ids: seq<u64>, store: seq<CorpusRecord>, r: CorpusRecord)
    ensures r in Marked(ids, store) <==> Live(store, r) && r.seed.id in ids
  {
    ThoseMembers((o: CorpusRecord) => !o.tombstoned && o.seed.id in ids, store, r);
  }

  lemma {:induction false} SameIdSameRecord(store: seq<CorpusRecord>, r: CorpusRecord, o: CorpusRecord)
    requires LiveIdsDistinct(store) && Live(store, r) && Live(store, o) && r.seed.id == o.seed.id
    ensures r == o
  {
    var i: nat :| i < |store| && store[i] == r;
    var j: nat :| j < |store| && store[j] == o;
    assert !Twins(store, i, j) && !Twins(store, j, i);
  }

  lemma {:induction false} MarkedDistinct(ids: seq<u64>, store: seq<CorpusRecord>)
    requires LiveIdsDistinct(store)
    ensures Distinct(Marked(ids, store))
  {
    if store != [] {
      var init, last := store[..|store| - 1], store[|store| - 1];
      forall i: nat, j: nat ensures !Twins(init, i, j) {
        assert !Twins(store, i, j);
      }
      MarkedDistinct(ids, init);
      MarkedMembers(ids, init, last);
      if last in Marked(ids, init) {
        var i: nat :| i < |init| && init[i] == last;
        assert Twins(store, i, |store| - 1);
      }
    }
  }

  /** The accumulated decisions, sorted, are the plan. */
  lemma {:induction false} PlanComplete(classify: Classifier, store: seq<CorpusRecord>, live: seq<CorpusRecord>, keys: seq<BehaviorKey>,
                     seen: seq<CorpusRecord>, keep: seq<u64>, remove: seq<u64>, bytes: nat, groups: seq<BehaviorGroup>)
    requires Prepared(store, live) && LiveIdsDistinct(store) && AllSeen(store, seen)
    requires Decided(Staying(classify, store), seen, keep, remove, bytes) && GroupsSoFar(classify, store, keys, groups)
    requires Ascending(KeyLeq, keys) && forall key :: key in keys <==> exists r :: Live(store, r) && KeyOf(classify, r) == key
    ensures Describes(classify, store, MinimizationPlan(groups, Sort(IdOrder, keep), Sort(IdOrder, remove), bytes))
  {
    SideComplete(store, live, seen, Staying(classify, store));
    SideComplete(store, live, seen, Not(Staying(classify, store)));
    SideBytes(store, seen, Not(Staying(classify, store)), Sort(IdOrder, remove));
  }

  /** `plan_minimization`. */
  method PlanMinimization(classify: Classifier, store: seq<CorpusRecord>) returns (r: Result<MinimizationPlan, MinimizeError>)
    ensures r.Ok? <==> LiveIdsDistinct(store)
    ensures r.Ok? ==> Describes(classify, store, r.value)
    ensures r.Err? ==> LeastTwin(store, r.error.id)
  {
    var live := Sort(IdLeq, LiveOf(store));
    var k := 0;
    while k + 1 < |live|
      invariant 0 <= k && (k == 0 || k < |live|)
      invariant forall i :: 0 <= i < k ==> live[i].seed.id < live[i + 1].seed.id
    {
      if live[k].seed.id == live[k + 1].seed.id {
        FirstNeighbours(store, live, k);
        return Err(DuplicateSeedId(live[k].seed.id));
      }
      SortedLive(store);
      assert IdLeq(live[k], live[k + 1]);
      k := k + 1;
    }
    NoNeighbours(store, live);
    var plan := PlanLive(classify, store, live);
    return Ok(plan);
  }

  /** Where planning stands after the buckets of the given keys. */
  ghost predicate Progress(classify: Classifier, store: seq<CorpusRecord>, live: seq<CorpusRecord>, keys: seq<BehaviorKey>,
                           seen: seq<CorpusRecord>, keep: seq<u64>, remove: seq<u64>, bytes: nat, groups: seq<BehaviorGroup>) {
    && Decided(Staying(classify, store), seen, keep, remove, bytes)
    && Covered(classify, live, keys, seen)
    && GroupsSoFar(classify, store, keys, groups)
  }

  lemma {:induction false} ProgressMore(classify: Classifier, store: seq<CorpusRecord>, live: seq<CorpusRecord>, keys: seq<BehaviorKey>,
                     seen: seq<CorpusRecord>, keep: seq<u64>, remove: seq<u64>, bytes: nat, groups: seq<BehaviorGroup>,
                     key: BehaviorKey, members: seq<CorpusRecord>, keep': seq<u64>, remove': seq<u64>, bytes': nat)
    requires Prepared(store, live) && Progress(classify, store, live, keys, seen, keep, remove, bytes, groups)
    requires key !in keys && SizedBucket(classify, live, key, members)
    requires Decided(Staying(classify, store), seen + members, keep', remove', bytes')
    ensures Progress(classify, store, live, keys + [key], seen + members, keep', remove', bytes',
                     groups + [BehaviorGroup(key, Sort(IdOrder, Ids(members)))])
  {
    BucketIsGroup(classify, store, live, key, members);
    CoverMore(classify, live, keys, seen, key, members);
    GroupMore(classify, store, keys, groups, BehaviorGroup(key, Sort(IdOrder, Ids(members))));
  }

  lemma {:induction false} BucketReady(classify: Classifier, store: seq<CorpusRecord>, live: seq<CorpusRecord>, counts: map<string, nat>,
                    key: BehaviorKey, bucket: seq<CorpusRecord>)
    requires Prepared(store, live) && Tallied(counts, live) && bucket == Those(Keyed(classify, key), live)
    ensures SizedBucket(classify, live, key, Sort(SizeLeq, bucket))
    ensures TestIs(Staying(classify, store), counts, Sort(SizeLeq, bucket))
  {
    BucketMembers(classify, live, key);
    TestIsRetention(classify, store, live, counts, key, Sort(SizeLeq, bucket));
  }

  method PlanLive(classify: Classifier, ghost store: seq<CorpusRecord>, live: seq<CorpusRecord>) returns (plan: MinimizationPlan)
    requires Prepared(store, live) && LiveIdsDistinct(store)
    ensures Describes(classify, store, plan)
  {
    var counts := CountTags(live);
    var unordered, buckets := FillBuckets(classify, live);
    KeysComplete(classify, store, live, unordered, buckets);
    plan := PlanBuckets(classify, store, live, counts, Sort(KeyLeq, unordered), buckets);
  }

  ghost predicate KeysReady(classify: Classifier, store: seq<CorpusRecord>, live: seq<CorpusRecord>, keys: seq<BehaviorKey>,
                            buckets: map<BehaviorKey, seq<CorpusRecord>>) {
    && Ascending(KeyLeq, keys)
    && (forall key :: key in keys ==> key in buckets && buckets[key] == Those(Keyed(classify, key), live))
    && (forall key :: key in keys <==> exists r :: Live(store, r) && KeyOf(classify, r) == key)
  }

  method PlanBuckets(classify: Classifier, ghost store: seq<CorpusRecord>, ghost live: seq<CorpusRecord>,
                     counts: map<string, nat>, keys: seq<BehaviorKey>, buckets: map<BehaviorKey, seq<CorpusRecord>>)
    returns (plan: MinimizationPlan)
    requires Prepared(store, live) && LiveIdsDistinct(store) && Tallied(counts, live)
    requires KeysReady(classify, store, live, keys, buckets)
    ensures Describes(classify, store, plan)
  {
    var keep: seq<u64>, remove: seq<u64>, bytes, groups := [], [], 0, [];
    ghost var seen: seq<CorpusRecord> := [];
    for i := 0 to |keys|
      invariant Progress(classify, store, live, keys[..i], seen, keep, remove, bytes, groups)
    {
      var key := keys[i];
      assert key in keys && key !in keys[..i] && keys[..i + 1] == keys[..i] + [key];
      BucketReady(classify, store, live, counts, key, buckets[key]);
      var members := Sort(SizeLeq, buckets[key]);
      var keep', remove', bytes' := DecideBucket(Staying(classify, store), counts, members, seen, keep, remove, bytes);
      ProgressMore(classify, store, live, keys[..i], seen, keep, remove, bytes, groups, key, members, keep', remove', bytes');
      keep, remove, bytes, groups := keep', remove', bytes', groups + [BehaviorGroup(key, Sort(IdOrder, Ids(members)))];
      seen := seen + members;
    }
    assert keys[..|keys|] == keys;
    AllCovered(classify, store, live, keys, seen);
    plan := MinimizationPlan(groups, Sort(IdOrder, keep), Sort(IdOrder, remove), bytes);
    PlanComplete(classify, store, live, keys, seen, keep, remove, bytes, groups);
  }

  lemma {:induction false} GroupMore(classify: Classifier, store: seq<CorpusRecord>, keys: seq<BehaviorKey>, groups: seq<BehaviorGroup>, g: BehaviorGroup)
    requires GroupsSoFar(classify, store, keys, groups) && Grouped(classify, store, g)
    ensures GroupsSoFar(classify, store, keys + [g.key], groups + [g])
  {
    assert KeysOf(groups + [g]) == KeysOf(groups) + [g.key];
  }

  lemma {:induction false} KeyOrder()
    ensures Total(KeyLeq)
  {
    StringOrder();
  }

  /** Sorted, the bucket keys are those of the live records. */
  lemma {:induction false} KeysComplete(classify: Classifier, store: seq<CorpusRecord>, live: seq<CorpusRecord>, unordered: seq<BehaviorKey>,
                     buckets: map<BehaviorKey, seq<CorpusRecord>>)
    requires Prepared(store, live) && Bucketed(classify, unordered, buckets, live)
    ensures KeysReady(classify, store, live, Sort(KeyLeq, unordered), buckets)
  {
    KeyOrder();
    DistinctAscending(KeyLeq, unordered);
    forall key
      ensures key in Sort(KeyLeq, unordered) <==> key in buckets
      ensures key in buckets <==> exists r :: Live(store, r) && KeyOf(classify, r) == key
    {
      SortMembers(KeyLeq, unordered, key);
      var bucket := Those(Keyed(classify, key), live);
      if key in buckets {
        ThoseMembers(Keyed(classify, key), live, bucket[0]);
        assert Live(store, bucket[0]) && KeyOf(classify, bucket[0]) == key;
      }
      if r :| Live(store, r) && KeyOf(classify, r) == key {
        ThoseMembers(Keyed(classify, key), live, r);
      }
    }
  }

  lemma {:induction false} AllCovered(classify: Classifier, store: seq<CorpusRecord>, live: seq<CorpusRecord>, keys: seq<BehaviorKey>, seen: seq<CorpusRecord>)
    requires Prepared(store, live) && Covered(classify, live, keys, seen)
    requires forall key :: key in keys <==> exists r :: Live(store, r) && KeyOf(classify, r) == key
    ensures AllSeen(store, seen)
  {}
}
