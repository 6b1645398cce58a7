/** Classifying observed signatures against a baseline (baseline.rs): new, recurring and
    fixed, independent of order and repetition. */
module Baselines {
  import opened Prelude
  import opened Sorting

  datatype EntryStatus = Open | Fixed

  datatype BaselineEntry = BaselineEntry(hash: string, category: string, firstSeen: string, status: EntryStatus)

  datatype Observed = Observed(hash: string, category: string)

  const SCHEMA_VERSION: u32 := 1

  datatype Baseline = Baseline(version: u32, entries: seq<BaselineEntry>)

  datatype Classification = Classification(unknown: seq<Observed>, recurring: seq<Observed>, fixed: seq<BaselineEntry>)

  /** By hash, then category. */
  function ObservedLeq(a: Observed, b: Observed): bool {
    if a.hash != b.hash then StringLeq(a.hash, b.hash) else StringLeq(a.category, b.category)
  }

  function EntryLeq(a: BaselineEntry, b: BaselineEntry): bool { StringLeq(a.hash, b.hash) }

  // ----- what a classification must say -----

  ghost predicate Seen(observed: seq<Observed>, hash: string) { exists o :: o in observed && o.hash == hash }

  ghost predicate OpenHash(entries: seq<BaselineEntry>, hash: string) { exists e :: e in entries && e.status == Open && e.hash == hash }

  /** The observation that stands for its hash: the one with the smallest category. */
  ghost predicate Stands(observed: seq<Observed>, o: Observed) {
    o in observed && forall p :: p in observed && p.hash == o.hash ==> StringLeq(o.category, p.category)
  }

  /** Each hash once, ascending. */
  ghost predicate ByHash(os: seq<Observed>) {
    forall i, j :: 0 <= i < j < |os| ==> StringLeq(os[i].hash, os[j].hash) && os[i].hash != os[j].hash
  }

  function GoneIn(hashes: set<string>): BaselineEntry -> bool { (e: BaselineEntry) => e.status == Open && e.hash !in hashes }

  function HashesOf(observed: seq<Observed>): set<string> { set o | o in observed :: o.hash }

  /** The open entries that were not observed, by hash. */
  function FixedOf(entries: seq<BaselineEntry>, observed: seq<Observed>): seq<BaselineEntry> {
    Sort(EntryLeq, Those(GoneIn(HashesOf(observed)), entries))
  }

  ghost predicate Describes(entries: seq<BaselineEntry>, observed: seq<Observed>, c: Classification) {
    && ByHash(c.unknown) && ByHash(c.recurring)
    && (forall o :: o in c.unknown <==> Stands(observed, o) && !OpenHash(entries, o.hash))
    && (forall o :: o in c.recurring <==> Stands(observed, o) && OpenHash(entries, o.hash))
    && c.fixed == FixedOf(entries, observed)
  }

  // ----- deduplicating sorted observations -----

  /** `dedup_by`: of neighbours with one hash the first stays. */
  function FirstOfEach(os: seq<Observed>): seq<Observed> {
    if os == [] then []
    else
      var before, o := FirstOfEach(os[..|os| - 1]), os[|os| - 1];
      if before != [] && before[|before| - 1].hash == o.hash then before else before + [o]
  }

  lemma {:induction false} ObservedOrder()
    ensures Total(ObservedLeq) && Antisymmetric(ObservedLeq)
  {
    StringOrder();
  }

  lemma {:induction false} EntryOrder()
    ensures Total(EntryLeq)
  {
    StringOrder();
  }

  /** Among sorted observations the first with a hash has the smallest category. */
  ghost predicate FirstsStand(os: seq<Observed>, firsts: seq<Observed>) {
    && ByHash(firsts)
    && (forall o :: o in firsts <==> Stands(os, o))
    && (os != [] ==> firsts != [] && firsts[|firsts| - 1].hash == os[|os| - 1].hash)
  }

  lemma {:induction false} StandsSnoc(os: seq<Observed>, o: Observed, x: Observed)
    requires Ordered(ObservedLeq, os + [o])
    ensures Stands(os + [o], x) <==> Stands(os, x) || (x == o && !Seen(os, o.hash))
  {
    StringOrder();
    var more := os + [o];
    assert more[|os|] == o;
    forall p | p in os ensures p in more && ObservedLeq(p, o) {
      var i :| 0 <= i < |os| && os[i] == p;
      assert more[i] == p;
    }
    if Seen(os, o.hash) && Stands(more, o) {
      var p :| p in os && p.hash == o.hash;
      assert StringLeq(o.category, p.category) && StringLeq(p.category, o.category);
      SmallestIsIn(os, o);
    }
  }

  /** o is as small as something already there with its hash, so it is that. */
  lemma {:induction false} SmallestIsIn(os: seq<Observed>, o: Observed)
    requires Stands(os + [o], o) && Ordered(ObservedLeq, os + [o]) && Seen(os, o.hash)
    ensures Stands(os, o)
  {
    StringOrder();
    var more := os + [o];
    assert more[|os|] == o;
    forall p | p in os && p.hash == o.hash ensures p == o {
      var i :| 0 <= i < |os| && os[i] == p;
      assert more[i] == p && ObservedLeq(more[i], more[|os|]);
      assert p in more;
    }
  }

  lemma {:induction false} FirstOfEachStand(os: seq<Observed>)
    requires Ordered(ObservedLeq, os)
    ensures FirstsStand(os, FirstOfEach(os))
  {
    if os != [] {
      var init, o := os[..|os| - 1], os[|os| - 1];
      assert os == init + [o];
      FirstOfEachStand(init);
      FirstsMore(init, o, FirstOfEach(init));
    }
  }

  lemma {:induction false} FirstsMore(os: seq<Observed>, o: Observed, firsts: seq<Observed>)
    requires Ordered(ObservedLeq, os + [o]) && FirstsStand(os, firsts)
    ensures FirstsStand(os + [o], if firsts != [] && firsts[|firsts| - 1].hash == o.hash then firsts else firsts + [o])
  {
    StringOrder();
    var more := os + [o];
    var merged := firsts != [] && firsts[|firsts| - 1].hash == o.hash;
    LastHash(os, o, firsts);
    forall x ensures Stands(more, x) <==> Stands(os, x) || (x == o && !Seen(os, o.hash)) {
      StandsSnoc(os, o, x);
    }
    if !merged {
      forall i | 0 <= i < |firsts| ensures StringLeq(firsts[i].hash, o.hash) && firsts[i].hash != o.hash {
        assert firsts[i] in firsts && Stands(os, firsts[i]);
        var k :| 0 <= k < |os| && os[k] == firsts[i];
        assert more[k] == os[k] && more[|os|] == o && ObservedLeq(more[k], more[|os|]);
      }
    }
  }

  /** In sorted order only the last hash can be met again. */
  lemma {:induction false} LastHash(os: seq<Observed>, o: Observed, firsts: seq<Observed>)
    requires Ordered(ObservedLeq, os + [o]) && FirstsStand(os, firsts)
    ensures Seen(os, o.hash) <==> firsts != [] && firsts[|firsts| - 1].hash == o.hash
  {
    StringOrder();
    var more := os + [o];
    assert firsts != [] ==> firsts[|firsts| - 1] in firsts;
    if Seen(os, o.hash) {
      var p :| p in os && p.hash == o.hash;
      var i :| 0 <= i < |os| && os[i] == p;
      assert more[i] == p && more[|os| - 1] == os[|os| - 1] && more[|os|] == o;
      assert i == |os| - 1 || ObservedLeq(more[i], more[|os| - 1]);
      assert ObservedLeq(more[|os| - 1], more[|os|]);
    }
  }

  // ----- the operations -----

  /** The observations that stand for the observed hashes, in hash order. */
  lemma {:induction false} SortedFirsts(observed: seq<Observed>)
    ensures ByHash(FirstOfEach(Sort(ObservedLeq, observed)))
    ensures forall o :: o in FirstOfEach(Sort(ObservedLeq, observed)) <==> Stands(observed, o)
  {
    ObservedOrder();
    SortOrdered(ObservedLeq, observed);
    var sorted := Sort(ObservedLeq, observed);
    FirstOfEachStand(sorted);
    forall o ensures o in sorted <==> o in observed {
      SortMembers(ObservedLeq, observed, o);
    }
    forall o ensures Stands(sorted, o) <==> Stands(observed, o) {}
  }

  /** `classify`. */
  method Classify(baseline: Baseline, observed: seq<Observed>) returns (c: Classification)
    ensures Describes(baseline.entries, observed, c)
  {
    var firsts := FirstOfEach(Sort(ObservedLeq, observed));
    SortedFirsts(observed);
    var open := set e | e in baseline.entries && e.status == Open :: e.hash;
    var observedHashes := HashesOf(firsts);
    FirstsSeeAll(observed, firsts);
    var fixed := Sort(EntryLeq, Those(GoneIn(observedHashes), baseline.entries));
    var unknown, recurring := SplitByOpen(baseline.entries, open, firsts);
    c := Classification(unknown, recurring, fixed);
  }

  lemma {:induction false} SomeoneStands(observed: seq<Observed>, hash: string) returns (o: Observed)
    requires Seen(observed, hash)
    ensures Stands(observed, o) && o.hash == hash
  {
    StringOrder();
    var init, last := observed[..|observed| - 1], observed[|observed| - 1];
    assert observed == init + [last];
    if Seen(init, hash) {
      o := SomeoneStands(init, hash);
      if last.hash == hash && StringLeq(last.category, o.category) {
        o := last;
      }
    } else {
      o := last;
    }
  }

  lemma {:induction false} FirstsSeeAll(observed: seq<Observed>, firsts: seq<Observed>)
    requires forall o :: o in firsts <==> Stands(observed, o)
    ensures HashesOf(firsts) == HashesOf(observed)
  {
    forall hash | hash in HashesOf(observed) ensures hash in HashesOf(firsts) {
      var o := SomeoneStands(observed, hash);
      assert o in firsts;
    }
  }

  /** The loop that sends each observation to one of two lists. */
  method SplitByOpen(ghost entries: seq<BaselineEntry>, open: set<string>, firsts: seq<Observed>)
    returns (unknown: seq<Observed>, recurring: seq<Observed>)
    requires ByHash(firsts) && open == set e | e in entries && e.status == Open :: e.hash
    ensures ByHash(unknown) && ByHash(recurring)
    ensures forall o :: o in unknown <==> o in firsts && !OpenHash(entries, o.hash)
    ensures forall o :: o in recurring <==> o in firsts && OpenHash(entries, o.hash)
  {
    unknown, recurring := [], [];
    for i := 0 to |firsts|
      invariant unknown == Those(NotIn(open), firsts[..i]) && recurring == Those(In(open), firsts[..i])
    {
      assert firsts[..i + 1][..i] == firsts[..i];
      if firsts[i].hash in open {
        recurring := recurring + [firsts[i]];
      } else {
        unknown := unknown + [firsts[i]];
      }
    }
    assert firsts[..|firsts|] == firsts;
    forall o
      ensures o in unknown <==> o in firsts && !OpenHash(entries, o.hash)
      ensures o in recurring <==> o in firsts && OpenHash(entries, o.hash)
    {
      ThoseMembers(NotIn(open), firsts, o);
      ThoseMembers(In(open), firsts, o);
      assert o.hash in open <==> OpenHash(entries, o.hash);
    }
    SplitInOrder(NotIn(open), firsts);
    SplitInOrder(In(open), firsts);
  }

  function In(open: set<string>): Observed -> bool { (o: Observed) => o.hash in open }

  function NotIn(open: set<string>): Observed -> bool { (o: Observed) => o.hash !in open }

  lemma {:induction false} SplitInOrder(p: Observed -> bool, os: seq<Observed>)
    requires ByHash(os)
    ensures ByHash(Those(p, os))
  {
    if os != [] {
      var init, last := os[..|os| - 1], os[|os| - 1];
      SplitInOrder(p, init);
      forall o | o in Those(p, init) ensures StringLeq(o.hash, last.hash) && o.hash != last.hash {
        ThoseMembers(p, init, o);
        var i :| 0 <= i < |init| && init[i] == o;
        assert os[i] == o;
      }
    }
  }

  function EntryFor(o: Observed, firstSeen: string): BaselineEntry { BaselineEntry(o.hash, o.category, firstSeen, Open) }

  /** `Baseline::from_observed`: the map keeps the first observation of each hash, and its
      values come out in hash order. */
  method FromObserved(observed: seq<Observed>, firstSeen: string) returns (b: Baseline)
    ensures b == BaselineOf(observed, firstSeen)
  {
    var sorted := Sort(ObservedLeq, observed);
    var entries: seq<BaselineEntry> := [];
    for i := 0 to |sorted|
      invariant entries == EntriesFor(FirstOfEach(sorted[..i]), firstSeen)
    {
      assert sorted[..i + 1][..i] == sorted[..i];
      if entries == [] || entries[|entries| - 1].hash != sorted[i].hash {
        entries := entries + [EntryFor(sorted[i], firstSeen)];
      }
    }
    assert sorted[..|sorted|] == sorted;
    b := Baseline(SCHEMA_VERSION, entries);
  }

  function EntriesFor(os: seq<Observed>, firstSeen: string): seq<BaselineEntry> {
    seq(|os|, i requires 0 <= i < |os| => EntryFor(os[i], firstSeen))
  }

  function BaselineOf(observed: seq<Observed>, firstSeen: string): Baseline {
    Baseline(SCHEMA_VERSION, EntriesFor(FirstOfEach(Sort(ObservedLeq, observed)), firstSeen))
  }

  // ----- order and repetition -----

  /** Open entries with one hash that was not observed are the same entry. */
  ghost predicate NoRivals(entries: seq<BaselineEntry>, observed: seq<Observed>) {
    forall x, y :: x in entries && y in entries && GoneIn(HashesOf(observed))(x) && GoneIn(HashesOf(observed))(y) && x.hash == y.hash ==> x == y
  }

  lemma {:induction false} ByHashUnique(a: seq<Observed>, b: seq<Observed>)
    requires ByHash(a) && ByHash(b) && forall o :: o in a <==> o in b
    ensures a == b
  {
    ObservedOrder();
    AscendingUnique(ObservedLeq, a, b);
  }

  lemma {:induction false} FixedAnyOrder(entries: seq<BaselineEntry>, others: seq<BaselineEntry>, observed: seq<Observed>)
    requires multiset(entries) == multiset(others) && NoRivals(entries, observed)
    ensures FixedOf(entries, observed) == FixedOf(others, observed)
  {
    EntryOrder();
    var gone := GoneIn(HashesOf(observed));
    var a, b := Those(gone, entries), Those(gone, others);
    ThoseAnyOrder(gone, entries, others);
    SortOrdered(EntryLeq, a);
    SortOrdered(EntryLeq, b);
    forall x, y | x in a && y in a && EntryLeq(x, y) && EntryLeq(y, x) ensures x == y {
      StringOrder();
      ThoseMembers(gone, entries, x);
      ThoseMembers(gone, entries, y);
    }
    forall x ensures x in Sort(EntryLeq, a) <==> x in a {
      SortMembers(EntryLeq, a, x);
    }
    ArrangementUnique(EntryLeq, Sort(EntryLeq, a), Sort(EntryLeq, b));
  }

  /** Classifications do not depend on the order of the baseline entries when unobserved
      open entries have no rivals, nor on the order and repetition of the observations. */
  lemma {:induction false} OrderIrrelevant(entries: seq<BaselineEntry>, others: seq<BaselineEntry>, observed: seq<Observed>, again: seq<Observed>,
                        c: Classification, d: Classification)
    requires Describes(entries, observed, c) && Describes(others, again, d)
    requires multiset(entries) == multiset(others) && NoRivals(entries, observed)
    requires forall o :: o in observed <==> o in again
    ensures c == d
  {
    forall e ensures e in entries <==> e in others {
      SameMembers(entries, others, e);
    }
    forall hash ensures OpenHash(entries, hash) <==> OpenHash(others, hash) {}
    forall o ensures Stands(observed, o) <==> Stands(again, o) {}
    ByHashUnique(c.unknown, d.unknown);
    ByHashUnique(c.recurring, d.recurring);
    assert HashesOf(observed) == HashesOf(again);
    FixedAnyOrder(entries, others, observed);
  }

  function WithHash(hash: string): BaselineEntry -> bool { (e: BaselineEntry) => e.hash == hash }

  /** Of two rivals the one that comes first in the baseline comes first in the list. */
  lemma {:induction false} FirstRivalFirst(x: BaselineEntry, y: BaselineEntry, rest: seq<BaselineEntry>, observed: seq<Observed>)
    requires GoneIn(HashesOf(observed))(x) && x.hash == y.hash
    ensures var listed := Those(WithHash(x.hash), FixedOf([x, y] + rest, observed)); listed != [] && listed[0] == x
  {
    StringOrder();
    var gone := GoneIn(HashesOf(observed));
    assert [x, y] + rest == [x] + ([y] + rest);
    ThoseFirst(gone, x, [y] + rest);
    ThoseFirst(WithHash(x.hash), x, Those(gone, [y] + rest));
    SortStable(EntryLeq, WithHash(x.hash), Those(gone, [x, y] + rest));
  }

  /** The list of fixed entries is the same for every order of the baseline exactly when no
      unobserved hash has rivals. */
  lemma {:induction false} FixedForgetsOrderIff(entries: seq<BaselineEntry>, observed: seq<Observed>)
    ensures (forall others :: multiset(others) == multiset(entries) ==> FixedOf(others, observed) == FixedOf(entries, observed))
            <==> NoRivals(entries, observed)
  {
    var gone := GoneIn(HashesOf(observed));
    if NoRivals(entries, observed) {
      forall others | multiset(others) == multiset(entries)
        ensures FixedOf(others, observed) == FixedOf(entries, observed)
      {
        FixedAnyOrder(entries, others, observed);
      }
    } else {
      var x, y :| x in entries && y in entries && gone(x) && gone(y) && x.hash == y.hash && x != y;
      var rest := BothInFront(entries, x, y);
      FirstRivalFirst(x, y, rest, observed);
      FirstRivalFirst(y, x, rest, observed);
      assert FixedOf([x, y] + rest, observed) != FixedOf([y, x] + rest, observed);
    }
  }

  // ----- what the three lists divide -----

  ghost predicate Listed(os: seq<Observed>, hash: string) { exists o :: o in os && o.hash == hash }

  ghost predicate ListedEntry(es: seq<BaselineEntry>, hash: string) { exists e :: e in es && e.hash == hash }

  lemma {:induction false} FixedMeans(entries: seq<BaselineEntry>, observed: seq<Observed>, c: Classification, hash: string)
    requires Describes(entries, observed, c)
    ensures ListedEntry(c.fixed, hash) <==> OpenHash(entries, hash) && !Seen(observed, hash)
  {
    EntryOrder();
    var gone := GoneIn(HashesOf(observed));
    forall e ensures e in c.fixed <==> e in entries && gone(e) {
      SortMembers(EntryLeq, Those(gone, entries), e);
      ThoseMembers(gone, entries, e);
    }
    assert hash in HashesOf(observed) <==> Seen(observed, hash);
    if OpenHash(entries, hash) && !Seen(observed, hash) {
      var e :| e in entries && e.status == Open && e.hash == hash;
      assert gone(e);
    }
  }

  /** Observed hashes are new or recurring, open ones recurring or fixed, never both. */
  lemma {:induction false} ListsDivideHashes(entries: seq<BaselineEntry>, observed: seq<Observed>, c: Classification, hash: string)
    requires Describes(entries, observed, c)
    ensures Listed(c.unknown, hash) <==> Seen(observed, hash) && !OpenHash(entries, hash)
    ensures Listed(c.recurring, hash) <==> Seen(observed, hash) && OpenHash(entries, hash)
    ensures ListedEntry(c.fixed, hash) <==> OpenHash(entries, hash) && !Seen(observed, hash)
  {
    FixedMeans(entries, observed, c, hash);
    if Seen(observed, hash) {
      var o := SomeoneStands(observed, hash);
      assert o in c.unknown || o in c.recurring;
    }
  }

  /** Against a baseline made from the same observations nothing is new and nothing fixed. */
  lemma {:induction false} OwnBaselineIsQuiet(observed: seq<Observed>, firstSeen: string, c: Classification)
    requires Describes(BaselineOf(observed, firstSeen).entries, observed, c)
    ensures c.unknown == [] && c.fixed == []
  {
    var entries := BaselineOf(observed, firstSeen).entries;
    var firsts := FirstOfEach(Sort(ObservedLeq, observed));
    SortedFirsts(observed);
    assert c.unknown != [] ==> c.unknown[0] in c.unknown;
    if c.fixed != [] {
      assert c.fixed[0] in c.fixed;
      FixedMeans(entries, observed, c, c.fixed[0].hash);
    }
    forall o | Stands(observed, o) ensures OpenHash(entries, o.hash) {
      var i :| 0 <= i < |firsts| && firsts[i] == o;
      assert entries[i] == EntryFor(o, firstSeen);
    }
    forall hash | OpenHash(entries, hash) ensures Seen(observed, hash) {
      var f :| f in entries && f.status == Open && f.hash == hash;
      var i :| 0 <= i < |entries| && entries[i] == f;
      assert firsts[i] in firsts && Stands(observed, firsts[i]);
    }
  }

  /** The baseline made from observations forgets their order and repetition. */
  lemma {:induction false} BaselineForgetsOrder(observed: seq<Observed>, again: seq<Observed>, firstSeen: string)
    requires forall o :: o in observed <==> o in again
    ensures BaselineOf(observed, firstSeen) == BaselineOf(again, firstSeen)
  {
    SortedFirsts(observed);
    SortedFirsts(again);
    forall o ensures Stands(observed, o) <==> Stands(again, o) {}
    ByHashUnique(FirstOfEach(Sort(ObservedLeq, observed)), FirstOfEach(Sort(ObservedLeq, again)));
  }

  // ----- the lists in terms of text -----

  /** The three lists go up by hash, the first two strictly. */
  lemma {:induction false} ListsByText(entries: seq<BaselineEntry>, observed: seq<Observed>, c: Classification, i: nat, j: nat)
    requires Describes(entries, observed, c) && i < j
    ensures j < |c.unknown| ==> TextBefore(c.unknown[i].hash, c.unknown[j].hash)
    ensures j < |c.recurring| ==> TextBefore(c.recurring[i].hash, c.recurring[j].hash)
    ensures j < |c.fixed| ==> c.fixed[i].hash == c.fixed[j].hash || TextBefore(c.fixed[i].hash, c.fixed[j].hash)
  {
    if j < |c.unknown| {
      StringLeqMeans(c.unknown[i].hash, c.unknown[j].hash);
    }
    if j < |c.recurring| {
      StringLeqMeans(c.recurring[i].hash, c.recurring[j].hash);
    }
    if j < |c.fixed| {
      EntryOrder();
      SortOrdered(EntryLeq, Those(GoneIn(HashesOf(observed)), entries));
      assert EntryLeq(c.fixed[i], c.fixed[j]);
      StringLeqMeans(c.fixed[i].hash, c.fixed[j].hash);
    }
  }

  /** Of the observations with one hash, the one listed has the category that comes first. */
  lemma {:induction false} ListedByText(entries: seq<BaselineEntry>, observed: seq<Observed>, c: Classification, o: Observed, p: Observed)
    requires Describes(entries, observed, c) && (o in c.unknown || o in c.recurring)
    requires p in observed && p.hash == o.hash
    ensures o in observed && (o.category == p.category || TextBefore(o.category, p.category))
    ensures o in c.unknown <==> forall e :: e in entries && e.status == Open ==> e.hash != o.hash
  {
    StringLeqMeans(o.category, p.category);
  }

  /** The fixed entries are the open ones whose hash no observation has. */
  lemma {:induction false} FixedByFields(entries: seq<BaselineEntry>, observed: seq<Observed>, e: BaselineEntry)
    ensures e in FixedOf(entries, observed) <==> e in entries && e.status == Open && forall o :: o in observed ==> o.hash != e.hash
  {
    var gone := GoneIn(HashesOf(observed));
    EntryOrder();
    SortMembers(EntryLeq, Those(gone, entries), e);
    ThoseMembers(gone, entries, e);
  }

  /** A baseline has format 1 and, going up by hash, one open entry for every observed hash
      with the category that comes first. */
  lemma {:induction false} BaselineByFields(observed: seq<Observed>, firstSeen: string)
    ensures var b := BaselineOf(observed, firstSeen);
            && b.version == 1
            && (forall i, j :: 0 <= i < j < |b.entries| ==> TextBefore(b.entries[i].hash, b.entries[j].hash))
            && (forall e :: e in b.entries ==> e.status == Open && e.firstSeen == firstSeen && Stands(observed, Observed(e.hash, e.category)))
            && (forall o :: o in observed ==> exists e :: e in b.entries && e.hash == o.hash)
  {
    var b, firsts := BaselineOf(observed, firstSeen), FirstOfEach(Sort(ObservedLeq, observed));
    SortedFirsts(observed);
    forall i, j | 0 <= i < j < |b.entries| ensures TextBefore(b.entries[i].hash, b.entries[j].hash) {
      StringLeqMeans(firsts[i].hash, firsts[j].hash);
    }
    forall e | e in b.entries ensures e.status == Open && e.firstSeen == firstSeen && Stands(observed, Observed(e.hash, e.category)) {
      var i :| 0 <= i < |b.entries| && b.entries[i] == e;
      assert firsts[i] in firsts && firsts[i] == Observed(e.hash, e.category);
    }
    forall o | o in observed ensures exists e :: e in b.entries && e.hash == o.hash {
      var p := SomeoneStands(observed, o.hash);
      var i :| 0 <= i < |firsts| && firsts[i] == p;
      assert b.entries[i].hash == o.hash && b.entries[i] in b.entries;
    }
  }
}
