/** The local corpus of corpus_archive.rs: seeds without repetition, provenance tags by
    content hash, and archive merging, which behaves as a join. */
module CorpusStores {
  import opened Prelude
  import opened ArchiveCodec
  import opened Archive
  import opened Sorting

  datatype Corpus = Corpus(seeds: seq<CaseSeed>, provenance: map<string, seq<string>>)

  const EMPTY: Corpus := Corpus([], map[])

  function TagsFor(c: Corpus, hash: string): seq<string> { if hash in c.provenance then c.provenance[hash] else [] }

  function SortedSeeds(c: Corpus): seq<CaseSeed> { Sort(SeedLeq, c.seeds) }

  /** Seeds are named by their content hash; nothing below depends on how. */
  type Naming = CaseSeed -> string

  function HashNames(h: Hasher): Naming { (s: CaseSeed) => ContentHash(h, s) }

  // ----- inserting one seed -----

  /** The tags not yet present, appended in order. */
  function AddTags(present: seq<string>, tags: seq<string>): seq<string> {
    if tags == [] then present
    else
      var before, tag := AddTags(present, tags[..|tags| - 1]), tags[|tags| - 1];
      if tag in before then before else before + [tag]
  }

  datatype Inserted = Inserted(corpus: Corpus, added: bool, provenanceChanged: bool)

  function InsertStep(name: Naming, c: Corpus, seed: CaseSeed, tags: seq<string>): Inserted {
    var hash := name(seed);
    var grown := AddTags(TagsFor(c, hash), tags);
    var provenance := c.provenance[hash := SortDedup(StringLeq, grown)];
    Inserted(Corpus(if seed in c.seeds then c.seeds else c.seeds + [seed], provenance),
             seed !in c.seeds, grown != TagsFor(c, hash))
  }

  // ----- merging an archive -----

  datatype EngineVersionPolicy = RequireExact | AllowCompatible | Ignore

  datatype Counts = Counts(added: nat, duplicates: nat, provenanceUnions: nat)

  datatype MergeReport = MergeReport(archiveId: string, engineVersion: string, engineCompatible: bool,
                                     counts: Counts, versionSkipped: nat, dryRun: bool)

  datatype Merged = Merged(corpus: Corpus, counts: Counts)

  function One(b: bool): nat { if b then 1 else 0 }

  function Tally(k: Counts, added: bool, provenanceChanged: bool): Counts {
    Counts(k.added + One(added), k.duplicates + One(!added), k.provenanceUnions + One(provenanceChanged))
  }

  /** How seeds are named and inserted. Everything about merging follows from `Lawful`. */
  datatype Rules = Rules(name: Naming, insert: (Corpus, CaseSeed, seq<string>) -> Inserted)

  function RulesOf(h: Hasher): Rules {
    Rules(HashNames(h), (c: Corpus, seed: CaseSeed, tags: seq<string>) => InsertStep(HashNames(h), c, seed, tags))
  }

  /** The first n packed seeds merged, and what happened to each. */
  function MergeFirst(rules: Rules, c: Corpus, a: CorpusArchive, n: nat): Merged
    requires n <= |a.seeds| == |a.manifest.entries|
  {
    if n == 0 then Merged(c, Counts(0, 0, 0))
    else
      var before := MergeFirst(rules, c, a, n - 1);
      var step := rules.insert(before.corpus, a.seeds[n - 1], a.manifest.entries[n - 1].tags);
      Merged(step.corpus, Tally(before.counts, step.added, step.provenanceChanged))
  }

  predicate InsertsAt(h: Hasher, rules: Rules, c: Corpus, seed: CaseSeed, tags: seq<string>) {
    rules.insert(c, seed, tags) == InsertStep(HashNames(h), c, seed, tags)
  }

  /** The rules insert as `InsertStep` does. */
  ghost predicate Inserts(h: Hasher, rules: Rules) {
    forall c, seed, tags :: InsertsAt(h, rules, c, seed, tags)
  }

  /** m is what merging the first n packed seeds makes of c. */
  ghost predicate MergedSoFar(rules: Rules, c: Corpus, a: CorpusArchive, n: nat, m: Merged) {
    n <= |a.seeds| == |a.manifest.entries| && m == MergeFirst(rules, c, a, n)
  }

  lemma {:induction false} MergeNext(h: Hasher, rules: Rules, c: Corpus, a: CorpusArchive, n: nat, before: Merged, step: Inserted)
    requires n < |a.seeds| && MergedSoFar(rules, c, a, n, before) && Inserts(h, rules)
    requires step == InsertStep(HashNames(h), before.corpus, a.seeds[n], a.manifest.entries[n].tags)
    ensures MergedSoFar(rules, c, a, n + 1, Merged(step.corpus, Tally(before.counts, step.added, step.provenanceChanged)))
  {
    assert InsertsAt(h, rules, before.corpus, a.seeds[n], a.manifest.entries[n].tags);
  }

  /** A corpus of the given seeds, inserted in order. */
  function Untagged(rules: Rules, given: seq<CaseSeed>): Corpus {
    if given == [] then EMPTY
    else rules.insert(Untagged(rules, given[..|given| - 1]), given[|given| - 1], []).corpus
  }

  /** What a dry run counts: every packed seed is compared with the unchanged corpus. */
  function DryCounts(c: Corpus, a: CorpusArchive, n: nat): Counts
    requires n <= |a.seeds| == |a.manifest.entries|
  {
    if n == 0 then Counts(0, 0, 0)
    else
      var k := DryCounts(c, a, n - 1);
      var entry, exists_ := a.manifest.entries[n - 1], a.seeds[n - 1] in c.seeds;
      var newTag := exists i :: 0 <= i < |entry.tags| && entry.tags[i] !in TagsFor(c, entry.contentHash);
      Counts(k.added + One(!exists_), k.duplicates + One(exists_), k.provenanceUnions + One(exists_ && newTag))
  }

  /** Whether the engine-version policy lets the archive in. */
  predicate Admits(policy: EngineVersionPolicy, a: CorpusArchive, engine: string) {
    a.manifest.engineVersion == engine || policy == Ignore
  }

  predicate Rejects(policy: EngineVersionPolicy, a: CorpusArchive, engine: string) {
    a.manifest.engineVersion != engine && policy == RequireExact
  }

  /** Nothing was merged, and every packed seed is reported as skipped. */
  predicate Skipped(r: Result<MergeReport, ArchiveError>, packed: nat) {
    r.Ok? && r.value.versionSkipped == packed && r.value.counts.added == r.value.counts.duplicates == r.value.counts.provenanceUnions == 0
  }

  /** Every packed seed is reported as added or as a duplicate. */
  predicate Counted(r: Result<MergeReport, ArchiveError>, packed: nat) {
    r.Ok? && r.value.versionSkipped == 0 && r.value.counts.added + r.value.counts.duplicates == packed
  }

  class CorpusStore {
    const hasher: Hasher
    var seeds: seq<CaseSeed>
    var provenance: map<string, seq<string>>

    function Data(): Corpus
      reads this
    {
      Corpus(seeds, provenance)
    }

    constructor (hasher: Hasher)
      ensures this.hasher == hasher && Data() == EMPTY
    {
      this.hasher := hasher;
      seeds, provenance := [], map[];
    }

    /** `from_seeds`: inserted one by one, without tags. */
    constructor FromSeeds(hasher: Hasher, given: seq<CaseSeed>)
      ensures this.hasher == hasher && Data() == Untagged(RulesOf(hasher), given)
    {
      this.hasher := hasher;
      seeds, provenance := [], map[];
      new;
      for i := 0 to |given|
        invariant Data() == Untagged(RulesOf(hasher), given[..i])
      {
        assert given[..i + 1][..i] == given[..i];
        var _, _ := InsertSeed(given[i], []);
      }
      assert given[..|given|] == given;
    }

    method InsertSeed(seed: CaseSeed, tags: seq<string>) returns (added: bool, provenanceChanged: bool)
      modifies this
      ensures Inserted(Data(), added, provenanceChanged) == InsertStep(HashNames(hasher), old(Data()), seed, tags)
    {
      var hash := ContentHash(hasher, seed);
      var entry := if hash in provenance then provenance[hash] else [];
      ghost var present := entry;
      provenanceChanged := false;
      for i := 0 to |tags|
        invariant entry == AddTags(present, tags[..i]) && |present| <= |entry|
        invariant provenanceChanged == (entry != present) && (provenanceChanged ==> |present| < |entry|)
      {
        assert tags[..i + 1][..i] == tags[..i];
        if tags[i] !in entry {
          entry := entry + [tags[i]];
          provenanceChanged := true;
        }
      }
      assert tags[..|tags|] == tags;
      provenance := provenance[hash := SortDedup(StringLeq, entry)];
      added := seed !in seeds;
      if added {
        seeds := seeds + [seed];
      }
    }

    /** `merge_archive`: a failed check or a rejected engine version leaves the corpus
        alone, as do a skipped version and a dry run; otherwise every packed seed is
        inserted in turn. */
    method MergeArchive(a: CorpusArchive, policy: EngineVersionPolicy, engine: string, dryRun: bool)
      returns (r: Result<MergeReport, ArchiveError>)
      modifies this
      ensures r.Ok? <==> Verified(hasher, a) && !Rejects(policy, a, engine)
      ensures Verified(hasher, a) && Rejects(policy, a, engine) ==> r == Err(EngineMismatch(a.manifest.engineVersion, engine))
      ensures Data() == if r.Ok? && Admits(policy, a, engine) && !dryRun
                        then MergeFirst(RulesOf(hasher), old(Data()), a, |a.seeds|).corpus else old(Data())
      ensures r.Ok? ==>
                && r.value.archiveId == a.manifest.manifestHash
                && r.value.engineVersion == a.manifest.engineVersion
                && r.value.engineCompatible == (a.manifest.engineVersion == engine)
                && r.value.dryRun == dryRun
                && r.value.versionSkipped == (if Admits(policy, a, engine) then 0 else |a.seeds|)
                && r.value.counts == if !Admits(policy, a, engine) then Counts(0, 0, 0)
                                     else if dryRun then DryCounts(old(Data()), a, |a.seeds|)
                                     else MergeFirst(RulesOf(hasher), old(Data()), a, |a.seeds|).counts
      // The same, case by case.
      ensures !Verified(hasher, a) ==> r.Err? && Data() == old(Data())
      ensures Verified(hasher, a) && a.manifest.engineVersion != engine ==>
                match policy
                case RequireExact => r == Err(EngineMismatch(a.manifest.engineVersion, engine)) && Data() == old(Data())
                case AllowCompatible => Skipped(r, |a.seeds|) && Data() == old(Data())
                case Ignore => Counted(r, |a.seeds|)
      ensures Verified(hasher, a) && a.manifest.engineVersion == engine ==> Counted(r, |a.seeds|)
      ensures Verified(hasher, a) && (a.manifest.engineVersion == engine || policy == Ignore) ==>
                if dryRun then Data() == old(Data())
                else forall s :: s in seeds <==> s in old(seeds) || s in a.seeds
    {
      var checked := Verify(hasher, a);
      if checked.Err? {
        return Err(checked.error);
      }
      var compatible := a.manifest.engineVersion == engine;
      var report := MergeReport(a.manifest.manifestHash, a.manifest.engineVersion, compatible, Counts(0, 0, 0), 0, dryRun);
      if !compatible {
        match policy {
          case RequireExact =>
            return Err(EngineMismatch(a.manifest.engineVersion, engine));
          case AllowCompatible =>
            return Ok(report.(versionSkipped := |a.seeds|));
          case Ignore =>
        }
      }
      if dryRun {
        var k := DryRun(a);
        DryTotal(Data(), a, |a.seeds|);
        return Ok(report.(counts := k));
      }
      ghost var before := Data();
      var k := InsertAll(a, RulesOf(hasher));
      MergedHasAll(hasher, before, a, Data(), k);
      return Ok(report.(counts := k));
    }

    /** One round of the merging loop; c is the corpus before merging. */
    method InsertNext(a: CorpusArchive, i: nat, k: Counts, ghost rules: Rules, ghost c: Corpus) returns (more: Counts)
      requires i < |a.seeds| && Inserts(hasher, rules) && MergedSoFar(rules, c, a, i, Merged(Data(), k))
      modifies this
      ensures MergedSoFar(rules, c, a, i + 1, Merged(Data(), more))
    {
      ghost var before := Merged(Data(), k);
      var added, changed := InsertSeed(a.seeds[i], a.manifest.entries[i].tags);
      more := Tally(k, added, changed);
      MergeNext(hasher, rules, c, a, i, before, Inserted(Data(), added, changed));
    }

    method InsertAll(a: CorpusArchive, ghost rules: Rules) returns (k: Counts)
      requires |a.seeds| == |a.manifest.entries| && Inserts(hasher, rules)
      modifies this
      ensures MergedSoFar(rules, old(Data()), a, |a.seeds|, Merged(Data(), k))
    {
      k := Counts(0, 0, 0);
      for i := 0 to |a.seeds|
        invariant MergedSoFar(rules, old(Data()), a, i, Merged(Data(), k))
      {
        k := InsertNext(a, i, k, rules, old(Data()));
      }
    }

    method DryRun(a: CorpusArchive) returns (k: Counts)
      requires |a.seeds| == |a.manifest.entries|
      ensures k == DryCounts(Data(), a, |a.seeds|)
    {
      var added, duplicates, unions := 0, 0, 0;
      for i := 0 to |a.seeds|
        invariant Counts(added, duplicates, unions) == DryCounts(Data(), a, i)
      {
        var entry := a.manifest.entries[i];
        if a.seeds[i] in seeds {
          duplicates := duplicates + 1;
          var known := TagsFor(Data(), entry.contentHash);
          if exists t :: 0 <= t < |entry.tags| && entry.tags[t] !in known {
            unions := unions + 1;
          }
        } else {
          added := added + 1;
        }
      }
      k := Counts(added, duplicates, unions);
    }
  }

  // ----- what every corpus built through this interface satisfies -----

  /** Seeds are pairwise distinct, provenance is recorded for exactly their hashes, and
      every tag list is sorted without repetition. */
  ghost predicate Sane(name: Naming, c: Corpus) {
    && Distinct(c.seeds)
    && (forall hash :: hash in c.provenance <==> exists i :: 0 <= i < |c.seeds| && name(c.seeds[i]) == hash)
    && (forall hash :: hash in c.provenance ==> Ascending(StringLeq, c.provenance[hash]))
  }

  predicate HasTag(c: Corpus, hash: string, tag: string) { tag in TagsFor(c, hash) }

  lemma {:induction false} AddTagsMeaning(present: seq<string>, tags: seq<string>, x: string)
    ensures x in AddTags(present, tags) <==> x in present || x in tags
  {
    if tags != [] {
      AddTagsMeaning(present, tags[..|tags| - 1], x);
      assert tags == tags[..|tags| - 1] + [tags[|tags| - 1]];
    }
  }

  lemma {:induction false} InsertTags(name: Naming, c: Corpus, seed: CaseSeed, tags: seq<string>, hash: string, tag: string)
    ensures HasTag(InsertStep(name, c, seed, tags).corpus, hash, tag)
            <==> HasTag(c, hash, tag) || (hash == name(seed) && tag in tags)
  {
    StringOrder();
    AddTagsMeaning(TagsFor(c, name(seed)), tags, tag);
    SortDedupIsAscending(StringLeq, AddTags(TagsFor(c, name(seed)), tags));
  }

  lemma {:induction false} InsertSeeds(name: Naming, c: Corpus, seed: CaseSeed, tags: seq<string>, x: CaseSeed)
    ensures x in InsertStep(name, c, seed, tags).corpus.seeds <==> x in c.seeds || x == seed
  {}

  lemma {:induction false} InsertKeepsSane(name: Naming, c: Corpus, seed: CaseSeed, tags: seq<string>)
    requires Sane(name, c)
    ensures Sane(name, InsertStep(name, c, seed, tags).corpus)
  {
    var d := InsertStep(name, c, seed, tags).corpus;
    StringOrder();
    SortDedupIsAscending(StringLeq, AddTags(TagsFor(c, name(seed)), tags));
    forall hash
      ensures hash in d.provenance <==> exists i :: 0 <= i < |d.seeds| && name(d.seeds[i]) == hash
    {
      if hash in c.provenance {
        var i :| 0 <= i < |c.seeds| && name(c.seeds[i]) == hash;
        assert d.seeds[i] == c.seeds[i];
      } else if hash == name(seed) {
        var i :| 0 <= i < |d.seeds| && d.seeds[i] == seed;
      }
    }
  }

  // ----- what merging means -----

  /** Some packed seed with this content hash carries this tag. */
  ghost predicate Brings(name: Naming, a: CorpusArchive, hash: string, tag: string) {
    exists k: nat :: k < |a.seeds| && BringsAt(name, a, k, hash, tag)
  }

  /** The k-th packed seed has this content hash and carries this tag. */
  predicate BringsAt(name: Naming, a: CorpusArchive, k: nat, hash: string, tag: string) {
    k < |a.seeds| && k < |a.manifest.entries| && name(a.seeds[k]) == hash && tag in a.manifest.entries[k].tags
  }

  /** Some tag is not recorded. */
  ghost predicate Unrecorded(c: Corpus, hash: string, tags: seq<string>) { exists tag :: tag in tags && !HasTag(c, hash, tag) }

  /** What insertion does: one seed present, its tags recorded under its name, the
      invariants kept, and the count honest. */
  ghost predicate InsertsOne(name: Naming, c: Corpus, seed: CaseSeed, tags: seq<string>, r: Inserted) {
    && (forall x :: x in r.corpus.seeds <==> x in c.seeds || x == seed)
    && (forall hash, tag :: HasTag(r.corpus, hash, tag) <==> HasTag(c, hash, tag) || (hash == name(seed) && tag in tags))
    && (Sane(name, c) ==> Sane(name, r.corpus))
    && (r.added <==> seed !in c.seeds)
    && (r.provenanceChanged <==> Unrecorded(c, name(seed), tags))
    && |r.corpus.seeds| == |c.seeds| + One(r.added)
  }

  ghost predicate Lawful(rules: Rules) {
    forall c, seed, tags :: InsertsOne(rules.name, c, seed, tags, rules.insert(c, seed, tags))
  }

  lemma {:induction false} RulesAreLawful(h: Hasher)
    ensures Lawful(RulesOf(h))
  {
    forall c, seed, tags
      ensures InsertsOne(HashNames(h), c, seed, tags, InsertStep(HashNames(h), c, seed, tags))
    {
      InsertIsLawful(HashNames(h), c, seed, tags);
    }
  }

  lemma {:induction false} InsertIsLawful(name: Naming, c: Corpus, seed: CaseSeed, tags: seq<string>)
    ensures InsertsOne(name, c, seed, tags, InsertStep(name, c, seed, tags))
  {
    var d := InsertStep(name, c, seed, tags).corpus;
    forall x ensures x in d.seeds <==> x in c.seeds || x == seed {
      InsertSeeds(name, c, seed, tags, x);
    }
    forall hash, tag ensures HasTag(d, hash, tag) <==> HasTag(c, hash, tag) || (hash == name(seed) && tag in tags) {
      InsertTags(name, c, seed, tags, hash, tag);
    }
    if Sane(name, c) {
      InsertKeepsSane(name, c, seed, tags);
    }
    AddTagsChanges(TagsFor(c, name(seed)), tags);
  }

  lemma {:induction false} AddTagsChanges(present: seq<string>, tags: seq<string>)
    ensures |present| <= |AddTags(present, tags)|
    ensures AddTags(present, tags) != present <==> exists tag :: tag in tags && tag !in present
    ensures AddTags(present, tags) != present ==> |present| < |AddTags(present, tags)|
  {
    if tags != [] {
      var init, last := tags[..|tags| - 1], tags[|tags| - 1];
      AddTagsChanges(present, init);
      AddTagsMeaning(present, init, last);
      assert tags == init + [last];
    }
  }

  /** A corpus built from a list holds exactly its seeds, once each. */
  lemma {:induction false} UntaggedSane(rules: Rules, given: seq<CaseSeed>)
    requires Lawful(rules)
    ensures Sane(rules.name, Untagged(rules, given))
    ensures forall x :: x in Untagged(rules, given).seeds <==> x in given
  {
    if given != [] {
      var init := given[..|given| - 1];
      UntaggedSane(rules, init);
      assert given == init + [given[|given| - 1]];
    }
  }

  lemma {:induction false} MergeFirstSeeds(rules: Rules, c: Corpus, a: CorpusArchive, n: nat, x: CaseSeed)
    requires Lawful(rules) && n <= |a.seeds| == |a.manifest.entries|
    ensures x in MergeFirst(rules, c, a, n).corpus.seeds <==> x in c.seeds || x in a.seeds[..n]
  {
    if n > 0 {
      MergeFirstSeeds(rules, c, a, n - 1, x);
      assert a.seeds[..n] == a.seeds[..n - 1] + [a.seeds[n - 1]];
    }
  }

  lemma {:induction false} MergeFirstTags(rules: Rules, c: Corpus, a: CorpusArchive, n: nat, hash: string, tag: string)
    requires Lawful(rules) && n <= |a.seeds| == |a.manifest.entries|
    ensures HasTag(MergeFirst(rules, c, a, n).corpus, hash, tag)
            <==> HasTag(c, hash, tag) || exists k: nat :: k < n && BringsAt(rules.name, a, k, hash, tag)
  {
    if n > 0 {
      MergeFirstTags(rules, c, a, n - 1, hash, tag);
      TagsAfter(rules, MergeFirst(rules, c, a, n - 1).corpus, a.seeds[n - 1], a.manifest.entries[n - 1].tags, hash, tag);
      BroughtStep(rules.name, a, n, hash, tag);
    }
  }

  lemma {:induction false} TagsAfter(rules: Rules, c: Corpus, seed: CaseSeed, tags: seq<string>, hash: string, tag: string)
    requires Lawful(rules)
    ensures HasTag(rules.insert(c, seed, tags).corpus, hash, tag) <==> HasTag(c, hash, tag) || (hash == rules.name(seed) && tag in tags)
  {
    assert InsertsOne(rules.name, c, seed, tags, rules.insert(c, seed, tags));
  }

  lemma {:induction false} BroughtStep(name: Naming, a: CorpusArchive, n: nat, hash: string, tag: string)
    requires 0 < n <= |a.seeds| == |a.manifest.entries|
    ensures (exists k: nat :: k < n && BringsAt(name, a, k, hash, tag))
       <==> (exists k: nat :: k < n - 1 && BringsAt(name, a, k, hash, tag))
            || (name(a.seeds[n - 1]) == hash && tag in a.manifest.entries[n - 1].tags)
  {
    assert BringsAt(name, a, n - 1, hash, tag) <==> name(a.seeds[n - 1]) == hash && tag in a.manifest.entries[n - 1].tags;
  }

  lemma {:induction false} MergeFirstSane(rules: Rules, c: Corpus, a: CorpusArchive, n: nat)
    requires Lawful(rules) && n <= |a.seeds| == |a.manifest.entries| && Sane(rules.name, c)
    ensures Sane(rules.name, MergeFirst(rules, c, a, n).corpus)
  {
    if n > 0 {
      MergeFirstSane(rules, c, a, n - 1);
    }
  }

  /** The report of a real merge accounts for every packed seed, and counts as added
      exactly the growth of the corpus. */
  lemma {:induction false} ReportIsExact(rules: Rules, c: Corpus, a: CorpusArchive, n: nat)
    requires Lawful(rules) && n <= |a.seeds| == |a.manifest.entries|
    ensures var m := MergeFirst(rules, c, a, n);
            && m.counts.added + m.counts.duplicates == n
            && |m.corpus.seeds| == |c.seeds| + m.counts.added
            && m.counts.provenanceUnions <= n
  {
    if n > 0 {
      ReportIsExact(rules, c, a, n - 1);
    }
  }

  /** After merging the corpus holds its own seeds and the packed ones, and the counts are
      honest. */
  lemma {:induction false} MergedHasAll(h: Hasher, c: Corpus, a: CorpusArchive, d: Corpus, k: Counts)
    requires MergedSoFar(RulesOf(h), c, a, |a.seeds|, Merged(d, k))
    ensures forall s :: s in d.seeds <==> s in c.seeds || s in a.seeds
    ensures k.added + k.duplicates == |a.seeds|
  {
    RulesAreLawful(h);
    ReportIsExact(RulesOf(h), c, a, |a.seeds|);
    forall s ensures s in d.seeds <==> s in c.seeds || s in a.seeds {
      MergeFirstSeeds(RulesOf(h), c, a, |a.seeds|, s);
      assert a.seeds[..|a.seeds|] == a.seeds;
    }
  }

  // ----- a dry run against the real one -----

  /** No two of the first n packed seeds are the same seed absent from the corpus. */
  ghost predicate NewOnce(c: Corpus, a: CorpusArchive, n: nat) {
    forall i, j :: 0 <= i < j < n && j < |a.seeds| && a.seeds[i] == a.seeds[j] ==> a.seeds[j] in c.seeds
  }

  lemma {:induction false} RealStep(rules: Rules, c: Corpus, a: CorpusArchive, n: nat)
    requires Lawful(rules) && 0 < n <= |a.seeds| == |a.manifest.entries|
    ensures MergeFirst(rules, c, a, n).counts.added
            == MergeFirst(rules, c, a, n - 1).counts.added + One(a.seeds[n - 1] !in c.seeds && a.seeds[n - 1] !in a.seeds[..n - 1])
  {
    MergeFirstSeeds(rules, c, a, n - 1, a.seeds[n - 1]);
  }

  lemma {:induction false} DryStep(c: Corpus, a: CorpusArchive, n: nat)
    requires 0 < n <= |a.seeds| == |a.manifest.entries|
    ensures DryCounts(c, a, n).added == DryCounts(c, a, n - 1).added + One(a.seeds[n - 1] !in c.seeds)
  {}

  lemma {:induction false} DryAgainstReal(rules: Rules, c: Corpus, a: CorpusArchive, n: nat, actual: nat, dry: nat)
    requires Lawful(rules) && n <= |a.seeds| == |a.manifest.entries|
    requires actual == MergeFirst(rules, c, a, n).counts.added && dry == DryCounts(c, a, n).added
    ensures actual <= dry && (actual == dry <==> NewOnce(c, a, n))
  {
    if n > 0 {
      RealStep(rules, c, a, n);
      DryStep(c, a, n);
      DryAgainstReal(rules, c, a, n - 1, MergeFirst(rules, c, a, n - 1).counts.added, DryCounts(c, a, n - 1).added);
      NewOnceStep(c, a, n);
    }
  }

  lemma {:induction false} NewOnceStep(c: Corpus, a: CorpusArchive, n: nat)
    requires 0 < n <= |a.seeds|
    ensures NewOnce(c, a, n) <==> NewOnce(c, a, n - 1) && (a.seeds[n - 1] in a.seeds[..n - 1] ==> a.seeds[n - 1] in c.seeds)
  {
    var x := a.seeds[n - 1];
    if x in a.seeds[..n - 1] {
      var i :| 0 <= i < n - 1 && a.seeds[..n - 1][i] == x;
      assert a.seeds[i] == a.seeds[n - 1];
    }
  }

  /** A dry run never promises fewer additions than happen, and promises exactly the real
      number if and only if the archive holds no new seed twice. */
  lemma {:induction false} DryRunAdditions(h: Hasher, c: Corpus, a: CorpusArchive)
    requires WellFormed(a)
    ensures var n := |a.seeds|;
            var actual, dry := MergeFirst(RulesOf(h), c, a, n).counts, DryCounts(c, a, n);
            && actual.added <= dry.added
            && (actual.added == dry.added <==> NewOnce(c, a, n))
            && actual.added + actual.duplicates == dry.added + dry.duplicates == n
  {
    RulesAreLawful(h);
    DryAgainstReal(RulesOf(h), c, a, |a.seeds|, MergeFirst(RulesOf(h), c, a, |a.seeds|).counts.added, DryCounts(c, a, |a.seeds|).added);
    ReportIsExact(RulesOf(h), c, a, |a.seeds|);
    DryTotal(c, a, |a.seeds|);
  }

  lemma {:induction false} DryTotal(c: Corpus, a: CorpusArchive, n: nat)
    requires n <= |a.seeds| == |a.manifest.entries|
    ensures DryCounts(c, a, n).added + DryCounts(c, a, n).duplicates == n
  {
    if n > 0 {
      DryTotal(c, a, n - 1);
    }
  }

  // ----- the tags a dry run counts -----

  /** The k-th packed seed brings a tag that the corpus has not recorded for it. */
  ghost predicate BringsNew(name: Naming, c: Corpus, a: CorpusArchive, k: nat)
    requires k < |a.seeds| == |a.manifest.entries|
  {
    Unrecorded(c, name(a.seeds[k]), a.manifest.entries[k].tags)
  }

  /** One that no earlier packed seed of the same name brings either. */
  ghost predicate BringsFirst(name: Naming, c: Corpus, a: CorpusArchive, k: nat)
    requires k < |a.seeds| == |a.manifest.entries|
  {
    exists tag :: tag in a.manifest.entries[k].tags && !HasTag(c, name(a.seeds[k]), tag)
                  && forall i: nat :: i < k ==> !BringsAt(name, a, i, name(a.seeds[k]), tag)
  }

  /** How many seeds new to the corpus bring a tag first: a dry run leaves them out. */
  ghost function OnlyReal(name: Naming, c: Corpus, a: CorpusArchive, n: nat): nat
    requires n <= |a.seeds| == |a.manifest.entries|
  {
    if n == 0 then 0
    else OnlyReal(name, c, a, n - 1) + One(a.seeds[n - 1] !in c.seeds && BringsFirst(name, c, a, n - 1))
  }

  /** How many known seeds bring new tags that all came earlier in the archive: a dry run
      counts them again. */
  ghost function OnlyDry(name: Naming, c: Corpus, a: CorpusArchive, n: nat): nat
    requires n <= |a.seeds| == |a.manifest.entries|
  {
    if n == 0 then 0
    else OnlyDry(name, c, a, n - 1)
         + One(a.seeds[n - 1] in c.seeds && BringsNew(name, c, a, n - 1) && !BringsFirst(name, c, a, n - 1))
  }

  /** Merging the k-th packed seed changes provenance. */
  predicate ChangedAt(rules: Rules, c: Corpus, a: CorpusArchive, k: nat)
    requires k < |a.seeds| == |a.manifest.entries|
  {
    rules.insert(MergeFirst(rules, c, a, k).corpus, a.seeds[k], a.manifest.entries[k].tags).provenanceChanged
  }

  lemma {:induction false} ChangedIfFirst(rules: Rules, c: Corpus, a: CorpusArchive, k: nat)
    requires Lawful(rules) && k < |a.seeds| == |a.manifest.entries|
    ensures ChangedAt(rules, c, a, k) <==> BringsFirst(rules.name, c, a, k)
  {
    ChangedMeans(rules, MergeFirst(rules, c, a, k).corpus, a.seeds[k], a.manifest.entries[k].tags);
    BringsFirstMeans(rules, c, a, k);
  }

  lemma {:induction false} ChangedMeans(rules: Rules, c: Corpus, seed: CaseSeed, tags: seq<string>)
    requires Lawful(rules)
    ensures rules.insert(c, seed, tags).provenanceChanged <==> Unrecorded(c, rules.name(seed), tags)
  {
    assert InsertsOne(rules.name, c, seed, tags, rules.insert(c, seed, tags));
  }

  lemma {:induction false} UnionsUnfold(rules: Rules, c: Corpus, a: CorpusArchive, n: nat)
    requires 0 < n <= |a.seeds| == |a.manifest.entries|
    ensures var before := MergeFirst(rules, c, a, n - 1);
            MergeFirst(rules, c, a, n).counts.provenanceUnions
            == before.counts.provenanceUnions + One(ChangedAt(rules, c, a, n - 1))
  {}

  lemma {:induction false} BringsFirstMeans(rules: Rules, c: Corpus, a: CorpusArchive, k: nat)
    requires Lawful(rules) && k < |a.seeds| == |a.manifest.entries|
    ensures BringsFirst(rules.name, c, a, k)
       <==> Unrecorded(MergeFirst(rules, c, a, k).corpus, rules.name(a.seeds[k]), a.manifest.entries[k].tags)
  {
    var before, hash := MergeFirst(rules, c, a, k).corpus, rules.name(a.seeds[k]);
    forall tag ensures HasTag(before, hash, tag) <==> HasTag(c, hash, tag) || exists i: nat :: i < k && BringsAt(rules.name, a, i, hash, tag) {
      MergeFirstTags(rules, c, a, k, hash, tag);
    }
  }

  /** Each entry names its seed, as in a verified archive. */
  predicate WellNamed(name: Naming, a: CorpusArchive) {
    WellFormed(a) && forall k :: 0 <= k < |a.seeds| ==> a.manifest.entries[k].contentHash == name(a.seeds[k])
  }

  lemma {:induction false} DryUnionStep(name: Naming, c: Corpus, a: CorpusArchive, n: nat)
    requires WellNamed(name, a) && 0 < n <= |a.seeds|
    ensures DryCounts(c, a, n).provenanceUnions
         == DryCounts(c, a, n - 1).provenanceUnions + One(a.seeds[n - 1] in c.seeds && BringsNew(name, c, a, n - 1))
  {
    var entry := a.manifest.entries[n - 1];
    if exists i :: 0 <= i < |entry.tags| && entry.tags[i] !in TagsFor(c, entry.contentHash) {
      var i :| 0 <= i < |entry.tags| && entry.tags[i] !in TagsFor(c, entry.contentHash);
      assert !HasTag(c, name(a.seeds[n - 1]), entry.tags[i]);
    }
  }

  lemma {:induction false} UnionsDiffer(rules: Rules, c: Corpus, a: CorpusArchive, n: nat)
    requires WellNamed(rules.name, a) && n <= |a.seeds|
    requires forall k :: 0 <= k < n ==> (ChangedAt(rules, c, a, k) <==> BringsFirst(rules.name, c, a, k))
    ensures MergeFirst(rules, c, a, n).counts.provenanceUnions + OnlyDry(rules.name, c, a, n)
         == DryCounts(c, a, n).provenanceUnions + OnlyReal(rules.name, c, a, n)
  {
    if n > 0 {
      UnionsDiffer(rules, c, a, n - 1);
      UnionsUnfold(rules, c, a, n);
      DryUnionStep(rules.name, c, a, n);
    }
  }

  lemma {:induction false} LawfulUnionsDiffer(rules: Rules, c: Corpus, a: CorpusArchive)
    requires Lawful(rules) && WellNamed(rules.name, a)
    ensures MergeFirst(rules, c, a, |a.seeds|).counts.provenanceUnions + OnlyDry(rules.name, c, a, |a.seeds|)
         == DryCounts(c, a, |a.seeds|).provenanceUnions + OnlyReal(rules.name, c, a, |a.seeds|)
  {
    forall k | 0 <= k < |a.seeds| ensures ChangedAt(rules, c, a, k) <==> BringsFirst(rules.name, c, a, k) {
      ChangedIfFirst(rules, c, a, k);
    }
    UnionsDiffer(rules, c, a, |a.seeds|);
  }

  /** No two packed seeds share a name. */
  predicate NamesOnce(name: Naming, a: CorpusArchive) {
    forall i, j :: 0 <= i < j < |a.seeds| ==> name(a.seeds[i]) != name(a.seeds[j])
  }

  lemma {:induction false} OnceIsFirst(name: Naming, c: Corpus, a: CorpusArchive, k: nat)
    requires NamesOnce(name, a) && k < |a.seeds| == |a.manifest.entries|
    ensures BringsFirst(name, c, a, k) <==> BringsNew(name, c, a, k)
  {
    forall i: nat, tag | i < k ensures !BringsAt(name, a, i, name(a.seeds[k]), tag) {}
  }

  lemma {:induction false} OnceNeverDryOnly(name: Naming, c: Corpus, a: CorpusArchive, n: nat)
    requires NamesOnce(name, a) && n <= |a.seeds| == |a.manifest.entries|
    ensures OnlyDry(name, c, a, n) == 0
    ensures OnlyReal(name, c, a, n) == 0 <==> forall k :: 0 <= k < n && a.seeds[k] !in c.seeds ==> !BringsNew(name, c, a, k)
  {
    if n > 0 {
      OnceNeverDryOnly(name, c, a, n - 1);
      OnceIsFirst(name, c, a, n - 1);
    }
  }

  /** A dry run counts as many provenance unions as happen if and only if as many new seeds
      bring tags first as known seeds bring new tags again. In an archive that packs no name
      twice it never counts more, and counts the same if and only if no new seed brings a
      tag that is not recorded for it. */
  lemma {:induction false} DryRunUnions(h: Hasher, c: Corpus, a: CorpusArchive)
    requires Verified(h, a)
    ensures |a.seeds| == |a.manifest.entries|
    ensures var n, name := |a.seeds|, HashNames(h);
            var actual, dry := MergeFirst(RulesOf(h), c, a, n).counts.provenanceUnions, DryCounts(c, a, n).provenanceUnions;
            && (actual == dry <==> OnlyReal(name, c, a, n) == OnlyDry(name, c, a, n))
            && (NamesOnce(name, a) ==>
                  && dry <= actual
                  && (actual == dry <==> forall k :: 0 <= k < n && a.seeds[k] !in c.seeds ==> !BringsNew(name, c, a, k)))
  {
    forall k | 0 <= k < |a.seeds| ensures a.manifest.entries[k].contentHash == HashNames(h)(a.seeds[k]) {
      assert FaultOf(h, a.manifest.entries[k], a.seeds[k]).None?;
    }
    RulesAreLawful(h);
    LawfulUnionsDiffer(RulesOf(h), c, a);
    if NamesOnce(HashNames(h), a) {
      OnceNeverDryOnly(HashNames(h), c, a, |a.seeds|);
    }
  }

  // ----- merging whole archives, several in a row -----

  function Merge(rules: Rules, c: Corpus, a: CorpusArchive): Corpus
    requires |a.seeds| == |a.manifest.entries|
  {
    MergeFirst(rules, c, a, |a.seeds|).corpus
  }

  /** As many seeds as entries, which verified archives have, and only those are merged. */
  predicate WellFormed(a: CorpusArchive) { |a.seeds| == |a.manifest.entries| }

  predicate AllWellFormed(archives: seq<CorpusArchive>) { forall i :: 0 <= i < |archives| ==> WellFormed(archives[i]) }

  lemma {:induction false} MergeSeeds(rules: Rules, c: Corpus, a: CorpusArchive, x: CaseSeed)
    requires Lawful(rules) && WellFormed(a)
    ensures x in Merge(rules, c, a).seeds <==> x in c.seeds || x in a.seeds
  {
    MergeFirstSeeds(rules, c, a, |a.seeds|, x);
    assert a.seeds[..|a.seeds|] == a.seeds;
  }

  lemma {:induction false} MergeTags(rules: Rules, c: Corpus, a: CorpusArchive, hash: string, tag: string)
    requires Lawful(rules) && WellFormed(a)
    ensures HasTag(Merge(rules, c, a), hash, tag) <==> HasTag(c, hash, tag) || Brings(rules.name, a, hash, tag)
  {
    MergeFirstTags(rules, c, a, |a.seeds|, hash, tag);
  }

  function MergeAll(rules: Rules, c: Corpus, archives: seq<CorpusArchive>): Corpus
    requires AllWellFormed(archives)
  {
    if archives == [] then c
    else Merge(rules, MergeAll(rules, c, archives[..|archives| - 1]), archives[|archives| - 1])
  }

  lemma {:induction false} MergeAllSane(rules: Rules, c: Corpus, archives: seq<CorpusArchive>)
    requires Lawful(rules) && AllWellFormed(archives) && Sane(rules.name, c)
    ensures Sane(rules.name, MergeAll(rules, c, archives))
  {
    if archives != [] {
      var init, last := archives[..|archives| - 1], archives[|archives| - 1];
      MergeAllSane(rules, c, init);
      MergeFirstSane(rules, MergeAll(rules, c, init), last, |last.seeds|);
    }
  }

  lemma {:induction false} MergeAllSeeds(rules: Rules, c: Corpus, archives: seq<CorpusArchive>, x: CaseSeed)
    requires Lawful(rules) && AllWellFormed(archives)
    ensures x in MergeAll(rules, c, archives).seeds <==> x in c.seeds || exists a :: a in archives && x in a.seeds
  {
    if archives != [] {
      var init, last := archives[..|archives| - 1], archives[|archives| - 1];
      MergeAllSeeds(rules, c, init, x);
      MergeSeeds(rules, MergeAll(rules, c, init), last, x);
      assert archives == init + [last];
    }
  }

  lemma {:induction false} MergeAllTags(rules: Rules, c: Corpus, archives: seq<CorpusArchive>, hash: string, tag: string)
    requires Lawful(rules) && AllWellFormed(archives)
    ensures HasTag(MergeAll(rules, c, archives), hash, tag)
            <==> HasTag(c, hash, tag) || exists a :: a in archives && Brings(rules.name, a, hash, tag)
  {
    if archives != [] {
      var init, last := archives[..|archives| - 1], archives[|archives| - 1];
      MergeAllTags(rules, c, init, hash, tag);
      MergeTags(rules, MergeAll(rules, c, init), last, hash, tag);
      assert archives == init + [last];
    }
  }

  // ----- merging is a join -----

  /** Equal as far as exports and lookups go: the same provenance map and the same
      sorted seeds. */
  predicate SameCorpus(c: Corpus, d: Corpus) { c.provenance == d.provenance && SortedSeeds(c) == SortedSeeds(d) }

  /** A corpus with these invariants is determined by which seeds and which tags it has. */
  lemma {:induction false} SaneDetermined(name: Naming, c: Corpus, d: Corpus)
    requires Sane(name, c) && Sane(name, d)
    requires forall x :: x in c.seeds <==> x in d.seeds
    requires forall hash, tag :: HasTag(c, hash, tag) <==> HasTag(d, hash, tag)
    ensures SameCorpus(c, d)
  {
    SeedOrder();
    StringOrder();
    DistinctAscending(SeedLeq, c.seeds);
    DistinctAscending(SeedLeq, d.seeds);
    forall x ensures x in SortedSeeds(c) <==> x in SortedSeeds(d) {
      SortMembers(SeedLeq, c.seeds, x);
      SortMembers(SeedLeq, d.seeds, x);
    }
    AscendingUnique(SeedLeq, SortedSeeds(c), SortedSeeds(d));
    forall hash
      ensures hash in c.provenance <==> hash in d.provenance
    {
      SameKeys(name, c, d, hash);
      SameKeys(name, d, c, hash);
    }
    forall hash | hash in c.provenance
      ensures c.provenance[hash] == d.provenance[hash]
    {
      assert forall tag :: tag in c.provenance[hash] <==> HasTag(c, hash, tag);
      assert forall tag :: tag in d.provenance[hash] <==> HasTag(d, hash, tag);
      AscendingUnique(StringLeq, c.provenance[hash], d.provenance[hash]);
    }
  }

  lemma {:induction false} SameKeys(name: Naming, c: Corpus, d: Corpus, hash: string)
    requires Sane(name, c) && Sane(name, d) && forall x :: x in c.seeds <==> x in d.seeds
    ensures hash in c.provenance ==> hash in d.provenance
  {
    if hash in c.provenance {
      var i :| 0 <= i < |c.seeds| && name(c.seeds[i]) == hash;
      assert c.seeds[i] in d.seeds;
    }
  }

  lemma {:induction false} JoinUnder(rules: Rules, c: Corpus, xs: seq<CorpusArchive>, ys: seq<CorpusArchive>)
    requires Lawful(rules) && Sane(rules.name, c) && AllWellFormed(xs) && AllWellFormed(ys)
    requires forall a :: a in xs <==> a in ys
    ensures Sane(rules.name, MergeAll(rules, c, xs)) && SameCorpus(MergeAll(rules, c, xs), MergeAll(rules, c, ys))
  {
    MergeAllSane(rules, c, xs);
    MergeAllSane(rules, c, ys);
    forall x ensures x in MergeAll(rules, c, xs).seeds <==> x in MergeAll(rules, c, ys).seeds {
      MergeAllSeeds(rules, c, xs, x);
      MergeAllSeeds(rules, c, ys, x);
    }
    forall hash, tag ensures HasTag(MergeAll(rules, c, xs), hash, tag) <==> HasTag(MergeAll(rules, c, ys), hash, tag) {
      MergeAllTags(rules, c, xs, hash, tag);
      MergeAllTags(rules, c, ys, hash, tag);
    }
    SaneDetermined(rules.name, MergeAll(rules, c, xs), MergeAll(rules, c, ys));
  }

  /** Merging is a join: what a corpus becomes depends only on which archives were merged,
      not on their order or repetition. Merging twice is merging once, and any two orders
      agree. */
  lemma {:induction false} MergeIsJoin(h: Hasher, c: Corpus, xs: seq<CorpusArchive>, ys: seq<CorpusArchive>)
    requires Sane(HashNames(h), c) && AllWellFormed(xs) && AllWellFormed(ys)
    requires forall a :: a in xs <==> a in ys
    ensures Sane(HashNames(h), MergeAll(RulesOf(h), c, xs))
    ensures SameCorpus(MergeAll(RulesOf(h), c, xs), MergeAll(RulesOf(h), c, ys))
  {
    RulesAreLawful(h);
    JoinUnder(RulesOf(h), c, xs, ys);
  }

  // ----- exporting and merging between corpora -----

  /** The corpus packed for export, every seed with the tags recorded under its name. */
  function Export(h: Hasher, engine: string, name: Naming, c: Corpus): (a: CorpusArchive)
    requires |c.seeds| < TWO_64
    ensures WellFormed(a)
  {
    SortLength(TaggedLeq, Tagged(name, c));
    Sealed(h, engine, Sort(TaggedLeq, Tagged(name, c)), [], None)
  }

  function Tagged(name: Naming, c: Corpus): seq<TaggedSeed> {
    seq(|c.seeds|, i requires 0 <= i < |c.seeds| => TaggedSeed(c.seeds[i], TagsFor(c, name(c.seeds[i]))))
  }

  /** What the export holds at each place of the sorted list. */
  lemma {:induction false} ExportAt(h: Hasher, engine: string, name: Naming, c: Corpus, j: nat)
    requires |c.seeds| < TWO_64
    ensures var sorted, a := Sort(TaggedLeq, Tagged(name, c)), Export(h, engine, name, c);
            && |a.seeds| == |a.manifest.entries| == |sorted|
            && (j < |sorted| ==> a.seeds[j] == sorted[j].seed && a.manifest.entries[j].tags == SortDedup(StringLeq, sorted[j].tags))
  {}

  lemma {:induction false} SortedTagged(name: Naming, c: Corpus, ts: TaggedSeed)
    ensures ts in Sort(TaggedLeq, Tagged(name, c)) <==> ts.seed in c.seeds && ts.tags == TagsFor(c, name(ts.seed))
  {
    SeedOrder();
    SortMembers(TaggedLeq, Tagged(name, c), ts);
    if ts.seed in c.seeds && ts.tags == TagsFor(c, name(ts.seed)) {
      var i :| 0 <= i < |c.seeds| && c.seeds[i] == ts.seed;
      assert Tagged(name, c)[i] == ts;
    }
  }

  lemma {:induction false} SameTagSet(tags: seq<string>, tag: string)
    ensures tag in SortDedup(StringLeq, tags) <==> tag in tags
  {
    StringOrder();
    SortDedupIsAscending(StringLeq, tags);
  }

  lemma {:induction false} ExportSeeds(h: Hasher, engine: string, name: Naming, c: Corpus, x: CaseSeed)
    requires |c.seeds| < TWO_64
    ensures x in Export(h, engine, name, c).seeds <==> x in c.seeds
  {
    var sorted, a := Sort(TaggedLeq, Tagged(name, c)), Export(h, engine, name, c);
    if x in c.seeds {
      var ts := TaggedSeed(x, TagsFor(c, name(x)));
      SortedTagged(name, c, ts);
      var j: nat :| j < |sorted| && sorted[j] == ts;
      ExportAt(h, engine, name, c, j);
    }
    if x in a.seeds {
      var j: nat :| j < |a.seeds| && a.seeds[j] == x;
      ExportAt(h, engine, name, c, j);
      SortedTagged(name, c, sorted[j]);
    }
  }

  lemma {:induction false} ExportKeepsTag(h: Hasher, engine: string, name: Naming, c: Corpus, hash: string, tag: string)
    requires Sane(name, c) && |c.seeds| < TWO_64 && HasTag(c, hash, tag)
    ensures Brings(name, Export(h, engine, name, c), hash, tag)
  {
    var i :| 0 <= i < |c.seeds| && name(c.seeds[i]) == hash;
    var ts := TaggedSeed(c.seeds[i], TagsFor(c, hash));
    SortedTagged(name, c, ts);
    var j: nat :| j < |Sort(TaggedLeq, Tagged(name, c))| && Sort(TaggedLeq, Tagged(name, c))[j] == ts;
    ExportAt(h, engine, name, c, j);
    SameTagSet(ts.tags, tag);
    assert BringsAt(name, Export(h, engine, name, c), j, hash, tag);
  }

  lemma {:induction false} ExportAddsNoTag(h: Hasher, engine: string, name: Naming, c: Corpus, hash: string, tag: string)
    requires |c.seeds| < TWO_64 && Brings(name, Export(h, engine, name, c), hash, tag)
    ensures HasTag(c, hash, tag)
  {
    var a := Export(h, engine, name, c);
    var j: nat :| j < |a.seeds| && BringsAt(name, a, j, hash, tag);
    ExportAt(h, engine, name, c, j);
    var ts := Sort(TaggedLeq, Tagged(name, c))[j];
    SortedTagged(name, c, ts);
    SameTagSet(ts.tags, tag);
  }

  lemma {:induction false} ExportTags(h: Hasher, engine: string, name: Naming, c: Corpus, hash: string, tag: string)
    requires Sane(name, c) && |c.seeds| < TWO_64
    ensures Brings(name, Export(h, engine, name, c), hash, tag) <==> HasTag(c, hash, tag)
  {
    if HasTag(c, hash, tag) {
      ExportKeepsTag(h, engine, name, c, hash, tag);
    }
    if Brings(name, Export(h, engine, name, c), hash, tag) {
      ExportAddsNoTag(h, engine, name, c, hash, tag);
    }
  }

  lemma {:induction false} AssociativeUnder(h: Hasher, engine: string, rules: Rules, c: Corpus, d: Corpus, xs: seq<CorpusArchive>)
    requires Lawful(rules) && Sane(rules.name, c) && Sane(rules.name, d) && AllWellFormed(xs)
    requires |d.seeds| < TWO_64 && |MergeAll(rules, d, xs).seeds| < TWO_64
    ensures WellFormed(Export(h, engine, rules.name, d)) && WellFormed(Export(h, engine, rules.name, MergeAll(rules, d, xs)))
    ensures SameCorpus(Merge(rules, c, Export(h, engine, rules.name, MergeAll(rules, d, xs))), MergeAll(rules, Merge(rules, c, Export(h, engine, rules.name, d)), xs))
  {
    var left := Export(h, engine, rules.name, MergeAll(rules, d, xs));
    var right := Export(h, engine, rules.name, d);
    var l, r0 := Merge(rules, c, left), Merge(rules, c, right);
    var r := MergeAll(rules, r0, xs);
    MergeAllSane(rules, d, xs);
    MergeFirstSane(rules, c, left, |left.seeds|);
    MergeFirstSane(rules, c, right, |right.seeds|);
    MergeAllSane(rules, r0, xs);
    forall x ensures x in l.seeds <==> x in r.seeds {
      AssociativeSeeds(h, engine, rules, c, d, xs, x);
    }
    forall hash, tag ensures HasTag(l, hash, tag) <==> HasTag(r, hash, tag) {
      AssociativeTags(h, engine, rules, c, d, xs, hash, tag);
    }
    SaneDetermined(rules.name, l, r);
  }

  lemma {:induction false} AssociativeSeeds(h: Hasher, engine: string, rules: Rules, c: Corpus, d: Corpus, xs: seq<CorpusArchive>, x: CaseSeed)
    requires Lawful(rules) && AllWellFormed(xs) && |d.seeds| < TWO_64 && |MergeAll(rules, d, xs).seeds| < TWO_64
    ensures WellFormed(Export(h, engine, rules.name, d)) && WellFormed(Export(h, engine, rules.name, MergeAll(rules, d, xs)))
    ensures x in Merge(rules, c, Export(h, engine, rules.name, MergeAll(rules, d, xs))).seeds
            <==> x in MergeAll(rules, Merge(rules, c, Export(h, engine, rules.name, d)), xs).seeds
  {
    MergeSeeds(rules, c, Export(h, engine, rules.name, MergeAll(rules, d, xs)), x);
    ExportSeeds(h, engine, rules.name, MergeAll(rules, d, xs), x);
    MergeAllSeeds(rules, d, xs, x);
    MergeAllSeeds(rules, Merge(rules, c, Export(h, engine, rules.name, d)), xs, x);
    MergeSeeds(rules, c, Export(h, engine, rules.name, d), x);
    ExportSeeds(h, engine, rules.name, d, x);
  }

  lemma {:induction false} AssociativeTags(h: Hasher, engine: string, rules: Rules, c: Corpus, d: Corpus, xs: seq<CorpusArchive>, hash: string, tag: string)
    requires Lawful(rules) && Sane(rules.name, d) && AllWellFormed(xs) && |d.seeds| < TWO_64 && |MergeAll(rules, d, xs).seeds| < TWO_64
    ensures WellFormed(Export(h, engine, rules.name, d)) && WellFormed(Export(h, engine, rules.name, MergeAll(rules, d, xs)))
    ensures HasTag(Merge(rules, c, Export(h, engine, rules.name, MergeAll(rules, d, xs))), hash, tag)
            <==> HasTag(MergeAll(rules, Merge(rules, c, Export(h, engine, rules.name, d)), xs), hash, tag)
  {
    MergeAllSane(rules, d, xs);
    MergeTags(rules, c, Export(h, engine, rules.name, MergeAll(rules, d, xs)), hash, tag);
    ExportTags(h, engine, rules.name, MergeAll(rules, d, xs), hash, tag);
    MergeAllTags(rules, d, xs, hash, tag);
    MergeAllTags(rules, Merge(rules, c, Export(h, engine, rules.name, d)), xs, hash, tag);
    MergeTags(rules, c, Export(h, engine, rules.name, d), hash, tag);
    ExportTags(h, engine, rules.name, d, hash, tag);
  }

  /** Merging the export of a corpus that has itself merged archives is merging the export
      and the archives: exchange between corpora is associative. */
  lemma {:induction false} MergeIsAssociative(h: Hasher, engine: string, c: Corpus, d: Corpus, xs: seq<CorpusArchive>)
    requires Sane(HashNames(h), c) && Sane(HashNames(h), d) && AllWellFormed(xs)
    requires |d.seeds| < TWO_64 && |MergeAll(RulesOf(h), d, xs).seeds| < TWO_64
    ensures var name, rules := HashNames(h), RulesOf(h);
            SameCorpus(Merge(rules, c, Export(h, engine, name, MergeAll(rules, d, xs))),
                       MergeAll(rules, Merge(rules, c, Export(h, engine, name, d)), xs))
  {
    RulesAreLawful(h);
    AssociativeUnder(h, engine, RulesOf(h), c, d, xs);
  }
}
