/** Corpus archives (corpus_archive.rs): content hashes, verification, deterministic
    building, and the archive id as a fingerprint of the packed seeds.

    SHA-256 is opaque: `Hasher` holds one function for hashed bytes and one for hashed
    text. No property of it is assumed: where collisions matter, the conclusion names the
    two inputs that collide, and that a content hash holds no separator is part of a
    condition on the manifest. */
module Archive {
  import opened Prelude
  import opened ArchiveCodec
  import ManifestReading
  import opened Sorting

  /** Payload lengths are machine words. */
  type Payload = p: seq<u8> | |p| < TWO_64 witness []

  datatype CaseSeed = CaseSeed(id: u64, payload: Payload)

  datatype Hasher = Hasher(ofBytes: seq<u8> -> string, ofText: string -> string)

  // ----- content hashes -----

  /** The n lowest bytes of x, least significant first. */
  function LeBytes(x: nat, n: nat): (bytes: seq<u8>)
    ensures |bytes| == n
  {
    if n == 0 then [] else [x % 256] + LeBytes(x / 256, n - 1)
  }

  /** The shift of each byte of a machine word. */
  const WORD: seq<nat> := [0, 8, 16, 24, 32, 40, 48, 56]

  function WordBytes(x: u64): seq<u8> { LeBytes(x, |WORD|) }

  function SeedBytes(s: CaseSeed): seq<u8> { WordBytes(s.id) + WordBytes(|s.payload|) + s.payload }

  function ContentHash(h: Hasher, s: CaseSeed): string { h.ofBytes(SeedBytes(s)) }

  function Pow256(n: nat): nat { if n == 0 then 1 else 256 * Pow256(n - 1) }

  lemma {:induction false} LeBytesInjective(x: nat, y: nat, n: nat)
    requires x < Pow256(n) && y < Pow256(n) && LeBytes(x, n) == LeBytes(y, n)
    ensures x == y
  {
    if n > 0 {
      assert LeBytes(x, n)[0] == x % 256 && LeBytes(y, n)[0] == y % 256;
      assert LeBytes(x, n)[1..] == LeBytes(x / 256, n - 1) && LeBytes(y, n)[1..] == LeBytes(y / 256, n - 1);
      LeBytesInjective(x / 256, y / 256, n - 1);
    }
  }

  lemma {:induction false} Pow256Of8()
    ensures Pow256(8) == TWO_64
  {
    assert Pow256(2) == 0x1_0000;
    assert Pow256(4) == TWO_32;
    assert Pow256(6) == 0x1_0000_0000_0000;
  }

  /** The hashed bytes determine the seed, its id as well as its payload. */
  lemma {:induction false} SeedBytesInjective(s: CaseSeed, t: CaseSeed)
    ensures SeedBytes(s) == SeedBytes(t) <==> s == t
  {
    if SeedBytes(s) == SeedBytes(t) {
      var n := |WORD|;
      assert SeedBytes(s)[..n] == WordBytes(s.id) && SeedBytes(t)[..n] == WordBytes(t.id);
      assert SeedBytes(s)[2 * n..] == s.payload && SeedBytes(t)[2 * n..] == t.payload;
      Pow256Of8();
      LeBytesInjective(s.id, t.id, n);
    }
  }

  // ----- verification -----

  datatype CorpusArchive = CorpusArchive(manifest: ArchiveManifest, seeds: seq<CaseSeed>)

  datatype EntryFault = IdFault | LengthFault | HashFault

  datatype ArchiveError =
    | UnsupportedSchema(found: u32)
    | SeedCountMismatch(declared: u64, entryCount: nat, packed: nat)
    | EntryMismatch(index: nat, fault: EntryFault)
    | ManifestHashMismatch(expected: string, computed: string)
    | EngineMismatch(archiveEngine: string, currentEngine: string)

  const FORMAT_VERSION: u32 := 1

  /** What is wrong with an entry, looked at in this order. */
  function FaultOf(h: Hasher, e: ArchiveEntry, s: CaseSeed): Option<EntryFault> {
    if e.id != s.id then Some(IdFault)
    else if e.payloadLen != |s.payload| then Some(LengthFault)
    else if e.contentHash != ContentHash(h, s) then Some(HashFault)
    else None
  }

  predicate EntriesMatch(h: Hasher, a: CorpusArchive) {
    && |a.manifest.entries| == |a.seeds|
    && forall i :: 0 <= i < |a.seeds| ==> FaultOf(h, a.manifest.entries[i], a.seeds[i]).None?
  }

  predicate CountsMatch(a: CorpusArchive) {
    a.manifest.seedCount == |a.seeds| && |a.manifest.entries| == |a.seeds|
  }

  predicate Verified(h: Hasher, a: CorpusArchive) {
    && a.manifest.schema == FORMAT_VERSION
    && CountsMatch(a)
    && EntriesMatch(h, a)
    && a.manifest.manifestHash == h.ofText(Encoding(a.manifest))
  }

  /** `verify` succeeds exactly on verified archives; otherwise it reports the first
      failing check, and for entries the first failing one. */
  method Verify(h: Hasher, a: CorpusArchive) returns (r: Result<(), ArchiveError>)
    ensures r.Ok? <==> Verified(h, a)
    ensures match r
            case Ok(_) => true
            case Err(UnsupportedSchema(found)) => found == a.manifest.schema != FORMAT_VERSION
            case Err(SeedCountMismatch(declared, entries, packed)) =>
              && a.manifest.schema == FORMAT_VERSION && !CountsMatch(a)
              && declared == a.manifest.seedCount && entries == |a.manifest.entries| && packed == |a.seeds|
            case Err(EntryMismatch(index, fault)) =>
              && a.manifest.schema == FORMAT_VERSION && CountsMatch(a) && index < |a.seeds|
              && FaultOf(h, a.manifest.entries[index], a.seeds[index]) == Some(fault)
              && forall i :: 0 <= i < index ==> FaultOf(h, a.manifest.entries[i], a.seeds[i]).None?
            case Err(ManifestHashMismatch(expected, computed)) =>
              && a.manifest.schema == FORMAT_VERSION && CountsMatch(a) && EntriesMatch(h, a)
              && expected == a.manifest.manifestHash != computed == h.ofText(Encoding(a.manifest))
            case Err(EngineMismatch(_, _)) => false
  {
    if a.manifest.schema != FORMAT_VERSION {
      return Err(UnsupportedSchema(a.manifest.schema));
    }
    if a.manifest.seedCount != |a.seeds| || |a.manifest.entries| != |a.seeds| {
      return Err(SeedCountMismatch(a.manifest.seedCount, |a.manifest.entries|, |a.seeds|));
    }
    for index := 0 to |a.seeds|
      invariant forall i :: 0 <= i < index ==> FaultOf(h, a.manifest.entries[i], a.seeds[i]).None?
    {
      var entry, seed := a.manifest.entries[index], a.seeds[index];
      if entry.id != seed.id {
        return Err(EntryMismatch(index, IdFault));
      }
      if entry.payloadLen != |seed.payload| {
        return Err(EntryMismatch(index, LengthFault));
      }
      if entry.contentHash != ContentHash(h, seed) {
        return Err(EntryMismatch(index, HashFault));
      }
    }
    var encoding := ManifestCanonicalEncoding(a.manifest);
    var recomputed := h.ofText(encoding);
    if a.manifest.manifestHash != recomputed {
      return Err(ManifestHashMismatch(a.manifest.manifestHash, recomputed));
    }
    return Ok(());
  }

  /** The first fault of an entry: another id, then another length, then another hash of the
      seed's bytes. */
  lemma {:induction false} FaultByFields(h: Hasher, e: ArchiveEntry, s: CaseSeed)
    ensures var fault := FaultOf(h, e, s);
            && (fault == Some(IdFault) <==> e.id != s.id)
            && (fault == Some(LengthFault) <==> e.id == s.id && e.payloadLen != |s.payload|)
            && (fault == Some(HashFault) <==> e.id == s.id && e.payloadLen == |s.payload| && e.contentHash != h.ofBytes(SeedBytes(s)))
  {}

  /** A verified archive has format 1, as many seeds as declared and as entries, entries with
      the ids, lengths and hashes of their seeds, and the hash of its encoding. */
  lemma {:induction false} VerifiedByFields(h: Hasher, a: CorpusArchive)
    ensures var m := a.manifest;
            Verified(h, a) <==>
              && m.schema == 1 && m.seedCount == |m.entries| == |a.seeds| && m.manifestHash == h.ofText(Encoding(m))
              && (forall i :: 0 <= i < |a.seeds| ==>
                    && m.entries[i].id == a.seeds[i].id && m.entries[i].payloadLen == |a.seeds[i].payload|
                    && m.entries[i].contentHash == h.ofBytes(SeedBytes(a.seeds[i])))
  {
    if |a.manifest.entries| == |a.seeds| {
      forall i | 0 <= i < |a.seeds|
        ensures FaultOf(h, a.manifest.entries[i], a.seeds[i]).None? <==>
                  && a.manifest.entries[i].id == a.seeds[i].id && a.manifest.entries[i].payloadLen == |a.seeds[i].payload|
                  && a.manifest.entries[i].contentHash == h.ofBytes(SeedBytes(a.seeds[i]))
      {}
    }
  }

  // ----- the archive id -----

  /** What an archive says about a seed. */
  function EntryFor(h: Hasher, s: CaseSeed, tags: seq<string>): ArchiveEntry {
    ArchiveEntry(ContentHash(h, s), s.id, |s.payload|, tags)
  }

  /** Two manifests whose encodings differ but hash alike. */
  predicate ManifestCollision(h: Hasher, a: CorpusArchive, b: CorpusArchive) {
    Encoding(a.manifest) != Encoding(b.manifest) && h.ofText(Encoding(a.manifest)) == h.ofText(Encoding(b.manifest))
  }

  /** Two different seeds packed at the same position whose content hashes alike. */
  predicate SeedCollision(h: Hasher, a: CorpusArchive, b: CorpusArchive) {
    exists i :: 0 <= i < |a.seeds| && i < |b.seeds| && a.seeds[i] != b.seeds[i]
                && SeedBytes(a.seeds[i]) != SeedBytes(b.seeds[i])
                && ContentHash(h, a.seeds[i]) == ContentHash(h, b.seeds[i])
  }

  /** What must be free of separators: one of the manifests altogether, or of both the
      engine version, the content hashes and the entry tags. */
  predicate PlainEnough(m: ArchiveManifest, n: ArchiveManifest) {
    PlainManifest(m) || PlainManifest(n) || (PlainEntries(m) && PlainEntries(n))
  }

  /** The archive id determines the corpus: two verified archives with one id, plain enough,
      pack the same seeds position by position, or else exhibit a collision of the hash
      between the two of them. With entries plain in both they carry the same tags, and if
      nothing in either contains a separator they are described alike. */
  lemma {:induction false} ArchiveIdDeterminesCorpus(h: Hasher, a: CorpusArchive, b: CorpusArchive)
    requires Verified(h, a) && Verified(h, b) && a.manifest.manifestHash == b.manifest.manifestHash
    requires PlainEnough(a.manifest, b.manifest)
    requires !ManifestCollision(h, a, b) && !SeedCollision(h, a, b)
    ensures a.seeds == b.seeds && a.manifest.engineVersion == b.manifest.engineVersion
    ensures PlainEntries(a.manifest) && PlainEntries(b.manifest) ==> a.manifest.entries == b.manifest.entries
    ensures PlainManifest(a.manifest) && PlainManifest(b.manifest) ==> SameManifest(a.manifest, b.manifest)
  {
    if PlainManifest(a.manifest) {
      ManifestReading.PlainPartnerSettlesSeeds(a.manifest, b.manifest);
    } else if PlainManifest(b.manifest) {
      ManifestReading.PlainPartnerSettlesSeeds(b.manifest, a.manifest);
    }
    if PlainEntries(a.manifest) && PlainEntries(b.manifest) {
      EncodingDeterminesEntries(a.manifest, b.manifest);
    }
    if PlainManifest(a.manifest) && PlainManifest(b.manifest) {
      EncodingIsCanonical(a.manifest, b.manifest);
    }
    SameHeadsSameSeeds(h, a, b);
  }

  lemma {:induction false} SameHeadsSameSeeds(h: Hasher, a: CorpusArchive, b: CorpusArchive)
    requires EntriesMatch(h, a) && EntriesMatch(h, b) && !SeedCollision(h, a, b)
    requires |a.seeds| == |b.seeds|
    requires forall i :: 0 <= i < |a.seeds| ==> ManifestReading.SameHead(a.manifest.entries[i], b.manifest.entries[i])
    ensures a.seeds == b.seeds
  {
    forall i | 0 <= i < |a.seeds|
      ensures a.seeds[i] == b.seeds[i]
    {
      assert FaultOf(h, a.manifest.entries[i], a.seeds[i]).None?;
      assert FaultOf(h, b.manifest.entries[i], b.seeds[i]).None?;
      SeedBytesInjective(a.seeds[i], b.seeds[i]);
    }
  }

  /** An archive of two seeds with these tags, sealed. */
  function Pair(h: Hasher, engine: string, s: CaseSeed, tags: seq<string>, t: CaseSeed, more: seq<string>): CorpusArchive {
    var manifest := ArchiveManifest(FORMAT_VERSION, engine, 2, [EntryFor(h, s, tags), EntryFor(h, t, more)], [], None, "");
    CorpusArchive(manifest.(manifestHash := h.ofText(Encoding(manifest))), [s, t])
  }

  lemma {:induction false} PairVerifies(h: Hasher, engine: string, s: CaseSeed, tags: seq<string>, t: CaseSeed, more: seq<string>)
    ensures Verified(h, Pair(h, engine, s, tags, t, more))
  {
    var a := Pair(h, engine, s, tags, t, more);
    EncodingIgnoresHash(a.manifest.(manifestHash := ""), a.manifest.manifestHash);
    assert a.manifest.(manifestHash := "").(manifestHash := a.manifest.manifestHash) == a.manifest;
  }

  /** That condition is needed: with a tag that goes on like the entry of another seed, two
      verified archives share their id, by equal encodings, and pack different seeds. */
  lemma {:induction false} TagForgesSeed(h: Hasher, engine: string, r: CaseSeed, s: CaseSeed, t: CaseSeed, x: string, y: string)
    ensures var a := Pair(h, engine, r, [ForgingTag(x, EntryFor(h, s, [])), y], t, []);
            var b := Pair(h, engine, r, [x], s, [ForgingTag(y, EntryFor(h, t, []))]);
            && Verified(h, a) && Verified(h, b) && a.manifest.manifestHash == b.manifest.manifestHash
            && !ManifestCollision(h, a, b) && (a.seeds == b.seeds <==> s == t)
  {
    var e, f, g := EntryFor(h, r, []), EntryFor(h, s, []), EntryFor(h, t, []);
    var a := Pair(h, engine, r, [ForgingTag(x, f), y], t, []);
    var b := Pair(h, engine, r, [x], s, [ForgingTag(y, g)]);
    PairVerifies(h, engine, r, [ForgingTag(x, f), y], t, []);
    PairVerifies(h, engine, r, [x], s, [ForgingTag(y, g)]);
    TagForgesEntry(e, f, g, x, y);
    var m := a.manifest.(manifestHash := "");
    var n := b.manifest.(manifestHash := "");
    EntriesTextSettles(m, m.entries, n.entries);
    assert m.(entries := m.entries) == m && m.(entries := n.entries) == n;
    EncodingIgnoresHash(m, a.manifest.manifestHash);
    EncodingIgnoresHash(n, b.manifest.manifestHash);
    assert m.(manifestHash := a.manifest.manifestHash) == a.manifest && n.(manifestHash := b.manifest.manifestHash) == b.manifest;
    assert a.seeds[1] == t && b.seeds[1] == s;
  }

  // ----- building -----

  datatype TaggedSeed = TaggedSeed(seed: CaseSeed, tags: seq<string>)

  function SeedLeq(s: CaseSeed, t: CaseSeed): bool {
    if s.id == t.id then BytesLeq(s.payload, t.payload) else s.id < t.id
  }

  function TaggedLeq(s: TaggedSeed, t: TaggedSeed): bool { SeedLeq(s.seed, t.seed) }

  lemma {:induction false} SeedOrder()
    ensures Total(SeedLeq) && Antisymmetric(SeedLeq) && Total(TaggedLeq)
  {
    BytesOrder();
  }

  function EntryOf(h: Hasher, ts: TaggedSeed): ArchiveEntry {
    EntryFor(h, ts.seed, SortDedup(StringLeq, ts.tags))
  }

  function EntriesOf(h: Hasher, ts: seq<TaggedSeed>): seq<ArchiveEntry> { seq(|ts|, i requires 0 <= i < |ts| => EntryOf(h, ts[i])) }

  function SeedsOf(ts: seq<TaggedSeed>): seq<CaseSeed> { seq(|ts|, i requires 0 <= i < |ts| => ts[i].seed) }

  function Sealed(h: Hasher, engine: string, sorted: seq<TaggedSeed>, prov: seq<string>, notes: Option<string>): CorpusArchive
    requires |sorted| < TWO_64
  {
    var manifest := ArchiveManifest(FORMAT_VERSION, engine, |sorted|, EntriesOf(h, sorted),
                                    SortDedup(StringLeq, prov), notes, "");
    CorpusArchive(manifest.(manifestHash := h.ofText(Encoding(manifest))), SeedsOf(sorted))
  }

  lemma {:induction false} PackedNext(h: Hasher, ts: seq<TaggedSeed>, i: nat)
    requires i < |ts|
    ensures SeedsOf(ts[..i + 1]) == SeedsOf(ts[..i]) + [ts[i].seed]
    ensures EntriesOf(h, ts[..i + 1]) == EntriesOf(h, ts[..i]) + [EntryOf(h, ts[i])]
  {}

  /** The packing loop. */
  method Pack(h: Hasher, sorted: seq<TaggedSeed>) returns (packed: seq<CaseSeed>, entries: seq<ArchiveEntry>)
    ensures packed == SeedsOf(sorted) && entries == EntriesOf(h, sorted)
  {
    packed, entries := [], [];
    for i := 0 to |sorted|
      invariant packed == SeedsOf(sorted[..i]) && entries == EntriesOf(h, sorted[..i])
    {
      PackedNext(h, sorted, i);
      var ts := sorted[i];
      entries := entries + [ArchiveEntry(ContentHash(h, ts.seed), ts.seed.id, |ts.seed.payload|, SortDedup(StringLeq, ts.tags))];
      packed := packed + [ts.seed];
    }
    assert sorted[..|sorted|] == sorted;
  }

  /** `build_tagged`. */
  method BuildTagged(h: Hasher, engine: string, seeds: seq<TaggedSeed>, prov: seq<string>, notes: Option<string>)
    returns (a: CorpusArchive)
    requires |seeds| < TWO_64
    ensures |Sort(TaggedLeq, seeds)| == |seeds|
    ensures a == Sealed(h, engine, Sort(TaggedLeq, seeds), prov, notes)
  {
    SortLength(TaggedLeq, seeds);
    var sorted := Sort(TaggedLeq, seeds);
    var packed, entries := Pack(h, sorted);
    var manifest := ArchiveManifest(FORMAT_VERSION, engine, |packed|, entries, SortDedup(StringLeq, prov), notes, "");
    var encoding := ManifestCanonicalEncoding(manifest);
    a := CorpusArchive(manifest.(manifestHash := h.ofText(encoding)), packed);
  }

  lemma {:induction false} EncodingIgnoresHash(m: ArchiveManifest, hash: string)
    ensures Encoding(m.(manifestHash := hash)) == Encoding(m)
  {
    assert HeaderFields(m.(manifestHash := hash)) == HeaderFields(m) && NotesField(m.(manifestHash := hash)) == NotesField(m);
  }

  /** Every built archive verifies. */
  lemma {:induction false} BuiltVerifies(h: Hasher, engine: string, sorted: seq<TaggedSeed>, prov: seq<string>, notes: Option<string>)
    requires |sorted| < TWO_64
    ensures Verified(h, Sealed(h, engine, sorted, prov, notes))
  {
    var a := Sealed(h, engine, sorted, prov, notes);
    EncodingIgnoresHash(a.manifest.(manifestHash := ""), a.manifest.manifestHash);
    assert a.manifest.(manifestHash := "").(manifestHash := a.manifest.manifestHash) == a.manifest;
  }

  /** Inputs that repeat a seed repeat its tags too, up to order and repetition. */
  predicate ConsistentTags(seeds: seq<TaggedSeed>) {
    forall i, j :: 0 <= i < |seeds| && 0 <= j < |seeds| && seeds[i].seed == seeds[j].seed ==>
      SortDedup(StringLeq, seeds[i].tags) == SortDedup(StringLeq, seeds[j].tags)
  }

  lemma {:induction false} SeedsConcat(a: seq<TaggedSeed>, b: seq<TaggedSeed>)
    ensures SeedsOf(a + b) == SeedsOf(a) + SeedsOf(b)
  {}

  lemma {:induction false} SeedsBag(a: seq<TaggedSeed>, x: TaggedSeed, b: seq<TaggedSeed>)
    ensures multiset(SeedsOf(a + [x] + b)) == multiset(SeedsOf(a + b)) + multiset{x.seed}
  {
    SeedsConcat(a + [x], b);
    SeedsConcat(a, [x]);
    SeedsConcat(a, b);
    BagMiddle(SeedsOf(a), [x.seed], SeedsOf(b));
  }

  lemma {:induction false} SeedsMultiset(s: seq<TaggedSeed>, t: seq<TaggedSeed>)
    requires multiset(s) == multiset(t)
    ensures multiset(SeedsOf(s)) == multiset(SeedsOf(t))
    decreases |s|
  {
    if s == [] {
      assert |multiset(t)| == 0;
    } else {
      var init, x, a, b := Locate(s, t);
      SeedsMultiset(init, a + b);
      SeedsBag(init, x, []);
      assert init + [x] + [] == s && init + [] == init;
      SeedsBag(a, x, b);
    }
  }

  lemma {:induction false} SortedSeedsAgree(s: seq<TaggedSeed>, t: seq<TaggedSeed>)
    requires multiset(s) == multiset(t)
    ensures SeedsOf(Sort(TaggedLeq, s)) == SeedsOf(Sort(TaggedLeq, t))
  {
    var a, b := Sort(TaggedLeq, s), Sort(TaggedLeq, t);
    SeedOrder();
    SortOrdered(TaggedLeq, s);
    SortOrdered(TaggedLeq, t);
    SeedsMultiset(a, b);
    ArrangementUnique(SeedLeq, SeedsOf(a), SeedsOf(b));
  }

  lemma {:induction false} TagSetsAgree(p: seq<string>, q: seq<string>)
    requires forall x :: x in p <==> x in q
    ensures SortDedup(StringLeq, p) == SortDedup(StringLeq, q)
  {
    StringOrder();
    SortDedupIsAscending(StringLeq, p);
    SortDedupIsAscending(StringLeq, q);
    AscendingUnique(StringLeq, SortDedup(StringLeq, p), SortDedup(StringLeq, q));
  }

  lemma {:induction false} SortedEntryAgrees(h: Hasher, s: seq<TaggedSeed>, t: seq<TaggedSeed>, i: nat)
    requires multiset(s) == multiset(t) && ConsistentTags(s)
    requires i < |Sort(TaggedLeq, s)| && i < |Sort(TaggedLeq, t)|
    ensures EntryOf(h, Sort(TaggedLeq, s)[i]) == EntryOf(h, Sort(TaggedLeq, t)[i])
  {
    var x, y := Sort(TaggedLeq, s)[i], Sort(TaggedLeq, t)[i];
    SortedSeedsAgree(s, t);
    assert x.seed == SeedsOf(Sort(TaggedLeq, s))[i] && y.seed == SeedsOf(Sort(TaggedLeq, t))[i];
    SeedOrder();
    SortMembers(TaggedLeq, s, x);
    SortMembers(TaggedLeq, t, y);
    SameMembers(s, t, y);
    SameTags(s, x, y);
  }

  lemma {:induction false} SealedAgree(h: Hasher, engine: string, a: seq<TaggedSeed>, b: seq<TaggedSeed>, p: seq<string>, q: seq<string>, notes: Option<string>)
    requires |a| == |b| < TWO_64 && SeedsOf(a) == SeedsOf(b) && EntriesOf(h, a) == EntriesOf(h, b)
    requires SortDedup(StringLeq, p) == SortDedup(StringLeq, q)
    ensures Sealed(h, engine, a, p, notes) == Sealed(h, engine, b, q, notes)
  {}

  lemma {:induction false} EntriesAgree(h: Hasher, s: seq<TaggedSeed>, t: seq<TaggedSeed>, a: seq<TaggedSeed>, b: seq<TaggedSeed>)
    requires a == Sort(TaggedLeq, s) && b == Sort(TaggedLeq, t) && |a| == |b|
    requires multiset(s) == multiset(t) && ConsistentTags(s)
    ensures EntriesOf(h, a) == EntriesOf(h, b)
  {
    forall i | 0 <= i < |a|
      ensures EntryOf(h, a[i]) == EntryOf(h, b[i])
    {
      SortedEntryAgrees(h, s, t, i);
    }
  }

  /** Building does not depend on the order of the seeds, nor on the order or repetition
      of tags, provided repeated seeds carry the same tags. */
  lemma {:induction false} BuildForgetsOrder(h: Hasher, engine: string, s: seq<TaggedSeed>, t: seq<TaggedSeed>,
                          p: seq<string>, q: seq<string>, notes: Option<string>)
    requires multiset(s) == multiset(t) && ConsistentTags(s) && |s| < TWO_64 && |t| < TWO_64
    requires forall x :: x in p <==> x in q
    ensures |Sort(TaggedLeq, s)| == |s| && |Sort(TaggedLeq, t)| == |t|
    ensures Sealed(h, engine, Sort(TaggedLeq, s), p, notes) == Sealed(h, engine, Sort(TaggedLeq, t), q, notes)
  {
    var a, b := Sort(TaggedLeq, s), Sort(TaggedLeq, t);
    SortLength(TaggedLeq, s);
    SortLength(TaggedLeq, t);
    SortedSeedsAgree(s, t);
    TagSetsAgree(p, q);
    assert |a| == |SeedsOf(a)| == |SeedsOf(b)| == |b|;
    EntriesAgree(h, s, t, a, b);
    SealedAgree(h, engine, a, b, p, q, notes);
  }

  lemma {:induction false} SameTags(s: seq<TaggedSeed>, x: TaggedSeed, y: TaggedSeed)
    requires ConsistentTags(s) && x in s && y in s && x.seed == y.seed
    ensures SortDedup(StringLeq, x.tags) == SortDedup(StringLeq, y.tags)
  {
    var i :| 0 <= i < |s| && s[i] == x;
    var j :| 0 <= j < |s| && s[j] == y;
  }

  function WithSeed(seed: CaseSeed): TaggedSeed -> bool { (ts: TaggedSeed) => ts.seed == seed }

  /** Of a seed given twice, the one that comes first comes first in the archive. */
  lemma {:induction false} FirstComesFirst(x: TaggedSeed, y: TaggedSeed, rest: seq<TaggedSeed>) returns (i: nat)
    requires x.seed == y.seed
    ensures var sorted := Sort(TaggedLeq, [x, y] + rest);
            i < |sorted| && sorted[i] == x && forall j :: 0 <= j < i ==> sorted[j].seed != x.seed
  {
    SeedOrder();
    var p := WithSeed(x.seed);
    assert [x, y] + rest == [x] + ([y] + rest);
    ThoseFirst(p, x, [y] + rest);
    SortStable(TaggedLeq, p, [x, y] + rest);
    i := ThoseHead(p, Sort(TaggedLeq, [x, y] + rest));
  }

  /** The archive, whatever the number of seeds; what exceeds a machine word is not built. */
  function BuiltFrom(h: Hasher, engine: string, s: seq<TaggedSeed>, p: seq<string>, notes: Option<string>): CorpusArchive
    requires |s| < TWO_64
  {
    SortLength(TaggedLeq, s);
    Sealed(h, engine, Sort(TaggedLeq, s), p, notes)
  }

  lemma {:induction false} FirstTagsShow(h: Hasher, engine: string, x: TaggedSeed, y: TaggedSeed, rest: seq<TaggedSeed>, p: seq<string>, notes: Option<string>)
    requires x.seed == y.seed && SortDedup(StringLeq, x.tags) != SortDedup(StringLeq, y.tags) && |rest| + 2 < TWO_64
    ensures BuiltFrom(h, engine, [x, y] + rest, p, notes) != BuiltFrom(h, engine, [y, x] + rest, p, notes)
  {
    var a, b := Sort(TaggedLeq, [x, y] + rest), Sort(TaggedLeq, [y, x] + rest);
    var i := FirstComesFirst(x, y, rest);
    var j := FirstComesFirst(y, x, rest);
    EntryTags(h, engine, [x, y] + rest, p, notes, i);
    EntryTags(h, engine, [y, x] + rest, p, notes, j);
    SeedAt([x, y] + rest, [y, x] + rest, i, j, x.seed);
  }

  /** Sorted alike, a seed is first met at the same place. */
  lemma {:induction false} SeedAt(s: seq<TaggedSeed>, t: seq<TaggedSeed>, i: nat, j: nat, seed: CaseSeed)
    requires multiset(s) == multiset(t)
    requires var a := Sort(TaggedLeq, s); i < |a| && a[i].seed == seed && forall k :: 0 <= k < i ==> a[k].seed != seed
    requires var b := Sort(TaggedLeq, t); j < |b| && b[j].seed == seed && forall k :: 0 <= k < j ==> b[k].seed != seed
    ensures i == j
  {
    SortedSeedsAgree(s, t);
    var a, b := Sort(TaggedLeq, s), Sort(TaggedLeq, t);
    assert SeedsOf(a)[i] == seed && SeedsOf(b)[j] == seed;
    forall k | 0 <= k < i ensures SeedsOf(a)[k] != seed {}
    forall k | 0 <= k < j ensures SeedsOf(b)[k] != seed {}
  }

  lemma {:induction false} EntryTags(h: Hasher, engine: string, s: seq<TaggedSeed>, p: seq<string>, notes: Option<string>, i: nat)
    requires |s| < TWO_64 && i < |Sort(TaggedLeq, s)|
    ensures var built := BuiltFrom(h, engine, s, p, notes);
            i < |built.manifest.entries| && built.manifest.entries[i].tags == SortDedup(StringLeq, Sort(TaggedLeq, s)[i].tags)
  {}

  /** Every order of the same seeds builds the same archive. */
  ghost predicate OrderBlind(h: Hasher, engine: string, s: seq<TaggedSeed>, p: seq<string>, notes: Option<string>)
    requires |s| < TWO_64
  {
    forall t :: multiset(t) == multiset(s) && |t| == |s| ==> BuiltFrom(h, engine, t, p, notes) == BuiltFrom(h, engine, s, p, notes)
  }

  lemma {:induction false} ConsistentIsBlind(h: Hasher, engine: string, s: seq<TaggedSeed>, p: seq<string>, notes: Option<string>)
    requires |s| < TWO_64 && ConsistentTags(s)
    ensures OrderBlind(h, engine, s, p, notes)
  {
    forall t | multiset(t) == multiset(s) && |t| == |s|
      ensures BuiltFrom(h, engine, t, p, notes) == BuiltFrom(h, engine, s, p, notes)
    {
      BuildForgetsOrder(h, engine, s, t, p, p, notes);
    }
  }

  lemma {:induction false} InconsistentShows(h: Hasher, engine: string, s: seq<TaggedSeed>, p: seq<string>, notes: Option<string>, x: TaggedSeed, y: TaggedSeed)
    requires |s| < TWO_64 && x in s && y in s && x.seed == y.seed && SortDedup(StringLeq, x.tags) != SortDedup(StringLeq, y.tags)
    ensures !OrderBlind(h, engine, s, p, notes)
  {
    var rest := BothInFront(s, x, y);
    var t, u := [x, y] + rest, [y, x] + rest;
    assert |t| == |multiset(t)| && |u| == |multiset(u)| && |s| == |multiset(s)|;
    FirstTagsShow(h, engine, x, y, rest, p, notes);
    TwoOrdersDiffer(h, engine, s, t, u, p, notes);
  }

  lemma {:induction false} TwoOrdersDiffer(h: Hasher, engine: string, s: seq<TaggedSeed>, t: seq<TaggedSeed>, u: seq<TaggedSeed>,
                        p: seq<string>, notes: Option<string>)
    requires |s| == |t| == |u| < TWO_64 && multiset(t) == multiset(s) && multiset(u) == multiset(s)
    requires BuiltFrom(h, engine, t, p, notes) != BuiltFrom(h, engine, u, p, notes)
    ensures !OrderBlind(h, engine, s, p, notes)
  {}

  /** Archives come out the same for every order of the seeds exactly when repeated seeds
      carry the same tags. */
  lemma {:induction false} BuildForgetsOrderIff(h: Hasher, engine: string, s: seq<TaggedSeed>, p: seq<string>, notes: Option<string>)
    requires |s| < TWO_64
    ensures OrderBlind(h, engine, s, p, notes) <==> ConsistentTags(s)
  {
    if ConsistentTags(s) {
      ConsistentIsBlind(h, engine, s, p, notes);
    } else {
      var i, j :| 0 <= i < |s| && 0 <= j < |s| && s[i].seed == s[j].seed && SortDedup(StringLeq, s[i].tags) != SortDedup(StringLeq, s[j].tags);
      InconsistentShows(h, engine, s, p, notes, s[i], s[j]);
    }
  }

  // ----- archives in numbers -----

  /** The number whose digits to base 256 these are, the lowest first. */
  function NumberOf(digits: seq<u8>): nat { if digits == [] then 0 else digits[0] + 256 * NumberOf(digits[1..]) }

  lemma {:induction false} LeBytesAreDigits(x: nat, n: nat)
    requires x < Pow256(n)
    ensures NumberOf(LeBytes(x, n)) == x
  {
    if n > 0 {
      LeBytesAreDigits(x / 256, n - 1);
      assert LeBytes(x, n)[1..] == LeBytes(x / 256, n - 1);
    }
  }

  /** What is hashed of a seed: eight bytes of its id and eight of its payload's length, the
      lowest first, and the payload. */
  lemma {:induction false} SeedBytesByNumbers(s: CaseSeed)
    ensures var b := SeedBytes(s);
            |b| == 16 + |s.payload| && NumberOf(b[..8]) == s.id && NumberOf(b[8..16]) == |s.payload| && b[16..] == s.payload
  {
    Pow256Of8();
    LeBytesAreDigits(s.id, 8);
    LeBytesAreDigits(|s.payload|, 8);
    assert SeedBytes(s)[..8] == WordBytes(s.id) && SeedBytes(s)[8..16] == WordBytes(|s.payload|);
  }

  lemma {:induction false} SeedLeqByNumbers(s: CaseSeed, t: CaseSeed)
    ensures SeedLeq(s, t) <==> s == t || s.id < t.id || (s.id == t.id && BytesBefore(s.payload, t.payload))
  {
    BytesLeqMeans(s.payload, t.payload);
    forall k: nat ensures !BytesBeforeAt(s.payload, s.payload, k) {}
  }

  /** A built archive packs the seeds up by id, and by payload bytes where ids are equal. */
  lemma {:induction false} BuiltAscends(h: Hasher, engine: string, seeds: seq<TaggedSeed>, p: seq<string>, notes: Option<string>, i: nat, j: nat)
    requires |seeds| < TWO_64 && i < j < |BuiltFrom(h, engine, seeds, p, notes).seeds|
    ensures var a, b := BuiltFrom(h, engine, seeds, p, notes).seeds[i], BuiltFrom(h, engine, seeds, p, notes).seeds[j];
            a == b || a.id < b.id || (a.id == b.id && BytesBefore(a.payload, b.payload))
  {
    SeedOrder();
    SortOrdered(TaggedLeq, seeds);
    var sorted := Sort(TaggedLeq, seeds);
    assert TaggedLeq(sorted[i], sorted[j]);
    SeedLeqByNumbers(sorted[i].seed, sorted[j].seed);
  }

  /** Its manifest has format 1 and says of itself and of each seed what is the case; the
      seeds and the tags of each are those given, the tags going up without repetition. */
  lemma {:induction false} BuiltByFields(h: Hasher, engine: string, seeds: seq<TaggedSeed>, p: seq<string>, notes: Option<string>, i: nat)
    requires |seeds| < TWO_64 && i < |seeds|
    ensures var a := BuiltFrom(h, engine, seeds, p, notes);
            var m := a.manifest;
            && m.schema == 1 && m.engineVersion == engine && m.seedCount == |seeds| == |a.seeds| == |m.entries| && m.coverageNotes == notes
            && m.entries[i].id == a.seeds[i].id && m.entries[i].payloadLen == |a.seeds[i].payload|
            && m.entries[i].contentHash == h.ofBytes(SeedBytes(a.seeds[i]))
            && UpAndSame(m.provenanceTags, p)
            && exists ts :: ts in seeds && ts.seed == a.seeds[i] && UpAndSame(m.entries[i].tags, ts.tags)
  {
    SortLength(TaggedLeq, seeds);
    var sorted := Sort(TaggedLeq, seeds);
    SeedOrder();
    SortMembers(TaggedLeq, seeds, sorted[i]);
    assert sorted[i] in sorted;
    TidiedByText(sorted[i].tags);
    TidiedByText(p);
  }

  /** The same texts, each once, going up. */
  ghost predicate UpAndSame(tidied: seq<string>, given: seq<string>) {
    && (forall i, j :: 0 <= i < j < |tidied| ==> TextBefore(tidied[i], tidied[j]))
    && (forall t :: t in tidied <==> t in given)
  }

  lemma {:induction false} TidiedByText(tags: seq<string>)
    ensures UpAndSame(SortDedup(StringLeq, tags), tags)
  {
    StringOrder();
    SortDedupIsAscending(StringLeq, tags);
    var tidied := SortDedup(StringLeq, tags);
    forall i, j | 0 <= i < j < |tidied| ensures TextBefore(tidied[i], tidied[j]) {
      StringLeqMeans(tidied[i], tidied[j]);
    }
  }
}
