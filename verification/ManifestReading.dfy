/** Reading a canonical manifest encoding (corpus_archive.rs) against another one that it
    equals: when one of two manifests has no separators, each field of the other covers a
    run of its fields, and counting keys shows that no entry can be hidden in a tag. */
module ManifestReading {
  import opened Prelude
  import opened ArchiveCodec
  import Decimal

  // ----- counting keys -----

  function CountOf(fs: seq<Field>, k: Key): nat {
    if fs == [] then 0 else (if fs[0].key == k then 1 else 0) + CountOf(fs[1..], k)
  }

  lemma {:induction false} CountConcat(fs: seq<Field>, gs: seq<Field>, k: Key)
    ensures CountOf(fs + gs, k) == CountOf(fs, k) + CountOf(gs, k)
  {
    if fs == [] {
      assert fs + gs == gs;
    } else {
      CountConcat(fs[1..], gs, k);
      assert (fs + gs)[1..] == fs[1..] + gs;
    }
  }

  lemma {:induction false} CountDrop(fs: seq<Field>, n: nat, k: Key)
    requires n <= |fs|
    ensures CountOf(fs[n..], k) <= CountOf(fs, k)
    ensures n > 0 ==> CountOf(fs[n..], k) + (if fs[0].key == k then 1 else 0) <= CountOf(fs, k)
  {
    if n > 0 {
      CountDrop(fs[1..], n - 1, k);
      assert fs[1..][n - 1..] == fs[n..];
    }
  }

  lemma {:induction false} TagCount(key: Key, tags: seq<string>, k: Key)
    ensures CountOf(TagFields(key, tags), k) == if k == key then |tags| else 0
  {
    if tags != [] {
      TagCount(key, tags[1..], k);
      assert TagFields(key, tags)[1..] == TagFields(key, tags[1..]);
    }
  }

  lemma {:induction false} HeadCount(e: ArchiveEntry, k: Key)
    ensures CountOf(EntryHead(e), k) == if k == HashKey || k == IdKey || k == LenKey then 1 else 0
  {
    var h := EntryHead(e);
    assert h[1..][1..] == h[2..] && h[2..][1..] == [];
    assert CountOf(h[2..], k) == if k == LenKey then 1 else 0;
    assert CountOf(h[1..], k) == if k == IdKey || k == LenKey then 1 else 0;
  }

  /** Each entry writes one hash, one id and one length. */
  lemma {:induction false} EntriesCount(es: seq<ArchiveEntry>, k: Key)
    requires k != TagKey
    ensures CountOf(EntriesFields(es), k) == if k == HashKey || k == IdKey || k == LenKey then |es| else 0
  {
    if es != [] {
      HeadCount(es[0], k);
      TagCount(TagKey, es[0].tags, k);
      CountConcat(EntryHead(es[0]), TagFields(TagKey, es[0].tags), k);
      EntriesCount(es[1..], k);
      CountConcat(EntryFields(es[0]), EntriesFields(es[1..]), k);
    }
  }

  lemma {:induction false} LaterCount(m: ArchiveManifest, k: Key)
    requires k != ProvKey && k != CoverageKey
    ensures CountOf(LaterFields(m), k) == 0
  {
    TagCount(ProvKey, m.provenanceTags, k);
    CountConcat(TagFields(ProvKey, m.provenanceTags), NotesField(m), k);
    assert NotesField(m)[1..] == [];
  }

  // ----- one field over several -----

  /** The first field of gs is written like the first n of fs, and begins with their key. */
  ghost predicate Group(fs: seq<Field>, gs: seq<Field>, n: nat)
    requires gs != []
    decreases |gs|, 0
  {
    && 1 <= n <= |fs| && fs[0].key == gs[0].key
    && FieldsText(fs[..n]) == FieldText(gs[0])
    && Groups(fs[n..], gs[1..])
  }

  /** Each field of gs in turn is written like some fields of fs. */
  ghost predicate Groups(fs: seq<Field>, gs: seq<Field>)
    decreases |gs|, 1
  {
    if gs == [] then fs == [] else exists n: nat :: Group(fs, gs, n)
  }

  lemma {:induction false} PlainFieldText(f: Field, i: nat)
    requires Plain(f.value) && i < |FieldText(f)| - 1
    ensures FieldText(f)[i] != FIELD_SEP
  {
    KeysPlain(f.key);
    var body := KeyText(f.key) + [PAIR_SEP] + f.value;
    assert FieldText(f)[i] == body[i];
    if i < |KeyText(f.key)| {
      assert body[i] == KeyText(f.key)[i];
    } else if i > |KeyText(f.key)| {
      assert body[i] == f.value[i - |KeyText(f.key)| - 1];
    }
  }

  lemma {:induction false} FieldTextNotLonger(f: Field, x: string, t: string, rest: string)
    requires Plain(f.value) && FieldText(f) + x == t + rest && EndsField(t)
    ensures |FieldText(f)| <= |t|
  {
    assert (FieldText(f) + x)[|t| - 1] == t[|t| - 1];
    if |t| < |FieldText(f)| {
      PlainFieldText(f, |t| - 1);
    }
  }

  predicate EndsField(t: string) { t != "" && t[|t| - 1] == FIELD_SEP }

  /** A part that ends with a separator ends where a plain field ends. */
  lemma {:induction false} SplitAfterField(fs: seq<Field>, t: string, rest: string) returns (n: nat)
    requires PlainFields(fs) && FieldsText(fs) == t + rest && EndsField(t)
    ensures 1 <= n <= |fs| && FieldsText(fs[..n]) == t && FieldsText(fs[n..]) == rest
  {
    FieldsTextFirst(fs);
    var more := SplitFirst(fs[0], FieldsText(fs[1..]), t, rest);
    if more == "" {
      n := 1;
      FirstAlone(fs);
    } else {
      n := SplitAfterField(fs[1..], more, rest);
      OneMoreField(fs, n);
      n := n + 1;
    }
  }

  lemma {:induction false} SplitFirst(f: Field, x: string, t: string, rest: string) returns (more: string)
    requires Plain(f.value) && FieldText(f) + x == t + rest && EndsField(t)
    ensures t == FieldText(f) + more && x == more + rest && (more == "" || EndsField(more))
  {
    FieldTextNotLonger(f, x, t, rest);
    more := t[|FieldText(f)|..];
    SplitFront(FieldText(f), x, t, rest);
  }

  lemma {:induction false} FirstAlone(fs: seq<Field>)
    requires fs != []
    ensures FieldsText(fs[..1]) == FieldText(fs[0])
  {
    FieldsTextFirst(fs[..1]);
    assert fs[..1][1..] == [];
  }

  lemma {:induction false} SplitFront(a: string, b: string, t: string, rest: string)
    requires a + b == t + rest && |a| <= |t|
    ensures t == a + t[|a|..] && b == t[|a|..] + rest
  {
    assert (a + b)[..|a|] == (t + rest)[..|a|];
    assert (a + b)[|a|..] == (t + rest)[|a|..];
  }

  lemma {:induction false} OneMoreField(fs: seq<Field>, n: nat)
    requires fs != [] && n < |fs|
    ensures FieldsText(fs[..n + 1]) == FieldText(fs[0]) + FieldsText(fs[1..][..n])
    ensures fs[1..][n..] == fs[n + 1..]
  {
    FieldsTextFirst(fs[..n + 1]);
    assert fs[..n + 1][1..] == fs[1..][..n];
  }

  lemma {:induction false} TextGroups(fs: seq<Field>, gs: seq<Field>)
    requires PlainFields(fs) && FieldsText(fs) == FieldsText(gs)
    ensures Groups(fs, gs)
  {
    FieldsTextFirst(fs);
    FieldsTextFirst(gs);
    if gs != [] {
      var n := SplitAfterField(fs, FieldText(gs[0]), FieldsText(gs[1..]));
      TextStartsWithKey(fs[0], FieldsText(fs[1..]), gs[0], FieldsText(gs[1..]));
      TextGroups(fs[n..], gs[1..]);
      assert Group(fs, gs, n);
    }
  }

  lemma {:induction false} GroupsCount(fs: seq<Field>, gs: seq<Field>, k: Key)
    requires Groups(fs, gs)
    ensures CountOf(gs, k) <= CountOf(fs, k)
  {
    if gs != [] {
      var n: nat :| Group(fs, gs, n);
      GroupsCount(fs[n..], gs[1..], k);
      CountDrop(fs, n, k);
    }
  }

  lemma {:induction false} SingleGroup(fs: seq<Field>, gs: seq<Field>)
    requires gs != [] && Group(fs, gs, 1)
    ensures fs[0] == gs[0] && Groups(fs[1..], gs[1..])
  {
    FirstAlone(fs);
    var f, g, key := fs[0], gs[0], KeyText(gs[0].key);
    assert key + [PAIR_SEP] + f.value + [FIELD_SEP] == key + [PAIR_SEP] + g.value + [FIELD_SEP];
    assert FieldText(f)[|key| + 1..|FieldText(f)| - 1] == f.value && FieldText(g)[|key| + 1..|FieldText(g)| - 1] == g.value;
  }

  /** A plain field covers only itself. */
  lemma {:induction false} PlainGroup(fs: seq<Field>, gs: seq<Field>)
    requires PlainFields(fs) && gs != [] && Groups(fs, gs) && Plain(gs[0].value)
    ensures fs != [] && fs[0] == gs[0] && Groups(fs[1..], gs[1..])
  {
    var n: nat :| Group(fs, gs, n);
    FieldsTextFirst(fs[..n]);
    assert FieldText(gs[0]) + "" == FieldText(gs[0]);
    FirstField(fs[0], FieldsText(fs[..n][1..]), gs[0], "");
    FieldsTextFirst(fs[..n][1..]);
    assert n == 1;
  }

  /** A field whose successor's key is too rare to be covered covers only itself. */
  lemma {:induction false} RareNext(fs: seq<Field>, gs: seq<Field>, k: Key)
    requires gs != [] && Groups(fs, gs) && |fs| >= 2 && fs[1].key == k && CountOf(fs[1..], k) <= CountOf(gs[1..], k)
    ensures fs[0] == gs[0] && Groups(fs[1..], gs[1..])
  {
    var n: nat :| Group(fs, gs, n);
    GroupsCount(fs[n..], gs[1..], k);
    CountDrop(fs[1..], n - 1, k);
    assert fs[1..][n - 1..] == fs[n..];
    assert n == 1;
    SingleGroup(fs, gs);
  }

  /** Tags cover some fields. */
  lemma {:induction false} DropTags(fs: seq<Field>, tags: seq<string>, rest: seq<Field>) returns (n: nat)
    requires Groups(fs, TagFields(TagKey, tags) + rest)
    ensures n <= |fs| && Groups(fs[n..], rest)
  {
    var gs := TagFields(TagKey, tags) + rest;
    if tags == [] {
      n := 0;
      assert gs == rest && fs[0..] == fs;
    } else {
      var m: nat :| Group(fs, gs, m);
      assert gs[1..] == TagFields(TagKey, tags[1..]) + rest;
      n := DropTags(fs[m..], tags[1..], rest);
      n := n + m;
      assert fs[m..][n - m..] == fs[n..];
    }
  }

  // ----- entries -----

  /** The same entry up to its tags. */
  predicate SameHead(e: ArchiveEntry, f: ArchiveEntry) {
    e.contentHash == f.contentHash && e.id == f.id && e.payloadLen == f.payloadLen
  }

  lemma {:induction false} HeadAligns(e: ArchiveEntry, x: seq<Field>, f: ArchiveEntry, y: seq<Field>)
    requires PlainFields(EntryHead(e) + x) && Groups(EntryHead(e) + x, EntryHead(f) + y)
    requires CountOf(x, IdKey) <= CountOf(y, IdKey)
    ensures SameHead(e, f) && Groups(x, y)
  {
    var fs, gs := EntryHead(e) + x, EntryHead(f) + y;
    assert fs[0] == Field(HashKey, e.contentHash) && gs[0] == Field(HashKey, f.contentHash);
    assert fs[1] == Field(IdKey, Decimal.Render(e.id)) && gs[1] == Field(IdKey, Decimal.Render(f.id));
    assert fs[2] == Field(LenKey, Decimal.Render(e.payloadLen)) && gs[2] == Field(LenKey, Decimal.Render(f.payloadLen));
    assert fs[1..][1..][1..] == x && gs[1..][1..][1..] == y;
    IdsAhead(e, x);
    IdsAhead(f, y);
    RareNext(fs, gs, IdKey);
    DigitsPlain(Decimal.Render(f.id));
    PlainGroup(fs[1..], gs[1..]);
    DigitsPlain(Decimal.Render(f.payloadLen));
    PlainGroup(fs[1..][1..], gs[1..][1..]);
    Decimal.ParseRender(e.id);
    Decimal.ParseRender(f.id);
    Decimal.ParseRender(e.payloadLen);
    Decimal.ParseRender(f.payloadLen);
  }

  lemma {:induction false} IdsAhead(e: ArchiveEntry, x: seq<Field>)
    ensures CountOf((EntryHead(e) + x)[1..], IdKey) == 1 + CountOf(x, IdKey)
  {
    HeadCount(e, IdKey);
    CountConcat(EntryHead(e), x, IdKey);
  }

  /** Past some tags, the place that begins with a hash and still has all hashes ahead is
      the end of the tags. */
  lemma {:induction false} TagsEnd(us: seq<string>, x: seq<Field>, n: nat)
    requires var fs := TagFields(TagKey, us) + x;
             && n <= |fs| && StartsWith(fs[n..], HashKey)
             && StartsWith(x, HashKey) && CountOf(x, HashKey) <= CountOf(fs[n..], HashKey)
    ensures (TagFields(TagKey, us) + x)[n..] == x
  {
    var fs := TagFields(TagKey, us) + x;
    TagKeys(us);
    assert fs[n..][0] == fs[n];
    assert n >= |us| ==> fs[n..] == x[n - |us|..];
    if n > |us| {
      CountDrop(x, n - |us|, HashKey);
    }
    assert n == |us|;
  }

  lemma {:induction false} GroupsStart(fs: seq<Field>, gs: seq<Field>, k: Key)
    requires Groups(fs, gs) && StartsWith(gs, k)
    ensures StartsWith(fs, k)
  {
    var n: nat :| Group(fs, gs, n);
  }

  /** After the tags of an entry the next entry is where it seems to be. */
  lemma {:induction false} TagsAlign(us: seq<string>, x: seq<Field>, ts: seq<string>, y: seq<Field>)
    requires Groups(TagFields(TagKey, us) + x, TagFields(TagKey, ts) + y)
    requires StartsWith(x, HashKey) && StartsWith(y, HashKey) && CountOf(x, HashKey) <= CountOf(y, HashKey)
    ensures Groups(x, y)
  {
    var fs := TagFields(TagKey, us) + x;
    var n := DropTags(fs, ts, y);
    GroupsCount(fs[n..], y, HashKey);
    GroupsStart(fs[n..], y, HashKey);
    TagsEnd(us, x, n);
  }

  lemma {:induction false} TagKeys(tags: seq<string>)
    ensures |TagFields(TagKey, tags)| == |tags|
    ensures forall i :: 0 <= i < |tags| ==> TagFields(TagKey, tags)[i].key == TagKey
  {
    if tags != [] {
      TagKeys(tags[1..]);
    }
  }

  lemma {:induction false} EntryAligns(e: ArchiveEntry, x: seq<Field>, f: ArchiveEntry, y: seq<Field>)
    requires PlainFields(EntryHead(e) + (TagFields(TagKey, e.tags) + x))
    requires Groups(EntryHead(e) + (TagFields(TagKey, e.tags) + x), EntryHead(f) + (TagFields(TagKey, f.tags) + y))
    requires CountOf(x, IdKey) <= CountOf(y, IdKey) && CountOf(x, HashKey) <= CountOf(y, HashKey)
    ensures SameHead(e, f)
    ensures StartsWith(x, HashKey) && StartsWith(y, HashKey) ==> Groups(x, y)
  {
    var tx, ty := TagFields(TagKey, e.tags) + x, TagFields(TagKey, f.tags) + y;
    TagCount(TagKey, e.tags, IdKey);
    TagCount(TagKey, f.tags, IdKey);
    CountConcat(TagFields(TagKey, e.tags), x, IdKey);
    CountConcat(TagFields(TagKey, f.tags), y, IdKey);
    HeadAligns(e, tx, f, ty);
    if StartsWith(x, HashKey) && StartsWith(y, HashKey) {
      TagsAlign(e.tags, x, f.tags, y);
    }
  }

  lemma {:induction false} EntriesUnfold(es: seq<ArchiveEntry>, x: seq<Field>)
    requires es != []
    ensures EntriesFields(es) + x == EntryHead(es[0]) + (TagFields(TagKey, es[0].tags) + (EntriesFields(es[1..]) + x))
    ensures EntriesFields(es) + x == EntryFields(es[0]) + (EntriesFields(es[1..]) + x)
  {}

  lemma {:induction false} NextEntry(es: seq<ArchiveEntry>, x: seq<Field>)
    requires |es| > 1
    ensures StartsWith(EntriesFields(es[1..]) + x, HashKey)
  {
    EntriesUnfold(es[1..], x);
  }

  lemma {:induction false} PlainEnd(fs: seq<Field>, gs: seq<Field>)
    requires PlainFields(fs + gs)
    ensures PlainFields(gs)
  {
    assert forall i :: 0 <= i < |gs| ==> gs[i] == (fs + gs)[|fs| + i];
  }

  lemma {:induction false} EntriesAlign(es: seq<ArchiveEntry>, x: seq<Field>, fs: seq<ArchiveEntry>, y: seq<Field>)
    requires |es| == |fs| && PlainFields(EntriesFields(es) + x) && Groups(EntriesFields(es) + x, EntriesFields(fs) + y)
    requires CountOf(x, HashKey) == 0 && CountOf(x, IdKey) == 0
    ensures forall i :: 0 <= i < |es| ==> SameHead(es[i], fs[i])
  {
    if es != [] {
      EntriesUnfold(es, x);
      EntriesUnfold(fs, y);
      RestCounts(es[1..], x);
      RestCounts(fs[1..], y);
      EntryAligns(es[0], EntriesFields(es[1..]) + x, fs[0], EntriesFields(fs[1..]) + y);
      if |es| > 1 {
        NextEntry(es, x);
        NextEntry(fs, y);
        PlainEnd(EntryFields(es[0]), EntriesFields(es[1..]) + x);
        EntriesAlign(es[1..], x, fs[1..], y);
      }
    }
  }

  lemma {:induction false} RestCounts(es: seq<ArchiveEntry>, x: seq<Field>)
    ensures CountOf(EntriesFields(es) + x, IdKey) == |es| + CountOf(x, IdKey)
    ensures CountOf(EntriesFields(es) + x, HashKey) == |es| + CountOf(x, HashKey)
  {
    EntriesCount(es, IdKey);
    EntriesCount(es, HashKey);
    CountConcat(EntriesFields(es), x, IdKey);
    CountConcat(EntriesFields(es), x, HashKey);
  }

  // ----- manifests -----

  lemma {:induction false} CountsAhead(m: ArchiveManifest)
    ensures CountOf(ManifestFields(m)[2..], CountKey) == 1
  {
    var rest := EntriesFields(m.entries) + LaterFields(m);
    EntriesCount(m.entries, CountKey);
    LaterCount(m, CountKey);
    CountConcat(EntriesFields(m.entries), LaterFields(m), CountKey);
    assert ManifestFields(m)[2..][1..] == rest;
  }

  lemma {:induction false} HeaderAligns(m: ArchiveManifest, n: ArchiveManifest)
    requires PlainManifest(m) && Groups(ManifestFields(m), ManifestFields(n))
    ensures m.schema == n.schema && m.engineVersion == n.engineVersion && m.seedCount == n.seedCount
    ensures Groups(EntriesFields(m.entries) + LaterFields(m), EntriesFields(n.entries) + LaterFields(n))
  {
    var fs, gs := ManifestFields(m), ManifestFields(n);
    ManifestFieldsPlain(m);
    assert fs[1..][1..] == fs[2..] && gs[1..][1..] == gs[2..];
    assert fs[2..][1..] == EntriesFields(m.entries) + LaterFields(m);
    assert gs[2..][1..] == EntriesFields(n.entries) + LaterFields(n);
    DigitsPlain(Decimal.Render(n.schema));
    PlainGroup(fs, gs);
    CountsAhead(m);
    CountsAhead(n);
    RareNext(fs[1..], gs[1..], CountKey);
    DigitsPlain(Decimal.Render(n.seedCount));
    PlainGroup(fs[2..], gs[2..]);
    assert fs[1] == gs[1] && fs[1].value == m.engineVersion && gs[1].value == n.engineVersion;
    Decimal.ParseRender(m.schema);
    Decimal.ParseRender(n.schema);
    Decimal.ParseRender(m.seedCount);
    Decimal.ParseRender(n.seedCount);
  }

  /** Of two manifests that encode alike and count their entries truthfully, one without
      separators is enough: whatever the other's strings contain, the entries are those of
      the same seeds. */
  lemma {:induction false} PlainPartnerSettlesSeeds(m: ArchiveManifest, n: ArchiveManifest)
    requires PlainManifest(m) && Encoding(m) == Encoding(n)
    requires |m.entries| == m.seedCount && |n.entries| == n.seedCount
    ensures m.schema == n.schema && m.engineVersion == n.engineVersion && |m.entries| == |n.entries|
    ensures forall i :: 0 <= i < |m.entries| ==> SameHead(m.entries[i], n.entries[i])
  {
    ManifestFieldsPlain(m);
    TextGroups(ManifestFields(m), ManifestFields(n));
    HeaderAligns(m, n);
    LaterCount(m, HashKey);
    LaterCount(m, IdKey);
    PlainEnd(HeaderFields(m), EntriesFields(m.entries) + LaterFields(m));
    EntriesAlign(m.entries, LaterFields(m), n.entries, LaterFields(n));
  }
}
