/** The canonical manifest encoding of corpus_archive.rs and its injectivity.

    Text stands for its UTF-8 bytes: the encoding of characters is one-to-one and keeps the
    two separator bytes, so nothing is lost by writing the hashed bytes as characters. */
module ArchiveCodec {
  import opened Prelude
  import Decimal

  const FIELD_SEP: char := '\U{1e}'
  const PAIR_SEP: char := '\U{1f}'

  datatype ArchiveEntry = ArchiveEntry(contentHash: string, id: u64, payloadLen: u64, tags: seq<string>)

  datatype ArchiveManifest = ArchiveManifest(
    schema: u32,
    engineVersion: string,
    seedCount: u64,
    entries: seq<ArchiveEntry>,
    provenanceTags: seq<string>,
    coverageNotes: Option<string>,
    manifestHash: string)

  // ----- fields -----

  datatype Key = SchemaKey | EngineKey | CountKey | HashKey | IdKey | LenKey | TagKey | ProvKey | CoverageKey

  function KeyText(k: Key): string {
    match k
    case SchemaKey => "schema"
    case EngineKey => "engine_version"
    case CountKey => "seed_count"
    case HashKey => "entry_hash"
    case IdKey => "entry_id"
    case LenKey => "entry_len"
    case TagKey => "entry_tag"
    case ProvKey => "prov_tag"
    case CoverageKey => "coverage"
  }

  datatype Field = Field(key: Key, value: string)

  /** One field as `push_field` writes it. */
  function FieldText(f: Field): string { KeyText(f.key) + [PAIR_SEP] + f.value + [FIELD_SEP] }

  function FieldTexts(fs: seq<Field>): seq<string> { seq(|fs|, i requires 0 <= i < |fs| => FieldText(fs[i])) }

  function FieldsText(fs: seq<Field>): string { Join(FieldTexts(fs)) }

  function TagFields(k: Key, tags: seq<string>): seq<Field> {
    if tags == [] then [] else [Field(k, tags[0])] + TagFields(k, tags[1..])
  }

  /** The fields of an entry before its tags. */
  function EntryHead(e: ArchiveEntry): seq<Field> {
    [Field(HashKey, e.contentHash), Field(IdKey, Decimal.Render(e.id)), Field(LenKey, Decimal.Render(e.payloadLen))]
  }

  function EntryFields(e: ArchiveEntry): seq<Field> { EntryHead(e) + TagFields(TagKey, e.tags) }

  function EntriesFields(es: seq<ArchiveEntry>): seq<Field> {
    if es == [] then [] else EntryFields(es[0]) + EntriesFields(es[1..])
  }

  function NotesText(notes: Option<string>): string { if notes.Some? then notes.value else "" }

  function HeaderFields(m: ArchiveManifest): seq<Field> {
    [Field(SchemaKey, Decimal.Render(m.schema)), Field(EngineKey, m.engineVersion), Field(CountKey, Decimal.Render(m.seedCount))]
  }

  function NotesField(m: ArchiveManifest): seq<Field> { [Field(CoverageKey, NotesText(m.coverageNotes))] }

  function ManifestFields(m: ArchiveManifest): seq<Field> {
    HeaderFields(m) + (EntriesFields(m.entries) + (TagFields(ProvKey, m.provenanceTags) + NotesField(m)))
  }

  function Encoding(m: ArchiveManifest): string { FieldsText(ManifestFields(m)) }

  // ----- the writer -----

  method PushField(out: string, key: string, value: string) returns (out': string)
    ensures out' == out + (key + [PAIR_SEP] + value + [FIELD_SEP])
  {
    out' := out + key;
    out' := out' + [PAIR_SEP];
    out' := out' + value;
    out' := out' + [FIELD_SEP];
  }

  lemma {:induction false} FieldsTextAppend(fs: seq<Field>, gs: seq<Field>)
    ensures FieldsText(fs + gs) == FieldsText(fs) + FieldsText(gs)
  {
    assert FieldTexts(fs + gs) == FieldTexts(fs) + FieldTexts(gs);
    JoinAppend(FieldTexts(fs), FieldTexts(gs));
  }

  lemma {:induction false} FieldsTextFirst(fs: seq<Field>)
    ensures FieldsText(fs) == if fs == [] then "" else FieldText(fs[0]) + FieldsText(fs[1..])
  {
    if fs != [] {
      assert FieldTexts(fs)[1..] == FieldTexts(fs[1..]);
    }
  }

  lemma {:induction false} FieldsTextPush(fs: seq<Field>, k: Key, value: string)
    ensures FieldsText(fs + [Field(k, value)]) == FieldsText(fs) + (KeyText(k) + [PAIR_SEP] + value + [FIELD_SEP])
  {
    FieldsTextAppend(fs, [Field(k, value)]);
    FieldsTextFirst([Field(k, value)]);
    assert [Field(k, value)][1..] == [];
  }

  lemma {:induction false} TagFieldsPush(k: Key, tags: seq<string>, tag: string)
    ensures TagFields(k, tags + [tag]) == TagFields(k, tags) + [Field(k, tag)]
  {
    if tags != [] {
      TagFieldsPush(k, tags[1..], tag);
      assert (tags + [tag])[1..] == tags[1..] + [tag];
    }
  }

  lemma {:induction false} EntriesFieldsPush(es: seq<ArchiveEntry>, e: ArchiveEntry)
    ensures EntriesFields(es + [e]) == EntriesFields(es) + EntryFields(e)
  {
    if es != [] {
      EntriesFieldsPush(es[1..], e);
      assert (es + [e])[1..] == es[1..] + [e];
    } else {
      assert EntriesFields([e]) == EntryFields(e) + EntriesFields([]);
    }
  }

  /** `manifest_canonical_encoding`, pushing field after field. */
  method ManifestCanonicalEncoding(m: ArchiveManifest) returns (out: string)
    ensures out == Encoding(m)
  {
    ghost var fs: seq<Field> := [];
    out := "";
    out, fs := Push(out, fs, SchemaKey, Decimal.Render(m.schema));
    out, fs := Push(out, fs, EngineKey, m.engineVersion);
    out, fs := Push(out, fs, CountKey, Decimal.Render(m.seedCount));
    assert fs == HeaderFields(m);
    out, fs := PushEntries(out, fs, m.entries);
    out, fs := PushTags(out, fs, ProvKey, m.provenanceTags);
    out, fs := Push(out, fs, CoverageKey, NotesText(m.coverageNotes));
    Assoc(HeaderFields(m) + EntriesFields(m.entries), TagFields(ProvKey, m.provenanceTags), NotesField(m));
    Assoc(HeaderFields(m), EntriesFields(m.entries), TagFields(ProvKey, m.provenanceTags) + NotesField(m));
  }

  method Push(out: string, ghost fs: seq<Field>, k: Key, value: string) returns (out': string, ghost fs': seq<Field>)
    requires out == FieldsText(fs)
    ensures fs' == fs + [Field(k, value)] && out' == FieldsText(fs')
  {
    FieldsTextPush(fs, k, value);
    out' := PushField(out, KeyText(k), value);
    fs' := fs + [Field(k, value)];
  }

  method PushTags(out: string, ghost fs: seq<Field>, k: Key, tags: seq<string>) returns (out': string, ghost fs': seq<Field>)
    requires out == FieldsText(fs)
    ensures fs' == fs + TagFields(k, tags) && out' == FieldsText(fs')
  {
    out', fs' := out, fs;
    for i := 0 to |tags|
      invariant out' == FieldsText(fs') && fs' == fs + TagFields(k, tags[..i])
    {
      TagFieldsPush(k, tags[..i], tags[i]);
      assert tags[..i + 1] == tags[..i] + [tags[i]];
      Assoc(fs, TagFields(k, tags[..i]), [Field(k, tags[i])]);
      out', fs' := Push(out', fs', k, tags[i]);
    }
    assert tags[..|tags|] == tags;
  }

  method PushEntries(out: string, ghost fs: seq<Field>, es: seq<ArchiveEntry>) returns (out': string, ghost fs': seq<Field>)
    requires out == FieldsText(fs)
    ensures fs' == fs + EntriesFields(es) && out' == FieldsText(fs')
  {
    out', fs' := out, fs;
    for i := 0 to |es|
      invariant out' == FieldsText(fs') && fs' == fs + EntriesFields(es[..i])
    {
      EntriesFieldsPush(es[..i], es[i]);
      assert es[..i + 1] == es[..i] + [es[i]];
      Assoc(fs, EntriesFields(es[..i]), EntryFields(es[i]));
      out', fs' := PushEntry(out', fs', es[i]);
    }
    assert es[..|es|] == es;
  }

  method PushEntry(out: string, ghost fs: seq<Field>, e: ArchiveEntry) returns (out': string, ghost fs': seq<Field>)
    requires out == FieldsText(fs)
    ensures fs' == fs + EntryFields(e) && out' == FieldsText(fs')
  {
    out', fs' := Push(out, fs, HashKey, e.contentHash);
    out', fs' := Push(out', fs', IdKey, Decimal.Render(e.id));
    out', fs' := Push(out', fs', LenKey, Decimal.Render(e.payloadLen));
    assert fs' == fs + EntryHead(e);
    Assoc(fs, EntryHead(e), TagFields(TagKey, e.tags));
    out', fs' := PushTags(out', fs', TagKey, e.tags);
  }

  // ----- texts determine fields -----

  predicate Plain(s: string) { FIELD_SEP !in s && PAIR_SEP !in s }

  predicate FirstIs(c: char, whole: string, k: nat) { k < |whole| && whole[k] == c && forall i :: 0 <= i < k ==> whole[i] != c }

  lemma {:induction false} FirstAt(c: char, s: string, x: string)
    requires c !in s
    ensures FirstIs(c, s + [c] + x, |s|)
  {
    forall i | 0 <= i < |s| ensures (s + [c] + x)[i] != c {
      assert (s + [c] + x)[i] == s[i] && s[i] in s;
    }
  }

  lemma {:induction false} SplitAt(c: char, s: string, x: string, t: string, y: string)
    requires c !in s && c !in t && s + [c] + x == t + [c] + y
    ensures s == t && x == y
  {
    var whole := s + [c] + x;
    FirstAt(c, s, x);
    FirstAt(c, t, y);
    assert whole[..|s|] == s && whole[..|t|] == t;
    assert whole[|s| + 1..] == x && whole[|t| + 1..] == y;
  }

  lemma {:induction false} KeysPlain(k: Key)
    ensures Plain(KeyText(k))
  {}

  lemma {:induction false} KeysDistinct(j: Key, k: Key)
    requires KeyText(j) == KeyText(k)
    ensures j == k
  {
    KeyShape(j);
    KeyShape(k);
  }

  /** The length and the last characters of a key tell which it is. */
  function KeyMark(s: string): (nat, char, char) {
    if |s| >= 2 then (|s|, s[|s| - 1], s[|s| - 2]) else (|s|, 'x', 'x')
  }

  lemma {:induction false} KeyShape(k: Key)
    ensures KeyMark(KeyText(k)) ==
      match k
      case SchemaKey => (6, 'a', 'm')
      case EngineKey => (14, 'n', 'o')
      case CountKey => (10, 't', 'n')
      case HashKey => (10, 'h', 's')
      case IdKey => (8, 'd', 'i')
      case LenKey => (9, 'n', 'e')
      case TagKey => (9, 'g', 'a')
      case ProvKey => (8, 'g', 'a')
      case CoverageKey => (8, 'e', 'g')
  {}

  predicate PlainFields(fs: seq<Field>) { forall i :: 0 <= i < |fs| ==> Plain(fs[i].value) }

  /** A field's key can be read off its text, whatever its value. */
  lemma {:induction false} TextStartsWithKey(f: Field, x: string, g: Field, y: string)
    requires FieldText(f) + x == FieldText(g) + y
    ensures f.key == g.key
  {
    KeyAndRest(f, x);
    KeyAndRest(g, y);
    KeysPlain(f.key);
    KeysPlain(g.key);
    SplitAt(PAIR_SEP, KeyText(f.key), AfterKey(f, x), KeyText(g.key), AfterKey(g, y));
    KeysDistinct(f.key, g.key);
  }

  function AfterKey(f: Field, x: string): string { f.value + [FIELD_SEP] + x }

  lemma {:induction false} KeyAndRest(f: Field, x: string)
    ensures FieldText(f) + x == KeyText(f.key) + [PAIR_SEP] + AfterKey(f, x)
  {}

  lemma {:induction false} FirstField(f: Field, x: string, g: Field, y: string)
    requires Plain(f.value) && Plain(g.value) && FieldText(f) + x == FieldText(g) + y
    ensures f == g && x == y
  {
    var fr, gr, key := f.value + [FIELD_SEP] + x, g.value + [FIELD_SEP] + y, KeyText(f.key);
    TextStartsWithKey(f, x, g, y);
    assert FieldText(f) + x == key + [PAIR_SEP] + fr && FieldText(g) + y == key + [PAIR_SEP] + gr;
    assert (FieldText(f) + x)[|key| + 1..] == fr && (FieldText(g) + y)[|key| + 1..] == gr;
    SplitAt(FIELD_SEP, f.value, x, g.value, y);
  }

  lemma {:induction false} TextDeterminesFields(fs: seq<Field>, gs: seq<Field>)
    requires PlainFields(fs) && PlainFields(gs) && FieldsText(fs) == FieldsText(gs)
    ensures fs == gs
  {
    FieldsTextFirst(fs);
    FieldsTextFirst(gs);
    if fs != [] && gs != [] {
      FirstField(fs[0], FieldsText(fs[1..]), gs[0], FieldsText(gs[1..]));
      TextDeterminesFields(fs[1..], gs[1..]);
      assert fs == [fs[0]] + fs[1..] && gs == [gs[0]] + gs[1..];
    }
  }

  // ----- fields determine manifests -----

  predicate StartsWith(fs: seq<Field>, k: Key) { fs != [] && fs[0].key == k }

  lemma {:induction false} TagRun(k: Key, ts: seq<string>, x: seq<Field>, us: seq<string>, y: seq<Field>)
    requires !StartsWith(x, k) && !StartsWith(y, k)
    requires TagFields(k, ts) + x == TagFields(k, us) + y
    ensures ts == us && x == y
  {
    assert ts != [] ==> (TagFields(k, ts) + x)[0] == Field(k, ts[0]);
    assert us != [] ==> (TagFields(k, us) + y)[0] == Field(k, us[0]);
    assert ts == [] ==> TagFields(k, ts) + x == x;
    assert us == [] ==> TagFields(k, us) + y == y;
    if ts != [] && us != [] {
      var l, r := TagFields(k, ts) + x, TagFields(k, us) + y;
      assert l[0] == Field(k, ts[0]) && r[0] == Field(k, us[0]);
      assert l[1..] == TagFields(k, ts[1..]) + x && r[1..] == TagFields(k, us[1..]) + y;
      TagRun(k, ts[1..], x, us[1..], y);
      assert ts == [ts[0]] + ts[1..] && us == [us[0]] + us[1..];
    }
  }

  lemma {:induction false} FirstEntry(e: ArchiveEntry, x: seq<Field>, f: ArchiveEntry, y: seq<Field>)
    requires !StartsWith(x, TagKey) && !StartsWith(y, TagKey)
    requires EntryFields(e) + x == EntryFields(f) + y
    ensures e == f && x == y
  {
    var l, r := EntryFields(e) + x, EntryFields(f) + y;
    assert l[0] == Field(HashKey, e.contentHash) && r[0] == Field(HashKey, f.contentHash);
    assert l[1] == Field(IdKey, Decimal.Render(e.id)) && r[1] == Field(IdKey, Decimal.Render(f.id));
    assert l[2] == Field(LenKey, Decimal.Render(e.payloadLen)) && r[2] == Field(LenKey, Decimal.Render(f.payloadLen));
    Decimal.ParseRender(e.id);
    Decimal.ParseRender(f.id);
    Decimal.ParseRender(e.payloadLen);
    Decimal.ParseRender(f.payloadLen);
    assert l[3..] == TagFields(TagKey, e.tags) + x && r[3..] == TagFields(TagKey, f.tags) + y;
    TagRun(TagKey, e.tags, x, f.tags, y);
  }

  lemma {:induction false} EntriesThenRest(es: seq<ArchiveEntry>, x: seq<Field>)
    requires !StartsWith(x, TagKey)
    ensures !StartsWith(EntriesFields(es) + x, TagKey)
    ensures StartsWith(EntriesFields(es) + x, HashKey) <==> es != [] || StartsWith(x, HashKey)
  {
    if es == [] {
      assert EntriesFields(es) + x == x;
    } else {
      assert (EntriesFields(es) + x)[0] == Field(HashKey, es[0].contentHash);
    }
  }

  lemma {:induction false} EntryRun(es: seq<ArchiveEntry>, x: seq<Field>, fs: seq<ArchiveEntry>, y: seq<Field>)
    requires !StartsWith(x, TagKey) && !StartsWith(y, TagKey) && !StartsWith(x, HashKey) && !StartsWith(y, HashKey)
    requires EntriesFields(es) + x == EntriesFields(fs) + y
    ensures es == fs && x == y
  {
    EntriesThenRest(es, x);
    EntriesThenRest(fs, y);
    if es != [] {
      var l, r := EntriesFields(es[1..]) + x, EntriesFields(fs[1..]) + y;
      assert EntriesFields(es) + x == EntryFields(es[0]) + l && EntriesFields(fs) + y == EntryFields(fs[0]) + r;
      EntriesThenRest(es[1..], x);
      EntriesThenRest(fs[1..], y);
      FirstEntry(es[0], l, fs[0], r);
      EntryRun(es[1..], x, fs[1..], y);
      assert es == [es[0]] + es[1..] && fs == [fs[0]] + fs[1..];
    } else {
      assert EntriesFields(es) + x == x && EntriesFields(fs) + y == y;
    }
  }

  /** The same manifest, up to the hash itself and absent versus empty coverage notes. */
  predicate SameManifest(m: ArchiveManifest, n: ArchiveManifest) {
    && m.schema == n.schema && m.engineVersion == n.engineVersion && m.seedCount == n.seedCount
    && m.entries == n.entries && m.provenanceTags == n.provenanceTags
    && NotesText(m.coverageNotes) == NotesText(n.coverageNotes)
  }

  lemma {:induction false} FieldsDetermineManifest(m: ArchiveManifest, n: ArchiveManifest)
    requires ManifestFields(m) == ManifestFields(n)
    ensures SameManifest(m, n)
  {
    var l, r := ManifestFields(m), ManifestFields(n);
    var lc, rc := NotesField(m), NotesField(n);
    var lp, rp := TagFields(ProvKey, m.provenanceTags) + lc, TagFields(ProvKey, n.provenanceTags) + rc;
    assert l[0].value == Decimal.Render(m.schema) && r[0].value == Decimal.Render(n.schema);
    assert l[1].value == m.engineVersion && r[1].value == n.engineVersion;
    assert l[2].value == Decimal.Render(m.seedCount) && r[2].value == Decimal.Render(n.seedCount);
    Decimal.ParseRender(m.schema);
    Decimal.ParseRender(n.schema);
    Decimal.ParseRender(m.seedCount);
    Decimal.ParseRender(n.seedCount);
    assert l[3..] == EntriesFields(m.entries) + lp && r[3..] == EntriesFields(n.entries) + rp;
    ProvStart(m.provenanceTags, lc);
    ProvStart(n.provenanceTags, rc);
    EntryRun(m.entries, lp, n.entries, rp);
    TagRun(ProvKey, m.provenanceTags, lc, n.provenanceTags, rc);
  }

  lemma {:induction false} ProvStart(tags: seq<string>, x: seq<Field>)
    requires StartsWith(x, CoverageKey)
    ensures StartsWith(TagFields(ProvKey, tags) + x, ProvKey) || StartsWith(TagFields(ProvKey, tags) + x, CoverageKey)
  {
    if tags == [] {
      assert TagFields(ProvKey, tags) + x == x;
    }
  }

  // ----- the encoding is canonical -----

  predicate PlainAll(ss: seq<string>) { forall i :: 0 <= i < |ss| ==> Plain(ss[i]) }

  /** No string of the manifest contains a separator. */
  predicate PlainManifest(m: ArchiveManifest) {
    && Plain(m.engineVersion) && PlainAll(m.provenanceTags) && Plain(NotesText(m.coverageNotes))
    && forall i :: 0 <= i < |m.entries| ==> Plain(m.entries[i].contentHash) && PlainAll(m.entries[i].tags)
  }

  lemma {:induction false} DigitsPlain(s: string)
    requires Decimal.AllDigits(s)
    ensures Plain(s)
  {}

  lemma {:induction false} TagFieldsPlain(k: Key, tags: seq<string>)
    requires PlainAll(tags)
    ensures PlainFields(TagFields(k, tags))
  {
    if tags != [] {
      TagFieldsPlain(k, tags[1..]);
    }
  }

  lemma {:induction false} PlainConcat(fs: seq<Field>, gs: seq<Field>)
    requires PlainFields(fs) && PlainFields(gs)
    ensures PlainFields(fs + gs)
  {}

  lemma {:induction false} EntriesPlain(es: seq<ArchiveEntry>)
    requires forall i :: 0 <= i < |es| ==> Plain(es[i].contentHash) && PlainAll(es[i].tags)
    ensures PlainFields(EntriesFields(es))
  {
    if es != [] {
      var e := es[0];
      DigitsPlain(Decimal.Render(e.id));
      DigitsPlain(Decimal.Render(e.payloadLen));
      TagFieldsPlain(TagKey, e.tags);
      EntriesPlain(es[1..]);
      PlainConcat(EntryFields(e), EntriesFields(es[1..]));
    }
  }

  lemma {:induction false} ManifestFieldsPlain(m: ArchiveManifest)
    requires PlainManifest(m)
    ensures PlainFields(ManifestFields(m))
  {
    DigitsPlain(Decimal.Render(m.schema));
    DigitsPlain(Decimal.Render(m.seedCount));
    EntriesPlain(m.entries);
    TagFieldsPlain(ProvKey, m.provenanceTags);
    PlainConcat(TagFields(ProvKey, m.provenanceTags), NotesField(m));
    PlainConcat(EntriesFields(m.entries), TagFields(ProvKey, m.provenanceTags) + NotesField(m));
  }

  /** Manifests whose strings contain no separator have equal encodings exactly when they
      are the same manifest. */
  lemma {:induction false} EncodingIsCanonical(m: ArchiveManifest, n: ArchiveManifest)
    requires PlainManifest(m) && PlainManifest(n)
    ensures Encoding(m) == Encoding(n) <==> SameManifest(m, n)
  {
    if Encoding(m) == Encoding(n) {
      ManifestFieldsPlain(m);
      ManifestFieldsPlain(n);
      TextDeterminesFields(ManifestFields(m), ManifestFields(n));
      FieldsDetermineManifest(m, n);
    }
  }

  // ----- the part that describes the seeds -----

  /** No separator in what the encoding writes up to the last entry. */
  predicate PlainEntries(m: ArchiveManifest) {
    && Plain(m.engineVersion)
    && forall i :: 0 <= i < |m.entries| ==> Plain(m.entries[i].contentHash) && PlainAll(m.entries[i].tags)
  }

  function SeedFields(m: ArchiveManifest): seq<Field> { HeaderFields(m) + EntriesFields(m.entries) }

  function LaterFields(m: ArchiveManifest): seq<Field> { TagFields(ProvKey, m.provenanceTags) + NotesField(m) }

  /** A field that comes after all entries. */
  predicate Later(f: Field) { f.key == ProvKey || f.key == CoverageKey }

  predicate NoneLater(fs: seq<Field>) { forall i :: 0 <= i < |fs| ==> !Later(fs[i]) }

  lemma {:induction false} EntriesNotLater(es: seq<ArchiveEntry>)
    ensures NoneLater(EntriesFields(es))
  {
    if es != [] {
      TagsNotLater(es[0].tags);
      EntriesNotLater(es[1..]);
    }
  }

  lemma {:induction false} TagsNotLater(tags: seq<string>)
    ensures NoneLater(TagFields(TagKey, tags))
  {
    if tags != [] {
      TagsNotLater(tags[1..]);
    }
  }

  ghost predicate StartsLater(t: string) { exists f: Field, x :: Later(f) && t == FieldText(f) + x }

  lemma {:induction false} FieldsAhead(fs: seq<Field>, t: string)
    ensures FieldsText(fs) + t == if fs == [] then t else FieldText(fs[0]) + (FieldsText(fs[1..]) + t)
  {
    FieldsTextFirst(fs);
    if fs == [] {
      assert "" + t == t;
    } else {
      Assoc(FieldText(fs[0]), FieldsText(fs[1..]), t);
    }
  }

  lemma {:induction false} NoLaterStart(f: Field, x: string)
    requires !Later(f)
    ensures !StartsLater(FieldText(f) + x)
  {
    forall g: Field, y | Later(g) ensures FieldText(f) + x != FieldText(g) + y {
      if FieldText(f) + x == FieldText(g) + y {
        TextStartsWithKey(f, x, g, y);
      }
    }
  }

  /** Plain fields that are followed by a later one, of any content, can be read off. */
  lemma {:induction false} PlainFieldsFirst(fs: seq<Field>, t: string, gs: seq<Field>, u: string)
    requires PlainFields(fs) && PlainFields(gs) && NoneLater(fs) && NoneLater(gs) && StartsLater(t) && StartsLater(u)
    requires FieldsText(fs) + t == FieldsText(gs) + u
    ensures fs == gs
  {
    FieldsAhead(fs, t);
    FieldsAhead(gs, u);
    if fs != [] {
      NoLaterStart(fs[0], FieldsText(fs[1..]) + t);
    }
    if gs != [] {
      NoLaterStart(gs[0], FieldsText(gs[1..]) + u);
    }
    if fs != [] && gs != [] {
      FirstField(fs[0], FieldsText(fs[1..]) + t, gs[0], FieldsText(gs[1..]) + u);
      PlainFieldsFirst(fs[1..], t, gs[1..], u);
      assert fs == [fs[0]] + fs[1..] && gs == [gs[0]] + gs[1..];
    }
  }

  lemma {:induction false} EncodingParts(m: ArchiveManifest)
    ensures Encoding(m) == FieldsText(SeedFields(m)) + FieldsText(LaterFields(m)) && StartsLater(FieldsText(LaterFields(m)))
  {
    var later := LaterFields(m);
    Assoc(HeaderFields(m), EntriesFields(m.entries), later);
    FieldsTextAppend(SeedFields(m), later);
    FieldsTextFirst(later);
    assert Later(later[0]);
  }

  lemma {:induction false} SeedFieldsPlain(m: ArchiveManifest)
    requires PlainEntries(m)
    ensures PlainFields(SeedFields(m)) && NoneLater(SeedFields(m))
  {
    DigitsPlain(Decimal.Render(m.schema));
    DigitsPlain(Decimal.Render(m.seedCount));
    EntriesPlain(m.entries);
    EntriesNotLater(m.entries);
  }

  /** Whatever provenance tags and notes contain, the encoding determines everything before
      them, and with it the entries. */
  lemma {:induction false} EncodingDeterminesEntries(m: ArchiveManifest, n: ArchiveManifest)
    requires PlainEntries(m) && PlainEntries(n) && Encoding(m) == Encoding(n)
    ensures m.schema == n.schema && m.engineVersion == n.engineVersion && m.seedCount == n.seedCount && m.entries == n.entries
  {
    EncodingParts(m);
    EncodingParts(n);
    SeedFieldsPlain(m);
    SeedFieldsPlain(n);
    PlainFieldsFirst(SeedFields(m), FieldsText(LaterFields(m)), SeedFields(n), FieldsText(LaterFields(n)));
    var l, r := SeedFields(m), SeedFields(n);
    assert l[0].value == Decimal.Render(m.schema) && r[0].value == Decimal.Render(n.schema);
    assert l[1].value == m.engineVersion && r[1].value == n.engineVersion;
    assert l[2].value == Decimal.Render(m.seedCount) && r[2].value == Decimal.Render(n.seedCount);
    Decimal.ParseRender(m.schema);
    Decimal.ParseRender(n.schema);
    Decimal.ParseRender(m.seedCount);
    Decimal.ParseRender(n.seedCount);
    assert l[3..] == EntriesFields(m.entries) + [] && r[3..] == EntriesFields(n.entries) + [];
    EntryRun(m.entries, [], n.entries, []);
  }

  // ----- separators that the code does not keep out -----

  /** Only the text of the tag fields depends on the tags. */
  lemma {:induction false} ReplacedTags(m: ArchiveManifest, ss: seq<string>, ts: seq<string>)
    requires FieldsText(TagFields(ProvKey, ss)) == FieldsText(TagFields(ProvKey, ts))
    ensures Encoding(m.(provenanceTags := ss)) == Encoding(m.(provenanceTags := ts))
  {
    ReplacedTagsText(m, ss);
    ReplacedTagsText(m, ts);
  }

  lemma {:induction false} ReplacedTagsText(m: ArchiveManifest, ss: seq<string>)
    ensures Encoding(m.(provenanceTags := ss))
         == FieldsText(HeaderFields(m)) + (FieldsText(EntriesFields(m.entries))
            + (FieldsText(TagFields(ProvKey, ss)) + FieldsText(NotesField(m))))
  {
    FieldsTextAppend(TagFields(ProvKey, ss), NotesField(m));
    FieldsTextAppend(EntriesFields(m.entries), TagFields(ProvKey, ss) + NotesField(m));
    FieldsTextAppend(HeaderFields(m), EntriesFields(m.entries) + (TagFields(ProvKey, ss) + NotesField(m)));
    assert HeaderFields(m.(provenanceTags := ss)) == HeaderFields(m) && NotesField(m.(provenanceTags := ss)) == NotesField(m);
  }

  /** Nothing enforces that condition: one provenance tag holding separators encodes like
      two. */
  lemma {:induction false} SeparatorInTagCollides(m: ArchiveManifest, a: string, b: string)
    ensures var forged := a + [FIELD_SEP] + "prov_tag" + [PAIR_SEP] + b;
            Encoding(m.(provenanceTags := [forged])) == Encoding(m.(provenanceTags := [a, b]))
  {
    var forged := a + [FIELD_SEP] + "prov_tag" + [PAIR_SEP] + b;
    TwoTagsText(a, b);
    assert [forged][1..] == [];
    assert TagFields(ProvKey, [forged]) == [Field(ProvKey, forged)];
    assert FieldText(Field(ProvKey, forged)) == FieldText(Field(ProvKey, a)) + FieldText(Field(ProvKey, b));
    FieldsTextFirst([Field(ProvKey, forged)]);
    assert [Field(ProvKey, forged)][1..] == [];
    ReplacedTags(m, [forged], [a, b]);
  }

  lemma {:induction false} TwoTagsText(a: string, b: string)
    ensures FieldsText(TagFields(ProvKey, [a, b])) == FieldText(Field(ProvKey, a)) + FieldText(Field(ProvKey, b))
  {
    assert [a, b][1..] == [b] && [b][1..] == [];
    assert TagFields(ProvKey, [b]) == [Field(ProvKey, b)];
    assert TagFields(ProvKey, [a, b]) == [Field(ProvKey, a), Field(ProvKey, b)];
    FieldsTextFirst([Field(ProvKey, b)]);
    FieldsTextFirst([Field(ProvKey, a), Field(ProvKey, b)]);
    assert [Field(ProvKey, b)][1..] == [] && [Field(ProvKey, a), Field(ProvKey, b)][1..] == [Field(ProvKey, b)];
  }

  // ----- an entry forged by a tag -----

  /** A tag that goes on like another entry. */
  function ForgingTag(tag: string, e: ArchiveEntry): string {
    var text := FieldsText(EntryHead(e));
    tag + [FIELD_SEP] + if text == "" then "" else text[..|text| - 1]
  }

  lemma {:induction false} EndsWithSeparator(fs: seq<Field>)
    requires fs != []
    ensures FieldsText(fs) != "" && FieldsText(fs)[|FieldsText(fs)| - 1] == FIELD_SEP
  {
    FieldsTextFirst(fs);
    if |fs| > 1 {
      EndsWithSeparator(fs[1..]);
    } else {
      assert FieldsText(fs[1..]) == "";
    }
  }

  lemma {:induction false} ForgingTagText(tag: string, e: ArchiveEntry)
    ensures FieldText(Field(TagKey, ForgingTag(tag, e))) == FieldText(Field(TagKey, tag)) + FieldsText(EntryHead(e))
  {
    var text := FieldsText(EntryHead(e));
    EndsWithSeparator(EntryHead(e));
    assert text == text[..|text| - 1] + [FIELD_SEP];
  }

  function FieldsOfTwo(e: ArchiveEntry, tags: seq<string>, f: ArchiveEntry, more: seq<string>): string {
    FieldsText(EntriesFields([e.(tags := tags), f.(tags := more)]))
  }

  lemma {:induction false} TwoEntriesText(e: ArchiveEntry, tags: seq<string>, f: ArchiveEntry, more: seq<string>)
    ensures FieldsOfTwo(e, tags, f, more)
         == FieldsText(EntryHead(e)) + (FieldsText(TagFields(TagKey, tags))
            + (FieldsText(EntryHead(f)) + FieldsText(TagFields(TagKey, more))))
  {
    var x, y := e.(tags := tags), f.(tags := more);
    assert [x, y][1..] == [y] && [y][1..] == [];
    assert EntriesFields([y]) == EntryFields(y) + EntriesFields([]);
    assert EntryFields(y) + [] == EntryFields(y);
    assert EntriesFields([x, y]) == EntryFields(x) + EntryFields(y);
    FieldsTextAppend(EntryFields(x), EntryFields(y));
    FieldsTextAppend(EntryHead(e), TagFields(TagKey, tags));
    FieldsTextAppend(EntryHead(f), TagFields(TagKey, more));
    Assoc(FieldsText(EntryHead(e)), FieldsText(TagFields(TagKey, tags)), FieldsText(EntryFields(y)));
  }

  lemma {:induction false} TagText(tags: seq<string>)
    ensures FieldsText(TagFields(TagKey, tags))
         == if tags == [] then "" else FieldText(Field(TagKey, tags[0])) + FieldsText(TagFields(TagKey, tags[1..]))
  {
    FieldsTextFirst(TagFields(TagKey, tags));
    if tags != [] {
      assert TagFields(TagKey, tags)[1..] == TagFields(TagKey, tags[1..]);
    }
  }

  lemma {:induction false} OneTagText(tag: string)
    ensures FieldsText(TagFields(TagKey, [tag])) == FieldText(Field(TagKey, tag)) && FieldsText(TagFields(TagKey, [])) == ""
  {
    TagText([]);
    TagText([tag]);
    assert [tag][1..] == [];
  }

  /** Three entries written as two in two ways. */
  lemma {:induction false} TagForgesEntry(e: ArchiveEntry, f: ArchiveEntry, g: ArchiveEntry, t: string, u: string)
    ensures FieldsOfTwo(e, [ForgingTag(t, f), u], g, []) == FieldsOfTwo(e, [t], f, [ForgingTag(u, g)])
  {
    var tt, ut := FieldText(Field(TagKey, t)), FieldText(Field(TagKey, u));
    var eh, fh, gh := FieldsText(EntryHead(e)), FieldsText(EntryHead(f)), FieldsText(EntryHead(g));
    TwoEntriesText(e, [ForgingTag(t, f), u], g, []);
    TwoEntriesText(e, [t], f, [ForgingTag(u, g)]);
    ForgingTagText(t, f);
    ForgingTagText(u, g);
    TagText([ForgingTag(t, f), u]);
    assert [ForgingTag(t, f), u][1..] == [u];
    OneTagText(u);
    OneTagText(t);
    OneTagText(ForgingTag(u, g));
    Regrouped(tt, fh, ut, gh);
  }

  lemma {:induction false} Regrouped(t: string, f: string, u: string, g: string)
    ensures ((t + f) + u) + (g + "") == t + (f + (u + g))
  {}

  lemma {:induction false} EntriesTextSettles(m: ArchiveManifest, es: seq<ArchiveEntry>, fs: seq<ArchiveEntry>)
    requires FieldsText(EntriesFields(es)) == FieldsText(EntriesFields(fs))
    ensures Encoding(m.(entries := es)) == Encoding(m.(entries := fs))
  {
    ReplacedEntriesText(m, es);
    ReplacedEntriesText(m, fs);
  }

  lemma {:induction false} ReplacedEntriesText(m: ArchiveManifest, es: seq<ArchiveEntry>)
    ensures Encoding(m.(entries := es)) == FieldsText(HeaderFields(m)) + (FieldsText(EntriesFields(es)) + FieldsText(LaterFields(m)))
  {
    FieldsTextAppend(EntriesFields(es), LaterFields(m));
    FieldsTextAppend(HeaderFields(m), EntriesFields(es) + LaterFields(m));
    assert HeaderFields(m.(entries := es)) == HeaderFields(m) && NotesField(m.(entries := es)) == NotesField(m);
  }

  // ----- the text of an encoding -----

  lemma {:induction false} ThreeFields(a: Field, b: Field, c: Field)
    ensures FieldsText([a, b, c]) == FieldText(a) + FieldText(b) + FieldText(c)
  {
    FieldsTextFirst([a, b, c]);
    FieldsTextFirst([b, c]);
    FieldsTextFirst([c]);
    assert [a, b, c][1..] == [b, c] && [b, c][1..] == [c] && [c][1..] == [];
  }

  lemma {:induction false} OneField(a: Field)
    ensures FieldsText([a]) == FieldText(a)
  {
    FieldsTextFirst([a]);
    assert [a][1..] == [];
  }

  /** A key and its value with U+001F between them and U+001E at the end. */
  function Spelled(key: string, value: string): string { key + "\U{1F}" + value + "\U{1E}" }

  lemma {:induction false} FieldSpelled(k: Key, value: string)
    ensures FieldText(Field(k, value)) == Spelled(
              match k
              case SchemaKey => "schema"
              case EngineKey => "engine_version"
              case CountKey => "seed_count"
              case HashKey => "entry_hash"
              case IdKey => "entry_id"
              case LenKey => "entry_len"
              case TagKey => "entry_tag"
              case ProvKey => "prov_tag"
              case CoverageKey => "coverage", value)
  {}

  lemma {:induction false} HeaderSpelledOut(m: ArchiveManifest)
    ensures FieldsText(HeaderFields(m))
         == Spelled("schema", Decimal.Render(m.schema)) + Spelled("engine_version", m.engineVersion)
            + Spelled("seed_count", Decimal.Render(m.seedCount))
  {
    ThreeFields(Field(SchemaKey, Decimal.Render(m.schema)), Field(EngineKey, m.engineVersion), Field(CountKey, Decimal.Render(m.seedCount)));
    FieldSpelled(SchemaKey, Decimal.Render(m.schema));
    FieldSpelled(EngineKey, m.engineVersion);
    FieldSpelled(CountKey, Decimal.Render(m.seedCount));
  }

  lemma {:induction false} EntrySpelledOut(e: ArchiveEntry, t: string)
    requires e.tags == [t]
    ensures FieldsText(EntriesFields([e]))
         == Spelled("entry_hash", e.contentHash) + Spelled("entry_id", Decimal.Render(e.id))
            + Spelled("entry_len", Decimal.Render(e.payloadLen)) + Spelled("entry_tag", t)
  {
    OneEntry(e, t);
    OneTag(TagKey, t);
    FieldsTextAppend(EntryHead(e), TagFields(TagKey, [t]));
    ThreeFields(Field(HashKey, e.contentHash), Field(IdKey, Decimal.Render(e.id)), Field(LenKey, Decimal.Render(e.payloadLen)));
    OneField(Field(TagKey, t));
    FieldSpelled(HashKey, e.contentHash);
    FieldSpelled(IdKey, Decimal.Render(e.id));
    FieldSpelled(LenKey, Decimal.Render(e.payloadLen));
    FieldSpelled(TagKey, t);
  }

  lemma {:induction false} RestSpelledOut(m: ArchiveManifest, p: string)
    requires m.provenanceTags == [p] && m.coverageNotes.Some?
    ensures FieldsText(LaterFields(m)) == Spelled("prov_tag", p) + Spelled("coverage", m.coverageNotes.value)
  {
    OneTag(ProvKey, p);
    FieldsTextAppend(TagFields(ProvKey, [p]), NotesField(m));
    OneField(Field(ProvKey, p));
    OneField(Field(CoverageKey, m.coverageNotes.value));
    FieldSpelled(ProvKey, p);
    FieldSpelled(CoverageKey, m.coverageNotes.value);
  }

  /** The encoding of a manifest with one entry, one entry tag and one provenance tag. */
  lemma {:induction false} EncodingSpelledOut(m: ArchiveManifest, e: ArchiveEntry, t: string, p: string)
    requires m.entries == [e] && e.tags == [t] && m.provenanceTags == [p] && m.coverageNotes.Some?
    ensures Encoding(m)
         == (Spelled("schema", Decimal.Render(m.schema)) + Spelled("engine_version", m.engineVersion)
             + Spelled("seed_count", Decimal.Render(m.seedCount)))
            + ((Spelled("entry_hash", e.contentHash) + Spelled("entry_id", Decimal.Render(e.id))
                + Spelled("entry_len", Decimal.Render(e.payloadLen)) + Spelled("entry_tag", t))
               + (Spelled("prov_tag", p) + Spelled("coverage", m.coverageNotes.value)))
  {
    ReplacedEntriesText(m, [e]);
    assert m.(entries := [e]) == m;
    HeaderSpelledOut(m);
    EntrySpelledOut(e, t);
    RestSpelledOut(m, p);
  }

  lemma {:induction false} OneTag(k: Key, t: string)
    ensures TagFields(k, [t]) == [Field(k, t)]
  {
    assert [t][1..] == [];
  }

  lemma {:induction false} OneEntry(e: ArchiveEntry, t: string)
    requires e.tags == [t]
    ensures EntriesFields([e]) == EntryHead(e) + TagFields(TagKey, [t])
  {
    assert [e][1..] == [];
    assert EntriesFields([e]) == EntryFields(e) + EntriesFields([]);
  }
}
