/** Redacting a fixture's payload (fixture_sanitize.rs): which bytes are masked, that nothing
    else changes, and that no inline credential prefix is left. */
module Sanitize {
  import opened Prelude

  type Bytes = seq<u8>

  const MASK: u8 := 120
  const QUOTE: u8 := 34
  const EQUALS: u8 := 61
  const COLON: u8 := 58

  /** The words that are looked for, in lower case. */
  datatype Vocabulary = Vocabulary(keys: seq<string>, prefixes: seq<string>)

  const SENSITIVE_KEYS: seq<string> := [
    "authorization", "token", "access_token", "refresh_token", "api_key", "apikey", "x-api-key", "webhook_key",
    "client_secret", "password", "secret", "private_key", "session", "cookie", "set-cookie"]

  const INLINE_PREFIXES: seq<string> := ["sk_live_", "sk_test_", "rk_live_", "rk_test_", "pk_live_", "pk_test_"]

  // ----- bytes -----

  predicate Digit(b: u8) { 48 <= b <= 57 }

  predicate Alphanumeric(b: u8) { Digit(b) || 65 <= b <= 90 || 97 <= b <= 122 }

  predicate TokenChar(b: u8) { Alphanumeric(b) || b == 95 || b == 45 }

  predicate Space(b: u8) { b == 32 || b == 9 || b == 10 || b == 12 || b == 13 }

  /** Space, tab, carriage return, newline, and `& ; , " ' ) ] }`. */
  predicate Delimiter(b: u8) {
    b == 32 || b == 9 || b == 13 || b == 10 || b == 38 || b == 59 || b == 44 || b == QUOTE || b == 39 || b == 41 || b == 93 || b == 125
  }

  function Lower(b: u8): u8 { if 65 <= b <= 90 then b + 32 else b }

  predicate IsChar(b: int, c: char) { b == c as int }

  /** The word is at i, in any letter case. */
  predicate MatchesAt(s: Bytes, i: nat, word: string) {
    i + |word| <= |s| && forall j :: 0 <= j < |word| ==> IsChar(Lower(s[i + j]), word[j])
  }

  /** The word is at i, in this letter case. */
  predicate ExactAt(s: Bytes, i: nat, word: string) {
    i + |word| <= |s| && forall j :: 0 <= j < |word| ==> IsChar(s[i + j], word[j])
  }

  function FirstMatch(s: Bytes, i: nat, words: seq<string>): (r: Option<string>)
    ensures match r
            case Some(word) => word in words && MatchesAt(s, i, word)
            case None => forall word :: word in words ==> !MatchesAt(s, i, word)
  {
    if words == [] then None
    else if MatchesAt(s, i, words[0]) then Some(words[0])
    else FirstMatch(s, i, words[1..])
  }

  // ----- where values are -----

  /** The first position from i on that is not white space. */
  function SkipSpace(s: Bytes, i: nat): (k: nat)
    requires i <= |s|
    ensures i <= k <= |s|
    decreases |s| - i
  {
    if i < |s| && Space(s[i]) then SkipSpace(s, i + 1) else i
  }

  predicate ByteAt(s: Bytes, i: nat, b: u8) { i < |s| && s[i] == b }

  /** Past an optional quote. */
  function PastQuote(s: Bytes, i: nat): nat { if ByteAt(s, i, QUOTE) then i + 1 else i }

  /** An authorization key is followed by "bearer ". */
  predicate BearerAt(s: Bytes, i: nat, key: string) { key == "authorization" && MatchesAt(s, i, "bearer ") }

  /** Where the separator must be. */
  function SeparatorPlace(s: Bytes, i: nat, key: string): (k: nat)
    requires i + |key| <= |s|
    ensures i + |key| <= k <= |s|
  {
    SkipSpace(s, PastQuote(s, i + |key|))
  }

  /** After the key an optional quote, a separator among white space, and an optional quote
      again. */
  function PastSeparator(s: Bytes, i: nat, key: string): (v: Option<nat>)
    requires i + |key| <= |s|
    ensures v.Some? ==> i + |key| < v.value <= |s|
  {
    var at := SeparatorPlace(s, i, key);
    if ByteAt(s, at, EQUALS) || ByteAt(s, at, COLON) then Some(PastQuote(s, SkipSpace(s, at + 1))) else None
  }

  /** Where the value of the key at i begins: after the separator, and for an authorization
      key after the bearer marker. */
  function ValueStart(s: Bytes, i: nat, key: string): (v: Option<nat>)
    requires i + |key| <= |s|
    ensures v.Some? ==> i + |key| < v.value <= |s|
  {
    match PastSeparator(s, i, key)
    case None => None
    case Some(m) => Some(if BearerAt(s, m, key) then m + 7 else m)
  }

  /** `parse_value_start`, where masking begins: the byte after a bearer marker is skipped. */
  function MaskStart(s: Bytes, i: nat, key: string): (v: Option<nat>)
    requires i + |key| <= |s|
    ensures v.Some? ==> i + |key| < v.value <= |s|
  {
    match PastSeparator(s, i, key)
    case None => None
    case Some(m) => Some(if BearerAt(s, m, key) then Min(m + 8, |s|) else m)
  }

  /** A quote opens what follows the separator. */
  predicate OpensQuote(s: Bytes, i: nat, key: string)
    requires i + |key| <= |s|
  {
    var at := SeparatorPlace(s, i, key);
    at < |s| && ByteAt(s, SkipSpace(s, at + 1), QUOTE)
  }

  /** The key or what follows the separator is quoted. */
  predicate Quoted(s: Bytes, i: nat, key: string)
    requires i + |key| <= |s|
  {
    ByteAt(s, i + |key|, QUOTE) || OpensQuote(s, i, key)
  }

  /** The end of the run of bytes from i on that satisfy p. */
  function RunEnd(s: Bytes, i: nat, p: u8 -> bool): (k: nat)
    requires i <= |s|
    ensures i <= k <= |s| && (forall q :: i <= q < k ==> p(s[q])) && (k < |s| ==> !p(s[k]))
    decreases |s| - i
  {
    if i < |s| && p(s[i]) then RunEnd(s, i + 1, p) else i
  }

  function NotDelimiter(): u8 -> bool { (b: u8) => !Delimiter(b) }

  function IsAlphanumeric(): u8 -> bool { (b: u8) => Alphanumeric(b) }

  function IsTokenChar(): u8 -> bool { (b: u8) => TokenChar(b) }

  datatype Region = Region(from: nat, until: nat)

  /** What the scan masks when it looks at position i: a secret key in exactly this case
      with what follows it, or the value of a sensitive key. */
  function RegionAt(keys: seq<string>, s: Bytes, i: nat): (r: Option<Region>)
    ensures r.Some? ==> i <= r.value.from <= r.value.until <= |s| && i < r.value.until
  {
    if ExactAt(s, i, "sk_live_") || ExactAt(s, i, "sk_test_") then Some(Region(i, RunEnd(s, i + 8, IsAlphanumeric())))
    else match FirstMatch(s, i, keys)
         case None => None
         case Some(key) =>
           match MaskStart(s, i, key)
           case None => None
           case Some(v) => Some(Region(v, RunEnd(s, v, NotDelimiter())))
  }

  /** Where the scan looks after position i. */
  function Resume(keys: seq<string>, s: Bytes, i: nat): (k: nat)
    ensures k > i
  {
    match RegionAt(keys, s, i)
    case Some(region) => region.until
    case None => i + 1
  }

  predicate Covers(keys: seq<string>, s: Bytes, i: nat, p: nat) {
    match RegionAt(keys, s, i)
    case Some(region) => region.from <= p < region.until
    case None => false
  }

  /** The scan starting at i masks position p. */
  predicate MaskedFrom(keys: seq<string>, s: Bytes, i: nat, p: nat)
    decreases |s| - i
  {
    i < |s| && (Covers(keys, s, i, p) || MaskedFrom(keys, s, Resume(keys, s, i), p))
  }

  /** A credential prefix starts at i, in any letter case. */
  predicate PrefixAt(prefixes: seq<string>, s: Bytes, i: nat) { FirstMatch(s, i, prefixes).Some? }

  predicate RunsTo(s: Bytes, i: nat, p: nat) { i <= p < |s| && forall q :: i <= q <= p ==> TokenChar(s[q]) }

  /** Position p belongs to a credential: an unbroken run of token characters reaches it
      from a prefix. */
  predicate InCredential(prefixes: seq<string>, s: Bytes, p: nat) {
    exists i: nat :: i <= p && PrefixAt(prefixes, s, i) && RunsTo(s, i, p)
  }

  /** Prefixes are of token characters other than the mask, and not empty. */
  predicate Sound(prefixes: seq<string>) {
    forall k, j :: 0 <= k < |prefixes| && 0 <= j < |prefixes[k]| ==>
      Lowercase(prefixes[k][j])
  }

  predicate Lowercase(c: char) { 'a' <= c <= 'w' || c == '_' }

  predicate NoneEmpty(words: seq<string>) { forall k :: 0 <= k < |words| ==> words[k] != "" }

  /** No prefix is shorter than two characters. */
  predicate NoneShort(words: seq<string>) { forall k :: 0 <= k < |words| ==> |words[k]| >= 2 }

  // ----- the scan -----

  /** `parse_value_start`, also telling whether the key or the value was quoted. */
  method ParseValueStart(s: Bytes, i: nat, key: string) returns (r: Option<(nat, bool)>)
    requires i + |key| <= |s|
    ensures r == if MaskStart(s, i, key).Some? then Some((MaskStart(s, i, key).value, Quoted(s, i, key))) else None
  {
    var index := i + |key|;
    var quotedKey := false;
    if ByteAt(s, index, QUOTE) {
      quotedKey := true;
      index := index + 1;
    }
    index := SkipWhitespace(s, index);
    if !ByteAt(s, index, EQUALS) && !ByteAt(s, index, COLON) {
      return None;
    }
    var quotedValue;
    index, quotedValue := SkipQuote(s, index + 1);
    index := SkipBearer(s, index, key);
    return Some((index, quotedKey || quotedValue));
  }

  method SkipQuote(s: Bytes, i: nat) returns (index: nat, quoted: bool)
    requires i <= |s|
    ensures index == PastQuote(s, SkipSpace(s, i)) && quoted == ByteAt(s, SkipSpace(s, i), QUOTE)
  {
    index := SkipWhitespace(s, i);
    quoted := ByteAt(s, index, QUOTE);
    if quoted {
      index := index + 1;
    }
  }

  /** The bearer marker and the byte after it. */
  method SkipBearer(s: Bytes, i: nat, key: string) returns (index: nat)
    requires i <= |s|
    ensures index == if BearerAt(s, i, key) then Min(i + 8, |s|) else i
  {
    index := i;
    if key == "authorization" && MatchesAt(s, index, "bearer ") {
      index := index + 7;
      if index < |s| {
        index := index + 1;
      }
    }
  }

  method SkipWhitespace(s: Bytes, i: nat) returns (index: nat)
    requires i <= |s|
    ensures index == SkipSpace(s, i)
  {
    index := i;
    while index < |s| && Space(s[index])
      invariant i <= index <= |s| && SkipSpace(s, i) == SkipSpace(s, index)
    {
      index := index + 1;
    }
  }

  type Positions = nat -> bool

  function Nowhere(): Positions { (p: nat) => false }

  function Adding(masked: Positions, from: nat, until: nat): Positions { (p: nat) => masked(p) || from <= p < until }

  /** The buffer holds s with the masked positions overwritten. */
  ghost predicate Holds(buffer: array<u8>, s: Bytes, masked: Positions)
    reads buffer
  {
    buffer.Length == |s| && forall p: nat :: p < |s| ==> buffer[p] == if masked(p) then MASK else s[p]
  }

  /** Masks the run of bytes that satisfy p. */
  method MaskRun(buffer: array<u8>, s: Bytes, from: nat, p: u8 -> bool, ghost masked: Positions) returns (until: nat)
    requires from <= |s| && Holds(buffer, s, masked)
    modifies buffer
    ensures until == RunEnd(s, from, p) && Holds(buffer, s, Adding(masked, from, until))
  {
    until := from;
    while until < |s| && p(s[until])
      invariant from <= until <= |s| && RunEnd(s, from, p) == RunEnd(s, until, p)
      invariant Holds(buffer, s, Adding(masked, from, until))
    {
      buffer[until] := MASK;
      until := until + 1;
    }
  }

  /** Masks a secret key and what follows it. */
  method MaskSecretKey(buffer: array<u8>, s: Bytes, index: nat, ghost masked: Positions) returns (until: nat)
    requires index + 8 <= |s| && Holds(buffer, s, masked)
    modifies buffer
    ensures until == RunEnd(s, index + 8, IsAlphanumeric()) && Holds(buffer, s, Adding(masked, index, until))
  {
    for i := index to index + 8
      invariant Holds(buffer, s, Adding(masked, index, i))
    {
      buffer[i] := MASK;
    }
    until := MaskRun(buffer, s, index + 8, IsAlphanumeric(), Adding(masked, index, index + 8));
  }

  /** What the loop over a value tests. */
  function InValue(quoted: bool): u8 -> bool { (b: u8) => !Delimiter(b) && !(quoted && b == QUOTE) }

  /** A quote is a delimiter anyway, so whether key or value was quoted changes nothing. */
  lemma {:induction false} QuotedFlagNeverMatters(s: Bytes, i: nat, quoted: bool)
    requires i <= |s|
    ensures RunEnd(s, i, InValue(quoted)) == RunEnd(s, i, NotDelimiter())
    decreases |s| - i
  {
    if i < |s| && !Delimiter(s[i]) {
      QuotedFlagNeverMatters(s, i + 1, quoted);
    }
  }

  /** One round of the scanning loop. */
  method MaskAt(keys: seq<string>, buffer: array<u8>, s: Bytes, index: nat, ghost masked: Positions) returns (next: nat)
    requires index < |s| && Holds(buffer, s, masked)
    modifies buffer
    ensures next == Resume(keys, s, index) <= |s|
    ensures match RegionAt(keys, s, index)
            case Some(region) => Holds(buffer, s, Adding(masked, region.from, region.until))
            case None => Holds(buffer, s, masked)
  {
    if ExactAt(s, index, "sk_live_") || ExactAt(s, index, "sk_test_") {
      next := MaskSecretKey(buffer, s, index, masked);
      return;
    }
    var key := FirstMatch(s, index, keys);
    if key.None? {
      return index + 1;
    }
    var value := ParseValueStart(s, index, key.value);
    if value.None? {
      return index + 1;
    }
    QuotedFlagNeverMatters(s, value.value.0, value.value.1);
    next := MaskRun(buffer, s, value.value.0, InValue(value.value.1), masked);
  }

  /** The masked positions so far and the scan from here on make up the whole scan. */
  ghost predicate ScanSplits(keys: seq<string>, s: Bytes, index: nat, masked: Positions) {
    forall p: nat :: MaskedFrom(keys, s, 0, p) <==> masked(p) || MaskedFrom(keys, s, index, p)
  }

  ghost function Next(keys: seq<string>, s: Bytes, index: nat, masked: Positions): Positions {
    match RegionAt(keys, s, index)
    case Some(region) => Adding(masked, region.from, region.until)
    case None => masked
  }

  lemma {:induction false} ScanStep(keys: seq<string>, s: Bytes, index: nat, masked: Positions)
    requires ScanSplits(keys, s, index, masked) && index < |s|
    ensures ScanSplits(keys, s, Resume(keys, s, index), Next(keys, s, index, masked))
  {
    forall p: nat ensures MaskedFrom(keys, s, 0, p)
                          <==> Next(keys, s, index, masked)(p) || MaskedFrom(keys, s, Resume(keys, s, index), p) {
      assert MaskedFrom(keys, s, index, p) <==> Covers(keys, s, index, p) || MaskedFrom(keys, s, Resume(keys, s, index), p);
    }
  }

  /** The scanning loop of `sanitize_payload_fragments`: exactly the scan's positions are
      overwritten. */
  method RedactValues(keys: seq<string>, s: Bytes, buffer: array<u8>)
    requires buffer[..] == s
    modifies buffer
    ensures buffer.Length == |s|
    ensures forall p: nat :: p < |s| ==> buffer[p] == if MaskedFrom(keys, s, 0, p) then MASK else s[p]
  {
    var index := 0;
    ghost var masked := Nowhere();
    while index < |s|
      invariant 0 <= index <= |s| && Holds(buffer, s, masked) && ScanSplits(keys, s, index, masked)
    {
      ScanStep(keys, s, index, masked);
      var next := MaskAt(keys, buffer, s, index, masked);
      masked := Next(keys, s, index, masked);
      index := next;
    }
  }

  // ----- inline credentials -----

  lemma {:induction false} SameTailSameMatch(s: Bytes, t: Bytes, i: nat, words: seq<string>)
    requires |s| == |t| && forall p :: i <= p < |s| ==> s[p] == t[p]
    ensures FirstMatch(s, i, words) == FirstMatch(t, i, words)
  {
    if words != [] {
      assert MatchesAt(s, i, words[0]) <==> MatchesAt(t, i, words[0]);
      SameTailSameMatch(s, t, i, words[1..]);
    }
  }

  /** No credential that starts before index runs into it. */
  ghost predicate NoneOpen(prefixes: seq<string>, s: Bytes, index: nat) {
    forall i: nat :: i < index && PrefixAt(prefixes, s, i) ==> !RunsTo(s, i, index)
  }

  lemma {:induction false} NoCredentialHere(prefixes: seq<string>, s: Bytes, index: nat)
    requires NoneOpen(prefixes, s, index) && index < |s| && !PrefixAt(prefixes, s, index)
    ensures !InCredential(prefixes, s, index) && NoneOpen(prefixes, s, index + 1)
  {
    forall i: nat | i < index + 1 && PrefixAt(prefixes, s, i) ensures !RunsTo(s, i, index + 1) {
      assert i < index && !RunsTo(s, i, index);
    }
  }

  lemma {:induction false} CredentialHere(prefixes: seq<string>, s: Bytes, index: nat, word: string, until: nat)
    requires Sound(prefixes) && FirstMatch(s, index, prefixes) == Some(word)
    requires until == RunEnd(s, index + |word|, IsTokenChar())
    ensures forall p :: index <= p < until ==> InCredential(prefixes, s, p)
    ensures NoneOpen(prefixes, s, until)
  {
    var k :| 0 <= k < |prefixes| && prefixes[k] == word;
    forall q | index <= q < until ensures TokenChar(s[q]) {
      if q < index + |word| {
        assert IsChar(Lower(s[index + (q - index)]), word[q - index]);
        assert Lowercase(prefixes[k][q - index]);
      } else {
        assert IsTokenChar()(s[q]);
      }
    }
    forall p | index <= p < until ensures InCredential(prefixes, s, p) {
      assert PrefixAt(prefixes, s, index) && RunsTo(s, index, p);
    }
    if until < |s| {
      assert !IsTokenChar()(s[until]);
    }
  }

  /** `redact_inline_credential_tokens`. */
  method RedactInlineTokens(prefixes: seq<string>, buffer: array<u8>)
    requires Sound(prefixes) && NoneEmpty(prefixes)
    modifies buffer
    ensures forall p: nat :: p < buffer.Length ==>
              buffer[p] == if InCredential(prefixes, old(buffer[..]), p) then MASK else old(buffer[p])
  {
    ghost var s := buffer[..];
    var index := 0;
    while index < buffer.Length
      invariant 0 <= index <= buffer.Length && NoneOpen(prefixes, s, index)
      invariant forall p :: index <= p < buffer.Length ==> buffer[p] == s[p]
      invariant forall p: nat :: p < index ==> buffer[p] == if InCredential(prefixes, s, p) then MASK else s[p]
    {
      SameTailSameMatch(buffer[..], s, index, prefixes);
      var prefix := FirstMatch(buffer[..], index, prefixes);
      if prefix.None? {
        NoCredentialHere(prefixes, s, index);
        index := index + 1;
      } else {
        var end := index + |prefix.value|;
        while end < buffer.Length && TokenChar(buffer[end])
          invariant index + |prefix.value| <= end <= buffer.Length
          invariant RunEnd(s, index + |prefix.value|, IsTokenChar()) == RunEnd(s, end, IsTokenChar())
        {
          end := end + 1;
        }
        CredentialHere(prefixes, s, index, prefix.value, end);
        forall slot | index <= slot < end {
          buffer[slot] := MASK;
        }
        index := end;
      }
    }
  }

  // ----- the whole pass -----

  /** What the scan of values leaves. */
  function ValuesMasked(keys: seq<string>, s: Bytes): Bytes {
    seq(|s|, p requires 0 <= p < |s| => if MaskedFrom(keys, s, 0, p) then MASK else s[p])
  }

  function Sanitized(words: Vocabulary, s: Bytes): Bytes {
    var scanned := ValuesMasked(words.keys, s);
    seq(|s|, p requires 0 <= p < |s| => if InCredential(words.prefixes, scanned, p) then MASK else scanned[p])
  }

  /** `sanitize_payload_fragments`, for any words to look for. */
  method SanitizeWith(words: Vocabulary, payload: Bytes) returns (out: Bytes)
    requires Sound(words.prefixes) && NoneEmpty(words.prefixes)
    ensures out == Sanitized(words, payload)
  {
    var sanitized := new u8[|payload|](p requires 0 <= p < |payload| => payload[p]);
    assert sanitized[..] == payload;
    RedactValues(words.keys, payload, sanitized);
    assert sanitized[..] == ValuesMasked(words.keys, payload);
    RedactInlineTokens(words.prefixes, sanitized);
    out := sanitized[..];
  }

  function Defaults(): Vocabulary { Vocabulary(SENSITIVE_KEYS, INLINE_PREFIXES) }

  lemma {:induction false} DefaultsSound()
    ensures Sound(INLINE_PREFIXES) && NoneEmpty(INLINE_PREFIXES) && NoneShort(INLINE_PREFIXES)
  {}

  method SanitizePayloadFragments(payload: Bytes) returns (out: Bytes)
    ensures out == Sanitized(Defaults(), payload)
  {
    DefaultsSound();
    out := SanitizeWith(Defaults(), payload);
  }

  // ----- what sanitizing guarantees -----

  /** Only bytes that are no delimiters are ever replaced, and only by the mask. */
  lemma {:induction false} OnlyMasksValues(words: Vocabulary, s: Bytes, p: nat)
    requires p < |s|
    ensures |Sanitized(words, s)| == |s|
    ensures Sanitized(words, s)[p] == s[p] || (Sanitized(words, s)[p] == MASK && !Delimiter(s[p]))
  {
    var scanned := ValuesMasked(words.keys, s);
    if MaskedFrom(words.keys, s, 0, p) {
      MaskedIsNoDelimiter(words.keys, s, 0, p);
    } else if InCredential(words.prefixes, scanned, p) {
      assert TokenChar(scanned[p]);
    }
  }

  lemma {:induction false} CoveredIsNoDelimiter(keys: seq<string>, s: Bytes, i: nat, p: nat)
    requires Covers(keys, s, i, p)
    ensures p < |s| && !Delimiter(s[p])
  {
    if ExactAt(s, i, "sk_live_") || ExactAt(s, i, "sk_test_") {
      if p < i + 8 {
        assert IsChar(s[i + (p - i)], "sk_live_"[p - i]) || IsChar(s[i + (p - i)], "sk_test_"[p - i]);
      } else {
        assert IsAlphanumeric()(s[p]);
      }
    } else {
      assert NotDelimiter()(s[p]);
    }
  }

  lemma {:induction false} MaskedIsNoDelimiter(keys: seq<string>, s: Bytes, i: nat, p: nat)
    requires MaskedFrom(keys, s, i, p)
    ensures p < |s| && !Delimiter(s[p])
    decreases |s| - i
  {
    if Covers(keys, s, i, p) {
      CoveredIsNoDelimiter(keys, s, i, p);
    } else {
      MaskedIsNoDelimiter(keys, s, Resume(keys, s, i), p);
    }
  }

  /** A prefix in the output was there after the scan, and masks nothing. */
  lemma {:induction false} PrefixSurvives(words: Vocabulary, s: Bytes, i: nat)
    requires Sound(words.prefixes) && NoneEmpty(words.prefixes) && PrefixAt(words.prefixes, Sanitized(words, s), i)
    ensures PrefixAt(words.prefixes, ValuesMasked(words.keys, s), i)
    ensures i < |s| && TokenChar(ValuesMasked(words.keys, s)[i]) && Sanitized(words, s)[i] != MASK
  {
    var out, scanned := Sanitized(words, s), ValuesMasked(words.keys, s);
    var word := FirstMatch(out, i, words.prefixes).value;
    var k :| 0 <= k < |words.prefixes| && words.prefixes[k] == word;
    forall j | 0 <= j < |word| ensures IsChar(Lower(scanned[i + j]), word[j]) && out[i + j] == scanned[i + j] {
      assert IsChar(Lower(out[i + j]), word[j]) && Lowercase(words.prefixes[k][j]);
    }
    assert MatchesAt(scanned, i, word) && word in words.prefixes;
    assert words.prefixes[k] != "";
    assert IsChar(Lower(out[i + 0]), word[0]) && Lowercase(words.prefixes[k][0]) && out[i + 0] == scanned[i + 0];
  }

  /** No credential prefix is left, in any letter case. */
  lemma {:induction false} NoCredentialLeft(words: Vocabulary, s: Bytes, i: nat)
    requires Sound(words.prefixes) && NoneEmpty(words.prefixes)
    ensures !PrefixAt(words.prefixes, Sanitized(words, s), i)
  {
    var scanned := ValuesMasked(words.keys, s);
    assert i < |s| && PrefixAt(words.prefixes, scanned, i) && RunsTo(scanned, i, i) ==> InCredential(words.prefixes, scanned, i);
    if PrefixAt(words.prefixes, Sanitized(words, s), i) {
      PrefixSurvives(words, s, i);
    }
  }

  /** The scan that starts at i comes to look at position k. */
  predicate Reaches(keys: seq<string>, s: Bytes, i: nat, k: nat)
    decreases |s| - i
  {
    i == k || (i < |s| && i < k && Reaches(keys, s, Resume(keys, s, i), k))
  }

  lemma {:induction false} ReachedIsMasked(keys: seq<string>, s: Bytes, i: nat, k: nat, p: nat)
    requires Reaches(keys, s, i, k) && Covers(keys, s, k, p)
    ensures MaskedFrom(keys, s, i, p)
    decreases |s| - i
  {
    if i != k {
      ReachedIsMasked(keys, s, Resume(keys, s, i), k, p);
    }
  }

  lemma {:induction false} MaskedWasReached(keys: seq<string>, s: Bytes, i: nat, p: nat) returns (k: nat)
    requires MaskedFrom(keys, s, i, p)
    ensures Reaches(keys, s, i, k) && Covers(keys, s, k, p)
    decreases |s| - i
  {
    if Covers(keys, s, i, p) {
      k := i;
    } else {
      k := MaskedWasReached(keys, s, Resume(keys, s, i), p);
      ReachesOnlyForward(keys, s, Resume(keys, s, i), k);
    }
  }

  lemma {:induction false} ReachesOnlyForward(keys: seq<string>, s: Bytes, i: nat, k: nat)
    requires Reaches(keys, s, i, k)
    ensures i <= k
    decreases |s| - i
  {}

  /** The scan masks exactly what some position it comes to covers. */
  lemma {:induction false} ScanIsExact(keys: seq<string>, s: Bytes, p: nat)
    ensures MaskedFrom(keys, s, 0, p) <==> exists k: nat :: Reaches(keys, s, 0, k) && Covers(keys, s, k, p)
  {
    if MaskedFrom(keys, s, 0, p) {
      var k := MaskedWasReached(keys, s, 0, p);
    }
    forall k: nat | Reaches(keys, s, 0, k) && Covers(keys, s, k, p) ensures MaskedFrom(keys, s, 0, p) {
      ReachedIsMasked(keys, s, 0, k, p);
    }
  }
}
