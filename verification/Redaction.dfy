/** What the redaction of fixture_sanitize.rs does to the values of keys: where the scan
    looks, which values are masked as a whole, and payloads that keep a secret. */
module Redaction {
  import opened Prelude
  import opened Sanitize

  // ----- the values of keys that are found -----

  /** The scan comes to position k and finds this key there. */
  predicate Finds(keys: seq<string>, s: Bytes, k: nat, key: string) {
    && Reaches(keys, s, 0, k) && FirstMatch(s, k, keys) == Some(key)
    && !ExactAt(s, k, "sk_live_") && !ExactAt(s, k, "sk_test_")
  }

  /** The end of the value that begins at v. */
  function ValueEnd(s: Bytes, v: nat): (e: nat)
    requires v <= |s|
    ensures v <= e <= |s| && (forall q :: v <= q < e ==> !Delimiter(s[q])) && (e < |s| ==> Delimiter(s[e]))
  {
    assert forall q :: v <= q < RunEnd(s, v, NotDelimiter()) ==> NotDelimiter()(s[q]);
    RunEnd(s, v, NotDelimiter())
  }

  /** Past a position the scan comes to, only what it does from there on matters. */
  lemma {:induction false} ScanFromReached(keys: seq<string>, s: Bytes, i: nat, k: nat, p: nat)
    requires Reaches(keys, s, i, k) && k <= p
    ensures MaskedFrom(keys, s, i, p) == MaskedFrom(keys, s, k, p)
    decreases |s| - i
  {
    if i != k {
      ReachesOnlyForward(keys, s, Resume(keys, s, i), k);
      ScanFromReached(keys, s, Resume(keys, s, i), k, p);
    }
  }

  lemma {:induction false} NothingBehind(keys: seq<string>, s: Bytes, i: nat, p: nat)
    requires p < i
    ensures !MaskedFrom(keys, s, i, p)
    decreases |s| - i
  {
    if i < |s| {
      NothingBehind(keys, s, Resume(keys, s, i), p);
    }
  }

  /** Of a key that is found, everything between where masking begins and the next delimiter
      is masked, and nothing between the key and where masking begins. */
  lemma {:induction false} FoundKeyMasks(words: Vocabulary, s: Bytes, k: nat, key: string, p: nat)
    requires Finds(words.keys, s, k, key) && MaskStart(s, k, key).Some? && p < |s|
    ensures MaskStart(s, k, key).value <= p < ValueEnd(s, MaskStart(s, k, key).value) ==> Sanitized(words, s)[p] == MASK
    ensures k <= p < MaskStart(s, k, key).value ==> !MaskedFrom(words.keys, s, 0, p)
  {
    var v := MaskStart(s, k, key).value;
    if v <= p < ValueEnd(s, v) {
      assert Covers(words.keys, s, k, p);
      ReachedIsMasked(words.keys, s, 0, k, p);
    }
    if k <= p < v {
      ScanFromReached(words.keys, s, 0, k, p);
      NothingBehind(words.keys, s, Resume(words.keys, s, k), p);
    }
  }

  /** The value of a found authorization key begins, after a bearer marker, with a byte that
      is no delimiter. */
  predicate SkipsByte(s: Bytes, k: nat, key: string)
    requires k + |key| <= |s| && ValueStart(s, k, key).Some?
  {
    var v := ValueStart(s, k, key).value;
    BearerAt(s, PastSeparator(s, k, key).value, key) && v < |s| && !Delimiter(s[v])
  }

  /** A token character between a delimiter and a delimiter or masked byte is no credential. */
  lemma {:induction false} LoneByte(prefixes: seq<string>, s: Bytes, v: nat)
    requires Sound(prefixes) && NoneShort(prefixes)
    requires 0 < v < |s| && Delimiter(s[v - 1]) && (v + 1 < |s| ==> s[v + 1] == MASK || Delimiter(s[v + 1]))
    ensures !InCredential(prefixes, s, v)
  {
    assert !TokenChar(s[v - 1]);
    if PrefixAt(prefixes, s, v) {
      PrefixGoesOn(prefixes, s, v);
    }
  }

  lemma {:induction false} PrefixGoesOn(prefixes: seq<string>, s: Bytes, i: nat)
    requires Sound(prefixes) && NoneShort(prefixes) && PrefixAt(prefixes, s, i)
    ensures i + 1 < |s| && s[i + 1] != MASK && !Delimiter(s[i + 1])
  {
    var word := FirstMatch(s, i, prefixes).value;
    var k :| 0 <= k < |prefixes| && prefixes[k] == word;
    assert |prefixes[k]| >= 2 && Lowercase(prefixes[k][1]) && IsChar(Lower(s[i + 1]), word[1]);
  }

  /** That byte survives. */
  lemma {:induction false} SkippedByteStays(words: Vocabulary, s: Bytes, k: nat, key: string)
    requires Sound(words.prefixes) && NoneShort(words.prefixes)
    requires Finds(words.keys, s, k, key) && ValueStart(s, k, key).Some? && SkipsByte(s, k, key)
    ensures var v := ValueStart(s, k, key).value; Sanitized(words, s)[v] == s[v]
  {
    var v := ValueStart(s, k, key).value;
    FoundKeyMasks(words, s, k, key, v);
    assert IsChar(Lower(s[v - 7 + 6]), "bearer "[6]);
    DelimiterStays(words.keys, s, v - 1);
    if v + 1 < |s| {
      MaskedOrDelimiter(words.keys, s, k, key, v + 1);
    }
    LoneByte(words.prefixes, ValuesMasked(words.keys, s), v);
  }

  lemma {:induction false} DelimiterStays(keys: seq<string>, s: Bytes, p: nat)
    requires p < |s| && Delimiter(s[p])
    ensures ValuesMasked(keys, s)[p] == s[p]
  {
    if MaskedFrom(keys, s, 0, p) {
      MaskedIsNoDelimiter(keys, s, 0, p);
    }
  }

  lemma {:induction false} MaskedOrDelimiter(keys: seq<string>, s: Bytes, k: nat, key: string, m: nat)
    requires Finds(keys, s, k, key) && MaskStart(s, k, key) == Some(m) && m < |s|
    ensures ValuesMasked(keys, s)[m] == MASK || Delimiter(ValuesMasked(keys, s)[m])
  {
    if Delimiter(s[m]) {
      DelimiterStays(keys, s, m);
    } else {
      assert m < ValueEnd(s, m) && Covers(keys, s, k, m);
      ReachedIsMasked(keys, s, 0, k, m);
    }
  }

  /** Of a key that is found, the whole value up to the next delimiter is masked, if and only
      if it is not an authorization key whose value follows a bearer marker: of that value
      the first byte is left as it was, and only that. */
  lemma {:induction false} FoundValueIsMaskedIff(words: Vocabulary, s: Bytes, k: nat, key: string)
    requires Sound(words.prefixes) && NoneShort(words.prefixes)
    requires Finds(words.keys, s, k, key) && ValueStart(s, k, key).Some?
    ensures var v := ValueStart(s, k, key).value;
            && (SkipsByte(s, k, key) ==> Sanitized(words, s)[v] == s[v])
            && (forall p :: v < p < ValueEnd(s, v) ==> Sanitized(words, s)[p] == MASK)
            && ((forall p :: v <= p < ValueEnd(s, v) ==> Sanitized(words, s)[p] == MASK)
                <==> !(SkipsByte(s, k, key) && s[v] != MASK))
  {
    var v := ValueStart(s, k, key).value;
    if SkipsByte(s, k, key) {
      SkippedByteStays(words, s, k, key);
    }
    forall p | v <= p < ValueEnd(s, v) && (p == v ==> !SkipsByte(s, k, key)) ensures Sanitized(words, s)[p] == MASK {
      FoundRestIsMasked(words, s, k, key, p);
    }
  }

  lemma {:induction false} FoundRestIsMasked(words: Vocabulary, s: Bytes, k: nat, key: string, p: nat)
    requires Finds(words.keys, s, k, key) && ValueStart(s, k, key).Some?
    requires var v := ValueStart(s, k, key).value; v <= p < ValueEnd(s, v) && (p == v ==> !SkipsByte(s, k, key))
    ensures Sanitized(words, s)[p] == MASK
  {
    var v, m := ValueStart(s, k, key).value, MaskStart(s, k, key).value;
    SameValueEnd(s, v, m);
    FoundKeyMasks(words, s, k, key, p);
  }

  lemma {:induction false} SameValueEnd(s: Bytes, v: nat, m: nat)
    requires v <= m <= |s| && m <= v + 1 && (v < m ==> !Delimiter(s[v]))
    ensures ValueEnd(s, v) == ValueEnd(s, m)
  {}

  // ----- whole values -----

  /** The first quote from i on, or the end. */
  function QuoteEnd(s: Bytes, i: nat): (e: nat)
    requires i <= |s|
    ensures i <= e <= |s| && (forall q :: i <= q < e ==> s[q] != QUOTE) && (e < |s| ==> s[e] == QUOTE)
    decreases |s| - i
  {
    if i < |s| && s[i] != QUOTE then QuoteEnd(s, i + 1) else i
  }

  /** The end of the whole value: the closing quote of a quoted one, else the next
      delimiter. */
  function WholeEnd(s: Bytes, k: nat, key: string): (e: nat)
    requires k + |key| <= |s| && ValueStart(s, k, key).Some?
    ensures ValueStart(s, k, key).value <= e <= |s|
  {
    var v := ValueStart(s, k, key).value;
    if OpensQuote(s, k, key) then QuoteEnd(s, v) else ValueEnd(s, v)
  }

  lemma {:induction false} DelimiterIsLeft(words: Vocabulary, s: Bytes, p: nat)
    requires p < |s| && Delimiter(s[p])
    ensures Sanitized(words, s)[p] != MASK
  {
    OnlyMasksValues(words, s, p);
  }

  lemma {:induction false} SameEnd(s: Bytes, v: nat, e: nat)
    requires v <= e <= |s| && (e < |s| ==> Delimiter(s[e])) && forall q :: v <= q < e ==> !Delimiter(s[q])
    ensures ValueEnd(s, v) == e
  {}

  /** Of a key that is found, the whole value is masked, up to the closing quote of a quoted
      one, if and only if no delimiter occurs in it and it does not follow a bearer marker. */
  lemma {:induction false} WholeValueIsMaskedIff(words: Vocabulary, s: Bytes, k: nat, key: string)
    requires Sound(words.prefixes) && NoneShort(words.prefixes)
    requires Finds(words.keys, s, k, key) && ValueStart(s, k, key).Some?
    ensures var v, e := ValueStart(s, k, key).value, WholeEnd(s, k, key);
            (forall p :: v <= p < e ==> Sanitized(words, s)[p] == MASK)
            <==> (forall q :: v <= q < e ==> !Delimiter(s[q])) && !(SkipsByte(s, k, key) && s[v] != MASK)
  {
    var v, e, out := ValueStart(s, k, key).value, WholeEnd(s, k, key), Sanitized(words, s);
    FoundValueIsMaskedIff(words, s, k, key);
    forall q | v <= q < e && Delimiter(s[q]) ensures out[q] != MASK {
      DelimiterIsLeft(words, s, q);
    }
    if forall q :: v <= q < e ==> !Delimiter(s[q]) {
      SameEnd(s, v, e);
    }
  }

  // ----- where the scan looks -----

  /** Some position the scan comes to skips k. */
  ghost predicate SkippedOver(keys: seq<string>, s: Bytes, i: nat, k: nat) {
    exists j: nat :: Reaches(keys, s, i, j) && j < k < Resume(keys, s, j) && j < |s|
  }

  /** The scan comes to exactly the positions that are not inside what it masks or skips
      from an earlier one: a key there, and only there, is never looked at. */
  lemma {:induction false} ReachedIff(keys: seq<string>, s: Bytes, i: nat, k: nat)
    requires i <= k < |s|
    ensures Reaches(keys, s, i, k) <==> !SkippedOver(keys, s, i, k)
    decreases |s| - i
  {
    var r := Resume(keys, s, i);
    forall j: nat | Reaches(keys, s, i, j) ensures i <= j && (j != i ==> Reaches(keys, s, r, j)) {
      ReachesOnlyForward(keys, s, i, j);
    }
    if i < k && k < r {
      assert Reaches(keys, s, i, i);
      if Reaches(keys, s, r, k) {
        ReachesOnlyForward(keys, s, r, k);
      }
    } else if i < k {
      ReachedIff(keys, s, r, k);
      forall j: nat | Reaches(keys, s, r, j) ensures Reaches(keys, s, i, j) {
        ReachesOnlyForward(keys, s, r, j);
      }
    }
  }

  // ----- payloads that keep a secret -----

  lemma {:induction false} NotSecretKey(s: Bytes, i: nat)
    requires i < |s| && !IsChar(s[i], 's')
    ensures !ExactAt(s, i, "sk_live_") && !ExactAt(s, i, "sk_test_")
  {
    assert "sk_live_"[0] == 's' && "sk_test_"[0] == 's';
    assert forall word :: ExactAt(s, i, word) && word != "" ==> IsChar(s[i + 0], word[0]);
  }

  const BEARER_HEADER: string := "authorization: bearer "

  lemma {:induction false} BearerHeader(s: Bytes)
    requires ExactAt(s, 0, BEARER_HEADER)
    ensures MatchesAt(s, 0, "authorization") && s[0] == 97 && s[13] == COLON && s[14] == 32 && s[15] == 98 && MatchesAt(s, 15, "bearer ")
  {
    var h := BEARER_HEADER;
    assert forall j :: 0 <= j < |h| ==> IsChar(s[0 + j], h[j]);
    assert h[..13] == "authorization" && h[15..] == "bearer " && h[13] == ':' && h[14] == ' ';
    assert h[0] == 'a' && h[15] == 'b';
  }

  /** After a bearer marker the first byte of the value is left. */
  lemma {:induction false} BearerByteIsLeft(s: Bytes)
    requires ExactAt(s, 0, BEARER_HEADER) && |s| > |BEARER_HEADER| && !Delimiter(s[|BEARER_HEADER|])
    ensures Sanitized(Defaults(), s)[|BEARER_HEADER|] == s[|BEARER_HEADER|]
  {
    BearerHeader(s);
    NotSecretKey(s, 0);
    assert SENSITIVE_KEYS[0] == "authorization";
    assert SkipSpace(s, 13) == 13 && SkipSpace(s, 15) == 15 && SkipSpace(s, 14) == 15;
    DefaultsSound();
    SkippedByteStays(Defaults(), s, 0, "authorization");
  }

  predicate Letter(b: u8) { 97 <= Lower(b) <= 122 }

  /** Every word starts with a letter. */
  predicate Lettered(words: seq<string>) { forall k :: 0 <= k < |words| ==> words[k] != "" && 'a' <= words[k][0] <= 'z' }

  lemma {:induction false} NoWordHere(words: seq<string>, s: Bytes, i: nat)
    requires Lettered(words) && i < |s| && !Letter(s[i])
    ensures FirstMatch(s, i, words).None?
  {
    assert forall word :: MatchesAt(s, i, word) && word != "" ==> IsChar(Lower(s[i + 0]), word[0]);
  }

  /** Two words whose first four characters differ somewhere. */
  predicate StartApart(u: string, v: string) {
    |u| >= 4 && |v| >= 4 && (u[0] != v[0] || u[1] != v[1] || u[2] != v[2] || u[3] != v[3])
  }

  predicate StartsAlone(words: seq<string>, key: string) {
    key in words && forall m :: 0 <= m < |words| && words[m] != key ==> StartApart(words[m], key)
  }

  lemma {:induction false} DefaultWords()
    ensures Lettered(SENSITIVE_KEYS) && Lettered(INLINE_PREFIXES)
  {}

  /** The sensitive keys, one by one. */
  const LISTED_KEYS: seq<string> := [
    "authorization", "token", "access_token", "refresh_token", "api_key", "apikey", "x-api-key", "webhook_key",
    "client_secret", "password", "secret", "private_key", "session", "cookie", "set-cookie"]

  /** The first four characters of each. */
  const STARTS: seq<string> := [
    "auth", "toke", "acce", "refr", "api_", "apik", "x-ap", "webh", "clie", "pass", "secr", "priv", "sess", "cook", "set-"]

  lemma {:induction false} StartsListed(n: nat)
    requires n < 15
    ensures |LISTED_KEYS[n]| >= 4 && LISTED_KEYS[n][..4] == STARTS[n]
  {}

  lemma {:induction false} StartsDiffer(m: nat, n: nat)
    requires m < 15 && n < 15 && m != n
    ensures STARTS[m] != STARTS[n]
  {
    assert |STARTS[m]| == 4 && |STARTS[n]| == 4;
  }

  lemma {:induction false} SameStart(u: string, v: string)
    requires |u| >= 4 && |v| >= 4
    ensures u[0] == v[0] && u[1] == v[1] && u[2] == v[2] && u[3] == v[3] <==> u[..4] == v[..4]
  {
    assert u[..4] == [u[0], u[1], u[2], u[3]] && v[..4] == [v[0], v[1], v[2], v[3]];
  }

  lemma {:induction false} ListedStartsAlone(n: nat)
    requires n < 15
    ensures StartsAlone(LISTED_KEYS, LISTED_KEYS[n])
  {
    var key := LISTED_KEYS[n];
    StartsListed(n);
    forall m | 0 <= m < |LISTED_KEYS| && LISTED_KEYS[m] != key ensures StartApart(LISTED_KEYS[m], key) {
      StartsListed(m);
      StartsDiffer(m, n);
      SameStart(LISTED_KEYS[m], key);
    }
  }

  lemma {:induction false} ListedAreSensitive()
    ensures SENSITIVE_KEYS == LISTED_KEYS
  {}

  lemma {:induction false} FirstFour(s: Bytes, i: nat, word: string)
    requires |word| >= 4 && MatchesAt(s, i, word)
    ensures i + 4 <= |s| && IsChar(Lower(s[i]), word[0]) && IsChar(Lower(s[i + 1]), word[1])
    ensures IsChar(Lower(s[i + 2]), word[2]) && IsChar(Lower(s[i + 3]), word[3])
  {
    assert forall j :: 0 <= j < |word| ==> IsChar(Lower(s[i + j]), word[j]);
    assert s[i + 0] == s[i];
  }

  lemma {:induction false} NotBoth(s: Bytes, i: nat, u: string, v: string)
    requires StartApart(u, v)
    ensures !(MatchesAt(s, i, u) && MatchesAt(s, i, v))
  {
    if MatchesAt(s, i, u) {
      FirstFour(s, i, u);
    }
    if MatchesAt(s, i, v) {
      FirstFour(s, i, v);
    }
  }

  /** A word that starts like no other one is found where it is. */
  lemma {:induction false} OnlyMatch(s: Bytes, i: nat, words: seq<string>, key: string)
    requires StartsAlone(words, key) && MatchesAt(s, i, key)
    ensures FirstMatch(s, i, words) == Some(key)
  {
    forall m | 0 <= m < |words| && words[m] != key ensures !MatchesAt(s, i, words[m]) {
      NotBoth(s, i, words[m], key);
    }
  }

  lemma {:induction false} NothingFromHere(keys: seq<string>, s: Bytes, i: nat, p: nat)
    requires forall j :: i <= j < |s| ==> RegionAt(keys, s, j).None?
    ensures !MaskedFrom(keys, s, i, p)
    decreases |s| - i
  {
    if i < |s| {
      NothingFromHere(keys, s, i + 1, p);
    }
  }

  /** After a delimiter that the scan comes to, bytes without words are left alone. */
  lemma {:induction false} TailIsLeft(words: Vocabulary, s: Bytes, start: nat, p: nat)
    requires Reaches(words.keys, s, 0, start) && start <= p < |s| && Delimiter(s[start])
    requires forall j :: start <= j < |s| ==> RegionAt(words.keys, s, j).None? && !PrefixAt(words.prefixes, s, j)
    ensures Sanitized(words, s)[p] == s[p]
  {
    var scanned := ValuesMasked(words.keys, s);
    forall j | start <= j < |s| ensures scanned[j] == s[j] {
      NothingFromHere(words.keys, s, start, j);
      ScanFromReached(words.keys, s, 0, start, j);
    }
    forall i: nat | start <= i <= p ensures !PrefixAt(words.prefixes, scanned, i) {
      SameTailSameMatch(s, scanned, i, words.prefixes);
      assert !PrefixAt(words.prefixes, s, i);
    }
    forall i: nat | i <= p && PrefixAt(words.prefixes, scanned, i) ensures !RunsTo(scanned, i, p) {
      assert !TokenChar(scanned[start]);
    }
  }

  const NESTED_KEYS: string := "password:\"token\"="

  lemma {:induction false} NestedKeys(s: Bytes)
    requires ExactAt(s, 0, NESTED_KEYS)
    ensures MatchesAt(s, 0, "password") && s[0] == 112 && s[1] == 97 && s[8] == COLON && s[9] == QUOTE
    ensures MatchesAt(s, 10, "token") && s[10] == 116 && s[11] == 111 && s[15] == QUOTE && s[16] == EQUALS
    ensures forall q :: 10 <= q < 15 ==> !Delimiter(s[q])
  {
    var h := NESTED_KEYS;
    assert forall j :: 0 <= j < |h| ==> IsChar(s[0 + j], h[j]);
    assert h[..8] == "password" && h[10..15] == "token" && h[8] == ':' && h[9] == '"' && h[15] == '"' && h[16] == '=';
    assert h[0] == 'p' && h[1] == 'a' && h[10] == 't' && h[11] == 'o' && h[12] == 'k' && h[13] == 'e' && h[14] == 'n';
  }

  lemma {:induction false} NestedRegion(keys: seq<string>, s: Bytes)
    requires ExactAt(s, 0, NESTED_KEYS) && FirstMatch(s, 0, keys) == Some("password")
    ensures Reaches(keys, s, 0, 15)
  {
    NestedKeys(s);
    NotSecretKey(s, 0);
    assert MaskStart(s, 0, "password") == Some(10);
    assert ValueEnd(s, 10) == 15;
    assert Resume(keys, s, 0) == 15 && Reaches(keys, s, 15, 15);
  }

  lemma {:induction false} NestedToken(keys: seq<string>, s: Bytes)
    requires ExactAt(s, 0, NESTED_KEYS) && StartsAlone(keys, "token")
    ensures FirstMatch(s, 10, keys) == Some("token") && ValueStart(s, 10, "token").Some?
  {
    NestedKeys(s);
    OnlyMatch(s, 10, keys, "token");
    assert SkipSpace(s, 16) == 16;
  }

  lemma {:induction false} NestedValue(words: Vocabulary, s: Bytes, p: nat)
    requires Lettered(words.keys) && Lettered(words.prefixes) && StartsAlone(words.keys, "password")
    requires ExactAt(s, 0, NESTED_KEYS) && |NESTED_KEYS| <= p < |s|
    requires forall j :: |NESTED_KEYS| <= j < |s| ==> !Letter(s[j])
    ensures Sanitized(words, s)[p] == s[p]
  {
    NestedKeys(s);
    OnlyMatch(s, 0, words.keys, "password");
    NestedRegion(words.keys, s);
    forall j | 15 <= j < |s| ensures RegionAt(words.keys, s, j).None? && !PrefixAt(words.prefixes, s, j) {
      NotSecretKey(s, j);
      NoWordHere(words.keys, s, j);
      NoWordHere(words.prefixes, s, j);
    }
    TailIsLeft(words, s, 15, p);
  }

  /** A key inside what another key masks, as in `password:"token"="4711"`, does not get its
      own value masked. */
  lemma {:induction false} NestedValueIsLeft(s: Bytes, p: nat)
    requires ExactAt(s, 0, NESTED_KEYS) && |NESTED_KEYS| <= p < |s|
    requires forall j :: |NESTED_KEYS| <= j < |s| ==> !Letter(s[j])
    ensures FirstMatch(s, 10, Defaults().keys) == Some("token") && ValueStart(s, 10, "token").Some?
    ensures Sanitized(Defaults(), s)[p] == s[p]
  {
    var words := Defaults();
    DefaultWords();
    ListedAreSensitive();
    ListedStartsAlone(9);
    ListedStartsAlone(1);
    NestedValue(words, s, p);
    NestedToken(words.keys, s);
  }

  const QUOTED_KEY: string := "password=\""

  lemma {:induction false} QuotedKey(s: Bytes)
    requires ExactAt(s, 0, QUOTED_KEY)
    ensures MatchesAt(s, 0, "password") && s[0] == 112 && s[8] == EQUALS && s[9] == QUOTE
  {
    var h := QUOTED_KEY;
    assert forall j :: 0 <= j < |h| ==> IsChar(s[0 + j], h[j]);
    assert h[..8] == "password" && h[8] == '=' && h[9] == '"' && h[0] == 'p';
  }

  lemma {:induction false} QuotedRegion(keys: seq<string>, s: Bytes)
    requires ExactAt(s, 0, QUOTED_KEY) && FirstMatch(s, 0, keys) == Some("password")
    ensures Finds(keys, s, 0, "password") && OpensQuote(s, 0, "password") && ValueStart(s, 0, "password") == Some(10)
    ensures Reaches(keys, s, 0, ValueEnd(s, 10))
  {
    QuotedKey(s);
    NotSecretKey(s, 0);
    assert SkipSpace(s, 8) == 8 && SkipSpace(s, 9) == 9;
    assert MaskStart(s, 0, "password") == Some(10);
    assert Resume(keys, s, 0) == ValueEnd(s, 10);
  }

  lemma {:induction false} QuotedValue(words: Vocabulary, s: Bytes, p: nat)
    requires Lettered(words.keys) && Lettered(words.prefixes) && StartsAlone(words.keys, "password")
    requires ExactAt(s, 0, QUOTED_KEY) && ValueEnd(s, 10) <= p < |s|
    requires forall j :: ValueEnd(s, 10) <= j < |s| ==> !Letter(s[j])
    ensures Finds(words.keys, s, 0, "password") && OpensQuote(s, 0, "password") && ValueStart(s, 0, "password") == Some(10)
    ensures Sanitized(words, s)[p] == s[p]
  {
    QuotedKey(s);
    OnlyMatch(s, 0, words.keys, "password");
    QuotedRegion(words.keys, s);
    forall j | ValueEnd(s, 10) <= j < |s| ensures RegionAt(words.keys, s, j).None? && !PrefixAt(words.prefixes, s, j) {
      NotSecretKey(s, j);
      NoWordHere(words.keys, s, j);
      NoWordHere(words.prefixes, s, j);
    }
    TailIsLeft(words, s, ValueEnd(s, 10), p);
  }

  /** Of a quoted value, as in `password="1 2"`, what comes after the first delimiter is
      left. */
  lemma {:induction false} QuotedRestIsLeft(s: Bytes, p: nat)
    requires ExactAt(s, 0, QUOTED_KEY) && ValueEnd(s, 10) <= p < |s|
    requires forall j :: ValueEnd(s, 10) <= j < |s| ==> !Letter(s[j])
    ensures Finds(Defaults().keys, s, 0, "password") && OpensQuote(s, 0, "password") && ValueStart(s, 0, "password") == Some(10)
    ensures Sanitized(Defaults(), s)[p] == s[p]
  {
    DefaultWords();
    ListedAreSensitive();
    ListedStartsAlone(9);
    QuotedValue(Defaults(), s, p);
  }

  // ----- the words and bytes, one by one -----

  /** The byte is the character, or the capital of a small letter. */
  predicate IsLetterOf(b: u8, c: char) { b == c as int || ('a' <= c <= 'z' && b + 32 == c as int) }

  /** The word is at i in any letter case. */
  predicate Spells(s: Bytes, i: nat, word: string) {
    i + |word| <= |s| && forall j :: 0 <= j < |word| ==> IsLetterOf(s[i + j], word[j])
  }

  /** No capitals. */
  predicate Small(word: string) { forall j :: 0 <= j < |word| ==> word[j] < 128 as char && !('A' <= word[j] <= 'Z') }

  lemma {:induction false} SpelledMatches(s: Bytes, i: nat, word: string)
    requires Small(word)
    ensures Spells(s, i, word) <==> MatchesAt(s, i, word)
  {
    if i + |word| <= |s| {
      forall j | 0 <= j < |word| ensures IsLetterOf(s[i + j], word[j]) <==> IsChar(Lower(s[i + j]), word[j]) {}
    }
  }

  lemma {:induction false} ListedAreSmall(n: nat)
    requires n < 15
    ensures Small(LISTED_KEYS[n]) && |LISTED_KEYS[n]| >= 5 && !('0' <= LISTED_KEYS[n][0] <= '9')
  {}

  /** A digit that follows one of the listed keys, in any letter case, and an equals sign is
      masked. */
  lemma {:induction false} EveryKeyMasks(s: Bytes, n: nat)
    requires n < 15 && Spells(s, 0, LISTED_KEYS[n])
    requires var v := |LISTED_KEYS[n]| + 1; v < |s| && s[v - 1] == 61 && 48 <= s[v] <= 57
    ensures Sanitized(Defaults(), s)[|LISTED_KEYS[n]| + 1] == 120
  {
    var key := LISTED_KEYS[n];
    ListedAreSensitive();
    ListedAreSmall(n);
    SpelledMatches(s, 0, key);
    ListedStartsAlone(n);
    OnlyMatch(s, 0, SENSITIVE_KEYS, key);
    NoSecretStart(s, n);
    KeyThenDigit(Defaults(), s, key);
  }

  lemma {:induction false} NoSecretStart(s: Bytes, n: nat)
    requires n < 15 && Spells(s, 0, LISTED_KEYS[n])
    ensures !ExactAt(s, 0, "sk_live_") && !ExactAt(s, 0, "sk_test_")
  {
    ListedAreSmall(n);
    assert IsLetterOf(s[0 + 0], LISTED_KEYS[n][0]) && IsLetterOf(s[0 + 1], LISTED_KEYS[n][1]);
    NotSecretPair(s, LISTED_KEYS[n][1], n);
  }

  lemma {:induction false} NotSecretPair(s: Bytes, c: char, n: nat)
    requires n < 15 && |LISTED_KEYS[n]| >= 2 && c == LISTED_KEYS[n][1] && |s| >= 2 && IsLetterOf(s[1], c)
    ensures !ExactAt(s, 0, "sk_live_") && !ExactAt(s, 0, "sk_test_")
  {
    StartsListed(n);
    assert LISTED_KEYS[n][..4][1] == STARTS[n][1] && STARTS[n][1] != 'k';
    assert "sk_live_"[1] == 'k' && "sk_test_"[1] == 'k';
    assert forall word :: ExactAt(s, 0, word) && |word| > 1 ==> IsChar(s[0 + 1], word[1]);
  }

  lemma {:induction false} KeyThenDigit(words: Vocabulary, s: Bytes, key: string)
    requires FirstMatch(s, 0, words.keys) == Some(key) && !ExactAt(s, 0, "sk_live_") && !ExactAt(s, 0, "sk_test_")
    requires |key| + 1 < |s| && s[|key|] == EQUALS && 48 <= s[|key| + 1] <= 57
    ensures Sanitized(words, s)[|key| + 1] == MASK
  {
    var v := |key| + 1;
    assert SkipSpace(s, |key|) == |key| && SkipSpace(s, v) == v;
    NoBearer(s, v, key);
    assert MaskStart(s, 0, key) == Some(v) && v < ValueEnd(s, v);
    FoundKeyMasks(words, s, 0, key, v);
  }

  lemma {:induction false} NoBearer(s: Bytes, v: nat, key: string)
    requires v < |s| && 48 <= s[v] <= 57
    ensures !BearerAt(s, v, key)
  {
    assert MatchesAt(s, v, "bearer ") ==> IsChar(Lower(s[v + 0]), "bearer "[0]);
  }

  /** The bytes that end a value: tab, newline, carriage return, space, and " & ' ) , ; ] }. */
  lemma {:induction false} ValueEndsAt(s: Bytes)
    requires ExactAt(s, 0, "password=") && |s| > 10 && 48 <= s[9] <= 57
    ensures Sanitized(Defaults(), s)[10]
         == if s[10] in {9, 10, 13, 32, 34, 38, 39, 41, 44, 59, 93, 125} then s[10] else 120
  {
    var key := LISTED_KEYS[9];
    PasswordSpelled(s);
    ListedAreSensitive();
    ListedStartsAlone(9);
    SpelledMatches(s, 0, key);
    OnlyMatch(s, 0, SENSITIVE_KEYS, key);
    NoSecretStart(s, 9);
    SecondByte(Defaults(), s, key);
  }

  lemma {:induction false} PasswordSpelled(s: Bytes)
    requires ExactAt(s, 0, "password=")
    ensures Spells(s, 0, LISTED_KEYS[9]) && Small(LISTED_KEYS[9]) && |LISTED_KEYS[9]| == 8 && s[8] == EQUALS
  {
    var h := "password=";
    ListedAreSmall(9);
    assert forall j :: 0 <= j < |h| ==> IsChar(s[0 + j], h[j]);
    assert h[..8] == LISTED_KEYS[9] && h[8] == '=';
  }

  lemma {:induction false} SecondByte(words: Vocabulary, s: Bytes, key: string)
    requires |key| == 8 && FirstMatch(s, 0, words.keys) == Some(key) && !ExactAt(s, 0, "sk_live_") && !ExactAt(s, 0, "sk_test_")
    requires |s| > 10 && s[8] == EQUALS && 48 <= s[9] <= 57
    ensures Sanitized(words, s)[10] == if Delimiter(s[10]) then s[10] else MASK
  {
    assert SkipSpace(s, 8) == 8 && SkipSpace(s, 9) == 9;
    NoBearer(s, 9, key);
    assert MaskStart(s, 0, key) == Some(9);
    if Delimiter(s[10]) {
      OnlyMasksValues(words, s, 10);
    } else {
      assert 10 < ValueEnd(s, 9);
      FoundKeyMasks(words, s, 0, key, 10);
    }
  }

  /** No listed credential prefix, in any letter case, is in the output. */
  lemma {:induction false} NoListedPrefix(s: Bytes, i: nat, n: nat)
    requires n < 6
    ensures !Spells(Sanitized(Defaults(), s), i, ["sk_live_", "sk_test_", "rk_live_", "rk_test_", "pk_live_", "pk_test_"][n])
  {
    var listed := ["sk_live_", "sk_test_", "rk_live_", "rk_test_", "pk_live_", "pk_test_"];
    assert INLINE_PREFIXES == listed;
    assert listed[n] in INLINE_PREFIXES;
    DefaultsSound();
    NoCredentialLeft(Defaults(), s, i);
    assert Small(listed[n]);
    SpelledMatches(Sanitized(Defaults(), s), i, listed[n]);
  }

  /** The bytes a credential goes on with are letters, digits, _ and -. */
  lemma {:induction false} CredentialGoesOn(prefixes: seq<string>, s: Bytes, p: nat)
    requires p < |s|
    ensures InCredential(prefixes, s, p) ==> 48 <= s[p] <= 57 || 65 <= s[p] <= 90 || 97 <= s[p] <= 122 || s[p] == 95 || s[p] == 45
    ensures p > 0 && InCredential(prefixes, s, p - 1) && (48 <= s[p] <= 57 || 65 <= s[p] <= 90 || 97 <= s[p] <= 122 || s[p] == 95 || s[p] == 45)
            ==> InCredential(prefixes, s, p)
  {
    if p > 0 && InCredential(prefixes, s, p - 1) && TokenChar(s[p]) {
      var i: nat :| i <= p - 1 && PrefixAt(prefixes, s, i) && RunsTo(s, i, p - 1);
      assert RunsTo(s, i, p);
    }
  }

  /** A secret key is masked with the letters and digits that follow it. */
  lemma {:induction false} SecretKeyByNumbers(keys: seq<string>, s: Bytes, p: nat)
    requires (ExactAt(s, 0, "sk_live_") || ExactAt(s, 0, "sk_test_")) && p < |s|
    requires forall q :: 8 <= q <= p ==> 48 <= s[q] <= 57 || 65 <= s[q] <= 90 || 97 <= s[q] <= 122
    ensures ValuesMasked(keys, s)[p] == 120
  {
    var e := RunEnd(s, 8, IsAlphanumeric());
    assert e < |s| ==> !IsAlphanumeric()(s[e]);
    assert Covers(keys, s, 0, p);
    ReachedIsMasked(keys, s, 0, 0, p);
  }

  /** What follows that run is left, if it has no letters. */
  lemma {:induction false} SecretKeyEnds(s: Bytes, e: nat, p: nat)
    requires (ExactAt(s, 0, "sk_live_") || ExactAt(s, 0, "sk_test_")) && 8 <= e <= p < |s|
    requires forall q :: 8 <= q < e ==> 48 <= s[q] <= 57 || 65 <= s[q] <= 90 || 97 <= s[q] <= 122
    requires !(48 <= s[e] <= 57) && forall q :: e <= q < |s| ==> !Letter(s[q])
    ensures ValuesMasked(Defaults().keys, s)[p] == s[p]
  {
    var keys := Defaults().keys;
    DefaultWords();
    RunStops(s, e);
    assert Resume(keys, s, 0) == e && Reaches(keys, s, e, e) && Reaches(keys, s, 0, e);
    forall j | e <= j < |s| ensures RegionAt(keys, s, j).None? {
      NotSecretKey(s, j);
      NoWordHere(keys, s, j);
    }
    NothingFromHere(keys, s, e, p);
    ScanFromReached(keys, s, 0, e, p);
  }

  lemma {:induction false} RunStops(s: Bytes, e: nat)
    requires 8 <= e < |s| && !Alphanumeric(s[e]) && forall q :: 8 <= q < e ==> Alphanumeric(s[q])
    ensures RunEnd(s, 8, IsAlphanumeric()) == e
  {
    var k := RunEnd(s, 8, IsAlphanumeric());
    assert k < |s| ==> !IsAlphanumeric()(s[k]);
    assert forall q :: 8 <= q < k ==> IsAlphanumeric()(s[q]);
  }

  /** White space around a separator is tab, newline, form feed, carriage return and space. */
  lemma {:induction false} SpacesByNumbers(s: Bytes)
    requires |s| > 10 && s[9] == 61 && s[8] != 34 && s[8] != 58 && s[8] != 61
    ensures ValueStart(s, 0, "password").Some? <==> s[8] in {9, 10, 12, 13, 32}
  {
    assert SkipSpace(s, 9) == 9;
    assert SkipSpace(s, 8) == if Space(s[8]) then 9 else 8;
  }
}
