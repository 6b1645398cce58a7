/** Ordinal masking of volatile tokens in signatures (cluster.rs): replacing each distinct
    token by the ordinal of its first appearance is a canonical form for renaming.

    The regular expressions are opaque: a text arrives already cut into the literal before
    the first match and, for each match, the matched token and the literal after it. */
module Masking {
  import opened Prelude
  import Decimal

  datatype Match = Match(token: string, tail: string)
  datatype Signature = Signature(head: string, matches: seq<Match>)

  /** A masked signature: the same literals, with ordinals for tokens. */
  datatype Slot = Slot(ordinal: nat, tail: string)
  datatype Masked = Masked(head: string, slots: seq<Slot>)

  // ----- the specification -----

  /** The distinct tokens in order of first appearance. */
  function FirstSeen(ms: seq<Match>): seq<string> {
    if ms == [] then []
    else
      var before, token := FirstSeen(ms[..|ms| - 1]), ms[|ms| - 1].token;
      if token in before then before else before + [token]
  }

  /** The position of x in s. */
  function IndexIn(s: seq<string>, x: string): (i: nat)
    requires x in s
    ensures i < |s| && s[i] == x && x !in s[..i]
  {
    if s[0] == x then 0 else 1 + IndexIn(s[1..], x)
  }

  lemma {:induction false} FirstSeenHasToken(ms: seq<Match>, i: nat)
    requires i < |ms|
    ensures ms[i].token in FirstSeen(ms)
  {
    if i < |ms| - 1 {
      FirstSeenHasToken(ms[..|ms| - 1], i);
    }
  }

  function MaskSlots(ms: seq<Match>): (slots: seq<Slot>)
    ensures |slots| == |ms|
  {
    seq(|ms|, i requires 0 <= i < |ms| =>
      (FirstSeenHasToken(ms, i); Slot(IndexIn(FirstSeen(ms), ms[i].token), ms[i].tail)))
  }

  function Mask(s: Signature): Masked { Masked(s.head, MaskSlots(s.matches)) }

  // ----- first appearances -----

  predicate Distinct(s: seq<string>) { forall i, j :: 0 <= i < j < |s| ==> s[i] != s[j] }

  lemma {:induction false} FirstSeenDistinct(ms: seq<Match>)
    ensures Distinct(FirstSeen(ms))
  {
    if ms != [] {
      FirstSeenDistinct(ms[..|ms| - 1]);
    }
  }

  lemma {:induction false} FirstSeenPrefix(ms: seq<Match>, n: nat)
    requires n <= |ms|
    ensures FirstSeen(ms[..n]) <= FirstSeen(ms)
  {
    if n < |ms| {
      FirstSeenPrefix(ms[..|ms| - 1], n);
      assert ms[..|ms| - 1][..n] == ms[..n];
    } else {
      assert ms[..n] == ms;
    }
  }

  lemma {:induction false} IndexInPrefix(s: seq<string>, t: seq<string>, x: string)
    requires s <= t && x in s
    ensures IndexIn(s, x) == IndexIn(t, x)
  {
    if s[0] != x {
      IndexInPrefix(s[1..], t[1..], x);
    }
  }

  lemma {:induction false} IndexInDistinct(s: seq<string>, i: nat)
    requires Distinct(s) && i < |s|
    ensures IndexIn(s, s[i]) == i
  {}

  lemma {:induction false} MaskSlotsPrefix(ms: seq<Match>, n: nat)
    requires n <= |ms|
    ensures MaskSlots(ms[..n]) == MaskSlots(ms)[..n]
  {
    FirstSeenPrefix(ms, n);
    forall i | 0 <= i < n
      ensures MaskSlots(ms[..n])[i] == MaskSlots(ms)[i]
    {
      FirstSeenHasToken(ms[..n], i);
      FirstSeenHasToken(ms, i);
      IndexInPrefix(FirstSeen(ms[..n]), FirstSeen(ms), ms[i].token);
    }
  }

  // ----- the loop -----

  /** The loop's map and counter record the first appearances among ms. */
  ghost predicate Tracks(seen: map<string, nat>, next: nat, ms: seq<Match>) {
    && next == |FirstSeen(ms)|
    && (forall x :: x in seen <==> x in FirstSeen(ms))
    && (forall x :: x in seen ==> seen[x] == IndexIn(FirstSeen(ms), x))
  }

  /** The entry-or-insert of one token. */
  function Entered(seen: map<string, nat>, next: nat, token: string): map<string, nat> {
    if token in seen then seen else seen[token := next]
  }

  lemma {:induction false} TracksNext(seen: map<string, nat>, next: nat, ms: seq<Match>, m: Match)
    requires Tracks(seen, next, ms)
    ensures Tracks(Entered(seen, next, m.token), if m.token in seen then next else next + 1, ms + [m])
    ensures MaskSlots(ms + [m]) == MaskSlots(ms) + [Slot(Entered(seen, next, m.token)[m.token], m.tail)]
  {
    var all := ms + [m];
    var before, after := FirstSeen(ms), FirstSeen(all);
    assert all[..|all| - 1] == ms && all[|all| - 1] == m;
    forall x | x in before
      ensures IndexIn(before, x) == IndexIn(after, x)
    {
      IndexInPrefix(before, after, x);
    }
    if m.token !in before {
      FirstSeenDistinct(all);
      IndexInDistinct(after, |before|);
    }
    MaskSlotsPrefix(all, |ms|);
    FirstSeenHasToken(all, |ms|);
    assert MaskSlots(all)[|ms|] == Slot(IndexIn(after, m.token), m.tail);
  }

  method MaskOrdinals(s: Signature) returns (out: Masked)
    ensures out == Mask(s)
  {
    var seen: map<string, nat> := map[];
    var next := 0;
    var slots := [];
    var ms := s.matches;
    for n := 0 to |ms|
      invariant Tracks(seen, next, ms[..n])
      invariant slots == MaskSlots(ms[..n])
    {
      TracksNext(seen, next, ms[..n], ms[n]);
      assert ms[..n + 1] == ms[..n] + [ms[n]];
      var token := ms[n].token;
      if token !in seen {
        seen := seen[token := next];
        next := next + 1;
      }
      slots := slots + [Slot(seen[token], ms[n].tail)];
    }
    assert ms[..|ms|] == ms;
    out := Masked(s.head, slots);
  }

  // ----- renaming -----

  predicate Injective(f: map<string, string>) {
    forall x, y :: x in f && y in f && f[x] == f[y] ==> x == y
  }

  /** f renames the tokens of a one-to-one, and b is the result; literals are untouched. */
  predicate Renames(f: map<string, string>, a: Signature, b: Signature) {
    && Injective(f)
    && a.head == b.head
    && |a.matches| == |b.matches|
    && forall i :: 0 <= i < |a.matches| ==>
         && a.matches[i].token in f
         && b.matches[i] == Match(f[a.matches[i].token], a.matches[i].tail)
  }

  ghost predicate Renaming(a: Signature, b: Signature) { exists f :: Renames(f, a, b) }

  function Image(f: map<string, string>, s: seq<string>): seq<string>
    requires forall x :: x in s ==> x in f
  {
    seq(|s|, i requires 0 <= i < |s| => f[s[i]])
  }

  lemma {:induction false} FirstSeenTokens(ms: seq<Match>, x: string)
    requires x in FirstSeen(ms)
    ensures exists i :: 0 <= i < |ms| && ms[i].token == x
  {
    if x in FirstSeen(ms[..|ms| - 1]) {
      FirstSeenTokens(ms[..|ms| - 1], x);
    } else {
      assert ms[|ms| - 1].token == x;
    }
  }

  lemma {:induction false} RenamedFirstSeen(f: map<string, string>, a: seq<Match>, b: seq<Match>)
    requires Renames(f, Signature("", a), Signature("", b))
    ensures forall x :: x in FirstSeen(a) ==> x in f
    ensures FirstSeen(b) == Image(f, FirstSeen(a))
  {
    if a != [] {
      var last := |a| - 1;
      RenamedFirstSeen(f, a[..last], b[..last]);
      var before := FirstSeen(a[..last]);
      var x := a[last].token;
      assert b[last].token == f[x];
      if f[x] in FirstSeen(b[..last]) {
        var i :| 0 <= i < |before| && f[before[i]] == f[x];
        assert before[i] in f && x in f;
        assert x == before[i];
      }
      if x in before {
        var i :| 0 <= i < |before| && before[i] == x;
        assert FirstSeen(b[..last])[i] == f[x];
      }
    }
  }

  lemma {:induction false} RenamingKeepsMask(f: map<string, string>, a: Signature, b: Signature)
    requires Renames(f, a, b)
    ensures Mask(a) == Mask(b)
  {
    assert Renames(f, Signature("", a.matches), Signature("", b.matches));
    RenamedFirstSeen(f, a.matches, b.matches);
    FirstSeenDistinct(a.matches);
    FirstSeenDistinct(b.matches);
    forall i | 0 <= i < |a.matches|
      ensures MaskSlots(a.matches)[i] == MaskSlots(b.matches)[i]
    {
      FirstSeenHasToken(a.matches, i);
      FirstSeenHasToken(b.matches, i);
      var k := IndexIn(FirstSeen(a.matches), a.matches[i].token);
      assert FirstSeen(b.matches)[k] == b.matches[i].token;
      IndexInDistinct(FirstSeen(b.matches), k);
    }
  }

  /** Every ordinal below the number of distinct tokens is used. */
  lemma {:induction false} OrdinalUsed(ms: seq<Match>, k: nat) returns (i: nat)
    requires k < |FirstSeen(ms)|
    ensures i < |ms| && ms[i].token == FirstSeen(ms)[k] && MaskSlots(ms)[i].ordinal == k
  {
    FirstSeenTokens(ms, FirstSeen(ms)[k]);
    i :| 0 <= i < |ms| && ms[i].token == FirstSeen(ms)[k];
    FirstSeenDistinct(ms);
    IndexInDistinct(FirstSeen(ms), k);
  }

  lemma {:induction false} SlotOrdinal(ms: seq<Match>, i: nat)
    requires i < |ms|
    ensures MaskSlots(ms)[i].ordinal < |FirstSeen(ms)|
    ensures FirstSeen(ms)[MaskSlots(ms)[i].ordinal] == ms[i].token
    ensures MaskSlots(ms)[i].tail == ms[i].tail
  {
    FirstSeenHasToken(ms, i);
  }

  lemma {:induction false} SameSlotsSameCount(a: seq<Match>, b: seq<Match>)
    requires MaskSlots(a) == MaskSlots(b)
    ensures |FirstSeen(a)| <= |FirstSeen(b)|
  {
    if |FirstSeen(a)| > |FirstSeen(b)| {
      var i := OrdinalUsed(a, |FirstSeen(b)|);
      SlotOrdinal(b, i);
    }
  }

  /** Each token of xs renamed to the token of ys with the same ordinal. */
  function ByOrdinal(xs: seq<string>, ys: seq<string>): map<string, string>
    requires |xs| == |ys|
  {
    map x | x in xs :: ys[IndexIn(xs, x)]
  }

  lemma {:induction false} SameOrdinalRenames(a: seq<Match>, b: seq<Match>, i: nat)
    requires MaskSlots(a) == MaskSlots(b) && i < |a| == |b| && |FirstSeen(a)| == |FirstSeen(b)|
    ensures var f := ByOrdinal(FirstSeen(a), FirstSeen(b));
            a[i].token in f && b[i] == Match(f[a[i].token], a[i].tail)
  {
    FirstSeenDistinct(a);
    SlotOrdinal(a, i);
    SlotOrdinal(b, i);
    IndexInDistinct(FirstSeen(a), MaskSlots(a)[i].ordinal);
  }

  lemma {:induction false} SameMaskGivesRenaming(a: Signature, b: Signature) returns (f: map<string, string>)
    requires Mask(a) == Mask(b)
    ensures Renames(f, a, b)
  {
    SameSlotsSameCount(a.matches, b.matches);
    SameSlotsSameCount(b.matches, a.matches);
    FirstSeenDistinct(a.matches);
    FirstSeenDistinct(b.matches);
    f := ByOrdinal(FirstSeen(a.matches), FirstSeen(b.matches));
    forall i | 0 <= i < |a.matches|
      ensures a.matches[i].token in f && b.matches[i] == Match(f[a.matches[i].token], a.matches[i].tail)
    {
      SameOrdinalRenames(a.matches, b.matches, i);
    }
  }

  /** Masking is a canonical form for renaming: two signatures mask alike exactly when
      their literals agree and some one-to-one renaming of tokens turns one into the
      other. */
  lemma {:induction false} MaskIsCanonical(a: Signature, b: Signature)
    ensures Mask(a) == Mask(b) <==> Renaming(a, b)
  {
    if Mask(a) == Mask(b) {
      var f := SameMaskGivesRenaming(a, b);
    }
    if Renaming(a, b) {
      var f :| Renames(f, a, b);
      RenamingKeepsMask(f, a, b);
    }
  }

  // ----- the masked text -----

  /** A delimiter, such as "Hash@", occurs in t at q. */
  predicate OccursAt(d: string, t: string, q: nat) { q + |d| <= |t| && t[q..q + |d|] == d }

  function Delimiter(tag: string): string { tag + "@" }

  /** The text `replace_all` produces: each ordinal is written after the tag and '@'. */
  function SlotText(tag: string, slots: seq<Slot>): string {
    if slots == [] then ""
    else Delimiter(tag) + Decimal.Render(slots[0].ordinal) + slots[0].tail + SlotText(tag, slots[1..])
  }

  function MaskedText(tag: string, m: Masked): string { m.head + SlotText(tag, m.slots) }

  predicate StartsWithDigit(t: string) { t != "" && Decimal.IsDigit(t[0]) }

  /** What a written token starts with, the delimiter and a digit, occurs in t at q. */
  predicate SlotAt(d: string, t: string, q: nat) { OccursAt(d, t, q) && StartsWithDigit(t[q + |d|..]) }

  predicate Free(d: string, t: string) { forall q: nat :: q <= |t| ==> !SlotAt(d, t, q) }

  predicate CleanTail(tag: string, tail: string) { Free(Delimiter(tag), tail) && !StartsWithDigit(tail) }

  /** No literal contains the label followed by '@' and a digit, and none after a token
      starts with a digit (a match ends at a word boundary). */
  predicate Clean(tag: string, m: Masked) {
    && Free(Delimiter(tag), m.head)
    && forall i :: 0 <= i < |m.slots| ==> CleanTail(tag, m.slots[i].tail)
  }

  /** Labels such as "Hash" and "Address". */
  predicate GoodLabel(tag: string) {
    tag != "" && !Decimal.IsDigit(tag[0]) && forall i :: 0 <= i < |tag| ==> tag[i] != '@'
  }

  /** In s + delimiter + x, with s free of slots, none can start inside s. */
  lemma {:induction false} NoEarlyOccurrence(tag: string, s: string, x: string, q: nat)
    requires GoodLabel(tag) && Free(Delimiter(tag), s) && q < |s|
    ensures !SlotAt(Delimiter(tag), s + Delimiter(tag) + x, q)
  {
    var d := Delimiter(tag);
    var t := s + d + x;
    var at := q + |tag|;
    assert d[|tag|] == '@' && d[0] == tag[0];
    if at + 1 < |s| {
      assert t[q..q + |d|] == s[q..q + |d|] && t[at + 1] == s[at + 1];
      assert !SlotAt(d, s, q);
    } else if at + 1 == |s| {
      assert t[at + 1] == tag[0];
    } else {
      assert t[at] == tag[at - |s|] != '@';
    }
  }

  lemma {:induction false} SlotOccurs(d: string, s: string, x: string)
    requires StartsWithDigit(x)
    ensures SlotAt(d, s + d + x, |s|) && !Free(d, s + d + x)
  {
    var t := s + d + x;
    assert t[|s|..|s| + |d|] == d && t[|s| + |d|..] == x;
    assert SlotAt(d, t, |s|) && |s| <= |t|;
  }

  lemma {:induction false} SplitUnique(tag: string, s: string, x: string, t: string, y: string)
    requires GoodLabel(tag) && Free(Delimiter(tag), s) && Free(Delimiter(tag), t)
    requires StartsWithDigit(x) && StartsWithDigit(y) && s + Delimiter(tag) + x == t + Delimiter(tag) + y
    ensures s == t && x == y
  {
    var d := Delimiter(tag);
    var whole := s + d + x;
    SlotOccurs(d, s, x);
    SlotOccurs(d, t, y);
    if |s| < |t| {
      NoEarlyOccurrence(tag, t, y, |s|);
    } else if |t| < |s| {
      NoEarlyOccurrence(tag, s, x, |t|);
    }
    assert whole[..|s|] == s && whole[..|t|] == t;
    assert whole[|s| + |d|..] == x && whole[|t| + |d|..] == y;
  }

  lemma {:induction false} TailStart(tag: string, tail: string, slots: seq<Slot>)
    requires GoodLabel(tag) && CleanTail(tag, tail)
    ensures var s := tail + SlotText(tag, slots); s == "" || !Decimal.IsDigit(s[0])
  {
    if tail == "" && slots != [] {
      assert SlotText(tag, slots)[0] == tag[0];
    }
  }

  /** What follows the first delimiter. */
  function AfterDelimiter(tag: string, slots: seq<Slot>): string
    requires slots != []
  {
    Decimal.Render(slots[0].ordinal) + (slots[0].tail + SlotText(tag, slots[1..]))
  }

  lemma {:induction false} DigitAfterDelimiter(tag: string, slots: seq<Slot>)
    requires slots != []
    ensures StartsWithDigit(AfterDelimiter(tag, slots))
  {
    assert AfterDelimiter(tag, slots)[0] == Decimal.Render(slots[0].ordinal)[0];
  }

  lemma {:induction false} TextUnfolds(tag: string, m: Masked)
    ensures MaskedText(tag, m)
         == if m.slots == [] then m.head else m.head + Delimiter(tag) + AfterDelimiter(tag, m.slots)
  {}

  /** On clean masked signatures the written text determines literals and ordinals. */
  lemma {:induction false} TextDeterminesMask(tag: string, a: Masked, b: Masked)
    requires GoodLabel(tag) && Clean(tag, a) && Clean(tag, b)
    requires MaskedText(tag, a) == MaskedText(tag, b)
    ensures a == b
    decreases |a.slots|
  {
    TextUnfolds(tag, a);
    TextUnfolds(tag, b);
    if a.slots != [] {
      DigitAfterDelimiter(tag, a.slots);
    }
    if b.slots != [] {
      DigitAfterDelimiter(tag, b.slots);
    }
    if a.slots != [] && b.slots != [] {
      var p, q := a.slots[0], b.slots[0];
      SplitUnique(tag, a.head, AfterDelimiter(tag, a.slots), b.head, AfterDelimiter(tag, b.slots));
      TailStart(tag, p.tail, a.slots[1..]);
      TailStart(tag, q.tail, b.slots[1..]);
      Decimal.RenderPrefixFree(p.ordinal, p.tail + SlotText(tag, a.slots[1..]), q.ordinal, q.tail + SlotText(tag, b.slots[1..]));
      TextDeterminesMask(tag, Masked(p.tail, a.slots[1..]), Masked(q.tail, b.slots[1..]));
      assert a.slots == [p] + a.slots[1..] && b.slots == [q] + b.slots[1..];
    } else if a.slots != [] {
      SlotOccurs(Delimiter(tag), a.head, AfterDelimiter(tag, a.slots));
    } else if b.slots != [] {
      SlotOccurs(Delimiter(tag), b.head, AfterDelimiter(tag, b.slots));
    }
  }

  /** For texts whose literals are clean, the produced texts are equal exactly when some
      one-to-one renaming of tokens turns one signature into the other. */
  lemma {:induction false} MaskedTextIsCanonical(tag: string, a: Signature, b: Signature)
    requires GoodLabel(tag) && Clean(tag, Mask(a)) && Clean(tag, Mask(b))
    ensures MaskedText(tag, Mask(a)) == MaskedText(tag, Mask(b)) <==> Renaming(a, b)
  {
    MaskIsCanonical(a, b);
    if MaskedText(tag, Mask(a)) == MaskedText(tag, Mask(b)) {
      TextDeterminesMask(tag, Mask(a), Mask(b));
    }
  }

  /** Without that condition a literal can pass for a masked token: the text "Hash@0" and a
      lone hash produce the same text. */
  lemma {:induction false} LiteralPassesForToken(hash: string)
    ensures var a, b := Signature("Hash@0", []), Signature("", [Match(hash, "")]);
            && MaskedText("Hash", Mask(a)) == MaskedText("Hash", Mask(b))
            && !Renaming(a, b)
            && !Clean("Hash", Mask(a))
  {
    var a, b := Signature("Hash@0", []), Signature("", [Match(hash, "")]);
    FirstSeenHasToken(b.matches, 0);
    assert FirstSeen(b.matches) == [hash];
    assert MaskSlots(b.matches) == [Slot(0, "")];
    assert SlotText("Hash", []) == "" && Decimal.Render(0) == "0";
    TextUnfolds("Hash", Mask(a));
    TextUnfolds("Hash", Mask(b));
    assert AfterDelimiter("Hash", [Slot(0, "")]) == "0";
    assert "" + Delimiter("Hash") + "0" == "Hash@0";
    SlotOccurs(Delimiter("Hash"), "", "0");
  }

  // ----- ordinals in numbers -----

  /** Equal tokens get equal ordinals and others do not; a token that has not occurred before
      gets the number of ordinals used so far: 0, 1, 2 and so on. */
  lemma {:induction false} OrdinalsByNumbers(ms: seq<Match>, i: nat)
    requires i < |ms|
    ensures forall j :: 0 <= j < |ms| ==> (MaskSlots(ms)[i].ordinal == MaskSlots(ms)[j].ordinal <==> ms[i].token == ms[j].token)
    ensures (forall j :: 0 <= j < i ==> ms[j].token != ms[i].token) ==>
              && (forall j :: 0 <= j < i ==> MaskSlots(ms)[j].ordinal < MaskSlots(ms)[i].ordinal)
              && (MaskSlots(ms)[i].ordinal > 0 ==> exists j :: 0 <= j < i && MaskSlots(ms)[j].ordinal == MaskSlots(ms)[i].ordinal - 1)
  {
    FirstSeenDistinct(ms);
    SlotOrdinal(ms, i);
    forall j | 0 <= j < |ms|
      ensures MaskSlots(ms)[i].ordinal == MaskSlots(ms)[j].ordinal <==> ms[i].token == ms[j].token
    {
      SlotOrdinal(ms, j);
    }
    if forall j :: 0 <= j < i ==> ms[j].token != ms[i].token {
      NewOrdinal(ms, i);
    }
  }

  lemma {:induction false} NewOrdinal(ms: seq<Match>, i: nat)
    requires i < |ms| && forall j :: 0 <= j < i ==> ms[j].token != ms[i].token
    ensures MaskSlots(ms)[i].ordinal == |FirstSeen(ms[..i])|
    ensures forall j :: 0 <= j < i ==> MaskSlots(ms)[j].ordinal < |FirstSeen(ms[..i])|
    ensures |FirstSeen(ms[..i])| > 0 ==> exists j :: 0 <= j < i && MaskSlots(ms)[j].ordinal == |FirstSeen(ms[..i])| - 1
  {
    var init, upto := ms[..i], ms[..i + 1];
    var before := FirstSeen(init);
    assert upto[..i] == init && upto[i] == ms[i];
    if ms[i].token in before {
      FirstSeenTokens(init, ms[i].token);
    }
    assert FirstSeen(upto) == before + [ms[i].token];
    MaskSlotsPrefix(ms, i);
    MaskSlotsPrefix(ms, i + 1);
    FirstSeenDistinct(upto);
    IndexInDistinct(FirstSeen(upto), |before|);
    assert MaskSlots(upto)[i] == MaskSlots(ms)[i];
    forall j | 0 <= j < i ensures MaskSlots(ms)[j].ordinal < |before| {
      SlotOrdinal(init, j);
      assert MaskSlots(init)[j] == MaskSlots(ms)[j];
    }
    if |before| > 0 {
      var j := OrdinalUsed(init, |before| - 1);
      assert MaskSlots(init)[j] == MaskSlots(ms)[j];
    }
  }
}
