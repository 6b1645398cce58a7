/** UTF-8 as Rust strings enforce it (section 3.9 of the Unicode Standard, table 3-7), and
    which prefixes of a valid string are valid. */
module Utf8 {
  import opened Prelude

  type Bytes = seq<u8>

  predicate Continuation(b: u8) { 0x80 <= b <= 0xBF }

  /** How many bytes a character starting with b takes; 0 when none starts with it. */
  function LeadWidth(b: u8): nat {
    if b < 0x80 then 1
    else if b < 0xC2 then 0
    else if b < 0xE0 then 2
    else if b < 0xF0 then 3
    else if b < 0xF5 then 4
    else 0
  }

  /** Whether c may be the second byte after b: no overlong form, surrogate or value past
      the last code point. */
  predicate SecondFits(b: u8, c: u8) {
    && Continuation(c)
    && (b == 0xE0 ==> c >= 0xA0)
    && (b == 0xED ==> c <= 0x9F)
    && (b == 0xF0 ==> c >= 0x90)
    && (b == 0xF4 ==> c <= 0x8F)
  }

  /** s starts with a well-formed character of w bytes. */
  predicate StartsWith(s: Bytes, w: nat) {
    && 0 < w <= |s|
    && LeadWidth(s[0]) == w
    && (w >= 2 ==> SecondFits(s[0], s[1]))
    && (w >= 3 ==> Continuation(s[2]))
    && (w >= 4 ==> Continuation(s[3]))
  }

  predicate Valid(s: Bytes) {
    s == [] || (var w := LeadWidth(s[0]); StartsWith(s, w) && Valid(s[w..]))
  }

  /** `is_char_boundary`. */
  predicate IsCharBoundary(s: Bytes, k: nat) {
    k == 0 || k == |s| || (k < |s| && !Continuation(s[k]))
  }

  /** A valid string cut at k is valid exactly when no character is cut: the byte after the
      cut, if any, does not continue one. */
  lemma {:induction false} ValidPrefix(s: Bytes, k: nat)
    requires Valid(s) && k <= |s|
    ensures Valid(s[..k]) <==> IsCharBoundary(s, k)
  {
    if 0 < k < |s| {
      var w := LeadWidth(s[0]);
      if k >= w {
        assert s[..k][w..] == s[w..][..k - w];
        ValidPrefix(s[w..], k - w);
        if k > w {
          assert s[w..][k - w] == s[k];
        } else {
          ValidStart(s[w..]);
          assert s[w..][0] == s[k];
        }
      }
    } else if k == |s| {
      assert s[..k] == s;
    }
  }

  lemma {:induction false} ValidStart(s: Bytes)
    requires Valid(s) && s != []
    ensures !Continuation(s[0])
  {}

  lemma {:induction false} ValidConcat(s: Bytes, t: Bytes)
    requires Valid(s)
    ensures Valid(s + t) <==> Valid(t)
  {
    if s == [] {
      assert s + t == t;
    } else {
      var w := LeadWidth(s[0]);
      ValidConcat(s[w..], t);
      assert (s + t)[w..] == s[w..] + t;
    }
  }

  /** `truncate_utf8`: the longest valid prefix of at most `limit` bytes. */
  method Truncate(value: Bytes, limit: nat) returns (kept: Bytes)
    requires Valid(value)
    ensures Valid(kept) && kept <= value && |kept| <= limit
    ensures forall k :: |kept| < k <= |value| && k <= limit ==> !Valid(value[..k])
  {
    kept := value;
    if |value| > limit {
      var boundary := limit;
      while !IsCharBoundary(value, boundary)
        invariant 0 <= boundary <= limit
        invariant forall k :: boundary < k <= limit ==> !Valid(value[..k])
        decreases boundary
      {
        ValidPrefix(value, boundary);
        boundary := boundary - 1;
      }
      ValidPrefix(value, boundary);
      kept := value[..boundary];
    }
  }
}
