/** UTF-8 by numbers: the valid byte strings are exactly the encodings of sequences of
    Unicode scalar values. */
module Utf8Scalars {
  import opened Prelude
  import opened Utf8

  /** Code points but surrogates. */
  predicate Scalar(c: nat) { c < 0xD800 || 0xE000 <= c < 0x11_0000 }

  /** Six bits of a code point, in a byte that continues a character. */
  function SixBits(c: nat): u8 { 0x80 + c % 64 }

  function EncodeChar(c: nat): (s: Bytes)
    requires Scalar(c)
    ensures 1 <= |s| <= 4
  {
    if c < 0x80 then [c]
    else if c < 0x800 then [0xC0 + c / 64, SixBits(c)]
    else if c < 0x1_0000 then [0xE0 + c / 4096, SixBits(c / 64), SixBits(c)]
    else [0xF0 + c / 262144, SixBits(c / 4096), SixBits(c / 64), SixBits(c)]
  }

  predicate AllScalar(cs: seq<nat>) { forall i :: 0 <= i < |cs| ==> Scalar(cs[i]) }

  function EncodeText(cs: seq<nat>): Bytes
    requires AllScalar(cs)
  {
    if cs == [] then [] else EncodeChar(cs[0]) + EncodeText(cs[1..])
  }

  // ----- one character -----

  lemma {:induction false} EncodedStarts(c: nat, rest: Bytes)
    requires Scalar(c)
    ensures StartsWith(EncodeChar(c) + rest, |EncodeChar(c)|) && (EncodeChar(c) + rest)[|EncodeChar(c)|..] == rest
  {
    EncodedAlone(c);
    var s := EncodeChar(c) + rest;
    assert forall i :: 0 <= i < |EncodeChar(c)| ==> s[i] == EncodeChar(c)[i];
  }

  lemma {:induction false} EncodedAlone(c: nat)
    requires Scalar(c)
    ensures StartsWith(EncodeChar(c), |EncodeChar(c)|)
  {
    if c >= 0x1_0000 {
      FourBytes(c);
    } else if c >= 0x800 {
      ThreeBytes(c);
    }
  }

  lemma {:induction false} ThreeBytes(c: nat)
    requires 0x800 <= c < 0x1_0000 && Scalar(c)
    ensures SecondFits(0xE0 + c / 4096, SixBits(c / 64))
  {
    assert c / 64 == 64 * (c / 4096) + (c / 64) % 64;
  }

  lemma {:induction false} FourBytes(c: nat)
    requires 0x1_0000 <= c < 0x11_0000
    ensures SecondFits(0xF0 + c / 262144, SixBits(c / 4096)) && c / 262144 <= 4
  {
    assert c / 4096 == 64 * (c / 262144) + (c / 4096) % 64;
  }

  function Less(b: u8, base: int): int { b - base }

  /** The code point a well-formed character of w bytes stands for. */
  function CodePoint(s: Bytes, w: nat): nat
    requires StartsWith(s, w)
  {
    if w == 1 then s[0]
    else if w == 2 then Less(s[0], 0xC0) * 64 + Less(s[1], 0x80)
    else if w == 3 then Less(s[0], 0xE0) * 4096 + Less(s[1], 0x80) * 64 + Less(s[2], 0x80)
    else Less(s[0], 0xF0) * 262144 + Less(s[1], 0x80) * 4096 + Less(s[2], 0x80) * 64 + Less(s[3], 0x80)
  }

  lemma {:induction false} Decoded(s: Bytes, w: nat)
    requires StartsWith(s, w)
    ensures Scalar(CodePoint(s, w)) && EncodeChar(CodePoint(s, w)) == s[..w]
  {
    if w == 3 {
      ThreeParts(Less(s[0], 0xE0), Less(s[1], 0x80), Less(s[2], 0x80));
    } else if w == 4 {
      FourParts(Less(s[0], 0xF0), Less(s[1], 0x80), Less(s[2], 0x80), Less(s[3], 0x80));
    }
  }

  lemma {:induction false} ThreeParts(x: nat, y: nat, z: nat)
    requires y < 64 && z < 64
    ensures var c := x * 4096 + y * 64 + z; c / 4096 == x && (c / 64) % 64 == y && c % 64 == z
  {
    var c := x * 4096 + y * 64 + z;
    assert c / 64 == x * 64 + y;
  }

  lemma {:induction false} FourParts(u: nat, x: nat, y: nat, z: nat)
    requires x < 64 && y < 64 && z < 64
    ensures var c := u * 262144 + x * 4096 + y * 64 + z;
            c / 262144 == u && (c / 4096) % 64 == x && (c / 64) % 64 == y && c % 64 == z
  {
    var c := u * 262144 + x * 4096 + y * 64 + z;
    assert c / 64 == u * 4096 + x * 64 + y;
    assert c / 4096 == u * 64 + x;
  }

  // ----- texts -----

  lemma {:induction false} TextIsValid(cs: seq<nat>)
    requires AllScalar(cs)
    ensures Valid(EncodeText(cs))
  {
    if cs != [] {
      TextIsValid(cs[1..]);
      EncodedStarts(cs[0], EncodeText(cs[1..]));
    }
  }

  lemma {:induction false} ValidIsText(s: Bytes) returns (cs: seq<nat>)
    requires Valid(s)
    ensures AllScalar(cs) && EncodeText(cs) == s
  {
    if s == [] {
      cs := [];
    } else {
      var w := LeadWidth(s[0]);
      var rest := ValidIsText(s[w..]);
      Decoded(s, w);
      cs := [CodePoint(s, w)] + rest;
      assert cs[1..] == rest && s == s[..w] + s[w..];
    }
  }

  /** A byte string is valid if and only if it encodes some scalar values. */
  lemma {:induction false} ValidIffText(s: Bytes)
    ensures Valid(s) <==> exists cs: seq<nat> :: AllScalar(cs) && EncodeText(cs) == s
  {
    if Valid(s) {
      var cs := ValidIsText(s);
    }
    if cs: seq<nat> :| AllScalar(cs) && EncodeText(cs) == s {
      TextIsValid(cs);
    }
  }
}
