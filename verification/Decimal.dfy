/** Decimal rendering of natural numbers, as `to_string` and `format!` produce it. */
module Decimal {

  predicate IsDigit(c: char) { '0' <= c <= '9' }

  predicate AllDigits(s: string) { forall i :: 0 <= i < |s| ==> IsDigit(s[i]) }

  function Digit(d: nat): (c: char)
    requires d < 10
    ensures IsDigit(c)
  {
    '0' + d as char
  }

  function DigitValue(c: char): (d: nat)
    requires IsDigit(c)
    ensures d < 10
  {
    (c - '0') as int
  }

  function Render(n: nat): (s: string)
    ensures s != "" && AllDigits(s)
  {
    if n < 10 then [Digit(n)] else Render(n / 10) + [Digit(n % 10)]
  }

  function Parse(s: string): nat
    requires AllDigits(s)
  {
    if s == "" then 0 else 10 * Parse(s[..|s| - 1]) + DigitValue(s[|s| - 1])
  }

  lemma {:induction false} DigitRoundTrip(d: nat)
    requires d < 10
    ensures DigitValue(Digit(d)) == d
  {}

  lemma {:induction false} ParseRender(n: nat)
    ensures Parse(Render(n)) == n
  {
    if n < 10 {
      DigitRoundTrip(n);
      assert Render(n)[..0] == "";
    } else {
      ParseRender(n / 10);
      DigitRoundTrip(n % 10);
      assert Render(n)[..|Render(n)| - 1] == Render(n / 10);
    }
  }

  /** The digits at the start of whole end at k. */
  predicate RunEndsAt(whole: string, k: nat) {
    k <= |whole| && (forall i :: 0 <= i < k ==> IsDigit(whole[i])) && (k < |whole| ==> !IsDigit(whole[k]))
  }

  lemma {:induction false} RunEnds(digits: string, s: string)
    requires AllDigits(digits) && (s == "" || !IsDigit(s[0]))
    ensures RunEndsAt(digits + s, |digits|)
  {}

  /** Rendering is injective, even with text after it that does not start with a digit. */
  lemma {:induction false} RenderPrefixFree(m: nat, s: string, n: nat, t: string)
    requires Render(m) + s == Render(n) + t
    requires (s == "" || !IsDigit(s[0])) && (t == "" || !IsDigit(t[0]))
    ensures m == n && s == t
  {
    var a, b := Render(m), Render(n);
    RunEnds(a, s);
    RunEnds(b, t);
    assert (a + s)[..|a|] == a && (b + t)[..|b|] == b;
    assert (a + s)[|a|..] == s && (b + t)[|b|..] == t;
    ParseRender(m);
    ParseRender(n);
  }

    const DIGITS: string := "0123456789"

  lemma {:induction false} DigitListed(d: nat)
    requires d < 10
    ensures Digit(d) == DIGITS[d]
  {
    assert DIGITS[d] as int == '0' as int + d;
  }

/** Digits are written from the highest to the lowest. */
  lemma {:induction false} RenderByDigits(n: nat, d: nat)
    requires d < 10 && n > 0
    ensures Render(10 * n + d) == Render(n) + [DIGITS[d]] && Render(d) == [DIGITS[d]]
  {
    DigitListed(d);
    assert (10 * n + d) / 10 == n && (10 * n + d) % 10 == d;
  }
}
