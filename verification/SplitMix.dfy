/** SplitMix64, the generator behind havoc.rs: from any state its draws repeat with period
    exactly 2^64. */
module SplitMix {
  import opened Prelude

  // ----- one draw -----

  function NextState(s: bv64): bv64 { s + 0x9E37_79B9_7F4A_7C15 }

  function Mix1(z: bv64): bv64 { z ^ (z >> 30) }
  function Mix2(z: bv64): bv64 { z * 0xBF58_476D_1CE4_E5B9 }
  function Mix3(z: bv64): bv64 { z ^ (z >> 27) }
  function Mix4(z: bv64): bv64 { z * 0x94D0_49BB_1331_11EB }
  function Mix5(z: bv64): bv64 { z ^ (z >> 31) }

  function Finalize(z: bv64): bv64 { Mix5(Mix4(Mix3(Mix2(Mix1(z))))) }

  method NextU64(state: bv64) returns (r: bv64, state': bv64)
    ensures state' == NextState(state) && r == Finalize(state')
  {
    state' := state + 0x9E37_79B9_7F4A_7C15;
    var z := state';
    z := Mix2(Mix1(z));
    z := Mix4(Mix3(z));
    r := Mix5(z);
  }

  // ----- the finalizer is a bijection -----

  function Undo1(y: bv64): bv64 { y ^ (y >> 30) ^ (y >> 60) }
  function Undo2(y: bv64): bv64 { y * 0x96DE_1B17_3F11_9089 }
  function Undo3(y: bv64): bv64 { y ^ (y >> 27) ^ (y >> 54) }
  function Undo4(y: bv64): bv64 { y * 0x3196_42B2_D24D_8EC3 }
  function Undo5(y: bv64): bv64 { y ^ (y >> 31) ^ (y >> 62) }

  lemma {:induction false} Raw1(z: bv64) ensures Undo1(z ^ (z >> 30)) == z {}
  lemma {:induction false} Raw2(z: bv64) ensures Undo2(z * 0xBF58_476D_1CE4_E5B9) == z {}
  lemma {:induction false} Raw3(z: bv64) ensures Undo3(z ^ (z >> 27)) == z {}
  lemma {:induction false} Raw4(z: bv64) ensures Undo4(z * 0x94D0_49BB_1331_11EB) == z {}
  lemma {:induction false} Raw5(z: bv64) ensures Undo5(z ^ (z >> 31)) == z {}

  lemma {:induction false} Undoes1(z: bv64) ensures Undo1(Mix1(z)) == z { Raw1(z); }
  lemma {:induction false} Undoes2(z: bv64) ensures Undo2(Mix2(z)) == z { Raw2(z); }
  lemma {:induction false} Undoes3(z: bv64) ensures Undo3(Mix3(z)) == z { Raw3(z); }
  lemma {:induction false} Undoes4(z: bv64) ensures Undo4(Mix4(z)) == z { Raw4(z); }
  lemma {:induction false} Undoes5(z: bv64) ensures Undo5(Mix5(z)) == z { Raw5(z); }

  function Unfinalize(y: bv64): bv64 { Undo1(Undo2(Undo3(Undo4(Undo5(y))))) }

  lemma {:induction false} UnfinalizeFinalize(z: bv64)
    ensures Unfinalize(Finalize(z)) == z
  {
    var a := Mix1(z);
    var b := Mix2(a);
    var c := Mix3(b);
    var d := Mix4(c);
    Undoes1(z);
    Undoes2(a);
    Undoes3(b);
    Undoes4(c);
    Undoes5(d);
  }

  // ----- the counter behind the state -----

  function StateAfter(s: bv64, k: nat): bv64 { if k == 0 then s else NextState(StateAfter(s, k - 1)) }

  /** The k-th draw (k >= 1) from state s. */
  function Draw(s: bv64, k: nat): bv64 { Finalize(StateAfter(s, k)) }

  function Succ(c: bv64): bv64 { c + 1 }
  function Add(a: bv64, b: bv64): bv64 { a + b }

  /** k as a 64-bit word. */
  function Count(k: nat): bv64 { if k == 0 then 0 else Succ(Count(k - 1)) }

  /** The state c increments after s. */
  function Weyl(s: bv64, c: bv64): bv64 { s + c * 0x9E37_79B9_7F4A_7C15 }
  function Unweyl(s: bv64, y: bv64): bv64 { (y - s) * 0xF1DE_83E1_9937_733D }

  lemma {:induction false} RawUnweyl(s: bv64, c: bv64) ensures Unweyl(s, s + c * 0x9E37_79B9_7F4A_7C15) == c {}
  lemma {:induction false} RawWeylNext(s: bv64, c: bv64) ensures NextState(s + c * 0x9E37_79B9_7F4A_7C15) == Weyl(s, c + 1) {}
  lemma {:induction false} WeylStart(s: bv64) ensures Weyl(s, 0) == s {}

  lemma {:induction false} UnweylWeyl(s: bv64, c: bv64)
    ensures Unweyl(s, Weyl(s, c)) == c
  {
    RawUnweyl(s, c);
  }

  lemma {:induction false} WeylNext(s: bv64, c: bv64)
    ensures NextState(Weyl(s, c)) == Weyl(s, Succ(c))
  {
    RawWeylNext(s, c);
  }

  lemma {:induction false} StateIsWeyl(s: bv64, k: nat)
    ensures StateAfter(s, k) == Weyl(s, Count(k))
  {
    if k == 0 {
      WeylStart(s);
    } else {
      StateIsWeyl(s, k - 1);
      WeylNext(s, Count(k - 1));
    }
  }

  lemma {:induction false} RawAddSucc(a: bv64, b: bv64) ensures Succ(a + b) == Add(a, b + 1) {}

  lemma {:induction false} AddSucc(a: bv64, b: bv64)
    ensures Succ(Add(a, b)) == Add(a, Succ(b))
  {
    RawAddSucc(a, b);
  }

  lemma {:induction false} AddZero(a: bv64) ensures Add(a, 0) == a {}

  lemma {:induction false} CountSum(j: nat, k: nat)
    ensures Count(j + k) == Add(Count(j), Count(k))
  {
    if k == 0 {
      AddZero(Count(j));
    } else {
      CountSum(j, k - 1);
      AddSucc(Count(j), Count(k - 1));
    }
  }

  // ----- Count(k) is zero exactly at the multiples of 2^64 -----

  function Double(h: bv64): bv64 { h << 1 }

  /** 2^k as a word. */
  function Hot(k: nat): bv64 { if k == 0 then 1 else Double(Hot(k - 1)) }

  lemma {:induction false} HotOf63()
    ensures Hot(63) == 0x8000_0000_0000_0000
  {
    HotUp8(0, 1);
    HotUp8(8, 0x100);
    HotUp8(16, 0x1_0000);
    HotUp8(24, 0x100_0000);
    HotUp8(32, 0x1_0000_0000);
    HotUp8(40, 0x100_0000_0000);
    HotUp8(48, 0x1_0000_0000_0000);
    HotUp4(56, 0x100_0000_0000_0000);
    HotUp2(60, 0x1000_0000_0000_0000);
    assert Hot(63) == Double(Hot(62));
  }

  lemma {:induction false} HotUp2(k: nat, h: bv64)
    requires Hot(k) == h
    ensures Hot(k + 2) == h << 2
  {
    assert Hot(k + 1) == Double(h);
  }

  lemma {:induction false} HotUp4(k: nat, h: bv64)
    requires Hot(k) == h
    ensures Hot(k + 4) == h << 4
  {
    HotUp2(k, h);
    HotUp2(k + 2, h << 2);
  }

  lemma {:induction false} HotUp8(k: nat, h: bv64)
    requires Hot(k) == h
    ensures Hot(k + 8) == h << 8
  {
    HotUp4(k, h);
    HotUp4(k + 4, h << 4);
  }

  lemma {:induction false} ZeroHotStays(j: nat, k: nat)
    requires j <= k && Hot(j) == 0
    ensures Hot(k) == 0
  {
    if j < k {
      ZeroHotStays(j, k - 1);
    }
  }

  predicate OneHot(h: bv64) { h != 0 && h & (h - 1) == 0 }

  lemma {:induction false} DoubleOneHot(h: bv64)
    requires OneHot(h) && Double(h) != 0
    ensures OneHot(Double(h))
  {}

  lemma {:induction false} HotIsOneHot(k: nat)
    requires k < 64
    ensures OneHot(Hot(k))
  {
    if Hot(k) == 0 {
      ZeroHotStays(k, 63);
      HotOf63();
    }
    if k > 0 {
      HotIsOneHot(k - 1);
      DoubleOneHot(Hot(k - 1));
    }
  }

  /** c has a bit set at or below the hot one. */
  predicate LowBits(c: bv64, h: bv64) { c & (h | (h - 1)) != 0 }

  lemma {:induction false} OddHasLowBit(c: bv64, h: bv64)
    ensures LowBits(Succ(Add(c, c)), h)
  {}

  lemma {:induction false} DoubledLowBits(c: bv64, h: bv64)
    requires OneHot(h) && Double(h) != 0 && LowBits(c, h)
    ensures LowBits(Add(c, c), Double(h))
  {}

  lemma {:induction false} CountHasLowBit(d: nat, b: nat)
    requires 0 < d < Pow2(b + 1) && b < 64
    ensures LowBits(Count(d), Hot(b))
  {
    var m := d / 2;
    CountSum(m, m);
    if d % 2 == 0 {
      CountHasLowBit(m, b - 1);
      HotIsOneHot(b - 1);
      HotIsOneHot(b);
      DoubledLowBits(Count(m), Hot(b - 1));
    } else {
      OddHasLowBit(Count(m), Hot(b));
      assert Count(2 * m + 1) == Succ(Count(2 * m));
    }
  }

  lemma {:induction false} AddSelf(h: bv64) ensures Add(h, h) == Double(h) {}

  lemma {:induction false} CountOfPow2(k: nat)
    ensures Count(Pow2(k)) == Hot(k)
  {
    if k == 0 {
      assert Count(0) == 0;
    } else {
      CountOfPow2(k - 1);
      CountSum(Pow2(k - 1), Pow2(k - 1));
      AddSelf(Hot(k - 1));
    }
  }

  lemma {:induction false} CountOfTwo64()
    ensures Count(TWO_64) == 0
  {
    Pow2Of64();
    CountOfPow2(64);
    HotOf63();
    assert Hot(64) == Double(Hot(63));
  }

  lemma {:induction false} AddZeroLeft(a: bv64) ensures Add(0, a) == a {}

  lemma {:induction false} CountPeriod(k: nat)
    ensures Count(k) == Count(k % TWO_64)
    decreases k
  {
    if k >= TWO_64 {
      CountPeriod(k - TWO_64);
      CountSum(TWO_64, k - TWO_64);
      CountOfTwo64();
      AddZeroLeft(Count(k - TWO_64));
      ModShift(k);
    }
  }

  lemma {:induction false} ModShift(k: nat)
    requires k >= TWO_64
    ensures (k - TWO_64) % TWO_64 == k % TWO_64
  {}

  lemma {:induction false} LowBitsNonzero(h: bv64) ensures !LowBits(0, h) {}

  lemma {:induction false} CountZero(k: nat)
    ensures Count(k) == 0 <==> k % TWO_64 == 0
  {
    CountPeriod(k);
    if k % TWO_64 != 0 {
      Pow2Of64();
      CountHasLowBit(k % TWO_64, 63);
      LowBitsNonzero(Hot(63));
    }
  }

  lemma {:induction false} AddKeeps(a: bv64, b: bv64) ensures Add(a, b) == a <==> b == 0 {}

  lemma {:induction false} CountsEqual(j: nat, k: nat)
    requires j <= k
    ensures Count(j) == Count(k) <==> (k - j) % TWO_64 == 0
  {
    CountSum(j, k - j);
    AddKeeps(Count(j), Count(k - j));
    CountZero(k - j);
  }

  /** From any state, the j-th and k-th draws agree exactly when j and k differ by a
      multiple of 2^64: no draw repeats within a full period. */
  lemma {:induction false} DrawsRepeatExactlyEvery2To64(s: bv64, j: nat, k: nat)
    requires j <= k
    ensures Draw(s, j) == Draw(s, k) <==> (k - j) % TWO_64 == 0
  {
    StateIsWeyl(s, j);
    StateIsWeyl(s, k);
    CountsEqual(j, k);
    UnweylWeyl(s, Count(j));
    UnweylWeyl(s, Count(k));
    UnfinalizeFinalize(StateAfter(s, j));
    UnfinalizeFinalize(StateAfter(s, k));
  }
}
