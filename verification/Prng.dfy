/** The xorshift64* generator of prng.rs: the state step and the output scrambler
    are bijections on 64-bit words, so streams never merge and never die. */
module Prng {
  import opened Prelude

  // ----- the three xor-shift rounds, the scrambler and their inverses -----

  function ShiftRight12(x: bv64): bv64 { x ^ (x >> 12) }
  function ShiftLeft25(x: bv64): bv64 { x ^ (x << 25) }
  function ShiftRight27(x: bv64): bv64 { x ^ (x >> 27) }
  function Scramble(x: bv64): bv64 { x * 0x2545_F491_4F6C_DD1D }
  function SeedState(seedId: bv64): bv64 { (seedId + 1) * 0x9E37_79B9_7F4A_7C15 }

  function NextState(x: bv64): bv64 { ShiftRight27(ShiftLeft25(ShiftRight12(x))) }

  function UndoRight12(y: bv64): bv64 {
    y ^ (y >> 12) ^ (y >> 24) ^ (y >> 36) ^ (y >> 48) ^ (y >> 60)
  }
  function UndoLeft25(y: bv64): bv64 { y ^ (y << 25) ^ (y << 50) }
  function UndoRight27(y: bv64): bv64 { y ^ (y >> 27) ^ (y >> 54) }
  function UndoScramble(y: bv64): bv64 { y * 0x5907_1D96_D81E_CD35 }
  function UndoSeedState(y: bv64): bv64 { y * 0xF1DE_83E1_9937_733D - 1 }

  // Each inverse is first checked on the spelled-out word; the definition of the
  // forward round then carries it over.
  lemma {:induction false} RawRight12(x: bv64) ensures UndoRight12(x ^ (x >> 12)) == x {}
  lemma {:induction false} RawLeft25(x: bv64) ensures UndoLeft25(x ^ (x << 25)) == x {}
  lemma {:induction false} RawRight27(x: bv64) ensures UndoRight27(x ^ (x >> 27)) == x {}
  lemma {:induction false} RawScramble(x: bv64) ensures UndoScramble(x * 0x2545_F491_4F6C_DD1D) == x {}
  lemma {:induction false} RawSeedState(x: bv64) ensures UndoSeedState((x + 1) * 0x9E37_79B9_7F4A_7C15) == x {}

  lemma {:induction false} UndoesRight12(x: bv64)
    ensures UndoRight12(ShiftRight12(x)) == x
  {
    RawRight12(x);
  }

  lemma {:induction false} UndoesLeft25(x: bv64)
    ensures UndoLeft25(ShiftLeft25(x)) == x
  {
    RawLeft25(x);
  }

  lemma {:induction false} UndoesRight27(x: bv64)
    ensures UndoRight27(ShiftRight27(x)) == x
  {
    RawRight27(x);
  }

  lemma {:induction false} UndoesScramble(x: bv64)
    ensures UndoScramble(Scramble(x)) == x
  {
    RawScramble(x);
  }

  lemma {:induction false} UndoesSeedState(x: bv64)
    ensures UndoSeedState(SeedState(x)) == x
  {
    RawSeedState(x);
  }

  function PreviousState(y: bv64): bv64 { UndoRight12(UndoLeft25(UndoRight27(y))) }

  lemma {:induction false} PreviousOfNext(x: bv64)
    ensures PreviousState(NextState(x)) == x
  {
    var a := ShiftRight12(x);
    var b := ShiftLeft25(a);
    UndoesRight12(x);
    UndoesLeft25(a);
    UndoesRight27(b);
  }

  // ----- streams -----

  /** The state after k draws of a generator created by new(seedId). */
  function StateAfter(seedId: bv64, k: nat): bv64 {
    if k == 0 then SeedState(seedId) else NextState(StateAfter(seedId, k - 1))
  }

  /** The k-th value drawn (k >= 1) from a generator created by new(seedId). */
  function Draw(seedId: bv64, k: nat): bv64 { Scramble(StateAfter(seedId, k)) }

  lemma {:induction false} StatesDetermineSeed(a: bv64, b: bv64, k: nat)
    requires StateAfter(a, k) == StateAfter(b, k)
    ensures a == b
  {
    if k == 0 {
      UndoesSeedState(a);
      UndoesSeedState(b);
    } else {
      PreviousOfNext(StateAfter(a, k - 1));
      PreviousOfNext(StateAfter(b, k - 1));
      StatesDetermineSeed(a, b, k - 1);
    }
  }

  /** Streams never collide: at every position, distinct seed ids give distinct draws. */
  lemma {:induction false} DrawsDetermineSeed(a: bv64, b: bv64, k: nat)
    ensures Draw(a, k) == Draw(b, k) <==> a == b
  {
    if Draw(a, k) == Draw(b, k) {
      UndoesScramble(StateAfter(a, k));
      UndoesScramble(StateAfter(b, k));
      StatesDetermineSeed(a, b, k);
    }
  }

  lemma {:induction false} ZeroIsFixed()
    ensures NextState(0) == 0 && Scramble(0) == 0
  {}

  /** The state is zero, from which every later draw is zero, exactly for the one
      seed id whose successor wraps to zero. */
  lemma {:induction false} ZeroStateOnlyFromMaxSeed(seedId: bv64, k: nat)
    ensures StateAfter(seedId, k) == 0 <==> seedId == 0xFFFF_FFFF_FFFF_FFFF
  {
    ZeroIsFixed();
    if k == 0 {
      UndoesSeedState(seedId);
      UndoesSeedState(0xFFFF_FFFF_FFFF_FFFF);
    } else {
      ZeroStateOnlyFromMaxSeed(seedId, k - 1);
      PreviousOfNext(StateAfter(seedId, k - 1));
      PreviousOfNext(0);
    }
  }

  function Index(x: bv64, n: nat): (i: nat)
    requires 0 < n
    ensures i < n
  {
    (x as int) % n
  }

  function TopByte(x: bv64): u8 { (x >> 56) as int }

  // ----- the generator object -----

  class SeededPrng {
    var state: bv64

    constructor (seedId: bv64)
      ensures state == SeedState(seedId)
    {
      state := SeedState(seedId);
    }

    method NextU64() returns (r: bv64)
      modifies this
      ensures state == NextState(old(state))
      ensures r == Scramble(state)
    {
      var x := state;
      x := ShiftRight12(x);
      x := ShiftLeft25(x);
      x := ShiftRight27(x);
      state := x;
      r := Scramble(x);
    }

    method NextByte() returns (b: u8)
      modifies this
      ensures state == NextState(old(state))
      ensures b == TopByte(Scramble(state))
    {
      var r := NextU64();
      b := TopByte(r);
    }
  }
}
