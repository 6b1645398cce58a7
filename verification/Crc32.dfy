/** The CRC-32 of checkpoint.rs (polynomial 0xEDB88320, reflected, as in section 8 of
    RFC 1952 and section 3.2.9 of IEEE 802.3): the byte-wise loop computes the bit-serial
    register, and the register detects every burst of up to 32 bits. */
module Crc32 {

  // ----- the bit-serial register -----

  /** One shift of the register. */
  function Shift(c: bv32): bv32 {
    if c & 1 != 0 then (c >> 1) ^ 0xEDB8_8320 else c >> 1
  }

  function Xor(a: bv32, b: bv32): bv32 { a ^ b }

  function Half(w: bv32): bv32 { w >> 1 }

  function BitWord(bit: bool): bv32 { if bit then 1 else 0 }

  function BitStep(c: bv32, bit: bool): bv32 { Shift(Xor(c, BitWord(bit))) }

  /** The register after absorbing the bits, first bit first. */
  function BitRegister(start: bv32, bits: seq<bool>): bv32 {
    if bits == [] then start else BitStep(BitRegister(start, bits[..|bits| - 1]), bits[|bits| - 1])
  }

  function BitOf(w: bv32): bool { w & 1 != 0 }

  /** A byte with its k lowest bits dropped. */
  function Rest(b: bv8, k: nat): bv32 { if k == 0 then b as bv32 else Half(Rest(b, k - 1)) }

  /** The bits of a byte, least significant first. */
  function ByteBits(b: bv8): (bits: seq<bool>)
    ensures |bits| == 8
  {
    seq(8, k requires 0 <= k => BitOf(Rest(b, k)))
  }

  function Bits(data: seq<bv8>): (bits: seq<bool>)
    ensures |bits| == 8 * |data|
  {
    if data == [] then [] else Bits(data[..|data| - 1]) + ByteBits(data[|data| - 1])
  }

  function Checksum(data: seq<bv8>): bv32 { !BitRegister(0xFFFF_FFFF, Bits(data)) }

  // Shifting in a word's lowest bit commutes with the rest of the word: one lemma for
  // each value of the two lowest bits involved.
  lemma {:induction false} PeelOneOverOne(c: bv32, w: bv32)
    requires w & 1 != 0 && c & 1 != 0
    ensures Shift(Xor(c, w)) == Xor(BitStep(c, true), Half(w))
  {}

  lemma {:induction false} PeelOneOverZero(c: bv32, w: bv32)
    requires w & 1 != 0 && c & 1 == 0
    ensures Shift(Xor(c, w)) == Xor(BitStep(c, true), Half(w))
  {}

  lemma {:induction false} PeelZeroOverOne(c: bv32, w: bv32)
    requires w & 1 == 0 && c & 1 != 0
    ensures Shift(Xor(c, w)) == Xor(BitStep(c, false), Half(w))
  {}

  lemma {:induction false} PeelZeroOverZero(c: bv32, w: bv32)
    requires w & 1 == 0 && c & 1 == 0
    ensures Shift(Xor(c, w)) == Xor(BitStep(c, false), Half(w))
  {}

  lemma {:induction false} PeelBit(c: bv32, w: bv32)
    ensures Shift(Xor(c, w)) == Xor(BitStep(c, BitOf(w)), Half(w))
  {
    if BitOf(w) {
      if BitOf(c) { PeelOneOverOne(c, w); } else { PeelOneOverZero(c, w); }
    } else {
      if BitOf(c) { PeelZeroOverOne(c, w); } else { PeelZeroOverZero(c, w); }
    }
  }

  lemma {:induction false} NothingLeft(b: bv8)
    ensures Rest(b, 8) == 0
  {
    assert Rest(b, 0) == b as bv32;
    assert Rest(b, 2) == (b as bv32) >> 2;
    assert Rest(b, 4) == (b as bv32) >> 4;
    assert Rest(b, 6) == (b as bv32) >> 6;
  }

  lemma {:induction false} BitRegisterAppend(start: bv32, xs: seq<bool>, ys: seq<bool>)
    ensures BitRegister(start, xs + ys) == BitRegister(BitRegister(start, xs), ys)
  {
    if ys == [] {
      assert xs + ys == xs;
    } else {
      BitRegisterAppend(start, xs, ys[..|ys| - 1]);
      assert (xs + ys)[..|xs + ys| - 1] == xs + ys[..|ys| - 1];
    }
  }

  // ----- the byte-wise loop -----

  method Crc32Bytes(data: seq<bv8>) returns (crc: bv32)
    ensures crc == Checksum(data)
  {
    crc := 0xFFFF_FFFF;
    for i := 0 to |data|
      invariant crc == BitRegister(0xFFFF_FFFF, Bits(data[..i]))
    {
      assert data[..i + 1][..i] == data[..i];
      BitRegisterAppend(0xFFFF_FFFF, Bits(data[..i]), ByteBits(data[i]));
      crc := AbsorbByte(crc, data[i]);
    }
    assert data[..|data|] == data;
    crc := !crc;
  }

  /** The register after k of the byte's bits, with the rest of the byte still mixed in. */
  function Mixed(start: bv32, b: bv8, k: nat): bv32
    requires k <= 8
  {
    Xor(BitRegister(start, ByteBits(b)[..k]), Rest(b, k))
  }

  lemma {:induction false} MixedStart(start: bv32, b: bv8)
    ensures Mixed(start, b, 0) == start ^ (b as bv32)
  {}

  lemma {:induction false} NextBit(start: bv32, b: bv8, k: nat)
    requires k < 8
    ensures BitRegister(start, ByteBits(b)[..k + 1]) == BitStep(BitRegister(start, ByteBits(b)[..k]), BitOf(Rest(b, k)))
    ensures Rest(b, k + 1) == Half(Rest(b, k))
  {
    assert ByteBits(b)[..k + 1][..k] == ByteBits(b)[..k];
  }

  lemma {:induction false} MixedStep(start: bv32, b: bv8, k: nat)
    requires k < 8
    ensures Shift(Mixed(start, b, k)) == Mixed(start, b, k + 1)
  {
    NextBit(start, b, k);
    PeelBit(BitRegister(start, ByteBits(b)[..k]), Rest(b, k));
  }

  lemma {:induction false} MixedEnd(start: bv32, b: bv8)
    ensures Mixed(start, b, 8) == BitRegister(start, ByteBits(b))
  {
    assert ByteBits(b)[..8] == ByteBits(b);
    NothingLeft(b);
  }

  method AbsorbByte(start: bv32, b: bv8) returns (crc: bv32)
    ensures crc == BitRegister(start, ByteBits(b))
  {
    crc := start ^ (b as bv32);
    MixedStart(start, b);
    for k := 0 to 8
      invariant crc == Mixed(start, b, k)
    {
      ghost var before := crc;
      crc := if crc & 1 != 0 then (crc >> 1) ^ 0xEDB8_8320 else crc >> 1;
      assert crc == Shift(before);
      MixedStep(start, b, k);
    }
    MixedEnd(start, b);
  }

  // ----- the difference of two registers is a register of the differences -----

  lemma {:induction false} LinearOneOne(x: bv32, y: bv32)
    requires x & 1 != 0 && y & 1 != 0
    ensures Shift(Xor(x, y)) == Xor(Shift(x), Shift(y))
  {}

  lemma {:induction false} LinearOneZero(x: bv32, y: bv32)
    requires x & 1 != 0 && y & 1 == 0
    ensures Shift(Xor(x, y)) == Xor(Shift(x), Shift(y))
  {}

  lemma {:induction false} LinearZeroOne(x: bv32, y: bv32)
    requires x & 1 == 0 && y & 1 != 0
    ensures Shift(Xor(x, y)) == Xor(Shift(x), Shift(y))
  {}

  lemma {:induction false} LinearZeroZero(x: bv32, y: bv32)
    requires x & 1 == 0 && y & 1 == 0
    ensures Shift(Xor(x, y)) == Xor(Shift(x), Shift(y))
  {}

  lemma {:induction false} ShiftLinear(x: bv32, y: bv32)
    ensures Shift(Xor(x, y)) == Xor(Shift(x), Shift(y))
  {
    if BitOf(x) {
      if BitOf(y) { LinearOneOne(x, y); } else { LinearOneZero(x, y); }
    } else {
      if BitOf(y) { LinearZeroOne(x, y); } else { LinearZeroZero(x, y); }
    }
  }

  lemma {:induction false} RawExchange(x: bv32, p: bv32, y: bv32, q: bv32)
    ensures Xor(x ^ p, y ^ q) == Xor(x ^ y, p ^ q)
  {}

  lemma {:induction false} XorExchange(x: bv32, p: bv32, y: bv32, q: bv32)
    ensures Xor(Xor(x, p), Xor(y, q)) == Xor(Xor(x, y), Xor(p, q))
  {
    RawExchange(x, p, y, q);
  }

  lemma {:induction false} XorBits(p: bool, q: bool)
    ensures Xor(BitWord(p), BitWord(q)) == BitWord(p != q)
  {}

  lemma {:induction false} StepDifference(x: bv32, y: bv32, p: bool, q: bool)
    ensures Xor(BitStep(x, p), BitStep(y, q)) == BitStep(Xor(x, y), p != q)
  {
    ShiftLinear(Xor(x, BitWord(p)), Xor(y, BitWord(q)));
    XorExchange(x, BitWord(p), y, BitWord(q));
    XorBits(p, q);
  }

  function Differences(xs: seq<bool>, ys: seq<bool>): (ds: seq<bool>)
    requires |xs| == |ys|
    ensures |ds| == |xs| && forall i :: 0 <= i < |ds| ==> ds[i] == (xs[i] != ys[i])
  {
    seq(|xs|, i requires 0 <= i < |xs| => xs[i] != ys[i])
  }

  lemma {:induction false} XorSelf(x: bv32)
    ensures Xor(x, x) == 0
  {}

  lemma {:induction false} RegisterDifference(start: bv32, xs: seq<bool>, ys: seq<bool>)
    requires |xs| == |ys|
    ensures Xor(BitRegister(start, xs), BitRegister(start, ys)) == BitRegister(0, Differences(xs, ys))
  {
    XorSelf(start);
    if xs != [] {
      var last := |xs| - 1;
      RegisterDifference(start, xs[..last], ys[..last]);
      assert Differences(xs, ys)[..last] == Differences(xs[..last], ys[..last]);
      StepDifference(BitRegister(start, xs[..last]), BitRegister(start, ys[..last]), xs[last], ys[last]);
    }
  }

  // ----- a burst of up to 32 bits leaves a nonzero difference -----

  /** The top bit moved down j places. */
  function Marker(j: nat): bv32 { if j == 0 then 0x8000_0000 else Half(Marker(j - 1)) }

  predicate OneHot(m: bv32) { m != 0 && m & (m - 1) == 0 }

  lemma {:induction false} HalfOneHot(m: bv32)
    requires OneHot(m) && Half(m) != 0
    ensures OneHot(Half(m)) && m & 1 == 0
  {}

  lemma {:induction false} Marker31()
    ensures Marker(31) == 1
  {
    assert Marker(0) == 0x8000_0000;
    assert Marker(2) == 0x2000_0000;
    assert Marker(4) == 0x0800_0000;
    assert Marker(6) == 0x0200_0000;
    assert Marker(8) == 0x0080_0000;
    assert Marker(10) == 0x0020_0000;
    assert Marker(12) == 0x0008_0000;
    assert Marker(14) == 0x0002_0000;
    assert Marker(16) == 0x0000_8000;
    assert Marker(18) == 0x0000_2000;
    assert Marker(20) == 0x0000_0800;
    assert Marker(22) == 0x0000_0200;
    assert Marker(24) == 0x0000_0080;
    assert Marker(26) == 0x0000_0020;
    assert Marker(28) == 0x0000_0008;
    assert Marker(30) == 0x0000_0002;
  }

  lemma {:induction false} ZeroMarkerStays(j: nat, k: nat)
    requires j <= k && Marker(j) == 0
    ensures Marker(k) == 0
  {
    if j < k {
      ZeroMarkerStays(j, k - 1);
    }
  }

  lemma {:induction false} MarkerOneHot(j: nat)
    requires j <= 31
    ensures OneHot(Marker(j)) && (0 < j ==> Marker(j - 1) & 1 == 0)
  {
    if Marker(j) == 0 {
      ZeroMarkerStays(j, 31);
      Marker31();
    }
    if j > 0 {
      MarkerOneHot(j - 1);
      HalfOneHot(Marker(j - 1));
    }
  }

  /** A register at or above an even marker stays at or above half of it. */
  lemma {:induction false} StepStaysHigh(e: bv32, bit: bool, m: bv32)
    requires m <= e && m & 1 == 0
    ensures Half(m) <= BitStep(e, bit)
  {}

  lemma {:induction false} FirstErrorIsHigh()
    ensures BitStep(0, true) >= 0x8000_0000 && BitStep(0, false) == 0
  {}

  lemma {:induction false} NonzeroStays(e: bv32)
    requires e != 0
    ensures BitStep(e, false) != 0
  {}

  /** The register of a difference pattern whose first error is at f and whose other
      errors are within the 32 bits from f on: zero before f, at least the marker that
      many places down while errors may arrive, and never zero again. */
  lemma {:induction false} BurstProfile(ds: seq<bool>, f: nat)
    requires forall i :: 0 <= i < |ds| && i < f ==> !ds[i]
    requires f < |ds| ==> ds[f]
    requires forall i :: f + 32 <= i < |ds| ==> !ds[i]
    ensures |ds| <= f ==> BitRegister(0, ds) == 0
    ensures f < |ds| <= f + 32 ==> BitRegister(0, ds) >= Marker(|ds| - f - 1)
    ensures f < |ds| ==> BitRegister(0, ds) != 0
  {
    if ds != [] {
      var last := |ds| - 1;
      var init := ds[..last];
      BurstProfile(init, f);
      FirstErrorIsHigh();
      if f < last < f + 32 {
        MarkerOneHot(last - f);
        StepStaysHigh(BitRegister(0, init), ds[last], Marker(last - f - 1));
      } else if f + 32 <= last {
        NonzeroStays(BitRegister(0, init));
      }
    }
  }

  /** i is the first position where the sequences differ. */
  lemma {:induction false} FirstDifference(xs: seq<bool>, ys: seq<bool>) returns (i: nat)
    requires |xs| == |ys| && xs != ys
    ensures i < |xs| && xs[i] != ys[i] && xs[..i] == ys[..i]
  {
    if xs[0] != ys[0] {
      i := 0;
    } else {
      i := FirstDifference(xs[1..], ys[1..]);
      assert xs[..i + 1] == [xs[0]] + xs[1..][..i];
      assert ys[..i + 1] == [ys[0]] + ys[1..][..i];
      i := i + 1;
    }
  }

  lemma {:induction false} BitsDetermineBytes(a: seq<bv8>, b: seq<bv8>)
    requires |a| == |b| && Bits(a) == Bits(b)
    ensures a == b
  {
    if a != [] {
      var last := |a| - 1;
      assert Bits(a)[..8 * last] == Bits(a[..last]) && Bits(b)[..8 * last] == Bits(b[..last]);
      assert Bits(a)[8 * last..] == ByteBits(a[last]) && Bits(b)[8 * last..] == ByteBits(b[last]);
      BitsDetermineBytes(a[..last], b[..last]);
      ByteBitsDetermineByte(a[last], b[last]);
    }
  }

  lemma {:induction false} LowBitAndHalf(x: bv32, y: bv32)
    requires BitOf(x) == BitOf(y) && Half(x) == Half(y)
    ensures x == y
  {}

  lemma {:induction false} SameRest(a: bv8, b: bv8, k: nat)
    requires ByteBits(a) == ByteBits(b) && k <= 8
    ensures Rest(a, k) == Rest(b, k)
    decreases 8 - k
  {
    if k == 8 {
      NothingLeft(a);
      NothingLeft(b);
    } else {
      SameRest(a, b, k + 1);
      assert ByteBits(a)[k] == BitOf(Rest(a, k)) && ByteBits(b)[k] == BitOf(Rest(b, k));
      LowBitAndHalf(Rest(a, k), Rest(b, k));
    }
  }

  lemma {:induction false} WordDeterminesByte(a: bv8, b: bv8)
    requires a as bv32 == b as bv32
    ensures a == b
  {}

  lemma {:induction false} ByteBitsDetermineByte(a: bv8, b: bv8)
    requires ByteBits(a) == ByteBits(b)
    ensures a == b
  {
    SameRest(a, b, 0);
    WordDeterminesByte(a, b);
  }

  /** All the bits in which two equally long strings differ lie in [w, w + 32). */
  predicate WithinBurst(a: seq<bv8>, b: seq<bv8>, w: nat)
    requires |a| == |b|
  {
    forall i :: 0 <= i < 8 * |a| && Bits(a)[i] != Bits(b)[i] ==> w <= i < w + 32
  }

  /** Burst detection: any two different byte strings of one length that differ only
      inside 32 consecutive bits have different checksums. */
  lemma {:induction false} DetectsEveryBurst(a: seq<bv8>, b: seq<bv8>, w: nat)
    requires |a| == |b| && a != b && WithinBurst(a, b, w)
    ensures Checksum(a) != Checksum(b)
  {
    if Bits(a) == Bits(b) {
      BitsDetermineBytes(a, b);
    }
    var f := FirstDifference(Bits(a), Bits(b));
    var ds := Differences(Bits(a), Bits(b));
    forall i | 0 <= i < f
      ensures !ds[i]
    {
      assert Bits(a)[i] == Bits(a)[..f][i] && Bits(b)[i] == Bits(b)[..f][i];
    }
    BurstProfile(ds, f);
    RegisterDifference(0xFFFF_FFFF, Bits(a), Bits(b));
    DifferentRegisters(BitRegister(0xFFFF_FFFF, Bits(a)), BitRegister(0xFFFF_FFFF, Bits(b)));
  }

  lemma {:induction false} DifferentRegisters(x: bv32, y: bv32)
    requires Xor(x, y) != 0
    ensures !x != !y
  {}

  lemma {:induction false} BitsOfByte(data: seq<bv8>, i: nat)
    requires i < 8 * |data|
    ensures Bits(data)[i] == ByteBits(data[i / 8])[i % 8]
  {
    if i < 8 * (|data| - 1) {
      BitsOfByte(data[..|data| - 1], i);
    }
  }

  /** In particular, differences confined to four consecutive bytes are detected. */
  lemma {:induction false} DetectsFourByteBurst(a: seq<bv8>, b: seq<bv8>, w: nat)
    requires |a| == |b| && a != b
    requires forall i :: 0 <= i < |a| && a[i] != b[i] ==> w <= i < w + 4
    ensures Checksum(a) != Checksum(b)
  {
    forall i | 0 <= i < 8 * |a| && Bits(a)[i] != Bits(b)[i]
      ensures 8 * w <= i < 8 * w + 32
    {
      BitsOfByte(a, i);
      BitsOfByte(b, i);
      assert a[i / 8] != b[i / 8];
    }
    DetectsEveryBurst(a, b, 8 * w);
  }
}
