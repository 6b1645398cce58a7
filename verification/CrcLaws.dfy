/** Laws of the checksum of checkpoint.rs that name neither its register nor its polynomial:
    the residue of a text followed by its own checksum, and check values. */
module CrcLaws {
  import opened Crc32

  // ----- words, bit by bit -----

  function ShiftBy(c: bv32, k: nat): bv32 { if k == 0 then c else Shift(ShiftBy(c, k - 1)) }

  function HalfBy(w: bv32, k: nat): bv32 { if k == 0 then w else Half(HalfBy(w, k - 1)) }

  /** The k lowest bits of a word, least significant first. */
  function LowBits(w: bv32, k: nat): (bits: seq<bool>)
    ensures |bits| == k
  {
    if k == 0 then [] else LowBits(w, k - 1) + [BitOf(HalfBy(w, k - 1))]
  }

  /** Shifting in a word's bits is mixing the word in and shifting. */
  lemma {:induction false} PeelBits(c: bv32, w: bv32, k: nat)
    ensures ShiftBy(Xor(c, w), k) == Xor(BitRegister(c, LowBits(w, k)), HalfBy(w, k))
  {
    if k > 0 {
      PeelBits(c, w, k - 1);
      var bits := LowBits(w, k);
      assert bits[..k - 1] == LowBits(w, k - 1);
      PeelBit(BitRegister(c, bits[..k - 1]), HalfBy(w, k - 1));
    }
  }

  lemma {:induction false} HalfByShift(w: bv32, j: nat, k: nat)
    ensures HalfBy(HalfBy(w, j), k) == HalfBy(w, j + k)
  {
    if k > 0 {
      HalfByShift(w, j, k - 1);
    }
  }

  lemma {:induction false} LowBitsSplit(w: bv32, j: nat, k: nat)
    ensures LowBits(w, j + k) == LowBits(w, j) + LowBits(HalfBy(w, j), k)
  {
    if k > 0 {
      LowBitsSplit(w, j, k - 1);
      HalfByShift(w, j, k - 1);
    }
  }

  // ----- the bytes of a word -----

  function LowByte(w: bv32): bv8 { (w & 0xFF) as bv8 }

  function Down(w: bv32): bv32 { w >> 8 }

  /** The four bytes of a word, least significant first. */
  function Bytes4(w: bv32): seq<bv8> { [LowByte(w), LowByte(Down(w)), LowByte(Down(Down(w))), LowByte(Down(Down(Down(w))))] }

  /** Where the mask has bits, the words agree. */
  predicate AgreeUnder(x: bv32, y: bv32, mask: bv32) { x & mask == y & mask }

  lemma {:induction false} AgreeLow(w: bv32)
    ensures AgreeUnder(LowByte(w) as bv32, w, 0xFF)
  {}

  lemma {:induction false} AgreeHalf(x: bv32, y: bv32, mask: bv32)
    requires AgreeUnder(x, y, mask)
    ensures AgreeUnder(Half(x), Half(y), Half(mask))
    ensures mask & 1 != 0 ==> BitOf(x) == BitOf(y)
  {}

  function Ones(k: nat): bv32 { HalfBy(0xFF, k) }

  lemma {:induction false} OnesOdd(k: nat)
    requires k < 8
    ensures Ones(k) & 1 != 0
  {
    assert Ones(1) == 0x7F && Ones(2) == 0x3F && Ones(3) == 0x1F;
    assert HalfBy(0xFF, 4) == 0xF && HalfBy(0xFF, 5) == 7 && HalfBy(0xFF, 6) == 3 && HalfBy(0xFF, 7) == 1;
  }

  lemma {:induction false} RestAgrees(w: bv32, k: nat)
    ensures AgreeUnder(Rest(LowByte(w), k), HalfBy(w, k), Ones(k))
  {
    if k == 0 {
      AgreeLow(w);
    } else {
      RestAgrees(w, k - 1);
      AgreeHalf(Rest(LowByte(w), k - 1), HalfBy(w, k - 1), Ones(k - 1));
    }
  }

  lemma {:induction false} ByteBitsAreLowBits(w: bv32)
    ensures ByteBits(LowByte(w)) == LowBits(w, 8)
  {
    forall k | 0 <= k < 8 ensures ByteBits(LowByte(w))[k] == LowBits(w, 8)[k] {
      RestAgrees(w, k);
      OnesOdd(k);
      AgreeHalf(Rest(LowByte(w), k), HalfBy(w, k), Ones(k));
      LowBitAt(w, 8, k);
    }
  }

  lemma {:induction false} LowBitAt(w: bv32, n: nat, k: nat)
    requires k < n
    ensures LowBits(w, n)[k] == BitOf(HalfBy(w, k))
  {
    if k < n - 1 {
      LowBitAt(w, n - 1, k);
    }
  }

  lemma {:induction false} FourHalves(w: bv32, k: nat)
    ensures HalfBy(w, k + 4) == Half(Half(Half(Half(HalfBy(w, k)))))
  {
    assert HalfBy(w, k + 2) == Half(HalfBy(w, k + 1));
  }

  lemma {:induction false} HalvesDown(w: bv32)
    ensures Half(Half(Half(Half(Half(Half(Half(Half(w)))))))) == Down(w)
  {}

  lemma {:induction false} EightDown(w: bv32)
    ensures HalfBy(w, 8) == Down(w)
  {
    FourHalves(w, 0);
    FourHalves(w, 4);
    HalvesDown(w);
  }

  lemma {:induction false} FourDown(w: bv32)
    ensures Down(Down(Down(Down(w)))) == 0
  {}

  lemma {:induction false} BitsSnoc(data: seq<bv8>, b: bv8)
    ensures Bits(data + [b]) == Bits(data) + ByteBits(b)
  {
    assert (data + [b])[..|data|] == data;
  }

  lemma {:induction false} BitsConcat(a: seq<bv8>, b: seq<bv8>)
    ensures Bits(a + b) == Bits(a) + Bits(b)
  {
    if b == [] {
      assert a + b == a;
    } else {
      var init, last := b[..|b| - 1], b[|b| - 1];
      BitsConcat(a, init);
      BitsSnoc(a + init, last);
      assert a + b == (a + init) + [last];
    }
  }

  /** These bytes are the k lowest bits of w, and v is what is left of it. */
  predicate Taken(data: seq<bv8>, w: bv32, k: nat, v: bv32) { Bits(data) == LowBits(w, k) && HalfBy(w, k) == v }

  lemma {:induction false} TakeByte(data: seq<bv8>, w: bv32, k: nat, v: bv32)
    requires Taken(data, w, k, v)
    ensures Taken(data + [LowByte(v)], w, k + 8, Down(v))
  {
    BitsSnoc(data, LowByte(v));
    ByteBitsAreLowBits(v);
    LowBitsSplit(w, k, 8);
    HalfByShift(w, k, 8);
    EightDown(v);
  }

  lemma {:induction false} FourAppended<T>(a: T, b: T, c: T, d: T)
    ensures [] + [a] + [b] + [c] + [d] == [a, b, c, d]
  {}

  lemma {:induction false} WordTaken(w: bv32)
    ensures Taken(Bytes4(w), w, 32, Down(Down(Down(Down(w)))))
  {
    var v1 := Down(w);
    var v2 := Down(v1);
    var v3 := Down(v2);
    assert Taken([], w, 0, w);
    TakeByte([], w, 0, w);
    TakeByte([] + [LowByte(w)], w, 8, v1);
    TakeByte([] + [LowByte(w)] + [LowByte(v1)], w, 16, v2);
    TakeByte([] + [LowByte(w)] + [LowByte(v1)] + [LowByte(v2)], w, 24, v3);
    FourAppended(LowByte(w), LowByte(v1), LowByte(v2), LowByte(v3));
  }

  lemma {:induction false} WordBits(w: bv32)
    ensures Bits(Bytes4(w)) == LowBits(w, 32) && HalfBy(w, 32) == 0
  {
    WordTaken(w);
    FourDown(w);
  }

  // ----- the residue -----

  lemma {:induction false} MixedWithComplement(r: bv32)
    ensures Xor(r, !r) == 0xFFFF_FFFF
  {}

  lemma {:induction false} XorZero(x: bv32)
    ensures Xor(x, 0) == x
  {}

  lemma {:induction false} FourShifts(c: bv32, k: nat)
    ensures ShiftBy(c, k + 4) == Shift(Shift(Shift(Shift(ShiftBy(c, k)))))
  {
    assert ShiftBy(c, k + 2) == Shift(ShiftBy(c, k + 1));
  }

  lemma {:induction false} OnesShifted()
    ensures ShiftBy(0xFFFF_FFFF, 32) == 0xDEBB_20E3
  {
    var c: bv32 := 0xFFFF_FFFF;
    FourShifts(c, 0);
    assert ShiftBy(c, 4) == 0xB242_0DE3;
    FourShifts(c, 4);
    assert ShiftBy(c, 8) == 0x2DFD_1072;
    FourShifts(c, 8);
    assert ShiftBy(c, 12) == 0x39B1_F1CF;
    FourShifts(c, 12);
    assert ShiftBy(c, 16) == 0xBE26_ED00;
    FourShifts(c, 16);
    assert ShiftBy(c, 20) == 0x0BE2_6ED0;
    FourShifts(c, 20);
    assert ShiftBy(c, 24) == 0x00BE_26ED;
    FourShifts(c, 24);
    assert ShiftBy(c, 28) == 0x86D8_30BA;
    FourShifts(c, 28);
  }

  /** A text followed by its own checksum, least significant byte first, always has the same
      checksum. */
  lemma {:induction false} ResidueIsConstant(data: seq<bv8>)
    ensures Checksum(data + Bytes4(Checksum(data))) == 0x2144_DF1C
  {
    var r := BitRegister(0xFFFF_FFFF, Bits(data));
    BitsConcat(data, Bytes4(!r));
    BitRegisterAppend(0xFFFF_FFFF, Bits(data), Bits(Bytes4(!r)));
    WordBits(!r);
    PeelBits(r, !r, 32);
    XorZero(BitRegister(r, LowBits(!r, 32)));
    MixedWithComplement(r);
    OnesShifted();
  }

  // ----- check values -----

  lemma {:induction false} ByteAbsorbed(start: bv32, b: bv8)
    ensures BitRegister(start, ByteBits(b)) == ShiftBy(Xor(start, b as bv32), 8)
  {
    MixedStart(start, b);
    MixedShifts(start, b, 8);
    MixedEnd(start, b);
  }

  lemma {:induction false} MixedShifts(start: bv32, b: bv8, k: nat)
    requires k <= 8
    ensures Mixed(start, b, k) == ShiftBy(Mixed(start, b, 0), k)
  {
    if k > 0 {
      MixedShifts(start, b, k - 1);
      MixedStep(start, b, k - 1);
    }
  }

  /** The register before the complement. */
  predicate RegisterIs(data: seq<bv8>, r: bv32) { BitRegister(0xFFFF_FFFF, Bits(data)) == r }

  lemma {:induction false} OneByteMore(data: seq<bv8>, r: bv32, b: bv8)
    requires RegisterIs(data, r)
    ensures RegisterIs(data + [b], ShiftBy(Xor(r, b as bv32), 8))
  {
    BitsSnoc(data, b);
    BitRegisterAppend(0xFFFF_FFFF, Bits(data), ByteBits(b));
    ByteAbsorbed(r, b);
  }

  lemma {:induction false} EightShifts(x: bv32, y: bv32, z: bv32)
    requires Shift(Shift(Shift(Shift(x)))) == y && Shift(Shift(Shift(Shift(y)))) == z
    ensures ShiftBy(x, 8) == z
  {
    FourShifts(x, 0);
    FourShifts(x, 4);
  }

  lemma {:induction false} DigitMore(data: seq<bv8>, r: bv32, b: bv8, x: bv32, y: bv32, z: bv32, more: seq<bv8>)
    requires RegisterIs(data, r) && Xor(r, b as bv32) == x && more == data + [b]
    requires Shift(Shift(Shift(Shift(x)))) == y && Shift(Shift(Shift(Shift(y)))) == z
    ensures RegisterIs(more, z)
  {
    OneByteMore(data, r, b);
    EightShifts(x, y, z);
  }

  lemma {:induction false} EmptyText()
    ensures Checksum([]) == 0
  {}

  lemma {:induction false} FirstDigits()
    ensures RegisterIs([0x31, 0x32, 0x33], 0x77B7_9C2D)
  {
    assert RegisterIs([], 0xFFFF_FFFF);
    DigitMore([], 0xFFFF_FFFF, 0x31, 0xFFFF_FFCE, 0xAFF5_1D84, 0x7C23_1048, [0x31]);
    DigitMore([0x31], 0x7C23_1048, 0x32, 0x7C23_107A, 0xD114_92EF, 0xB0AC_BB32, [0x31, 0x32]);
    DigitMore([0x31, 0x32], 0xB0AC_BB32, 0x33, 0xB0AC_BB01, 0x16BD_DBD4, 0x77B7_9C2D, [0x31, 0x32, 0x33]);
  }

  lemma {:induction false} MiddleDigits()
    requires RegisterIs([0x31, 0x32, 0x33], 0x77B7_9C2D)
    ensures RegisterIs([0x31, 0x32, 0x33, 0x34, 0x35, 0x36], 0xF68D_2C9E)
  {
    DigitMore([0x31, 0x32, 0x33], 0x77B7_9C2D, 0x34, 0x77B7_9C19, 0xF774_EA85, 0x641C_1F5C, [0x31, 0x32, 0x33, 0x34]);
    DigitMore([0x31, 0x32, 0x33, 0x34], 0x641C_1F5C, 0x35, 0x641C_1F69, 0xF64E_52B2, 0x340A_C5E3, [0x31, 0x32, 0x33, 0x34, 0x35]);
    DigitMore([0x31, 0x32, 0x33, 0x34, 0x35], 0x340A_C5E3, 0x36, 0x340A_C5D5, 0x682B_FDA9, 0xF68D_2C9E, [0x31, 0x32, 0x33, 0x34, 0x35, 0x36]);
  }

  lemma {:induction false} LastDigits()
    requires RegisterIs([0x31, 0x32, 0x33, 0x34, 0x35, 0x36], 0xF68D_2C9E)
    ensures RegisterIs([0x31, 0x32, 0x33, 0x34, 0x35, 0x36, 0x37, 0x38, 0x39], 0x340B_C6D9)
  {
    DigitMore([0x31, 0x32, 0x33, 0x34, 0x35, 0x36], 0xF68D_2C9E, 0x37, 0xF68D_2CA9, 0xFF67_418E, 0xAFFC_9660, [0x31, 0x32, 0x33, 0x34, 0x35, 0x36, 0x37]);
    DigitMore([0x31, 0x32, 0x33, 0x34, 0x35, 0x36, 0x37], 0xAFFC_9660, 0x38, 0xAFFC_9658, 0xE747_4A45, 0x651F_2550, [0x31, 0x32, 0x33, 0x34, 0x35, 0x36, 0x37, 0x38]);
    DigitMore([0x31, 0x32, 0x33, 0x34, 0x35, 0x36, 0x37, 0x38], 0x651F_2550, 0x39, 0x651F_2569, 0xF65E_6112, 0x340B_C6D9, [0x31, 0x32, 0x33, 0x34, 0x35, 0x36, 0x37, 0x38, 0x39]);
  }

  /** The check value of the digits 1 to 9 in ASCII. */
  lemma {:induction false} DigitsText()
    ensures Checksum([0x31, 0x32, 0x33, 0x34, 0x35, 0x36, 0x37, 0x38, 0x39]) == 0xCBF4_3926
  {
    FirstDigits();
    MiddleDigits();
    LastDigits();
  }
}
