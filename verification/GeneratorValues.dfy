/** Check values of the two generators of prng.rs and havoc.rs, and of one mutation. */
module GeneratorValues {
  import opened Prelude
  import Prng
  import SplitMix
  import opened PrngMutators

  /** The first two draws of xorshift64* for seed id 1. */
  lemma {:induction false} XorshiftValues()
    ensures Prng.Draw(1, 1) == 0x121D_5C56_83AF_6E11 && Prng.Draw(1, 2) == 0x4EE9_8097_97C6_77EB
  {
    assert Prng.StateAfter(1, 0) == 0x3C6E_F372_FE94_F82A;
    assert Prng.StateAfter(1, 1) == 0x07FE_43BF_FC73_6685;
    assert Prng.StateAfter(1, 2) == 0xB071_250E_AFA8_02A7;
  }

  /** The first two draws of SplitMix64 from state 0. */
  lemma {:induction false} SplitMixValues()
    ensures SplitMix.Draw(0, 1) == 0xE220_A839_7B1D_CDAF && SplitMix.Draw(0, 2) == 0x6E78_9E6A_A1B9_65F4
  {
    assert SplitMix.StateAfter(0, 1) == SplitMix.NextState(SplitMix.StateAfter(0, 0));
    assert SplitMix.StateAfter(0, 1) == 0x9E37_79B9_7F4A_7C15;
    assert SplitMix.StateAfter(0, 2) == 0x3C6E_F372_FE94_F82A;
  }

  /** The byte taken from a draw is its highest. */
  lemma {:induction false} TopByteValue()
    ensures Prng.TopByte(0xAB12_0000_0000_0034) == 0xAB
  {}

  lemma {:induction false} LaterValues()
    ensures Prng.Draw(1, 3) == 0xD86B_A01A_7DD4_720D && Prng.Draw(1, 4) == 0x15D7_09D3_7804_3CF2
    ensures Prng.Draw(1, 5) == 0x48C7_5E5A_AA98_C22E && Prng.Draw(1, 6) == 0x3D53_4FD1_A026_AEF5
  {
    XorshiftValues();
    assert Prng.StateAfter(1, 2) == 0xB071_250E_AFA8_02A7 by {
      assert Prng.StateAfter(1, 0) == 0x3C6E_F372_FE94_F82A;
      assert Prng.StateAfter(1, 1) == 0x07FE_43BF_FC73_6685;
    }
    assert Prng.StateAfter(1, 3) == 0x8984_A7FD_81D6_05B1;
    assert Prng.StateAfter(1, 4) == 0xE670_239A_920A_681A;
    assert Prng.StateAfter(1, 5) == 0xD729_0213_3683_0986;
    assert Prng.StateAfter(1, 6) == 0xD10B_105A_5AD2_69B9;
  }

  /** Of five bytes with the fourth preserved, the second of four candidates and then the
      first of three are rewritten by the fourth and the sixth draw. */
  lemma {:induction false} FiveBytes(s: Stream, payload: seq<u8>)
    requires |payload| == 5 && s.position(2, 5) == 3 && s.position(3, 4) == 1 && s.position(5, 3) == 0
    ensures MutatedPayload(s, payload) == [s.byte(6), s.byte(4)] + payload[2..]
  {
    assert AllBut(0, 3) == [] && AllBut(1, 3) == [0] && AllBut(2, 3) == [0, 1] && AllBut(3, 3) == [0, 1, 2];
    assert AllBut(4, 3) == [0, 1, 2] && AllBut(5, 3) == [0, 1, 2, 4];
    AllButWithin(5, 3);
    var left := AllBut(5, 3);
    var rest := Without(left, 1);
    var once := payload[1 := s.byte(4)];
    StillWithin(left, 1, 5);
    StillWithin(rest, 0, 5);
    assert rest == [0, 2, 4];
    assert Rewritten(s, once[0 := s.byte(6)], Without(rest, 0), 7, 0) == once[0 := s.byte(6)];
    assert Rewritten(s, once, rest, 5, 1) == once[0 := s.byte(6)];
    assert Rewritten(s, payload, left, 3, 2) == once[0 := s.byte(6)];
  }

  lemma {:induction false} ModuloValues()
    ensures Prng.Index(0x4EE9_8097_97C6_77EB, 5) == 3 && Prng.Index(0xD86B_A01A_7DD4_720D, 4) == 1
    ensures Prng.Index(0x48C7_5E5A_AA98_C22E, 3) == 0
    ensures Prng.TopByte(0x15D7_09D3_7804_3CF2) == 0x15 && Prng.TopByte(0x3D53_4FD1_A026_AEF5) == 0x3D
  {
    assert 0x4EE9_8097_97C6_77EB % 5 == 3 && 0xD86B_A01A_7DD4_720D % 4 == 1 && 0x48C7_5E5A_AA98_C22E % 3 == 0;
  }

  /** One mutation of five bytes: seed id 1 under scheduler state 0. */
  lemma {:induction false} MutationValue(payload: seq<u8>)
    requires |payload| == 5
    ensures MutatedBy(1, payload, 0) == Mutated([0x3D, 0x15] + payload[2..], 0x121D_5C56_83AF_6E11)
  {
    assert 1 as bv64 ^ 0 == 1;
    XorshiftValues();
    LaterValues();
    ModuloValues();
    FiveBytes(StreamOf(1), payload);
  }
}
