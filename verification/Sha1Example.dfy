// The worked example of FIPS 180-1, appendix A: the digest of "abc", with the words of its
// expanded block and the registers after every fourth step.
module Sha1Example {
  import opened Sha1Spec

  // Words 4 * i to 4 * i + 3 of the expanded block
  const W0: bv128 := 0x61626380_00000000_00000000_00000000
  const W1: bv128 := 0x00000000_00000000_00000000_00000000
  const W2: bv128 := 0x00000000_00000000_00000000_00000000
  const W3: bv128 := 0x00000000_00000000_00000000_00000018
  const W4: bv128 := 0xc2c4c700_00000000_00000030_85898e01
  const W5: bv128 := 0x00000000_00000060_0b131c03_00000030
  const W6: bv128 := 0x85898ec1_16263806_00000000_00000180
  const W7: bv128 := 0x2c4c700c_000000f0_93afb507_5898e048
  const W8: bv128 := 0x8e9a9202_00000600_b131c0f0_16263bc6
  const W9: bv128 := 0x4ebed41e_626380a1_16263806_000018c0
  const W10: bv128 := 0xd2e138c4_00000f00_3afb5079_898e04e5
  const W11: bv128 := 0xe2ba3c2b_000060c0_053a37cd_74458547
  const W12: bv128 := 0xda9415ed_26380a16_626383a1_4ebf54de
  const W13: bv128 := 0x3835b44b_0000f600_1e84c7a3_98e04d98
  const W14: bv128 := 0x651d16a0_62658ca1_458544d6_44584cb7
  const W15: bv128 := 0x7ba06619_6380aea2_0ae55269_627b49a1
  const W16: bv128 := 0x7cd45c9d_000f0000_fb50753a_ec6765e8
  const W17: bv128 := 0xba3c2be2_0060c000_3a37cd05_458546f4
  const W18: bv128 := 0xb8599dd6_380a1a26_01e02203_e7cc3456
  const W19: bv128 := 0xe6e60b69_00f60a00_5795ef4f_822e0879

  // The registers after 4 * i steps
  const H0 := Hash(0x67452301, 0xefcdab89, 0x98badcfe, 0x10325476, 0xc3d2e1f0)
  const H1 := Hash(0xcdd8e11b, 0xa1390f08, 0x626414db, 0xc045bf0c, 0x59d148c0)
  const H2 := Hash(0x9e8c07d4, 0x993e30c1, 0x0ff1f290, 0xb3f52677, 0xf3763846)
  const H3 := Hash(0x63188fe4, 0xfbda9e89, 0x60d47e4a, 0x12dab8ca, 0x27a301f5)
  const H4 := Hash(0x20bdd62f, 0x196bee77, 0x644a3da5, 0x1181ed99, 0x18c623f9)
  const H5 := Hash(0xfd9e1d7d, 0xdc64901d, 0x20aa99ca, 0xd3a49608, 0xc82f758b)
  const H6 := Hash(0xd541f12d, 0x21283486, 0x0ce88eff, 0x868dec32, 0x7f67875f)
  const H7 := Hash(0x4aa84d97, 0xbe35fbd5, 0x12104ee9, 0xb1d59f71, 0x75507c4b)
  const H8 := Hash(0x3b845d33, 0x1267b407, 0x717eebd7, 0xa0dc2d4b, 0xd2aa1365)
  const H9 := Hash(0xdcbbb0cb, 0x21796ad4, 0x4b03af04, 0x811bea82, 0xcee1174c)
  const H10 := Hash(0x32de1cba, 0x4c986405, 0xf718e5cf, 0x03d447f6, 0xf72eec32)
  const H11 := Hash(0xee1b1aaf, 0x7f193dc5, 0x25c28357, 0xff21f7b7, 0x8cb7872e)
  const H12 := Hash(0xbead02ca, 0xa01b846c, 0x8714787c, 0x503ca382, 0xfb86c6ab)
  const H13 := Hash(0x3847ad66, 0x641db2ce, 0x4481cc71, 0xeebce4cd, 0xafab40b2)
  const H14 := Hash(0x5e6456af, 0x7b71f76d, 0x09fa7c76, 0x792410db, 0x8e11eb59)
  const H15 := Hash(0x3f52de5a, 0x09d785fd, 0x3498bfd4, 0xf211824f, 0xd79915ab)
  const H16 := Hash(0x6b61c9e1, 0xb66c020b, 0x9523272c, 0xf5d5b051, 0x8fd4b796)
  const H17 := Hash(0x78dd4d2b, 0x0c3df2b4, 0x4405957e, 0x0677e9eb, 0x5ad87278)
  const H18 := Hash(0x39859de7, 0xc199f8c7, 0x8fc96230, 0x125c24f0, 0xde37534a)
  const H19 := Hash(0x63f7dab7, 0x5ee76897, 0xc45e4fdb, 0x3b6d0b79, 0xce616779)
  const H20 := Hash(0x42541b35, 0x5738d5e1, 0x21834873, 0x681e6df6, 0xd8fdf6ad)

  // ------------------------------------------------------------------ the schedule

  function WordIn(row: bv128, j: nat): bv32
    requires j < 4
  {
    match j
    case 0 => (row >> 96) as bv32
    case 1 => ((row >> 64) & 0xffff_ffff) as bv32
    case 2 => ((row >> 32) & 0xffff_ffff) as bv32
    case _ => (row & 0xffff_ffff) as bv32
  }

  ghost predicate InRow(w: seq<bv32>, i: nat, row: bv128)
    requires |w| == 16
  {
    && Schedule(w, 4 * i) == WordIn(row, 0) && Schedule(w, 4 * i + 1) == WordIn(row, 1)
    && Schedule(w, 4 * i + 2) == WordIn(row, 2) && Schedule(w, 4 * i + 3) == WordIn(row, 3)
  }

  function Mix(a: bv32, b: bv32, c: bv32, d: bv32): bv32 { RotL(Xor4(a, b, c, d), 1) }

  // A row follows from the four rows before it.
  predicate Follows(p: bv128, q: bv128, r: bv128, s: bv128, row: bv128) {
    && WordIn(row, 0) == Mix(WordIn(s, 1), WordIn(r, 0), WordIn(p, 2), WordIn(p, 0))
    && WordIn(row, 1) == Mix(WordIn(s, 2), WordIn(r, 1), WordIn(p, 3), WordIn(p, 1))
    && WordIn(row, 2) == Mix(WordIn(s, 3), WordIn(r, 2), WordIn(q, 0), WordIn(p, 2))
    && WordIn(row, 3) == Mix(WordIn(row, 0), WordIn(r, 3), WordIn(q, 1), WordIn(p, 3))
  }

  lemma NextRow(w: seq<bv32>, i: nat, p: bv128, q: bv128, r: bv128, s: bv128, row: bv128)
    requires |w| == 16 && InRow(w, i, p) && InRow(w, i + 1, q) && InRow(w, i + 2, r) && InRow(w, i + 3, s)
    requires Follows(p, q, r, s, row)
    ensures InRow(w, i + 4, row)
  {
    hide WordIn, RotL, Xor4, Schedule;
    NextWord(w, 4 * i + 16);
    NextWord(w, 4 * i + 17);
    NextWord(w, 4 * i + 18);
    NextWord(w, 4 * i + 19);
  }

  lemma NextWord(w: seq<bv32>, t: nat)
    requires |w| == 16 && t >= 16
    ensures Schedule(w, t) == Mix(Schedule(w, t - 3), Schedule(w, t - 8), Schedule(w, t - 14), Schedule(w, t - 16))
  {
    hide RotL, Xor4;
  }

  lemma RowsFrom4(w: seq<bv32>)
    requires |w| == 16 && InRow(w, 0, W0) && InRow(w, 1, W1) && InRow(w, 2, W2) && InRow(w, 3, W3)
    ensures InRow(w, 4, W4) && InRow(w, 5, W5) && InRow(w, 6, W6) && InRow(w, 7, W7)
    ensures InRow(w, 8, W8) && InRow(w, 9, W9) && InRow(w, 10, W10) && InRow(w, 11, W11)
  {
    hide InRow;
    NextRow(w, 0, W0, W1, W2, W3, W4);
    NextRow(w, 1, W1, W2, W3, W4, W5);
    NextRow(w, 2, W2, W3, W4, W5, W6);
    NextRow(w, 3, W3, W4, W5, W6, W7);
    NextRow(w, 4, W4, W5, W6, W7, W8);
    NextRow(w, 5, W5, W6, W7, W8, W9);
    NextRow(w, 6, W6, W7, W8, W9, W10);
    NextRow(w, 7, W7, W8, W9, W10, W11);
  }

  lemma RowsFrom12(w: seq<bv32>)
    requires |w| == 16 && InRow(w, 8, W8) && InRow(w, 9, W9) && InRow(w, 10, W10) && InRow(w, 11, W11)
    ensures InRow(w, 12, W12) && InRow(w, 13, W13) && InRow(w, 14, W14) && InRow(w, 15, W15)
    ensures InRow(w, 16, W16) && InRow(w, 17, W17) && InRow(w, 18, W18) && InRow(w, 19, W19)
  {
    hide InRow;
    NextRow(w, 8, W8, W9, W10, W11, W12);
    NextRow(w, 9, W9, W10, W11, W12, W13);
    NextRow(w, 10, W10, W11, W12, W13, W14);
    NextRow(w, 11, W11, W12, W13, W14, W15);
    NextRow(w, 12, W12, W13, W14, W15, W16);
    NextRow(w, 13, W13, W14, W15, W16, W17);
    NextRow(w, 14, W14, W15, W16, W17, W18);
    NextRow(w, 15, W15, W16, W17, W18, W19);
  }

  // ----------------------------------------------------------------- the registers

  function Four(t: nat, h: Hash, row: bv128): Hash {
    Step(t + 3, Step(t + 2, Step(t + 1, Step(t, h, WordIn(row, 0)), WordIn(row, 1)), WordIn(row, 2)), WordIn(row, 3))
  }

  lemma FourSteps(w: seq<bv32>, i: nat, h: Hash, row: bv128, g: Hash)
    requires |w| == 16 && InRow(w, i, row) && Registers(w, H0, 4 * i) == h && Four(4 * i, h, row) == g
    ensures Registers(w, H0, 4 * i + 4) == g
  {
    hide WordIn, Step, Schedule, Registers;
    OneStep(w, 4 * i);
    OneStep(w, 4 * i + 1);
    OneStep(w, 4 * i + 2);
    OneStep(w, 4 * i + 3);
  }

  lemma OneStep(w: seq<bv32>, t: nat)
    requires |w| == 16
    ensures Registers(w, H0, t + 1) == Step(t, Registers(w, H0, t), Schedule(w, t))
  {
    hide Step, Schedule;
  }

  lemma Round0(w: seq<bv32>)
    requires |w| == 16 && InRow(w, 0, W0) && InRow(w, 1, W1) && InRow(w, 2, W2) && InRow(w, 3, W3) && InRow(w, 4, W4)
    requires Registers(w, H0, 0) == H0
    ensures Registers(w, H0, 20) == H5
  {
    hide InRow, Registers;
    FourSteps(w, 0, H0, W0, H1);
    FourSteps(w, 1, H1, W1, H2);
    FourSteps(w, 2, H2, W2, H3);
    FourSteps(w, 3, H3, W3, H4);
    FourSteps(w, 4, H4, W4, H5);
  }

  lemma Round1(w: seq<bv32>)
    requires |w| == 16 && InRow(w, 5, W5) && InRow(w, 6, W6) && InRow(w, 7, W7) && InRow(w, 8, W8) && InRow(w, 9, W9)
    requires Registers(w, H0, 20) == H5
    ensures Registers(w, H0, 40) == H10
  {
    hide InRow, Registers;
    FourSteps(w, 5, H5, W5, H6);
    FourSteps(w, 6, H6, W6, H7);
    FourSteps(w, 7, H7, W7, H8);
    FourSteps(w, 8, H8, W8, H9);
    FourSteps(w, 9, H9, W9, H10);
  }

  lemma Round2(w: seq<bv32>)
    requires |w| == 16 && InRow(w, 10, W10) && InRow(w, 11, W11) && InRow(w, 12, W12) && InRow(w, 13, W13) && InRow(w, 14, W14)
    requires Registers(w, H0, 40) == H10
    ensures Registers(w, H0, 60) == H15
  {
    hide InRow, Registers;
    FourSteps(w, 10, H10, W10, H11);
    FourSteps(w, 11, H11, W11, H12);
    FourSteps(w, 12, H12, W12, H13);
    FourSteps(w, 13, H13, W13, H14);
    FourSteps(w, 14, H14, W14, H15);
  }

  lemma Round3(w: seq<bv32>)
    requires |w| == 16 && InRow(w, 15, W15) && InRow(w, 16, W16) && InRow(w, 17, W17) && InRow(w, 18, W18) && InRow(w, 19, W19)
    requires Registers(w, H0, 60) == H15
    ensures Registers(w, H0, 80) == H20
  {
    hide InRow, Registers;
    FourSteps(w, 15, H15, W15, H16);
    FourSteps(w, 16, H16, W16, H17);
    FourSteps(w, 17, H17, W17, H18);
    FourSteps(w, 18, H18, W18, H19);
    FourSteps(w, 19, H19, W19, H20);
  }

  // ------------------------------------------------------------------- the digest

  const ABC: seq<bv8> := [0x61, 0x62, 0x63]

  lemma FirstRows(w: seq<bv32>)
    requires w == [0x61626380, 0, 0, 0, 0, 0, 0, 0, 0, 0, 0, 0, 0, 0, 0, 0x18]
    ensures InRow(w, 0, W0) && InRow(w, 1, W1) && InRow(w, 2, W2) && InRow(w, 3, W3)
  {
  }

  lemma LengthOfAbc()
    ensures LengthOctets(3) == [0, 0, 0, 0, 0, 0, 0, 0x18]
  {
    assert BeOctets(0) == [0, 0, 0, 0] && BeOctets(0x18) == [0, 0, 0, 0x18];
    hide BeOctets;
    assert 24 / 0x1_0000_0000 % 0x1_0000_0000 == 0 && 24 % 0x1_0000_0000 == 0x18;
    assert (0 as bv32) == 0 && (0x18 as bv32) == 0x18;
  }

  // A block of three octets, the marker and the length 24
  lemma PaddedAbc()
    ensures Pad(ABC) == ABC + [0x80] + Zeros(52) + [0, 0, 0, 0, 0, 0, 0, 0x18]
  {
    assert ZeroCount(3) == 52;
    hide LengthOctets, ZeroCount, Zeros;
    LengthOfAbc();
  }

  lemma WordsOfAbc(p: seq<bv8>)
    requires p == ABC + [0x80] + Zeros(52) + [0, 0, 0, 0, 0, 0, 0, 0x18]
    ensures |p| == 64 && Words(p) == [0x61626380, 0, 0, 0, 0, 0, 0, 0, 0, 0, 0, 0, 0, 0, 0, 0x18]
  {
    assert BeWord(0x61, 0x62, 0x63, 0x80) == 0x61626380 && BeWord(0, 0, 0, 0) == 0 && BeWord(0, 0, 0, 0x18) == 0x18;
    hide BeWord;
  }

  lemma RegistersOfAbc(w: seq<bv32>)
    requires w == [0x61626380, 0, 0, 0, 0, 0, 0, 0, 0, 0, 0, 0, 0, 0, 0, 0x18]
    ensures Registers(w, H0, 80) == H20
  {
    assert Registers(w, H0, 0) == H0;
    hide InRow, Registers;
    FirstRows(w);
    RowsFrom4(w);
    RowsFrom12(w);
    Round0(w);
    Round1(w);
    Round2(w);
    Round3(w);
  }

  lemma DigestOfAbc()
    ensures Sha1(ABC) == [0xa9, 0x99, 0x3e, 0x36, 0x47, 0x06, 0x81, 0x6a, 0xba, 0x3e,
                          0x25, 0x71, 0x78, 0x50, 0xc2, 0x6c, 0x9c, 0xd0, 0xd8, 0x9d]
  {
    hide InRow, Registers, Pad, Words;
    var p := Pad(ABC);
    PaddedAbc();
    WordsOfAbc(p);
    RegistersOfAbc(Words(p));
    HashOneMore(INITIAL, [], p);
    assert [] + p == p;
    assert AddHash(H0, H20) == Hash(0xa9993e36, 0x4706816a, 0xba3e2571, 0x7850c26c, 0x9cd0d89d);
  }
}
