// The worked example of FIPS 197, appendices A.1 and B: one key with its round keys, and one
// block with its state after every round.
module AesExample {
  import opened Gf256
  import opened AesColumns
  import opened AesSpec

  const INPUT: bv128 := 0x3243f6a8_885a308d_313198a2_e0370734
  const OUTPUT: bv128 := 0x3925841d_02dc09fb_dc118597_196a0b32

  // The round keys
  const K0: bv128 := 0x2b7e1516_28aed2a6_abf71588_09cf4f3c
  const K1: bv128 := 0xa0fafe17_88542cb1_23a33939_2a6c7605
  const K2: bv128 := 0xf2c295f2_7a96b943_5935807a_7359f67f
  const K3: bv128 := 0x3d80477d_4716fe3e_1e237e44_6d7a883b
  const K4: bv128 := 0xef44a541_a8525b7f_b671253b_db0bad00
  const K5: bv128 := 0xd4d1c6f8_7c839d87_caf2b8bc_11f915bc
  const K6: bv128 := 0x6d88a37a_110b3efd_dbf98641_ca0093fd
  const K7: bv128 := 0x4e54f70e_5f5fc9f3_84a64fb2_4ea6dc4f
  const K8: bv128 := 0xead27321_b58dbad2_312bf560_7f8d292f
  const K9: bv128 := 0xac7766f3_19fadc21_28d12941_575c006e
  const K10: bv128 := 0xd014f9a8_c9ee2589_e13f0cc8_b6630ca6

  // The state after each full round
  const S0: bv128 := 0x193de3be_a0f4e22b_9ac68d2a_e9f84808
  const S1: bv128 := 0xa49c7ff2_689f352b_6b5bea43_026a5049
  const S2: bv128 := 0xaa8f5f03_61dde3ef_82d24ad2_6832469a
  const S3: bv128 := 0x486c4eee_671d9d0d_4de3b138_d65f58e7
  const S4: bv128 := 0xe0927fe8_c86363c0_d9b13550_85b8be01
  const S5: bv128 := 0xf1006f55_c1924cef_7cc88b32_5db5d50c
  const S6: bv128 := 0x260e2e17_3d41b77d_e86472a9_fdd28b25
  const S7: bv128 := 0x5a4142b1_1949dc1f_a3e01965_7a8c040c
  const S8: bv128 := 0xea835cf0_0445332d_655d98ad_8596b0c5
  const S9: bv128 := 0xeb40f21e_592e3884_8ba113e7_1bc342d2

  // The inverses in the field of the octets of these states
  const I0: bv128 := 0x3fbbeb86_fb68d615_9fe40298_4edda7e8
  const I1: bv128 := 0x8ff98238_f49a3915_dff0d767_8d91ed64
  const I2: bv128 := 0x12a417f6_5ef8ebb3_7faeabae_f492f59f
  const I3: bv128 := 0xa733e91e_4340dce1_25ebe0f2_e21718ad
  const I4: bv128 := 0xb1328208_a9d3d30b_8be039ed_73a58601
  const I5: bv128 := 0x23003b24_283254b3_a1a9d992_ec75dbb0
  const I6: bv128 := 0xa8e5a25f_bbfe71fa_084997c8_1aaed94d
  const I7: bv128 := 0x22fe37e0_3f649db2_c3b13fa6_d0f7cbb0
  const I8: bv128 := 0xd780515b_cb316c44_a6ec2ae7_73840cd4
  const I9: bv128 := 0xe31d38ee_3ea2f296_d97c4bad_cca337ae

  // The inverses of the octets of the last word of each round key
  const J0: bv32 := 0x4fe60977
  const J1: bv32 := 0x9833ba52
  const J2: bv32 := 0x853e0382
  const J3: bv32 := 0x93d09b6f
  const J4: bv32 := 0xd5c0e700
  const J5: bv32 := 0xb49c2bbd
  const J6: bv32 := 0x53006d1a
  const J7: bv32 := 0xe9659d09
  const J8: bv32 := 0x82020ac2
  const J9: bv32 := 0xbf510021

  // Sixteen octets, the first one highest
  function FromHex(x: bv128): Block {
    Block(WordFrom((x >> 96) as bv32), WordFrom(((x >> 64) & 0xffff_ffff) as bv32),
          WordFrom(((x >> 32) & 0xffff_ffff) as bv32), WordFrom((x & 0xffff_ffff) as bv32))
  }

  function WordFrom(x: bv32): Word {
    Word((x >> 24) as bv8, ((x >> 16) & 0xff) as bv8, ((x >> 8) & 0xff) as bv8, (x & 0xff) as bv8)
  }

  // ------------------------------------------------------------------- SubBytes

  // Shift, Masked and Mul without a case distinction
  function Double(z: bv8): bv8 {
    var b := z >> 7;
    (z << 1) ^ (b << 4) ^ (b << 3) ^ (b << 1) ^ b
  }

  function Pick(b: bv8, x: bv8): bv8 { (0 - (b & 1)) & x }

  function Xor8(a: bv8, b: bv8, c: bv8, d: bv8, e: bv8, f: bv8, g: bv8, h: bv8): bv8 {
    a ^ b ^ c ^ d ^ e ^ f ^ g ^ h
  }

  function Product8(x0: bv8, y: bv8): bv8 {
    var x1 := Double(x0);
    var x2 := Double(x1);
    var x3 := Double(x2);
    var x4 := Double(x3);
    var x5 := Double(x4);
    var x6 := Double(x5);
    var x7 := Double(x6);
    Xor8(Pick(y, x0), Pick(y >> 1, x1), Pick(y >> 2, x2), Pick(y >> 3, x3),
         Pick(y >> 4, x4), Pick(y >> 5, x5), Pick(y >> 6, x6), Pick(y >> 7, x7))
  }

  predicate Inverts(x: bv8, i: bv8) { if x == 0 then i == 0 else Product8(x, i) == 1 }

  lemma DoubleIs(z: bv8)
    ensures Shift(z) == Double(z)
  {
    ShiftLinear(z);
  }

  lemma PickIs(y: bv8, mask: bv8, b: bv8, x: bv8)
    requires y & mask != 0 <==> b & 1 != 0
    ensures Masked(y, mask, x) == Pick(b, x)
  {
    assert b & 1 == 0 || b & 1 == 1;
  }

  lemma Bits(y: bv8)
    ensures (y & 2 != 0 <==> (y >> 1) & 1 != 0) && (y & 4 != 0 <==> (y >> 2) & 1 != 0) && (y & 8 != 0 <==> (y >> 3) & 1 != 0)
    ensures (y & 16 != 0 <==> (y >> 4) & 1 != 0) && (y & 32 != 0 <==> (y >> 5) & 1 != 0) && (y & 64 != 0 <==> (y >> 6) & 1 != 0)
    ensures y & 128 != 0 <==> (y >> 7) & 1 != 0
  {
  }

  lemma PicksAre(y: bv8, x: bv8)
    ensures Masked(y, 1, x) == Pick(y, x) && Masked(y, 2, x) == Pick(y >> 1, x)
    ensures Masked(y, 4, x) == Pick(y >> 2, x) && Masked(y, 8, x) == Pick(y >> 3, x)
    ensures Masked(y, 16, x) == Pick(y >> 4, x) && Masked(y, 32, x) == Pick(y >> 5, x)
    ensures Masked(y, 64, x) == Pick(y >> 6, x) && Masked(y, 128, x) == Pick(y >> 7, x)
  {
    hide Masked, Pick;
    Bits(y);
    PickIs(y, 1, y, x);
    PickIs(y, 2, y >> 1, x);
    PickIs(y, 4, y >> 2, x);
    PickIs(y, 8, y >> 3, x);
    PickIs(y, 16, y >> 4, x);
    PickIs(y, 32, y >> 5, x);
    PickIs(y, 64, y >> 6, x);
    PickIs(y, 128, y >> 7, x);
  }

  lemma SumIs(a: bv8, b: bv8, c: bv8, d: bv8, e: bv8, f: bv8, g: bv8, h: bv8)
    ensures Sum8(a, b, c, d, e, f, g, h) == Xor8(a, b, c, d, e, f, g, h)
  {
  }

  lemma Product8Is(x: bv8, y: bv8)
    ensures Mul(x, y) == Product8(x, y)
  {
    hide Shift, Double, Pick, Masked, Sum8, Mul, Xor8;
    var x1 := Double(x);
    var x2 := Double(x1);
    var x3 := Double(x2);
    var x4 := Double(x3);
    var x5 := Double(x4);
    var x6 := Double(x5);
    var x7 := Double(x6);
    DoubleIs(x);
    DoubleIs(x1);
    DoubleIs(x2);
    DoubleIs(x3);
    DoubleIs(x4);
    DoubleIs(x5);
    DoubleIs(x6);
    ProductExpanded(x, x1, x2, x3, x4, x5, x6, x7, y);
    PicksAre(y, x);
    PicksAre(y, x1);
    PicksAre(y, x2);
    PicksAre(y, x3);
    PicksAre(y, x4);
    PicksAre(y, x5);
    PicksAre(y, x6);
    PicksAre(y, x7);
    SumIs(Pick(y, x), Pick(y >> 1, x1), Pick(y >> 2, x2), Pick(y >> 3, x3),
          Pick(y >> 4, x4), Pick(y >> 5, x5), Pick(y >> 6, x6), Pick(y >> 7, x7));
  }

  lemma SubByteIs(x: bv8, i: bv8)
    requires Inverts(x, i)
    ensures SubByte(x) == Affine(i)
  {
    hide Mul, Affine, Product8;
    if x != 0 {
      Product8Is(x, i);
      MulComm(x, i);
      InverseUnique(x, Inverse(x), i);
    }
  }

  predicate WordInverts(w: Word, i: Word) {
    Inverts(w.b0, i.b0) && Inverts(w.b1, i.b1) && Inverts(w.b2, i.b2) && Inverts(w.b3, i.b3)
  }

  predicate BlockInverts(s: Block, i: Block) {
    WordInverts(s.w0, i.w0) && WordInverts(s.w1, i.w1) && WordInverts(s.w2, i.w2) && WordInverts(s.w3, i.w3)
  }

  function AffineWord(i: Word): Word { Word(Affine(i.b0), Affine(i.b1), Affine(i.b2), Affine(i.b3)) }

  function AffineBlock(i: Block): Block {
    Block(AffineWord(i.w0), AffineWord(i.w1), AffineWord(i.w2), AffineWord(i.w3))
  }

  lemma SubWordIs(w: Word, i: Word)
    requires WordInverts(w, i)
    ensures SubWord(w) == AffineWord(i)
  {
    hide Inverts, SubByte, Affine;
    SubByteIs(w.b0, i.b0);
    SubByteIs(w.b1, i.b1);
    SubByteIs(w.b2, i.b2);
    SubByteIs(w.b3, i.b3);
  }

  lemma SubBytesIs(s: Block, i: Block)
    requires BlockInverts(s, i)
    ensures SubBytes(s) == AffineBlock(i)
  {
    hide WordInverts, SubWord, AffineWord;
    SubWordIs(s.w0, i.w0);
    SubWordIs(s.w1, i.w1);
    SubWordIs(s.w2, i.w2);
    SubWordIs(s.w3, i.w3);
  }

  // ----------------------------------------------------------------- MixColumns

  // a0 times 2, a1 times 3, a2 and a3
  function MixRow(a0: bv8, a1: bv8, a2: bv8, a3: bv8): bv8 { Double(a0) ^ a1 ^ Double(a1) ^ a2 ^ a3 }

  function MixWord(w: Word): Word {
    Word(MixRow(w.b0, w.b1, w.b2, w.b3), MixRow(w.b1, w.b2, w.b3, w.b0),
         MixRow(w.b2, w.b3, w.b0, w.b1), MixRow(w.b3, w.b0, w.b1, w.b2))
  }

  function MixBlock(s: Block): Block { Block(MixWord(s.w0), MixWord(s.w1), MixWord(s.w2), MixWord(s.w3)) }

  lemma TimesSmall(x: bv8)
    ensures Mul(1, x) == x && Mul(2, x) == Double(x) && Mul(3, x) == Xor(x, Double(x))
  {
    hide Mul, Shift, Xor, Double;
    SmallProducts(x);
    DoubleIs(x);
    MulComm(1, x);
    MulComm(2, x);
    MulComm(3, x);
  }

  lemma MixRowIs(a0: bv8, a1: bv8, a2: bv8, a3: bv8)
    ensures MixRow(a0, a1, a2, a3) == Xor4(Double(a0), Xor(a1, Double(a1)), a2, a3)
  {
    hide Double;
  }

  lemma MixWordIs(w: Word)
    ensures MixColumn(w) == MixWord(w)
  {
    hide Mul, Double, Xor, Xor4, MixRow;
    TimesSmall(w.b0);
    TimesSmall(w.b1);
    TimesSmall(w.b2);
    TimesSmall(w.b3);
    MixRowIs(w.b0, w.b1, w.b2, w.b3);
    MixRowIs(w.b1, w.b2, w.b3, w.b0);
    MixRowIs(w.b2, w.b3, w.b0, w.b1);
    MixRowIs(w.b3, w.b0, w.b1, w.b2);
    Xor4Rotates(w.b0, Double(w.b1), Xor(w.b2, Double(w.b2)), w.b3);
    Xor4Rotates(w.b0, w.b1, Double(w.b2), Xor(w.b3, Double(w.b3)));
    Xor4Rotates(Xor(w.b0, Double(w.b0)), w.b1, w.b2, Double(w.b3));
  }

  lemma MixBlockIs(s: Block)
    ensures MixColumns(s) == MixBlock(s)
  {
    hide MixColumn, MixWord;
    MixWordIs(s.w0);
    MixWordIs(s.w1);
    MixWordIs(s.w2);
    MixWordIs(s.w3);
  }

  // -------------------------------------------------------------- the key schedule

  // The next round key, from the constant of its round and the octets inverted
  function NextKey(k: Block, i: Word, c: bv8): Block {
    var w0 := XorWord(k.w0, XorWord(AffineWord(RotWord(i)), Word(c, 0, 0, 0)));
    var w1 := XorWord(k.w1, w0);
    var w2 := XorWord(k.w2, w1);
    Block(w0, w1, w2, XorWord(k.w3, w2))
  }

  predicate KeyRight(k: bv128, i: bv32, c: bv8, next: bv128) {
    WordInverts(FromHex(k).w3, WordFrom(i)) && NextKey(FromHex(k), WordFrom(i), c) == FromHex(next)
  }

  lemma KeysFrom0()
    ensures KeyRight(K0, J0, 0x01, K1) && KeyRight(K1, J1, 0x02, K2) && KeyRight(K2, J2, 0x04, K3)
  {
  }

  lemma KeysFrom3()
    ensures KeyRight(K3, J3, 0x08, K4) && KeyRight(K4, J4, 0x10, K5) && KeyRight(K5, J5, 0x20, K6)
  {
  }

  lemma KeysFrom6()
    ensures KeyRight(K6, J6, 0x40, K7) && KeyRight(K7, J7, 0x80, K8) && KeyRight(K8, J8, 0x1b, K9) && KeyRight(K9, J9, 0x36, K10)
  {
  }

  lemma RoundConstants()
    ensures RoundConstant(1) == 0x01 && RoundConstant(2) == 0x02 && RoundConstant(3) == 0x04 && RoundConstant(4) == 0x08
    ensures RoundConstant(5) == 0x10 && RoundConstant(6) == 0x20 && RoundConstant(7) == 0x40 && RoundConstant(8) == 0x80
    ensures RoundConstant(9) == 0x1b && RoundConstant(10) == 0x36
  {
  }

  // Round key r of the example
  ghost predicate HasKey(r: nat, k: bv128) { RoundKey(FromHex(K0), r) == FromHex(k) }

  lemma NextKeyIs(r: nat, k: bv128, i: bv32, c: bv8, next: bv128)
    requires HasKey(r, k) && RoundConstant(r + 1) == c
    requires KeyRight(k, i, c, next)
    ensures HasKey(r + 1, next)
  {
    hide WordInverts, AffineWord, SubWord, XorWord, FromHex, WordFrom, KeyWord, RotWord;
    var key := FromHex(K0);
    KeyStep(key, 4 * r + 4);
    KeyStep(key, 4 * r + 5);
    KeyStep(key, 4 * r + 6);
    KeyStep(key, 4 * r + 7);
    SubRotated(FromHex(k).w3, WordFrom(i));
  }

  lemma SubRotated(w: Word, i: Word)
    requires WordInverts(w, i)
    ensures SubWord(RotWord(w)) == AffineWord(RotWord(i))
  {
    hide Inverts, AffineWord, SubWord;
    SubWordIs(RotWord(w), RotWord(i));
  }

  lemma KeyStep(key: Block, i: nat)
    requires i >= 4
    ensures var temp := KeyWord(key, i - 1);
            KeyWord(key, i) == XorWord(KeyWord(key, i - 4), if i % 4 == 0 then XorWord(SubWord(RotWord(temp)), Rcon(i / 4)) else temp)
  {
    hide SubWord, XorWord, RotWord, Rcon;
  }

  // The round keys of appendix A.1
  lemma RoundKeys()
    ensures HasKey(0, K0) && HasKey(1, K1) && HasKey(2, K2) && HasKey(3, K3) && HasKey(4, K4) && HasKey(5, K5)
    ensures HasKey(6, K6) && HasKey(7, K7) && HasKey(8, K8) && HasKey(9, K9) && HasKey(10, K10)
  {
    RoundConstants();
    FirstKey();
    KeysFrom0();
    KeysFrom3();
    KeysFrom6();
    hide HasKey, RoundConstant, KeyRight;
    NextKeyIs(0, K0, J0, 0x01, K1);
    NextKeyIs(1, K1, J1, 0x02, K2);
    NextKeyIs(2, K2, J2, 0x04, K3);
    NextKeyIs(3, K3, J3, 0x08, K4);
    NextKeyIs(4, K4, J4, 0x10, K5);
    NextKeyIs(5, K5, J5, 0x20, K6);
    NextKeyIs(6, K6, J6, 0x40, K7);
    NextKeyIs(7, K7, J7, 0x80, K8);
    NextKeyIs(8, K8, J8, 0x1b, K9);
    NextKeyIs(9, K9, J9, 0x36, K10);
  }

  lemma FirstKey()
    ensures HasKey(0, K0)
  {
    hide FromHex;
  }

  // -------------------------------------------------------------------- the rounds

  ghost predicate Goes(s: bv128, k: bv128, t: bv128) { CipherRound(FromHex(s), FromHex(k)) == FromHex(t) }

  lemma RoundGoes(s: bv128, i: bv128, k: bv128, t: bv128)
    requires BlockInverts(FromHex(s), FromHex(i))
    requires AddRoundKey(MixBlock(ShiftRows(AffineBlock(FromHex(i)))), FromHex(k)) == FromHex(t)
    ensures Goes(s, k, t)
  {
    hide FromHex, BlockInverts, MixBlock, MixColumns, AffineBlock, SubBytes, ShiftRows, AddRoundKey;
    SubBytesIs(FromHex(s), FromHex(i));
    MixBlockIs(ShiftRows(AffineBlock(FromHex(i))));
  }

  lemma Round1()
    ensures Goes(S0, K1, S1)
  {
    hide Goes;
    RoundGoes(S0, I0, K1, S1);
  }

  lemma Round2()
    ensures Goes(S1, K2, S2)
  {
    hide Goes;
    RoundGoes(S1, I1, K2, S2);
  }

  lemma Round3()
    ensures Goes(S2, K3, S3)
  {
    hide Goes;
    RoundGoes(S2, I2, K3, S3);
  }

  lemma Round4()
    ensures Goes(S3, K4, S4)
  {
    hide Goes;
    RoundGoes(S3, I3, K4, S4);
  }

  lemma Round5()
    ensures Goes(S4, K5, S5)
  {
    hide Goes;
    RoundGoes(S4, I4, K5, S5);
  }

  lemma Round6()
    ensures Goes(S5, K6, S6)
  {
    hide Goes;
    RoundGoes(S5, I5, K6, S6);
  }

  lemma Round7()
    ensures Goes(S6, K7, S7)
  {
    hide Goes;
    RoundGoes(S6, I6, K7, S7);
  }

  lemma Round8()
    ensures Goes(S7, K8, S8)
  {
    hide Goes;
    RoundGoes(S7, I7, K8, S8);
  }

  lemma Round9()
    ensures Goes(S8, K9, S9)
  {
    hide Goes;
    RoundGoes(S8, I8, K9, S9);
  }

  // The state after r full rounds of the example
  ghost predicate HasState(r: nat, s: bv128) { AfterRounds(FromHex(K0), FromHex(INPUT), r) == FromHex(s) }

  lemma NextState(r: nat, s: bv128, k: bv128, t: bv128)
    requires HasState(r, s) && HasKey(r + 1, k) && Goes(s, k, t)
    ensures HasState(r + 1, t)
  {
    hide FromHex, CipherRound, RoundKey;
  }

  lemma FirstState()
    requires HasKey(0, K0)
    ensures HasState(0, S0)
  {
    hide RoundKey;
  }

  lemma States()
    ensures HasState(9, S9)
  {
    hide HasKey, HasState, Goes;
    RoundKeys();
    FirstState();
    Round1();
    NextState(0, S0, K1, S1);
    Round2();
    NextState(1, S1, K2, S2);
    Round3();
    NextState(2, S2, K3, S3);
    Round4();
    NextState(3, S3, K4, S4);
    Round5();
    NextState(4, S4, K5, S5);
    Round6();
    NextState(5, S5, K6, S6);
    Round7();
    NextState(6, S6, K7, S7);
    Round8();
    NextState(7, S7, K8, S8);
    Round9();
    NextState(8, S8, K9, S9);
  }

  lemma FinalIs(s: bv128, i: bv128, k: bv128, t: bv128)
    requires HasState(9, s) && HasKey(10, k) && BlockInverts(FromHex(s), FromHex(i))
    requires AddRoundKey(ShiftRows(AffineBlock(FromHex(i))), FromHex(k)) == FromHex(t)
    ensures Cipher(FromHex(K0), FromHex(INPUT)) == FromHex(t)
  {
    hide FromHex, BlockInverts, AffineBlock, SubBytes, ShiftRows, AddRoundKey, AfterRounds, RoundKey;
    SubBytesIs(FromHex(s), FromHex(i));
  }

  // The block of appendix B, there and back
  lemma CipherExample()
    ensures Cipher(FromHex(K0), FromHex(INPUT)) == FromHex(OUTPUT)
    ensures EqInvCipher(FromHex(K0), FromHex(OUTPUT)) == FromHex(INPUT)
  {
    hide HasKey, HasState, Cipher, EqInvCipher;
    RoundKeys();
    States();
    FinalIs(S9, I9, K10, OUTPUT);
    EqInvCipherInverts(FromHex(K0), FromHex(INPUT));
  }
}
