// The AES-128 cipher, its key schedule, its inverse and its equivalent inverse
// (section 5 of FIPS 197), and the proof that decryption undoes encryption.
module AesSpec {
  import opened Gf256
  import opened AesColumns

  // v128_t: four columns of four octets
  datatype Block = Block(w0: Word, w1: Word, w2: Word, w3: Word)

  function XorBlock(a: Block, b: Block): Block {
    Block(XorWord(a.w0, b.w0), XorWord(a.w1, b.w1), XorWord(a.w2, b.w2), XorWord(a.w3, b.w3))
  }

  ghost function SubWord(w: Word): Word {
    Word(SubByte(w.b0), SubByte(w.b1), SubByte(w.b2), SubByte(w.b3))
  }

  ghost function InvSubWord(w: Word): Word {
    Word(InvSubByte(w.b0), InvSubByte(w.b1), InvSubByte(w.b2), InvSubByte(w.b3))
  }

  ghost function SubBytes(s: Block): Block { Block(SubWord(s.w0), SubWord(s.w1), SubWord(s.w2), SubWord(s.w3)) }

  ghost function InvSubBytes(s: Block): Block {
    Block(InvSubWord(s.w0), InvSubWord(s.w1), InvSubWord(s.w2), InvSubWord(s.w3))
  }

  // row r moves left by r columns
  function ShiftRows(s: Block): Block {
    Block(Word(s.w0.b0, s.w1.b1, s.w2.b2, s.w3.b3), Word(s.w1.b0, s.w2.b1, s.w3.b2, s.w0.b3),
          Word(s.w2.b0, s.w3.b1, s.w0.b2, s.w1.b3), Word(s.w3.b0, s.w0.b1, s.w1.b2, s.w2.b3))
  }

  // row r moves right by r columns
  function InvShiftRows(s: Block): Block {
    Block(Word(s.w0.b0, s.w3.b1, s.w2.b2, s.w1.b3), Word(s.w1.b0, s.w0.b1, s.w3.b2, s.w2.b3),
          Word(s.w2.b0, s.w1.b1, s.w0.b2, s.w3.b3), Word(s.w3.b0, s.w2.b1, s.w1.b2, s.w0.b3))
  }

  function MixColumns(s: Block): Block { Block(MixColumn(s.w0), MixColumn(s.w1), MixColumn(s.w2), MixColumn(s.w3)) }

  function InvMixColumns(s: Block): Block {
    Block(InvMixColumn(s.w0), InvMixColumn(s.w1), InvMixColumn(s.w2), InvMixColumn(s.w3))
  }

  function AddRoundKey(s: Block, k: Block): Block { XorBlock(s, k) }

  // -------------------------------------------------- key expansion, section 5.2

  function RotWord(w: Word): Word { Word(w.b1, w.b2, w.b3, w.b0) }

  // x to the power j - 1 in the field, in the first octet
  function RoundConstant(j: nat): bv8 {
    if j <= 1 then 1 else Mul(2, RoundConstant(j - 1))
  }

  function Rcon(j: nat): Word { Word(RoundConstant(j), 0, 0, 0) }

  ghost function KeyWord(key: Block, i: nat): Word {
    match i
    case 0 => key.w0
    case 1 => key.w1
    case 2 => key.w2
    case 3 => key.w3
    case _ =>
      var temp := KeyWord(key, i - 1);
      XorWord(KeyWord(key, i - 4), if i % 4 == 0 then XorWord(SubWord(RotWord(temp)), Rcon(i / 4)) else temp)
  }

  ghost function RoundKey(key: Block, r: nat): Block {
    Block(KeyWord(key, 4 * r), KeyWord(key, 4 * r + 1), KeyWord(key, 4 * r + 2), KeyWord(key, 4 * r + 3))
  }

  // ------------------------------------------------------- the cipher, section 5.1

  ghost function CipherRound(s: Block, k: Block): Block {
    AddRoundKey(MixColumns(ShiftRows(SubBytes(s))), k)
  }

  ghost function FinalRound(s: Block, k: Block): Block {
    AddRoundKey(ShiftRows(SubBytes(s)), k)
  }

  // The state after r full rounds.
  ghost function AfterRounds(key: Block, input: Block, r: nat): Block {
    if r == 0 then AddRoundKey(input, RoundKey(key, 0))
    else CipherRound(AfterRounds(key, input, r - 1), RoundKey(key, r))
  }

  ghost function Cipher(key: Block, input: Block): Block {
    FinalRound(AfterRounds(key, input, 9), RoundKey(key, 10))
  }

  // ----------------------------------------------- the inverse cipher, section 5.3

  // The state before rounds 9, ..., 10 - r are undone in full.
  ghost function AfterInvRounds(key: Block, output: Block, r: nat): Block
    requires r <= 9
  {
    if r == 0 then AddRoundKey(output, RoundKey(key, 10))
    else InvMixColumns(AddRoundKey(InvSubBytes(InvShiftRows(AfterInvRounds(key, output, r - 1))), RoundKey(key, 10 - r)))
  }

  ghost function InvCipher(key: Block, output: Block): Block {
    AddRoundKey(InvSubBytes(InvShiftRows(AfterInvRounds(key, output, 9))), RoundKey(key, 0))
  }

  // ------------------------------------ the equivalent inverse cipher, section 5.3.5

  // The key schedule in reverse, mixed inversely except at the ends.
  ghost function DecryptionKey(key: Block, r: nat): Block
    requires r <= 10
  {
    if r == 0 || r == 10 then RoundKey(key, 10 - r) else InvMixColumns(RoundKey(key, 10 - r))
  }

  ghost function EqInvRound(s: Block, k: Block): Block {
    AddRoundKey(InvMixColumns(InvShiftRows(InvSubBytes(s))), k)
  }

  ghost function EqInvFinalRound(s: Block, k: Block): Block {
    AddRoundKey(InvShiftRows(InvSubBytes(s)), k)
  }

  ghost function AfterEqInvRounds(key: Block, output: Block, r: nat): Block
    requires r <= 9
  {
    if r == 0 then AddRoundKey(output, DecryptionKey(key, 0))
    else EqInvRound(AfterEqInvRounds(key, output, r - 1), DecryptionKey(key, r))
  }

  ghost function EqInvCipher(key: Block, output: Block): Block {
    EqInvFinalRound(AfterEqInvRounds(key, output, 9), DecryptionKey(key, 10))
  }

  // ------------------------------------------------------- laws of the round steps

  lemma XorWordCancels(u: Word, v: Word)
    ensures XorWord(XorWord(u, v), v) == u
  {
    hide Xor;
    XorLaws(u.b0, v.b0, v.b0);
    XorLaws(u.b1, v.b1, v.b1);
    XorLaws(u.b2, v.b2, v.b2);
    XorLaws(u.b3, v.b3, v.b3);
    XorLaws(v.b0, 0, 0);
    XorLaws(v.b1, 0, 0);
    XorLaws(v.b2, 0, 0);
    XorLaws(v.b3, 0, 0);
  }

  lemma AddRoundKeyTwice(s: Block, k: Block)
    ensures AddRoundKey(AddRoundKey(s, k), k) == s
  {
    hide XorWord;
    XorWordCancels(s.w0, k.w0);
    XorWordCancels(s.w1, k.w1);
    XorWordCancels(s.w2, k.w2);
    XorWordCancels(s.w3, k.w3);
  }

  lemma InvMixColumnsXor(s: Block, k: Block)
    ensures InvMixColumns(AddRoundKey(s, k)) == AddRoundKey(InvMixColumns(s), InvMixColumns(k))
  {
    hide XorWord, Circulant;
    CirculantXor(INV_MIX, s.w0, k.w0);
    CirculantXor(INV_MIX, s.w1, k.w1);
    CirculantXor(INV_MIX, s.w2, k.w2);
    CirculantXor(INV_MIX, s.w3, k.w3);
  }

  lemma InvMixColumnsInverts(s: Block)
    ensures InvMixColumns(MixColumns(s)) == s
  {
    hide MixColumn, InvMixColumn;
    MixInverts(s.w0);
    MixInverts(s.w1);
    MixInverts(s.w2);
    MixInverts(s.w3);
  }

  lemma SubWordInverts(w: Word)
    ensures InvSubWord(SubWord(w)) == w
  {
    hide SubByte, InvSubByte;
    SubByteInverts(w.b0);
    SubByteInverts(w.b1);
    SubByteInverts(w.b2);
    SubByteInverts(w.b3);
  }

  lemma SubShiftInverts(s: Block)
    ensures InvShiftRows(InvSubBytes(ShiftRows(SubBytes(s)))) == s
  {
    hide SubWord, InvSubWord, SubByte, InvSubByte;
    SubWordInverts(s.w0);
    SubWordInverts(s.w1);
    SubWordInverts(s.w2);
    SubWordInverts(s.w3);
    InvStepsCommute(ShiftRows(SubBytes(s)));
  }

  // InvSubBytes works octet by octet, so it commutes with moving octets.
  lemma InvStepsCommute(s: Block)
    ensures InvShiftRows(InvSubBytes(s)) == InvSubBytes(InvShiftRows(s))
  {
    hide InvSubByte;
  }

  // -------------------------------------------------- decryption undoes encryption

  lemma {:induction false} RoundsUndone(key: Block, input: Block, r: nat)
    requires r <= 9
    ensures AfterEqInvRounds(key, Cipher(key, input), r) == ShiftRows(SubBytes(AfterRounds(key, input, 9 - r)))
  {
    hide RoundKey, SubBytes, InvSubBytes, ShiftRows, InvShiftRows, MixColumns, InvMixColumns, AddRoundKey;
    var s := AfterRounds(key, input, 9 - r);
    if r == 0 {
      AddRoundKeyTwice(ShiftRows(SubBytes(s)), RoundKey(key, 10));
    } else {
      RoundsUndone(key, input, r - 1);
      var t := AfterRounds(key, input, 10 - r);
      SubShiftInverts(t);
      var k, mixed := RoundKey(key, 10 - r), MixColumns(ShiftRows(SubBytes(s)));
      assert t == AddRoundKey(mixed, k);
      InvMixColumnsXor(mixed, k);
      AddRoundKeyTwice(InvMixColumns(mixed), InvMixColumns(k));
      InvMixColumnsInverts(ShiftRows(SubBytes(s)));
    }
  }

  lemma EqInvCipherInverts(key: Block, input: Block)
    ensures EqInvCipher(key, Cipher(key, input)) == input
  {
    hide RoundKey, SubBytes, InvSubBytes, ShiftRows, InvShiftRows, AddRoundKey, Cipher;
    RoundsUndone(key, input, 9);
    var s := AfterRounds(key, input, 0);
    SubShiftInverts(s);
    AddRoundKeyTwice(input, RoundKey(key, 0));
  }

  // The equivalent inverse cipher is the inverse cipher, on every block.
  lemma {:induction false} EqInvRoundsAgree(key: Block, output: Block, r: nat)
    requires r <= 9
    ensures AfterEqInvRounds(key, output, r) == AfterInvRounds(key, output, r)
  {
    hide RoundKey, InvSubBytes, InvShiftRows, InvMixColumns, AddRoundKey;
    if r > 0 {
      EqInvRoundsAgree(key, output, r - 1);
      var s := AfterInvRounds(key, output, r - 1);
      InvStepsCommute(s);
      InvMixColumnsXor(InvSubBytes(InvShiftRows(s)), RoundKey(key, 10 - r));
    }
  }

  lemma EqInvCipherIsInvCipher(key: Block, output: Block)
    ensures EqInvCipher(key, output) == InvCipher(key, output)
  {
    hide RoundKey, InvSubBytes, InvShiftRows, AddRoundKey;
    EqInvRoundsAgree(key, output, 9);
    InvStepsCommute(AfterInvRounds(key, output, 9));
  }

  // ------------------------------------------------ where octets go, and the key

  // The octet at row r, column c
  function At(s: Block, r: nat, c: nat): bv8
    requires r < 4 && c < 4
  {
    var w := match c case 0 => s.w0 case 1 => s.w1 case 2 => s.w2 case _ => s.w3;
    match r case 0 => w.b0 case 1 => w.b1 case 2 => w.b2 case _ => w.b3
  }

  lemma ShiftRowsAt(s: Block, r: nat, c: nat)
    requires r < 4 && c < 4
    ensures At(ShiftRows(s), r, c) == At(s, r, (c + r) % 4)
    ensures At(InvShiftRows(s), r, (c + r) % 4) == At(s, r, c)
  {
  }

  // Before the first round, every octet of the block is combined with one of the key.
  lemma StartAt(key: Block, input: Block, r: nat, c: nat)
    requires r < 4 && c < 4
    ensures At(AfterRounds(key, input, 0), r, c) == At(input, r, c) ^ At(key, r, c)
  {
    hide SubWord, RotWord, Rcon;
    assert RoundKey(key, 0) == key;
  }

  lemma XorWordKeeps(u: Word, v: Word, w: Word)
    requires XorWord(u, v) == XorWord(u, w)
    ensures v == w
  {
    hide Xor;
    XorKeeps(u.b0, v.b0, w.b0);
    XorKeeps(u.b1, v.b1, w.b1);
    XorKeeps(u.b2, v.b2, w.b2);
    XorKeeps(u.b3, v.b3, w.b3);
  }

  lemma XorKeeps(a: bv8, b: bv8, c: bv8)
    requires Xor(a, b) == Xor(a, c)
    ensures b == c
  {
    assert a ^ (a ^ b) == b && a ^ (a ^ c) == c;
  }

  // Every round key decides its round: different ones leave different states behind.
  lemma KeysDecide(s: Block, k: Block, l: Block)
    requires CipherRound(s, k) == CipherRound(s, l) || FinalRound(s, k) == FinalRound(s, l)
    ensures k == l
  {
    hide XorWord, SubBytes, ShiftRows, MixColumns;
    var t := if CipherRound(s, k) == CipherRound(s, l) then MixColumns(ShiftRows(SubBytes(s))) else ShiftRows(SubBytes(s));
    XorWordKeeps(t.w0, k.w0, l.w0);
    XorWordKeeps(t.w1, k.w1, l.w1);
    XorWordKeeps(t.w2, k.w2, l.w2);
    XorWordKeeps(t.w3, k.w3, l.w3);
  }

  // Two keys that give one state before the first round are one key.
  lemma KeyDecidesStart(k: Block, l: Block, input: Block)
    requires AfterRounds(k, input, 0) == AfterRounds(l, input, 0)
    ensures k == l
  {
    hide XorWord, SubWord, RotWord, Rcon;
    assert RoundKey(k, 0) == k && RoundKey(l, 0) == l;
    XorWordKeeps(input.w0, k.w0, l.w0);
    XorWordKeeps(input.w1, k.w1, l.w1);
    XorWordKeeps(input.w2, k.w2, l.w2);
    XorWordKeeps(input.w3, k.w3, l.w3);
  }
}
