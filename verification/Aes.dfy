// aes.c, the configured little-endian CISC branch: key expansion in both directions,
// the table-driven rounds and the block operations.
module Aes {
  import opened Gf256
  import opened AesColumns
  import opened AesSpec
  import opened AesTables

  // The sixteen octets of a state, column by column.
  function View(a: array<bv8>): Block
    requires a.Length == 16
    reads a
  {
    Block(Word(a[0], a[1], a[2], a[3]), Word(a[4], a[5], a[6], a[7]),
          Word(a[8], a[9], a[10], a[11]), Word(a[12], a[13], a[14], a[15]))
  }

  // The constant tables of the cipher.
  datatype TableSet = TableSet(sbox: seq<bv8>, invSbox: seq<bv8>, t0: seq<Word>, t1: seq<Word>, t2: seq<Word>, t3: seq<Word>,
                               u0: seq<Word>, u1: seq<Word>, u2: seq<Word>, u3: seq<Word>)

  // All tables as generated.
  ghost predicate Ready(tb: TableSet) {
    && Sboxes(tb.sbox, tb.invSbox, 256)
    && TTable(tb.t0, 0, 256) && TTable(tb.t1, 1, 256) && TTable(tb.t2, 2, 256) && TTable(tb.t3, 3, 256)
    && UTable(tb.u0, 0, 256) && UTable(tb.u1, 1, 256) && UTable(tb.u2, 2, 256) && UTable(tb.u3, 3, 256)
  }

  method ComputeAllTables() returns (tb: TableSet)
    ensures Ready(tb)
  {
    hide Sboxes, TTable, UTable;
    var t := new Tables();
    t.AesComputeTables();
    t.AesComputeInvTables();
    tb := TableSet(t.sbox[..], t.invSbox[..], t.t0[..], t.t1[..], t.t2[..], t.t3[..], t.u0[..], t.u1[..], t.u2[..], t.u3[..]);
  }

  // ---------------------------------------------------------------- table lookups

  function Sbox(tb: TableSet, x: bv8): (r: bv8)
    requires Ready(tb)
    ensures r == SubByte(x)
  {
    SboxLookup(tb.sbox, tb.invSbox, x);
    tb.sbox[x as int]
  }

  function InvSbox(tb: TableSet, x: bv8): (r: bv8)
    requires Ready(tb)
    ensures r == InvSubByte(x)
  {
    SboxLookup(tb.sbox, tb.invSbox, x);
    tb.invSbox[x as int]
  }

  // One lookup in each of the four tables gives a mixed column of substituted octets.
  method TColumn(tb: TableSet, a: bv8, b: bv8, c: bv8, d: bv8) returns (column: Word)
    requires Ready(tb)
    ensures column == MixColumn(SubWord(Word(a, b, c, d)))
  {
    hide SubByte, TTable, UTable, Sboxes, Circulant, XorWord;
    TLookup(tb.t0, 0, a);
    TLookup(tb.t1, 1, b);
    TLookup(tb.t2, 2, c);
    TLookup(tb.t3, 3, d);
    CirculantSplit(MIX, SubWord(Word(a, b, c, d)));
    column := XorWord(XorWord(XorWord(tb.t0[a as int], tb.t1[b as int]), tb.t2[c as int]), tb.t3[d as int]);
  }

  // The same with the tables of the inverse
  method UColumn(tb: TableSet, a: bv8, b: bv8, c: bv8, d: bv8) returns (column: Word)
    requires Ready(tb)
    ensures column == InvMixColumn(InvSubWord(Word(a, b, c, d)))
  {
    hide InvSubByte, TTable, UTable, Sboxes, Circulant, XorWord;
    ULookup(tb.u0, 0, a);
    ULookup(tb.u1, 1, b);
    ULookup(tb.u2, 2, c);
    ULookup(tb.u3, 3, d);
    CirculantSplit(INV_MIX, InvSubWord(Word(a, b, c, d)));
    column := XorWord(XorWord(XorWord(tb.u0[a as int], tb.u1[b as int]), tb.u2[c as int]), tb.u3[d as int]);
  }

  // A 32-bit store into one column.
  method StoreWord0(state: array<bv8>, w: Word)
    requires state.Length == 16
    modifies state
    ensures View(state) == old(View(state)).(w0 := w)
  {
    state[0], state[1], state[2], state[3] := w.b0, w.b1, w.b2, w.b3;
  }

  method StoreWord1(state: array<bv8>, w: Word)
    requires state.Length == 16
    modifies state
    ensures View(state) == old(View(state)).(w1 := w)
  {
    state[4], state[5], state[6], state[7] := w.b0, w.b1, w.b2, w.b3;
  }

  method StoreWord2(state: array<bv8>, w: Word)
    requires state.Length == 16
    modifies state
    ensures View(state) == old(View(state)).(w2 := w)
  {
    state[8], state[9], state[10], state[11] := w.b0, w.b1, w.b2, w.b3;
  }

  method StoreWord3(state: array<bv8>, w: Word)
    requires state.Length == 16
    modifies state
    ensures View(state) == old(View(state)).(w3 := w)
  {
    state[12], state[13], state[14], state[15] := w.b0, w.b1, w.b2, w.b3;
  }

  method StoreWords(state: array<bv8>, c0: Word, c1: Word, c2: Word, c3: Word)
    requires state.Length == 16
    modifies state
    ensures View(state) == Block(c0, c1, c2, c3)
  {
    hide View;
    StoreWord0(state, c0);
    StoreWord1(state, c1);
    StoreWord2(state, c2);
    StoreWord3(state, c3);
  }

  method V128XorEq(state: array<bv8>, k: Block)
    requires state.Length == 16
    modifies state
    ensures View(state) == AddRoundKey(old(View(state)), k)
  {
    hide Xor;
    var s := XorBlock(View(state), k);
    StoreWords(state, s.w0, s.w1, s.w2, s.w3);
  }

  // ----------------------------------------------------------------------- rounds

  method AesRound(state: array<bv8>, roundKey: Block, tb: TableSet)
    requires Ready(tb) && state.Length == 16
    modifies state
    ensures View(state) == CipherRound(old(View(state)), roundKey)
  {
    hide Ready, MixColumn, XorWord, SubByte;
    var column0 := TColumn(tb, state[0], state[5], state[10], state[15]);
    var column1 := TColumn(tb, state[4], state[9], state[14], state[3]);
    var column2 := TColumn(tb, state[8], state[13], state[2], state[7]);
    var column3 := TColumn(tb, state[12], state[1], state[6], state[11]);
    StoreWords(state, XorWord(column0, roundKey.w0), XorWord(column1, roundKey.w1),
               XorWord(column2, roundKey.w2), XorWord(column3, roundKey.w3));
  }

  method AesInvRound(state: array<bv8>, roundKey: Block, tb: TableSet)
    requires Ready(tb) && state.Length == 16
    modifies state
    ensures View(state) == EqInvRound(old(View(state)), roundKey)
  {
    hide Ready, InvMixColumn, XorWord, InvSubByte;
    var column0 := UColumn(tb, state[0], state[13], state[10], state[7]);
    var column1 := UColumn(tb, state[4], state[1], state[14], state[11]);
    var column2 := UColumn(tb, state[8], state[5], state[2], state[15]);
    var column3 := UColumn(tb, state[12], state[9], state[6], state[3]);
    StoreWords(state, XorWord(column0, roundKey.w0), XorWord(column1, roundKey.w1),
               XorWord(column2, roundKey.w2), XorWord(column3, roundKey.w3));
  }

  function SetRow(s: Block, r: nat, a: bv8, b: bv8, c: bv8, d: bv8): Block
    requires r < 4
  {
    match r
    case 0 => Block(s.w0.(b0 := a), s.w1.(b0 := b), s.w2.(b0 := c), s.w3.(b0 := d))
    case 1 => Block(s.w0.(b1 := a), s.w1.(b1 := b), s.w2.(b1 := c), s.w3.(b1 := d))
    case 2 => Block(s.w0.(b2 := a), s.w1.(b2 := b), s.w2.(b2 := c), s.w3.(b2 := d))
    case _ => Block(s.w0.(b3 := a), s.w1.(b3 := b), s.w2.(b3 := c), s.w3.(b3 := d))
  }

  // Row 0 stays in place: its four octets are substituted.
  method FirstRow(state: array<bv8>, tb: TableSet)
    requires Ready(tb) && state.Length == 16
    modifies state
    ensures var s := old(View(state));
            View(state) == SetRow(s, 0, SubByte(s.w0.b0), SubByte(s.w1.b0), SubByte(s.w2.b0), SubByte(s.w3.b0))
  {
    hide SubByte, Ready, Sbox;
    state[0] := Sbox(tb, state[0]);
    state[4] := Sbox(tb, state[4]);
    state[8] := Sbox(tb, state[8]);
    state[12] := Sbox(tb, state[12]);
  }

  // Row 1 is substituted while it moves around by one column, through one temporary.
  method SecondRow(state: array<bv8>, tb: TableSet)
    requires Ready(tb) && state.Length == 16
    modifies state
    ensures var s := old(View(state));
            View(state) == SetRow(s, 1, SubByte(s.w1.b1), SubByte(s.w2.b1), SubByte(s.w3.b1), SubByte(s.w0.b1))
  {
    hide SubByte, Ready, Sbox;
    var tmp := Sbox(tb, state[1]);
    state[1] := Sbox(tb, state[5]);
    state[5] := Sbox(tb, state[9]);
    state[9] := Sbox(tb, state[13]);
    state[13] := tmp;
  }

  // Row 2 is substituted while its columns change places in two pairs.
  method ThirdRow(state: array<bv8>, tb: TableSet)
    requires Ready(tb) && state.Length == 16
    modifies state
    ensures var s := old(View(state));
            View(state) == SetRow(s, 2, SubByte(s.w2.b2), SubByte(s.w3.b2), SubByte(s.w0.b2), SubByte(s.w1.b2))
  {
    hide SubByte, Ready, Sbox;
    var tmp := Sbox(tb, state[10]);
    state[10] := Sbox(tb, state[2]);
    state[2] := tmp;
    tmp := Sbox(tb, state[14]);
    state[14] := Sbox(tb, state[6]);
    state[6] := tmp;
  }

  // Row 3 is substituted while it moves around by three columns.
  method FourthRow(state: array<bv8>, tb: TableSet)
    requires Ready(tb) && state.Length == 16
    modifies state
    ensures var s := old(View(state));
            View(state) == SetRow(s, 3, SubByte(s.w3.b3), SubByte(s.w0.b3), SubByte(s.w1.b3), SubByte(s.w2.b3))
  {
    hide SubByte, Ready, Sbox;
    var tmp := Sbox(tb, state[15]);
    state[15] := Sbox(tb, state[11]);
    state[11] := Sbox(tb, state[7]);
    state[7] := Sbox(tb, state[3]);
    state[3] := tmp;
  }

  method AesFinalRound(state: array<bv8>, roundKey: Block, tb: TableSet)
    requires Ready(tb) && state.Length == 16
    modifies state
    ensures View(state) == FinalRound(old(View(state)), roundKey)
  {
    hide SubByte, XorWord, Ready, View;
    FirstRow(state, tb);
    SecondRow(state, tb);
    ThirdRow(state, tb);
    FourthRow(state, tb);
    V128XorEq(state, roundKey);
  }

  // The same four rows with the inverse substitution, moving the other way
  method InvFirstRow(state: array<bv8>, tb: TableSet)
    requires Ready(tb) && state.Length == 16
    modifies state
    ensures var s := old(View(state));
            View(state) == SetRow(s, 0, InvSubByte(s.w0.b0), InvSubByte(s.w1.b0), InvSubByte(s.w2.b0), InvSubByte(s.w3.b0))
  {
    hide InvSubByte, Ready, InvSbox;
    state[0] := InvSbox(tb, state[0]);
    state[4] := InvSbox(tb, state[4]);
    state[8] := InvSbox(tb, state[8]);
    state[12] := InvSbox(tb, state[12]);
  }

  method InvSecondRow(state: array<bv8>, tb: TableSet)
    requires Ready(tb) && state.Length == 16
    modifies state
    ensures var s := old(View(state));
            View(state) == SetRow(s, 1, InvSubByte(s.w3.b1), InvSubByte(s.w0.b1), InvSubByte(s.w1.b1), InvSubByte(s.w2.b1))
  {
    hide InvSubByte, Ready, InvSbox;
    var tmp := InvSbox(tb, state[13]);
    state[13] := InvSbox(tb, state[9]);
    state[9] := InvSbox(tb, state[5]);
    state[5] := InvSbox(tb, state[1]);
    state[1] := tmp;
  }

  method InvThirdRow(state: array<bv8>, tb: TableSet)
    requires Ready(tb) && state.Length == 16
    modifies state
    ensures var s := old(View(state));
            View(state) == SetRow(s, 2, InvSubByte(s.w2.b2), InvSubByte(s.w3.b2), InvSubByte(s.w0.b2), InvSubByte(s.w1.b2))
  {
    hide InvSubByte, Ready, InvSbox;
    var tmp := InvSbox(tb, state[2]);
    state[2] := InvSbox(tb, state[10]);
    state[10] := tmp;
    tmp := InvSbox(tb, state[6]);
    state[6] := InvSbox(tb, state[14]);
    state[14] := tmp;
  }

  method InvFourthRow(state: array<bv8>, tb: TableSet)
    requires Ready(tb) && state.Length == 16
    modifies state
    ensures var s := old(View(state));
            View(state) == SetRow(s, 3, InvSubByte(s.w1.b3), InvSubByte(s.w2.b3), InvSubByte(s.w3.b3), InvSubByte(s.w0.b3))
  {
    hide InvSubByte, Ready, InvSbox;
    var tmp := InvSbox(tb, state[3]);
    state[3] := InvSbox(tb, state[7]);
    state[7] := InvSbox(tb, state[11]);
    state[11] := InvSbox(tb, state[15]);
    state[15] := tmp;
  }

  method AesInvFinalRound(state: array<bv8>, roundKey: Block, tb: TableSet)
    requires Ready(tb) && state.Length == 16
    modifies state
    ensures View(state) == EqInvFinalRound(old(View(state)), roundKey)
  {
    hide InvSubByte, XorWord, Ready, View;
    InvFirstRow(state, tb);
    InvSecondRow(state, tb);
    InvThirdRow(state, tb);
    InvFourthRow(state, tb);
    V128XorEq(state, roundKey);
  }

  // ---------------------------------------------------------------- key expansion

  // The round keys below n are in place.
  ghost predicate Expanded(keys: seq<Block>, key: Block, n: nat) {
    n <= |keys| && forall r: nat | r < n :: keys[r] == RoundKey(key, r)
  }

  lemma KeyWordRule(key: Block, i: nat)
    requires i >= 4
    ensures var temp := KeyWord(key, i - 1);
            KeyWord(key, i) == XorWord(KeyWord(key, i - 4), if i % 4 == 0 then XorWord(SubWord(RotWord(temp)), Rcon(i / 4)) else temp)
  {
    hide SubWord, RoundConstant, XorWord;
  }

  // The first word: substituted, rotated, and the constant added in its first octet.
  lemma FirstWord(t: Word, rc: bv8, p: Word)
    ensures XorWord(p, XorWord(SubWord(RotWord(t)), Word(rc, 0, 0, 0)))
         == XorWord(Word(Xor(SubByte(t.b1), rc), SubByte(t.b2), SubByte(t.b3), SubByte(t.b0)), p)
  {
    hide SubByte, Xor;
    XorLaws(SubByte(t.b2), 0, 0);
    XorLaws(SubByte(t.b3), 0, 0);
    XorLaws(SubByte(t.b0), 0, 0);
    XorWordComm(p, XorWord(SubWord(RotWord(t)), Word(rc, 0, 0, 0)));
  }

  // One round key from the one before.
  lemma NextRoundKey(key: Block, r: nat, rc: bv8, k: Block)
    requires r > 0 && rc == RoundConstant(r)
    requires var p := RoundKey(key, r - 1);
             && k.w0 == XorWord(Word(Xor(SubByte(p.w3.b1), rc), SubByte(p.w3.b2), SubByte(p.w3.b3), SubByte(p.w3.b0)), p.w0)
             && k.w1 == XorWord(k.w0, p.w1) && k.w2 == XorWord(k.w1, p.w2) && k.w3 == XorWord(k.w2, p.w3)
    ensures k == RoundKey(key, r)
  {
    hide KeyWord, SubByte, SubWord, RoundConstant, Xor, XorWord;
    var p := RoundKey(key, r - 1);
    var i := 4 * r;
    FirstWord(p.w3, rc, p.w0);
    KeyWordRule(key, i);
    KeyWordRule(key, i + 1);
    XorWordComm(p.w1, k.w0);
    KeyWordRule(key, i + 2);
    XorWordComm(p.w2, k.w1);
    KeyWordRule(key, i + 3);
    XorWordComm(p.w3, k.w2);
  }

  lemma XorWordComm(u: Word, v: Word)
    ensures XorWord(u, v) == XorWord(v, u)
  {
    hide Xor;
    XorLaws(u.b0, v.b0, 0);
    XorLaws(u.b1, v.b1, 0);
    XorLaws(u.b2, v.b2, 0);
    XorLaws(u.b3, v.b3, 0);
  }

  lemma NextConstant(r: nat)
    requires r > 0
    ensures Shift(RoundConstant(r)) == RoundConstant(r + 1)
  {
    hide Mul, Shift;
    SmallProducts(RoundConstant(r));
    MulComm(2, RoundConstant(r));
  }

  method AesExpandEncryptionKey(key: Block, expandedKey: array<Block>, tb: TableSet)
    requires Ready(tb) && expandedKey.Length == 11
    modifies expandedKey
    ensures Expanded(expandedKey[..], key, 11)
  {
    hide SubByte, RoundKey, Xor, Ready, Sbox, Mul, Shift, RoundConstant;
    var rc: bv8 := 1;
    assert RoundConstant(1) == 1 by { FirstConstant(); }
    assert RoundKey(key, 0) == key by { FirstRoundKey(key); }
    expandedKey[0] := key;
    for i: nat := 1 to 11
      invariant rc == RoundConstant(i)
      invariant Expanded(expandedKey[..], key, i)
    {
      var p := expandedKey[i - 1];
      expandedKey[i] := expandedKey[i].(
        w0 := Word(Xor(Sbox(tb, p.w3.b1), rc), Sbox(tb, p.w3.b2), Sbox(tb, p.w3.b3), Sbox(tb, p.w3.b0)));
      expandedKey[i] := expandedKey[i].(w0 := XorWord(expandedKey[i].w0, p.w0));
      expandedKey[i] := expandedKey[i].(w1 := XorWord(expandedKey[i].w0, p.w1));
      expandedKey[i] := expandedKey[i].(w2 := XorWord(expandedKey[i].w1, p.w2));
      expandedKey[i] := expandedKey[i].(w3 := XorWord(expandedKey[i].w2, p.w3));
      NextRoundKey(key, i, rc, expandedKey[i]);
      NextConstant(i);
      rc := Shift(rc);
    }
  }

  lemma FirstConstant()
    ensures RoundConstant(1) == 1
  {
  }

  lemma FirstRoundKey(key: Block)
    ensures RoundKey(key, 0) == key
  {
  }

  // What the decryption schedule is after the first n middle keys are mixed.
  ghost function ReversedKey(key: Block, n: nat, r: nat): Block
    requires r <= 10
  {
    if 1 <= r < n then DecryptionKey(key, r) else RoundKey(key, 10 - r)
  }

  ghost predicate ExpandedInv(keys: seq<Block>, key: Block) {
    |keys| == 11 && forall r: nat {:trigger DecryptionKey(key, r)} | r < 11 :: keys[r] == DecryptionKey(key, r)
  }

  // InvMixColumns of a column by way of U, the substitution box cancelling the one in U.
  method MixKeyColumn(w: Word, tb: TableSet) returns (c: Word)
    requires Ready(tb)
    ensures c == InvMixColumn(w)
  {
    hide SubByte, InvSubByte, InvMixColumn, Sbox;
    SubByteInverts(w.b0);
    SubByteInverts(w.b1);
    SubByteInverts(w.b2);
    SubByteInverts(w.b3);
    c := UColumn(tb, Sbox(tb, w.b0), Sbox(tb, w.b1), Sbox(tb, w.b2), Sbox(tb, w.b3));
  }

  method AesExpandDecryptionKey(key: Block, expandedKey: array<Block>, tb: TableSet)
    requires Ready(tb) && expandedKey.Length == 11
    modifies expandedKey
    ensures ExpandedInv(expandedKey[..], key)
  {
    hide RoundKey, InvMixColumn, Ready;
    AesExpandEncryptionKey(key, expandedKey, tb);
    for i: nat := 0 to 5
      invariant forall r: nat | r < 11 :: expandedKey[r] == RoundKey(key, if r < i || r > 10 - i then 10 - r else r)
    {
      var tmp := expandedKey[10 - i];
      expandedKey[10 - i] := expandedKey[i];
      expandedKey[i] := tmp;
    }
    // Round keys 1 to 9 now go through InvMixColumns.
    for i: nat := 1 to 10
      invariant forall r: nat | r < 11 :: expandedKey[r] == ReversedKey(key, i, r)
    {
      var c0 := MixKeyColumn(expandedKey[i].w0, tb);
      var c1 := MixKeyColumn(expandedKey[i].w1, tb);
      var c2 := MixKeyColumn(expandedKey[i].w2, tb);
      var c3 := MixKeyColumn(expandedKey[i].w3, tb);
      expandedKey[i] := Block(c0, c1, c2, c3);
    }
  }

  // --------------------------------------------------------------- whole blocks

  method AesEncrypt(plaintext: array<bv8>, expKey: seq<Block>, tb: TableSet, ghost key: Block)
    requires Ready(tb) && plaintext.Length == 16 && |expKey| == 11 && Expanded(expKey, key, 11)
    modifies plaintext
    ensures View(plaintext) == Cipher(key, old(View(plaintext)))
  {
    hide CipherRound, FinalRound, RoundKey, AddRoundKey, View, Ready;
    ghost var x := View(plaintext);
    V128XorEq(plaintext, expKey[0]);
    assert View(plaintext) == AfterRounds(key, x, 0);
    AesRound(plaintext, expKey[1], tb);
    assert View(plaintext) == AfterRounds(key, x, 1);
    AesRound(plaintext, expKey[2], tb);
    assert View(plaintext) == AfterRounds(key, x, 2);
    AesRound(plaintext, expKey[3], tb);
    assert View(plaintext) == AfterRounds(key, x, 3);
    AesRound(plaintext, expKey[4], tb);
    assert View(plaintext) == AfterRounds(key, x, 4);
    AesRound(plaintext, expKey[5], tb);
    assert View(plaintext) == AfterRounds(key, x, 5);
    AesRound(plaintext, expKey[6], tb);
    assert View(plaintext) == AfterRounds(key, x, 6);
    AesRound(plaintext, expKey[7], tb);
    assert View(plaintext) == AfterRounds(key, x, 7);
    AesRound(plaintext, expKey[8], tb);
    assert View(plaintext) == AfterRounds(key, x, 8);
    AesRound(plaintext, expKey[9], tb);
    assert View(plaintext) == AfterRounds(key, x, 9);
    AesFinalRound(plaintext, expKey[10], tb);
  }

  method AesDecrypt(plaintext: array<bv8>, expKey: seq<Block>, tb: TableSet, ghost key: Block)
    requires Ready(tb) && plaintext.Length == 16 && ExpandedInv(expKey, key)
    modifies plaintext
    ensures View(plaintext) == EqInvCipher(key, old(View(plaintext)))
    ensures View(plaintext) == InvCipher(key, old(View(plaintext)))
  {
    hide EqInvRound, EqInvFinalRound, DecryptionKey, AddRoundKey, View, Ready, InvCipher;
    ghost var x := View(plaintext);
    assert expKey[0] == DecryptionKey(key, 0) && expKey[1] == DecryptionKey(key, 1) && expKey[2] == DecryptionKey(key, 2);
    assert expKey[3] == DecryptionKey(key, 3) && expKey[4] == DecryptionKey(key, 4) && expKey[5] == DecryptionKey(key, 5);
    assert expKey[6] == DecryptionKey(key, 6) && expKey[7] == DecryptionKey(key, 7) && expKey[8] == DecryptionKey(key, 8);
    assert expKey[9] == DecryptionKey(key, 9) && expKey[10] == DecryptionKey(key, 10);
    V128XorEq(plaintext, expKey[0]);
    assert View(plaintext) == AfterEqInvRounds(key, x, 0);
    AesInvRound(plaintext, expKey[1], tb);
    assert View(plaintext) == AfterEqInvRounds(key, x, 1);
    AesInvRound(plaintext, expKey[2], tb);
    assert View(plaintext) == AfterEqInvRounds(key, x, 2);
    AesInvRound(plaintext, expKey[3], tb);
    assert View(plaintext) == AfterEqInvRounds(key, x, 3);
    AesInvRound(plaintext, expKey[4], tb);
    assert View(plaintext) == AfterEqInvRounds(key, x, 4);
    AesInvRound(plaintext, expKey[5], tb);
    assert View(plaintext) == AfterEqInvRounds(key, x, 5);
    AesInvRound(plaintext, expKey[6], tb);
    assert View(plaintext) == AfterEqInvRounds(key, x, 6);
    AesInvRound(plaintext, expKey[7], tb);
    assert View(plaintext) == AfterEqInvRounds(key, x, 7);
    AesInvRound(plaintext, expKey[8], tb);
    assert View(plaintext) == AfterEqInvRounds(key, x, 8);
    AesInvRound(plaintext, expKey[9], tb);
    assert View(plaintext) == AfterEqInvRounds(key, x, 9);
    AesInvFinalRound(plaintext, expKey[10], tb);
    EqInvCipherIsInvCipher(key, x);
  }
}
