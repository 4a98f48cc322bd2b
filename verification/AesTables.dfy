// The table generator of aes_tables.c: every table entry is a column of the AES
// specification.
module AesTables {
  import opened Gf256
  import opened OctetNumbers
  import opened AesColumns

  // -------------------------------------------------------- A_times_x_plus_b

  const AFFINE_COLUMNS: seq<bv8> := [31, 62, 124, 248, 241, 227, 199, 143]
  const AFFINE_CONSTANT: bv8 := 99

  const MASKS: seq<nat> := [1, 2, 4, 8, 16, 32, 64, 128, 256]

  // The constant plus the first n columns that x selects.
  function AffineSum(x: bv8, n: nat): bv8
    requires n <= 8
  {
    if n == 0 then AFFINE_CONSTANT
    else Xor(AffineSum(x, n - 1), Masked(x, MASKS[n - 1] as bv8, AFFINE_COLUMNS[n - 1]))
  }

  lemma AffineBits(x: bv8, c0: bv8, c1: bv8, c2: bv8, c3: bv8, c4: bv8, c5: bv8, c6: bv8, c7: bv8)
    requires c0 == Masked(x, 1, 31) && c1 == Masked(x, 2, 62) && c2 == Masked(x, 4, 124) && c3 == Masked(x, 8, 248)
    requires c4 == Masked(x, 16, 241) && c5 == Masked(x, 32, 227) && c6 == Masked(x, 64, 199) && c7 == Masked(x, 128, 143)
    ensures Xor(Xor(Xor(Xor(Xor(Xor(Xor(Xor(99, c0), c1), c2), c3), c4), c5), c6), c7)
         == x ^ ((x << 1) | (x >> 7)) ^ ((x << 2) | (x >> 6)) ^ ((x << 3) | (x >> 5)) ^ ((x << 4) | (x >> 4)) ^ 0x63
  {
  }

  lemma AffineSumStep(x: bv8, n: nat, mask: bv8, column: bv8)
    requires 0 < n <= 8 && mask == MASKS[n - 1] as bv8 && column == AFFINE_COLUMNS[n - 1]
    ensures AffineSum(x, n) == Xor(AffineSum(x, n - 1), Masked(x, mask, column))
  {
  }

  // The columns are those of the affine transformation.
  lemma AffineSumIsAffine(x: bv8)
    ensures AffineSum(x, 8) == Affine(x)
  {
    AffineExpanded(x);
    hide Affine, Masked, Xor, AffineSum;
    assert AffineSum(x, 0) == 99 by { FirstSum(x); }
    AffineSumStep(x, 1, 1, 31);
    AffineSumStep(x, 2, 2, 62);
    AffineSumStep(x, 3, 4, 124);
    AffineSumStep(x, 4, 8, 248);
    AffineSumStep(x, 5, 16, 241);
    AffineSumStep(x, 6, 32, 227);
    AffineSumStep(x, 7, 64, 199);
    AffineSumStep(x, 8, 128, 143);
    AffineBits(x, Masked(x, 1, 31), Masked(x, 2, 62), Masked(x, 4, 124), Masked(x, 8, 248),
               Masked(x, 16, 241), Masked(x, 32, 227), Masked(x, 64, 199), Masked(x, 128, 143));
  }

  lemma FirstSum(x: bv8)
    ensures AffineSum(x, 0) == 99
  {
  }

  method ATimesXPlusB(x: bv8) returns (b: bv8)
    ensures b == Affine(x)
  {
    hide Affine, Masked, Xor, AffineSum;
    b := AFFINE_CONSTANT;
    FirstSum(x);
    var index, mask := 0, 1;
    while mask < 256
      invariant index <= 8 && mask == MASKS[index] && b == AffineSum(x, index)
      decreases 8 - index
    {
      AffineSumStep(x, index + 1, mask as bv8, AFFINE_COLUMNS[index]);
      b := XorMasked(b, AFFINE_COLUMNS[index], x, mask as bv8);
      index := index + 1;
      mask := mask * 2;
    }
    AffineSumIsAffine(x);
  }

  // ------------------------------------------------ what the tables have to hold

  // A column with one octet in row r
  function Single(r: nat, s: bv8): Word
    requires r < 4
  {
    match r
    case 0 => Word(s, 0, 0, 0)
    case 1 => Word(0, s, 0, 0)
    case 2 => Word(0, 0, s, 0)
    case _ => Word(0, 0, 0, s)
  }

  // T_r: MixColumns of the substituted octet in row r.
  ghost function TValue(r: nat, x: bv8): Word
    requires r < 4
  {
    MixColumn(Single(r, SubByte(x)))
  }

  // U_r: InvMixColumns of the inversely substituted octet in row r.
  ghost function UValue(r: nat, x: bv8): Word
    requires r < 4
  {
    UColumn(r, InvSubByte(x))
  }

  function UColumn(r: nat, x: bv8): Word
    requires r < 4
  {
    InvMixColumn(Single(r, x))
  }

  ghost predicate TEntry(t: seq<Word>, r: nat, i: nat)
    requires r < 4
  {
    i < |t| && i < 256 && t[i] == TValue(r, i as bv8)
  }

  ghost predicate UEntry(t: seq<Word>, r: nat, i: nat)
    requires r < 4
  {
    i < |t| && i < 256 && t[i] == UValue(r, i as bv8)
  }

  // The first n entries of a table are right.
  ghost predicate TTable(t: seq<Word>, r: nat, n: nat)
    requires r < 4
  {
    |t| == 256 && forall i: nat {:trigger TEntry(t, r, i)} | i < n :: TEntry(t, r, i)
  }

  ghost predicate UTable(t: seq<Word>, r: nat, n: nat)
    requires r < 4
  {
    |t| == 256 && forall i: nat {:trigger UEntry(t, r, i)} | i < n :: UEntry(t, r, i)
  }

  ghost predicate SboxEntry(sbox: seq<bv8>, inv: seq<bv8>, i: nat) {
    i < |sbox| && i < 256 && |inv| == 256
    && sbox[i] == SubByte(i as bv8) && inv[SubByte(i as bv8) as int] == i as bv8
  }

  ghost predicate Sboxes(sbox: seq<bv8>, inv: seq<bv8>, n: nat) {
    |sbox| == 256 && |inv| == 256
    && forall i: nat {:trigger SboxEntry(sbox, inv, i)} | i < n :: SboxEntry(sbox, inv, i)
  }

  lemma EmptyTables(a: seq<Word>, b: seq<Word>, c: seq<Word>, d: seq<Word>)
    requires |a| == |b| == |c| == |d| == 256
    ensures TTable(a, 0, 0) && TTable(b, 1, 0) && TTable(c, 2, 0) && TTable(d, 3, 0)
    ensures UTable(a, 0, 0) && UTable(b, 1, 0) && UTable(c, 2, 0) && UTable(d, 3, 0)
  {
  }

  lemma TMore(t: seq<Word>, r: nat, n: nat, v: Word)
    requires r < 4 && n < 256 && TTable(t, r, n) && v == TValue(r, n as bv8)
    ensures TTable(t[n := v], r, n + 1)
  {
    hide TValue;
    forall i: nat {:trigger TEntry(t[n := v], r, i)} | i < n + 1
      ensures TEntry(t[n := v], r, i)
    {
      if i < n {
        assert TEntry(t, r, i);
      }
    }
  }

  lemma UMore(t: seq<Word>, r: nat, n: nat, v: Word)
    requires r < 4 && n < 256 && UTable(t, r, n) && v == UValue(r, n as bv8)
    ensures UTable(t[n := v], r, n + 1)
  {
    hide UValue;
    forall i: nat {:trigger UEntry(t[n := v], r, i)} | i < n + 1
      ensures UEntry(t[n := v], r, i)
    {
      if i < n {
        assert UEntry(t, r, i);
      }
    }
  }

  lemma OctetsDiffer(i: nat, j: nat)
    requires i < 256 && j < 256 && i != j
    ensures SubByte(i as bv8) as int != SubByte(j as bv8) as int
  {
    hide SubByte, InvSubByte;
    NumberRoundTrip(i);
    NumberRoundTrip(j);
    SubByteInverts(i as bv8);
    SubByteInverts(j as bv8);
    OctetRoundTrip(SubByte(i as bv8));
    OctetRoundTrip(SubByte(j as bv8));
  }

  lemma SboxesMore(sbox: seq<bv8>, inv: seq<bv8>, n: nat, x: bv8)
    requires n < 256 && Sboxes(sbox, inv, n) && x == SubByte(n as bv8)
    ensures 0 <= x as int < 256
    ensures Sboxes(sbox[n := x], inv[x as int := n as bv8], n + 1)
  {
    hide SubByte;
    OctetRoundTrip(x);
    var sbox', inv' := sbox[n := x], inv[x as int := n as bv8];
    forall i: nat {:trigger SboxEntry(sbox', inv', i)} | i < n + 1
      ensures SboxEntry(sbox', inv', i)
    {
      if i < n {
        assert SboxEntry(sbox, inv, i);
        OctetsDiffer(i, n);
      }
    }
  }

  // Looking an octet up in a complete table.
  lemma SboxLookup(sbox: seq<bv8>, inv: seq<bv8>, x: bv8)
    requires Sboxes(sbox, inv, 256)
    ensures 0 <= x as int < 256 == |sbox| == |inv|
    ensures sbox[x as int] == SubByte(x) && inv[x as int] == InvSubByte(x)
  {
    hide SubByte, InvSubByte;
    OctetRoundTrip(x);
    assert SboxEntry(sbox, inv, x as int);
    var y := InvSubByte(x);
    SubByteInverts(x);
    OctetRoundTrip(y);
    assert SboxEntry(sbox, inv, y as int);
  }

  lemma TLookup(t: seq<Word>, r: nat, x: bv8)
    requires r < 4 && TTable(t, r, 256)
    ensures 0 <= x as int < 256 == |t| && t[x as int] == TValue(r, x)
  {
    hide TValue;
    OctetRoundTrip(x);
    assert TEntry(t, r, x as int);
  }

  lemma ULookup(t: seq<Word>, r: nat, x: bv8)
    requires r < 4 && UTable(t, r, 256)
    ensures 0 <= x as int < 256 == |t| && t[x as int] == UValue(r, x)
  {
    hide UValue;
    OctetRoundTrip(x);
    assert UEntry(t, r, x as int);
  }

  // ------------------------------------------------------------------ generation

  // x1, x2 and x3 are 32 bits wide; storing them into an octet drops the rest.
  method Multiples(s: bv8) returns (o1: bv8, o2: bv8, o3: bv8)
    ensures o1 == Mul(1, s) && o2 == Mul(2, s) && o3 == Mul(3, s)
  {
    hide Mul, Xor, Shift;
    var x1 := s as bv32;
    var x2 := if x1 & 128 != 0 then (x1 << 1) ^ 0x1B else x1 << 1;
    var x3 := x2 ^ x1;
    o1, o2, o3 := (x1 & 0xff) as bv8, (x2 & 0xff) as bv8, (x3 & 0xff) as bv8;
    Truncated(s, x1, x2);
    SmallProducts(s);
    MulComm(1, s);
    MulComm(2, s);
    MulComm(3, s);
  }

  lemma Truncated(s: bv8, x1: bv32, x2: bv32)
    requires x1 == s as bv32
    requires x2 == if x1 & 128 != 0 then (x1 << 1) ^ 0x1B else x1 << 1
    ensures (x1 & 0xff) as bv8 == s && (x2 & 0xff) as bv8 == Shift(s) && ((x2 ^ x1) & 0xff) as bv8 == Xor(s, Shift(s))
  {
    if x1 & 128 != 0 {
    } else {
    }
  }

  lemma UColumnsAre(x: bv8)
    ensures UColumn(0, x) == Circulant(INV_MIX, Word(x, 0, 0, 0))
    ensures UColumn(1, x) == Circulant(INV_MIX, Word(0, x, 0, 0))
    ensures UColumn(2, x) == Circulant(INV_MIX, Word(0, 0, x, 0))
    ensures UColumn(3, x) == Circulant(INV_MIX, Word(0, 0, 0, x))
  {
    hide Circulant;
  }

  class Tables {
    const sbox: array<bv8>
    const invSbox: array<bv8>
    const t0: array<Word>
    const t1: array<Word>
    const t2: array<Word>
    const t3: array<Word>
    const u0: array<Word>
    const u1: array<Word>
    const u2: array<Word>
    const u3: array<Word>

    // The tables are arrays of their own.
    ghost predicate Valid() {
      && sbox.Length == invSbox.Length == 256 && sbox != invSbox
      && t0.Length == t1.Length == t2.Length == t3.Length == 256
      && u0.Length == u1.Length == u2.Length == u3.Length == 256
      && t0 != t1 && t0 != t2 && t0 != t3 && t1 != t2 && t1 != t3 && t2 != t3
      && u0 != u1 && u0 != u2 && u0 != u3 && u1 != u2 && u1 != u3 && u2 != u3
      && {t0, t1, t2, t3} !! {u0, u1, u2, u3}
      && (var octets: set<object> := {sbox, invSbox}; octets !! {t0, t1, t2, t3, u0, u1, u2, u3})
    }

    ghost predicate SboxesReady()
      reads sbox, invSbox
    {
      Sboxes(sbox[..], invSbox[..], 256)
    }

    ghost predicate TReady(n: nat)
      reads t0, t1, t2, t3
    {
      TTable(t0[..], 0, n) && TTable(t1[..], 1, n) && TTable(t2[..], 2, n) && TTable(t3[..], 3, n)
    }

    ghost predicate UReady(n: nat)
      reads u0, u1, u2, u3
    {
      UTable(u0[..], 0, n) && UTable(u1[..], 1, n) && UTable(u2[..], 2, n) && UTable(u3[..], 3, n)
    }

    constructor ()
      ensures Valid()
      ensures fresh(sbox) && fresh(invSbox) && fresh(t0) && fresh(t1) && fresh(t2) && fresh(t3)
      ensures fresh(u0) && fresh(u1) && fresh(u2) && fresh(u3)
    {
      sbox, invSbox := new bv8[256], new bv8[256];
      t0, t1, t2, t3 := new Word[256], new Word[256], new Word[256], new Word[256];
      u0, u1, u2, u3 := new Word[256], new Word[256], new Word[256], new Word[256];
    }

    method AesInitSbox()
      requires Valid()
      modifies sbox, invSbox
      ensures SboxesReady()
    {
      hide SubByte, Affine, Inverse, SboxEntry;
      for i: nat := 0 to 256
        invariant Sboxes(sbox[..], invSbox[..], i)
      {
        var x := Gf28ComputeInverse(i as bv8);
        x := ATimesXPlusB(x);
        SubByteIs(i as bv8);
        ghost var before, before' := sbox[..], invSbox[..];
        SboxesMore(before, before', i, x);
        sbox[i] := x;
        invSbox[x as int] := i as bv8;
        assert sbox[..] == before[i := x];
        assert invSbox[..] == before'[x as int := i as bv8];
      }
    }

    lemma SubByteIs(x: bv8)
      ensures SubByte(x) == Affine(Inverse(x))
    {
    }

    method AesComputeTables()
      requires Valid()
      modifies sbox, invSbox, t0, t1, t2, t3
      ensures SboxesReady() && TReady(256)
    {
      hide SubByte, Sboxes, TTable, Mul, Circulant;
      AesInitSbox();
      EmptyTables(t0[..], t1[..], t2[..], t3[..]);
      ghost var s, v := sbox[..], invSbox[..];
      for i: nat := 0 to 256
        invariant sbox[..] == s && invSbox[..] == v && TReady(i)
      {
        SboxLookup(s, v, i as bv8);
        NumberRoundTrip(i);
        var x1, x2, x3 := Multiples(sbox[i]);
        CirculantSingle(MIX, sbox[i]);
        ghost var a0, a1, a2, a3 := t0[..], t1[..], t2[..], t3[..];
        t0[i] := Word(x2, x1, x1, x3);
        t1[i] := Word(x3, x2, x1, x1);
        t2[i] := Word(x1, x3, x2, x1);
        t3[i] := Word(x1, x1, x3, x2);
        TMore(a0, 0, i, t0[i]);
        TMore(a1, 1, i, t1[i]);
        TMore(a2, 2, i, t2[i]);
        TMore(a3, 3, i, t3[i]);
        assert t0[..] == a0[i := t0[i]] && t1[..] == a1[i := t1[i]];
        assert t2[..] == a2[i := t2[i]] && t3[..] == a3[i := t3[i]];
      }
    }

    method AesComputeInvTables()
      requires Valid() && SboxesReady()
      modifies u0, u1, u2, u3
      ensures UReady(256)
    {
      hide SubByte, InvSubByte, Sboxes, UTable, Mul, Circulant, IsRemainder, CarryLess, UColumn;
      EmptyTables(u0[..], u1[..], u2[..], u3[..]);
      ghost var s, v := sbox[..], invSbox[..];
      for i: nat := 0 to 256
        invariant sbox[..] == s && invSbox[..] == v && UReady(i)
      {
        SboxLookup(s, v, i as bv8);
        NumberRoundTrip(i);
        var x := invSbox[i];
        var xe := Gf28Multiply(0x0e, x);
        var x9 := Gf28Multiply(0x09, x);
        var xd := Gf28Multiply(0x0d, x);
        var xb := Gf28Multiply(0x0b, x);
        UColumnsAre(x);
        CirculantSingle(INV_MIX, x);
        ghost var a0, a1, a2, a3 := u0[..], u1[..], u2[..], u3[..];
        u0[i] := Word(xe, x9, xd, xb);
        u1[i] := Word(xb, xe, x9, xd);
        u2[i] := Word(xd, xb, xe, x9);
        u3[i] := Word(x9, xd, xb, xe);
        UMore(a0, 0, i, u0[i]);
        UMore(a1, 1, i, u1[i]);
        UMore(a2, 2, i, u2[i]);
        UMore(a3, 3, i, u3[i]);
        assert u0[..] == a0[i := u0[i]] && u1[..] == a1[i := u1[i]];
        assert u2[..] == a2[i := u2[i]] && u3[..] == a3[i := u3[i]];
      }
    }
  }
}
