// The byte and column transformations of AES (sections 4.3, 5.1.1, 5.1.3, 5.3.2 and
// 5.3.3 of FIPS 197): the specification that the tables of the cipher are held to.
module AesColumns {
  import opened Gf256

  // v32_t, as its four octets
  datatype Word = Word(b0: bv8, b1: bv8, b2: bv8, b3: bv8)

  function XorWord(u: Word, v: Word): Word {
    Word(Xor(u.b0, v.b0), Xor(u.b1, v.b1), Xor(u.b2, v.b2), Xor(u.b3, v.b3))
  }

  // ------------------------------------------------------------------- SubBytes

  function Rotate1(x: bv8): bv8 { (x << 1) | (x >> 7) }

  // Bit i is the sum of bits i, i+4, i+5, i+6 and i+7 of x and bit i of 0x63.
  function Affine(x: bv8): bv8 {
    var x1 := Rotate1(x);
    var x2 := Rotate1(x1);
    var x3 := Rotate1(x2);
    var x4 := Rotate1(x3);
    x ^ x1 ^ x2 ^ x3 ^ x4 ^ 0x63
  }

  function InvAffine(x: bv8): bv8 {
    var x1 := Rotate1(x);
    var x3 := Rotate1(Rotate1(x1));
    var x6 := Rotate1(Rotate1(Rotate1(x3)));
    x1 ^ x3 ^ x6 ^ 0x05
  }

  lemma Rotations(x: bv8, x1: bv8, x2: bv8, x3: bv8, x4: bv8)
    requires x1 == (x << 1) | (x >> 7) && x2 == (x1 << 1) | (x1 >> 7)
    requires x3 == (x2 << 1) | (x2 >> 7) && x4 == (x3 << 1) | (x3 >> 7)
    ensures x2 == (x << 2) | (x >> 6) && x3 == (x << 3) | (x >> 5) && x4 == (x << 4) | (x >> 4)
  {
  }

  lemma AffineExpanded(x: bv8)
    ensures Affine(x) == x ^ ((x << 1) | (x >> 7)) ^ ((x << 2) | (x >> 6)) ^ ((x << 3) | (x >> 5)) ^ ((x << 4) | (x >> 4)) ^ 0x63
    ensures InvAffine(x) == ((x << 1) | (x >> 7)) ^ ((x << 3) | (x >> 5)) ^ ((x << 6) | (x >> 2)) ^ 0x05
  {
    var x1 := Rotate1(x);
    var x2 := Rotate1(x1);
    var x3 := Rotate1(x2);
    var x4 := Rotate1(x3);
    Rotations(x, x1, x2, x3, x4);
  }

  lemma AffinePair(x: bv8, y: bv8, z: bv8)
    requires y == x ^ ((x << 1) | (x >> 7)) ^ ((x << 2) | (x >> 6)) ^ ((x << 3) | (x >> 5)) ^ ((x << 4) | (x >> 4)) ^ 0x63
    requires z == ((x << 1) | (x >> 7)) ^ ((x << 3) | (x >> 5)) ^ ((x << 6) | (x >> 2)) ^ 0x05
    ensures ((y << 1) | (y >> 7)) ^ ((y << 3) | (y >> 5)) ^ ((y << 6) | (y >> 2)) ^ 0x05 == x
    ensures z ^ ((z << 1) | (z >> 7)) ^ ((z << 2) | (z >> 6)) ^ ((z << 3) | (z >> 5)) ^ ((z << 4) | (z >> 4)) ^ 0x63 == x
  {
  }

  lemma AffineInverts(x: bv8)
    ensures InvAffine(Affine(x)) == x && Affine(InvAffine(x)) == x
  {
    hide Affine, InvAffine;
    AffineExpanded(x);
    AffineExpanded(Affine(x));
    AffineExpanded(InvAffine(x));
    AffinePair(x, Affine(x), InvAffine(x));
  }

  ghost function SubByte(x: bv8): bv8 { Affine(Inverse(x)) }

  ghost function InvSubByte(y: bv8): bv8 { Inverse(InvAffine(y)) }

  lemma InverseTwice(x: bv8)
    ensures Inverse(Inverse(x)) == x
  {
    hide Mul;
    if x != 0 {
      var i := Inverse(x);
      ZeroTimes(x);
      MulComm(i, x);
      InverseUnique(i, x, Inverse(i));
    }
  }

  // The two substitutions are inverse to each other.
  lemma SubByteInverts(x: bv8)
    ensures InvSubByte(SubByte(x)) == x && SubByte(InvSubByte(x)) == x
  {
    hide Affine, InvAffine;
    AffineInverts(Inverse(x));
    AffineInverts(x);
    InverseTwice(x);
    InverseTwice(InvAffine(x));
  }

  // ----------------------------------------------------------------- MixColumns

  function Xor4(a: bv8, b: bv8, c: bv8, d: bv8): bv8 { Xor(Xor(a, b), Xor(c, d)) }

  function Dot(k0: bv8, k1: bv8, k2: bv8, k3: bv8, w: Word): bv8 {
    Xor4(Mul(k0, w.b0), Mul(k1, w.b1), Mul(k2, w.b2), Mul(k3, w.b3))
  }

  // The product of a column with a polynomial modulo x^4 + 1: k holds the first row
  // of the matrix, every further row is rotated by one.
  function Circulant(k: Word, w: Word): Word {
    Word(Dot(k.b0, k.b1, k.b2, k.b3, w), Dot(k.b3, k.b0, k.b1, k.b2, w),
         Dot(k.b2, k.b3, k.b0, k.b1, w), Dot(k.b1, k.b2, k.b3, k.b0, w))
  }

  const MIX := Word(0x02, 0x03, 0x01, 0x01)
  const INV_MIX := Word(0x0e, 0x0b, 0x0d, 0x09)

  function MixColumn(w: Word): Word { Circulant(MIX, w) }

  function InvMixColumn(w: Word): Word { Circulant(INV_MIX, w) }

  lemma Xor4Exchange(a: bv8, b: bv8, c: bv8, d: bv8, a': bv8, b': bv8, c': bv8, d': bv8)
    ensures Xor4(Xor(a, a'), Xor(b, b'), Xor(c, c'), Xor(d, d')) == Xor(Xor4(a, b, c, d), Xor4(a', b', c', d'))
  {
    hide Xor;
    XorExchange(a, a', b, b');
    XorExchange(c, c', d, d');
    XorExchange(Xor(a, b), Xor(a', b'), Xor(c, d), Xor(c', d'));
  }

  lemma DotXor(k0: bv8, k1: bv8, k2: bv8, k3: bv8, u: Word, v: Word)
    ensures Dot(k0, k1, k2, k3, XorWord(u, v)) == Xor(Dot(k0, k1, k2, k3, u), Dot(k0, k1, k2, k3, v))
  {
    hide Xor, Mul, Xor4;
    MulXor(k0, u.b0, v.b0);
    MulXor(k1, u.b1, v.b1);
    MulXor(k2, u.b2, v.b2);
    MulXor(k3, u.b3, v.b3);
    Xor4Exchange(Mul(k0, u.b0), Mul(k1, u.b1), Mul(k2, u.b2), Mul(k3, u.b3),
                 Mul(k0, v.b0), Mul(k1, v.b1), Mul(k2, v.b2), Mul(k3, v.b3));
  }

  lemma CirculantXor(k: Word, u: Word, v: Word)
    ensures Circulant(k, XorWord(u, v)) == XorWord(Circulant(k, u), Circulant(k, v))
  {
    hide Xor, Dot;
    DotXor(k.b0, k.b1, k.b2, k.b3, u, v);
    DotXor(k.b3, k.b0, k.b1, k.b2, u, v);
    DotXor(k.b2, k.b3, k.b0, k.b1, u, v);
    DotXor(k.b1, k.b2, k.b3, k.b0, u, v);
  }

  function Xor4Words(a: Word, b: Word, c: Word, d: Word): Word {
    XorWord(XorWord(XorWord(a, b), c), d)
  }

  // A column is the sum of its octets, each in a column of its own.
  lemma SplitColumn(w: Word)
    ensures Xor4Words(Word(w.b0, 0, 0, 0), Word(0, w.b1, 0, 0), Word(0, 0, w.b2, 0), Word(0, 0, 0, w.b3)) == w
  {
    hide Xor;
    XorLaws(0, 0, 0);
    XorLaws(w.b0, 0, 0);
    XorLaws(w.b1, 0, 0);
    XorLaws(w.b2, 0, 0);
    XorLaws(w.b3, 0, 0);
  }

  lemma CirculantSplit(k: Word, w: Word)
    ensures Circulant(k, w)
         == Xor4Words(Circulant(k, Word(w.b0, 0, 0, 0)), Circulant(k, Word(0, w.b1, 0, 0)),
                      Circulant(k, Word(0, 0, w.b2, 0)), Circulant(k, Word(0, 0, 0, w.b3)))
  {
    hide Xor, Circulant, XorWord;
    var a, b, c, d := Word(w.b0, 0, 0, 0), Word(0, w.b1, 0, 0), Word(0, 0, w.b2, 0), Word(0, 0, 0, w.b3);
    SplitColumn(w);
    CirculantXor(k, a, b);
    CirculantXor(k, XorWord(a, b), c);
    CirculantXor(k, XorWord(XorWord(a, b), c), d);
  }

  lemma DotSingle(k0: bv8, k1: bv8, k2: bv8, k3: bv8, a: bv8)
    ensures Dot(k0, k1, k2, k3, Word(a, 0, 0, 0)) == Mul(k0, a) && Dot(k0, k1, k2, k3, Word(0, a, 0, 0)) == Mul(k1, a)
    ensures Dot(k0, k1, k2, k3, Word(0, 0, a, 0)) == Mul(k2, a) && Dot(k0, k1, k2, k3, Word(0, 0, 0, a)) == Mul(k3, a)
  {
    hide Xor, Mul;
    ZeroTimes(k0);
    ZeroTimes(k1);
    ZeroTimes(k2);
    ZeroTimes(k3);
    XorLaws(0, 0, 0);
    XorLaws(Mul(k0, a), 0, 0);
    XorLaws(Mul(k1, a), 0, 0);
    XorLaws(Mul(k2, a), 0, 0);
    XorLaws(Mul(k3, a), 0, 0);
  }

  // A column with one octet is spread out by a column of the matrix.
  lemma CirculantSingle(k: Word, a: bv8)
    ensures Circulant(k, Word(a, 0, 0, 0)) == Word(Mul(k.b0, a), Mul(k.b3, a), Mul(k.b2, a), Mul(k.b1, a))
    ensures Circulant(k, Word(0, a, 0, 0)) == Word(Mul(k.b1, a), Mul(k.b0, a), Mul(k.b3, a), Mul(k.b2, a))
    ensures Circulant(k, Word(0, 0, a, 0)) == Word(Mul(k.b2, a), Mul(k.b1, a), Mul(k.b0, a), Mul(k.b3, a))
    ensures Circulant(k, Word(0, 0, 0, a)) == Word(Mul(k.b3, a), Mul(k.b2, a), Mul(k.b1, a), Mul(k.b0, a))
  {
    hide Xor, Mul, Dot;
    DotSingle(k.b0, k.b1, k.b2, k.b3, a);
    DotSingle(k.b3, k.b0, k.b1, k.b2, a);
    DotSingle(k.b2, k.b3, k.b0, k.b1, a);
    DotSingle(k.b1, k.b2, k.b3, k.b0, a);
  }

  // k0*(m0*a) + k1*(m1*a) + k2*(m2*a) + k3*(m3*a) == c*a when the coefficients add up to c
  lemma Coefficient(k: Word, m: Word, c: bv8, a: bv8)
    requires Xor4(Mul(k.b0, m.b0), Mul(k.b1, m.b1), Mul(k.b2, m.b2), Mul(k.b3, m.b3)) == c
    ensures Xor4(Mul(k.b0, Mul(m.b0, a)), Mul(k.b1, Mul(m.b1, a)), Mul(k.b2, Mul(m.b2, a)), Mul(k.b3, Mul(m.b3, a))) == Mul(c, a)
  {
    hide Xor, Mul;
    MulAssoc(k.b0, m.b0, a);
    MulAssoc(k.b1, m.b1, a);
    MulAssoc(k.b2, m.b2, a);
    MulAssoc(k.b3, m.b3, a);
    var p, q, r, s := Mul(k.b0, m.b0), Mul(k.b1, m.b1), Mul(k.b2, m.b2), Mul(k.b3, m.b3);
    MulXor(a, p, q);
    MulXor(a, r, s);
    MulXor(a, Xor(p, q), Xor(r, s));
  }

  lemma MulConstants()
    ensures Mul(0x0e, 2) == 0x1c && Mul(0x0b, 1) == 0x0b && Mul(0x0d, 1) == 0x0d && Mul(0x09, 3) == 0x1b
    ensures Mul(0x09, 2) == 0x12 && Mul(0x0e, 1) == 0x0e && Mul(0x0d, 3) == 0x17
    ensures Mul(0x0d, 2) == 0x1a && Mul(0x09, 1) == 0x09 && Mul(0x0b, 3) == 0x1d
    ensures Mul(0x0b, 2) == 0x16 && Mul(0x0e, 3) == 0x12
  {
    SmallProducts(0x0e);
    SmallProducts(0x0b);
    SmallProducts(0x0d);
    SmallProducts(0x09);
  }

  lemma SmallProducts(x: bv8)
    ensures Mul(x, 1) == x && Mul(x, 2) == Shift(x) && Mul(x, 3) == Xor(x, Shift(x))
  {
    MulOne(x);
    assert Mul(x, 2) == Shift(x) by {
      hide Mul;
      ShiftTimes(x, 1);
      MulComm(x, 2);
      MulComm(1, x);
      ShiftTimes(1, x);
      MulOne(x);
      MulComm(x, 1);
      assert Shift(1) == 2;
    }
    hide Mul;
    assert Xor(1, 2) == 3;
    hide Xor, Shift;
    MulXor(x, 1, 2);
  }

  // The rows of INV_MIX times the columns of MIX: one on the diagonal, zero elsewhere.
  lemma RowsTimesColumns(a: bv8)
    ensures Xor4(Mul(0x0e, Mul(2, a)), Mul(0x0b, Mul(1, a)), Mul(0x0d, Mul(1, a)), Mul(0x09, Mul(3, a))) == a
    ensures Xor4(Mul(0x09, Mul(2, a)), Mul(0x0e, Mul(1, a)), Mul(0x0b, Mul(1, a)), Mul(0x0d, Mul(3, a))) == 0
    ensures Xor4(Mul(0x0d, Mul(2, a)), Mul(0x09, Mul(1, a)), Mul(0x0e, Mul(1, a)), Mul(0x0b, Mul(3, a))) == 0
    ensures Xor4(Mul(0x0b, Mul(2, a)), Mul(0x0d, Mul(1, a)), Mul(0x09, Mul(1, a)), Mul(0x0e, Mul(3, a))) == 0
  {
    MulConstants();
    assert Xor4(0x1c, 0x0b, 0x0d, 0x1b) == 1 && Xor4(0x12, 0x0e, 0x0b, 0x17) == 0;
    assert Xor4(0x1a, 0x09, 0x0e, 0x1d) == 0 && Xor4(0x16, 0x0d, 0x09, 0x12) == 0;
    hide Xor4, Mul, Xor;
    var m := Word(2, 1, 1, 3);
    Coefficient(Word(0x0e, 0x0b, 0x0d, 0x09), m, 1, a);
    Coefficient(Word(0x09, 0x0e, 0x0b, 0x0d), m, 0, a);
    Coefficient(Word(0x0d, 0x09, 0x0e, 0x0b), m, 0, a);
    Coefficient(Word(0x0b, 0x0d, 0x09, 0x0e), m, 0, a);
    MulOne(a);
    ZeroTimes(a);
  }

  lemma Xor4Rotates(a: bv8, b: bv8, c: bv8, d: bv8)
    ensures Xor4(a, b, c, d) == Xor4(d, a, b, c) == Xor4(c, d, a, b) == Xor4(b, c, d, a)
  {
    hide Xor;
    XorLaws(Xor(a, b), Xor(c, d), 0);
    XorLaws(Xor(d, a), Xor(b, c), 0);
    XorLaws(a, b, c);
    XorLaws(Xor(a, b), c, d);
    XorLaws(a, Xor(b, c), d);
    XorLaws(d, a, Xor(b, c));
    XorLaws(d, Xor(a, Xor(b, c)), 0);
  }

  lemma MixSingle(a: bv8)
    ensures InvMixColumn(MixColumn(Word(a, 0, 0, 0))) == Word(a, 0, 0, 0)
    ensures InvMixColumn(MixColumn(Word(0, a, 0, 0))) == Word(0, a, 0, 0)
    ensures InvMixColumn(MixColumn(Word(0, 0, a, 0))) == Word(0, 0, a, 0)
    ensures InvMixColumn(MixColumn(Word(0, 0, 0, a))) == Word(0, 0, 0, a)
  {
    hide Xor4, Mul, Xor;
    CirculantSingle(MIX, a);
    RowsTimesColumns(a);
    hide Circulant;
    var p, q, s := Mul(2, a), Mul(1, a), Mul(3, a);
    RotatedColumn(p, q, q, s);
  }

  // A rotated column gives a rotated result.
  lemma RotatedColumn(p: bv8, q: bv8, r: bv8, s: bv8)
    ensures var w := Circulant(INV_MIX, Word(p, q, r, s));
            && Circulant(INV_MIX, Word(s, p, q, r)) == Word(w.b3, w.b0, w.b1, w.b2)
            && Circulant(INV_MIX, Word(r, s, p, q)) == Word(w.b2, w.b3, w.b0, w.b1)
            && Circulant(INV_MIX, Word(q, r, s, p)) == Word(w.b1, w.b2, w.b3, w.b0)
            && w.b0 == Xor4(Mul(0x0e, p), Mul(0x0b, q), Mul(0x0d, r), Mul(0x09, s))
            && w.b1 == Xor4(Mul(0x09, p), Mul(0x0e, q), Mul(0x0b, r), Mul(0x0d, s))
            && w.b2 == Xor4(Mul(0x0d, p), Mul(0x09, q), Mul(0x0e, r), Mul(0x0b, s))
            && w.b3 == Xor4(Mul(0x0b, p), Mul(0x0d, q), Mul(0x09, r), Mul(0x0e, s))
  {
    hide Xor4, Mul, Xor;
    Xor4Rotates(Mul(0x0e, p), Mul(0x0b, q), Mul(0x0d, r), Mul(0x09, s));
    Xor4Rotates(Mul(0x09, p), Mul(0x0e, q), Mul(0x0b, r), Mul(0x0d, s));
    Xor4Rotates(Mul(0x0d, p), Mul(0x09, q), Mul(0x0e, r), Mul(0x0b, s));
    Xor4Rotates(Mul(0x0b, p), Mul(0x0d, q), Mul(0x09, r), Mul(0x0e, s));
  }

  // InvMixColumns undoes MixColumns.
  lemma MixInverts(w: Word)
    ensures InvMixColumn(MixColumn(w)) == w
  {
    hide Circulant, XorWord;
    var a, b, c, d := Word(w.b0, 0, 0, 0), Word(0, w.b1, 0, 0), Word(0, 0, w.b2, 0), Word(0, 0, 0, w.b3);
    CirculantSplit(MIX, w);
    var ma, mb, mc, md := MixColumn(a), MixColumn(b), MixColumn(c), MixColumn(d);
    CirculantXor(INV_MIX, ma, mb);
    CirculantXor(INV_MIX, XorWord(ma, mb), mc);
    CirculantXor(INV_MIX, XorWord(XorWord(ma, mb), mc), md);
    MixSingle(w.b0);
    MixSingle(w.b1);
    MixSingle(w.b2);
    MixSingle(w.b3);
    SplitColumn(w);
  }
}
