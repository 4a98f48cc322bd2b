// gf2_8.c and gf2_8.h: arithmetic in the field with 256 elements that AES uses.
// Elements are polynomials over GF(2) of degree below 8, read modulo
// x^8 + x^4 + x^3 + x + 1.
module Gf256 {
  import opened OctetNumbers

  const FIELD_POLYNOMIAL: bv8 := 0x1B

  // gf2_8_shift on an octet: the product with x
  function Shift(z: bv8): bv8 {
    if z & 128 != 0 then (z << 1) ^ FIELD_POLYNOMIAL else z << 1
  }

  function Xor(a: bv8, b: bv8): bv8 { a ^ b }

  // x if the lowest bit of y is set
  function Term(y: bv8, x: bv8): bv8 { if y & 1 != 0 then x else 0 }

  function Halve(y: bv8): bv8 { y >> 1 }

  // the sum over i < n with bit i of y set of x shifted i times
  function Product(x: bv8, y: bv8, n: nat): bv8
    decreases n
  {
    if n == 0 then 0
    else Xor(Term(y, x), Product(Shift(x), Halve(y), n - 1))
  }

  function Mul(x: bv8, y: bv8): bv8 { Product(x, y, 8) }

  // ------------------------------------------------------------- sums of octets

  lemma XorLaws(a: bv8, b: bv8, c: bv8)
    ensures Xor(0, a) == a && Xor(a, 0) == a && Xor(a, a) == 0
    ensures Xor(a, b) == Xor(b, a)
    ensures Xor(Xor(a, b), c) == Xor(a, Xor(b, c))
  {
    assert a ^ b == b ^ a && (a ^ b) ^ c == a ^ (b ^ c);
  }

  lemma XorExchange(a: bv8, b: bv8, c: bv8, d: bv8)
    ensures Xor(Xor(a, b), Xor(c, d)) == Xor(Xor(a, c), Xor(b, d))
  {
    hide Xor;
    XorLaws(a, b, Xor(c, d));
    XorLaws(b, c, d);
    XorLaws(c, b, d);
    XorLaws(a, c, Xor(b, d));
  }

  // Shift without the case distinction
  lemma ShiftLinear(z: bv8)
    ensures var b := z >> 7; Shift(z) == (z << 1) ^ (b << 4) ^ (b << 3) ^ (b << 1) ^ b
  {
  }

  lemma ShiftXor(x: bv8, x': bv8)
    ensures Shift(Xor(x, x')) == Xor(Shift(x), Shift(x'))
  {
    ShiftLinear(x);
    ShiftLinear(x');
    ShiftLinear(x ^ x');
    hide Shift;
  }

  lemma TermXor(y: bv8, x: bv8, x': bv8)
    ensures Term(y, Xor(x, x')) == Xor(Term(y, x), Term(y, x'))
  {
  }

  lemma TermXorRight(y: bv8, y': bv8, x: bv8)
    ensures Term(Xor(y, y'), x) == Xor(Term(y, x), Term(y', x))
    ensures Halve(Xor(y, y')) == Xor(Halve(y), Halve(y'))
  {
    if y & 1 != 0 {
      if y' & 1 != 0 {
      } else {
      }
    } else if y' & 1 != 0 {
    }
  }

  lemma TermOfShift(y: bv8, x: bv8)
    ensures Term(y, Shift(x)) == Shift(Term(y, x))
  {
    assert Shift(0) == 0;
    hide Shift;
  }

  // --------------------------------------- the product and the field polynomial

  function Xor16(a: bv16, b: bv16): bv16 { a ^ b }

  function Term16(y: bv8, a: bv16): bv16 { if y & 1 != 0 then a else 0 }

  function Twice(a: bv16): bv16 { a << 1 }

  // The product of two polynomials over GF(2), not reduced.
  function CarryLess(a: bv16, y: bv8, n: nat): bv16
    decreases n
  {
    if n == 0 then 0
    else Xor16(Term16(y, a), CarryLess(Twice(a), Halve(y), n - 1))
  }

  // a times x^8 + x^4 + x^3 + x + 1
  function Multiple(a: bv16): bv16 {
    Xor16(a << 8, Xor16(a << 4, Xor16(a << 3, Xor16(a << 1, a))))
  }

  // z is the remainder of c modulo the field polynomial, with quotient k.
  ghost predicate Divides(c: bv16, k: bv8, z: bv8) { c == Xor16(Multiple(k as bv16), z as bv16) }

  ghost predicate IsRemainder(c: bv16, z: bv8) { exists k: bv8 :: Divides(c, k, z) }

  lemma Xor16Laws(a: bv16, b: bv16, c: bv16)
    ensures Xor16(a, b) == Xor16(b, a) && Xor16(Xor16(a, b), c) == Xor16(a, Xor16(b, c))
  {
    assert a ^ b == b ^ a && (a ^ b) ^ c == a ^ (b ^ c);
  }

  lemma Xor16Exchange(a: bv16, b: bv16, c: bv16, d: bv16)
    ensures Xor16(Xor16(a, b), Xor16(c, d)) == Xor16(Xor16(a, c), Xor16(b, d))
  {
    hide Xor16;
    Xor16Laws(a, b, Xor16(c, d));
    Xor16Laws(b, c, d);
    Xor16Laws(c, b, d);
    Xor16Laws(a, c, Xor16(b, d));
  }

  lemma ShiftSum8(a: bv16, b: bv16, c: bv16, a': bv16, b': bv16)
    requires c == a ^ b && a' == a << 8 && b' == b << 8
    ensures c << 8 == a' ^ b'
  {
  }

  lemma ShiftSum4(a: bv16, b: bv16, c: bv16, a': bv16, b': bv16)
    requires c == a ^ b && a' == a << 4 && b' == b << 4
    ensures c << 4 == a' ^ b'
  {
  }

  lemma ShiftSum3(a: bv16, b: bv16, c: bv16, a': bv16, b': bv16)
    requires c == a ^ b && a' == a << 3 && b' == b << 3
    ensures c << 3 == a' ^ b'
  {
  }

  lemma ShiftSum1(a: bv16, b: bv16, c: bv16, a': bv16, b': bv16)
    requires c == a ^ b && a' == a << 1 && b' == b << 1
    ensures c << 1 == a' ^ b'
  {
  }

  lemma Xor16Is(a: bv16, b: bv16)
    ensures Xor16(a, b) == a ^ b
  {
  }

  lemma Shl8Xor(a: bv16, b: bv16)
    ensures Xor16(a, b) << 8 == Xor16(a << 8, b << 8)
  {
    hide Xor16;
    Xor16Is(a, b);
    Xor16Is(a << 8, b << 8);
    ShiftSum8(a, b, Xor16(a, b), a << 8, b << 8);
  }

  lemma Shl4Xor(a: bv16, b: bv16)
    ensures Xor16(a, b) << 4 == Xor16(a << 4, b << 4)
  {
    hide Xor16;
    Xor16Is(a, b);
    Xor16Is(a << 4, b << 4);
    ShiftSum4(a, b, Xor16(a, b), a << 4, b << 4);
  }

  lemma Shl3Xor(a: bv16, b: bv16)
    ensures Xor16(a, b) << 3 == Xor16(a << 3, b << 3)
  {
    hide Xor16;
    Xor16Is(a, b);
    Xor16Is(a << 3, b << 3);
    ShiftSum3(a, b, Xor16(a, b), a << 3, b << 3);
  }

  lemma TwiceXor(a: bv16, b: bv16)
    ensures Twice(Xor16(a, b)) == Xor16(Twice(a), Twice(b))
  {
    hide Xor16;
    Xor16Is(a, b);
    Xor16Is(a << 1, b << 1);
    ShiftSum1(a, b, Xor16(a, b), a << 1, b << 1);
  }

  lemma MultipleXor(a: bv16, b: bv16)
    ensures Multiple(Xor16(a, b)) == Xor16(Multiple(a), Multiple(b))
  {
    hide Xor16;
    Shl8Xor(a, b);
    Shl4Xor(a, b);
    Shl3Xor(a, b);
    TwiceXor(a, b);
    var a8, a4, a3, a1 := a << 8, a << 4, a << 3, a << 1;
    var b8, b4, b3, b1 := b << 8, b << 4, b << 3, b << 1;
    Xor16Exchange(a1, a, b1, b);
    Xor16Exchange(a3, Xor16(a1, a), b3, Xor16(b1, b));
    Xor16Exchange(a4, Xor16(a3, Xor16(a1, a)), b4, Xor16(b3, Xor16(b1, b)));
    Xor16Exchange(a8, Xor16(a4, Xor16(a3, Xor16(a1, a))), b8, Xor16(b4, Xor16(b3, Xor16(b1, b))));
  }

  lemma WidenXor(k: bv8, l: bv8)
    ensures (Xor(k, l)) as bv16 == Xor16(k as bv16, l as bv16)
  {
  }

  lemma RemainderXor(c: bv16, z: bv8, c': bv16, z': bv8)
    requires IsRemainder(c, z) && IsRemainder(c', z')
    ensures IsRemainder(Xor16(c, c'), Xor(z, z'))
  {
    hide Multiple, Xor, Xor16;
    var k :| Divides(c, k, z);
    var l :| Divides(c', l, z');
    WidenXor(k, l);
    WidenXor(z, z');
    MultipleXor(k as bv16, l as bv16);
    Xor16Exchange(Multiple(k as bv16), z as bv16, Multiple(l as bv16), z' as bv16);
    assert Divides(Xor16(c, c'), Xor(k, l), Xor(z, z'));
  }

  // The remainder is unique.
  lemma RemainderUnique(c: bv16, z: bv8, z': bv8)
    requires IsRemainder(c, z) && IsRemainder(c, z')
    ensures z == z'
  {
    hide Multiple, Xor, Xor16;
    RemainderXor(c, z, c, z');
    var d :| Divides(Xor16(c, c), d, Xor(z, z'));
    assert Xor16(c, c) == 0 by { SelfXor16(c); }
    OnlyZeroIsSmall(d, Xor(z, z'));
    XorIsZero(z, z');
  }

  lemma SelfXor16(c: bv16)
    ensures Xor16(c, c) == 0
  {
  }

  lemma XorIsZero(z: bv8, z': bv8)
    requires Xor(z, z') == 0
    ensures z == z'
  {
  }

  lemma OnlyZeroIsSmall(d: bv8, z: bv8)
    requires Divides(0, d, z)
    ensures z == 0
  {
    assert d == 0;
  }

  // k < 2^u
  predicate Below(k: bv8, u: nat) {
    if u == 0 then k == 0 else Below(Halve(k), u - 1)
  }

  lemma {:induction false} BelowMore(k: bv8, u: nat, v: nat)
    requires Below(k, u) && u <= v
    ensures Below(k, v)
    decreases v
  {
    if u > 0 {
      BelowMore(Halve(k), u - 1, v - 1);
    } else if v > 0 {
      BelowMore(Halve(k), 0, v - 1);
    }
  }

  lemma BelowSeven(k: bv8, u: nat)
    requires Below(k, u) && u <= 7
    ensures k < 128
  {
    BelowMore(k, u, 7);
    var k1 := Halve(k);
    var k2 := Halve(k1);
    var k3 := Halve(k2);
    var k4 := Halve(k3);
    var k5 := Halve(k4);
    var k6 := Halve(k5);
    assert Below(k1, 6) && Below(k2, 5) && Below(k3, 4) && Below(k4, 3) && Below(k5, 2) && Below(k6, 1) && Below(Halve(k6), 0);
  }

  lemma ShiftsCommute(a: bv16)
    ensures (a << 8) << 1 == (a << 1) << 8 && (a << 4) << 1 == (a << 1) << 4 && (a << 3) << 1 == (a << 1) << 3
  {
  }

  lemma TwiceMultiple(a: bv16)
    ensures Twice(Multiple(a)) == Multiple(Twice(a))
  {
    hide Xor16;
    ShiftsCommute(a);
    var a8, a4, a3, a1 := a << 8, a << 4, a << 3, a << 1;
    TwiceXor(a1, a);
    TwiceXor(a3, Xor16(a1, a));
    TwiceXor(a4, Xor16(a3, Xor16(a1, a)));
    TwiceXor(a8, Xor16(a4, Xor16(a3, Xor16(a1, a))));
  }

  // Twice x is the carry out of x times the field polynomial, plus Shift(x).
  lemma ShiftCarries(x: bv8)
    ensures Twice(x as bv16) == Xor16(Multiple((x >> 7) as bv16), Shift(x) as bv16)
  {
    if x & 128 != 0 {
      assert x >> 7 == 1;
    } else {
      assert x >> 7 == 0;
    }
  }

  lemma QuotientGrows(k: bv8, b: bv8)
    requires k < 128 && b < 2
    ensures Halve((k << 1) ^ b) == k
    ensures ((k << 1) ^ b) as bv16 == Xor16(Twice(k as bv16), b as bv16)
  {
  }

  // A quotient for a is one for a << 1, one bit longer.
  lemma ShiftRemainder(a: bv16, k: bv8, x: bv8)
    requires Divides(a, k, x) && k < 128
    ensures Divides(Twice(a), (k << 1) ^ (x >> 7), Shift(x))
    ensures Halve((k << 1) ^ (x >> 7)) == k
  {
    hide Shift, Xor16, Twice, Multiple, Halve;
    var b := x >> 7;
    assert b < 2;
    var k16, b16, x16, s16 := k as bv16, b as bv16, x as bv16, Shift(x) as bv16;
    QuotientGrows(k, b);
    ShiftCarries(x);
    TwiceXor(Multiple(k16), x16);
    TwiceMultiple(k16);
    MultipleXor(Twice(k16), b16);
    Xor16Laws(Multiple(Twice(k16)), Multiple(b16), s16);
  }

  lemma {:induction false} ProductRemainder(a: bv16, k: bv8, x: bv8, y: bv8, n: nat)
    requires n <= 8 && Divides(a, k, x) && Below(k, 8 - n)
    ensures IsRemainder(CarryLess(a, y, n), Product(x, y, n))
    decreases n
  {
    hide Shift, Divides, Multiple, Xor, Xor16, Halve, Twice, Term, Term16;
    if n == 0 {
      ZeroRemainder(0);
    } else {
      BelowSeven(k, 8 - n);
      ShiftRemainder(a, k, x);
      ProductRemainder(Twice(a), (k << 1) ^ (x >> 7), Shift(x), Halve(y), n - 1);
      TermRemainder(a, k, x, y);
      RemainderXor(Term16(y, a), Term(y, x), CarryLess(Twice(a), Halve(y), n - 1), Product(Shift(x), Halve(y), n - 1));
    }
  }

  lemma TermRemainder(a: bv16, k: bv8, x: bv8, y: bv8)
    requires Divides(a, k, x)
    ensures IsRemainder(Term16(y, a), Term(y, x))
  {
    hide Divides;
    ZeroRemainder(0);
  }

  lemma ZeroRemainder(x: bv8)
    ensures Divides(x as bv16, 0, x)
  {
  }

  // Mul is multiplication of polynomials modulo the field polynomial.
  lemma MulIsRemainder(x: bv8, y: bv8)
    ensures IsRemainder(CarryLess(x as bv16, y, 8), Mul(x, y))
  {
    hide Divides;
    ZeroRemainder(x);
    ProductRemainder(x as bv16, 0, x, y, 8);
  }

  // ------------------------------------------------------------ gf2_8_multiply

  // x if y has the bit of the mask
  function Masked(y: bv8, mask: bv8, x: bv8): bv8 { if y & mask != 0 then x else 0 }

  method Gf28Multiply(x0: bv8, y: bv8) returns (z: bv8)
    ensures z == Mul(x0, y)
    ensures IsRemainder(CarryLess(x0 as bv16, y, 8), z)
  {
    hide Shift, Product, Masked, Xor, IsRemainder, Term;
    MaskedBits(y);
    var x := x0;
    z := 0;
    XorLaws(Product(x, y, 8), 0, 0);
    z := AddMasked(z, x, y, 1, 8);
    x := Shift(x);
    z := AddMasked(z, x, y, 2, 7);
    x := Shift(x);
    z := AddMasked(z, x, y, 4, 6);
    x := Shift(x);
    z := AddMasked(z, x, y, 8, 5);
    x := Shift(x);
    z := AddMasked(z, x, y, 16, 4);
    x := Shift(x);
    z := AddMasked(z, x, y, 32, 3);
    x := Shift(x);
    z := AddMasked(z, x, y, 64, 2);
    x := Shift(x);
    z := AddMasked(z, x, y, 128, 1);
    EmptyProduct(Shift(x), Tail(y, 0));
    XorLaws(z, 0, 0);
    MulIsRemainder(x0, y);
  }

  // y without its lowest 8 - n bits
  function Tail(y: bv8, n: nat): bv8
    requires n <= 8
    decreases 8 - n
  {
    if n == 8 then y else Halve(Tail(y, n + 1))
  }

  lemma EmptyProduct(x: bv8, y: bv8)
    ensures Product(x, y, 0) == 0
  {
  }

  // if (y & mask) z ^= x: the sum so far and the n terms to come add up to the same.
  method AddMasked(z0: bv8, x: bv8, y: bv8, mask: bv8, ghost n: nat) returns (z: bv8)
    requires 1 <= n <= 8 && MaskIs(y, mask, n)
    ensures Xor(z, Product(Shift(x), Tail(y, n - 1), n - 1)) == Xor(z0, Product(x, Tail(y, n), n))
  {
    hide Shift, Xor, Masked, Halve;
    z := z0;
    MaskedStep(x, y, mask, n);
    XorLaws(z0, Masked(y, mask, x), Product(Shift(x), Tail(y, n - 1), n - 1));
    z := XorMasked(z, x, y, mask);
  }

  method XorMasked(z0: bv8, x: bv8, y: bv8, mask: bv8) returns (z: bv8)
    ensures z == Xor(z0, Masked(y, mask, x))
  {
    z := z0;
    if y & mask != 0 {
      z := z ^ x;
    }
  }

  // The mask selects the lowest of the n bits that are left.
  ghost predicate MaskIs(y: bv8, mask: bv8, n: nat)
    requires n <= 8
  {
    forall x: bv8 {:trigger Masked(y, mask, x)} :: Masked(y, mask, x) == Term(Tail(y, n), x)
  }

  lemma MaskedBits(y: bv8)
    ensures MaskIs(y, 1, 8) && MaskIs(y, 2, 7) && MaskIs(y, 4, 6) && MaskIs(y, 8, 5)
    ensures MaskIs(y, 16, 4) && MaskIs(y, 32, 3) && MaskIs(y, 64, 2) && MaskIs(y, 128, 1)
  {
    Tails(y);
  }

  lemma Tails(y: bv8)
    ensures Tail(y, 8) == y && Tail(y, 7) == y >> 1 && Tail(y, 6) == y >> 2 && Tail(y, 5) == y >> 3
    ensures Tail(y, 4) == y >> 4 && Tail(y, 3) == y >> 5 && Tail(y, 2) == y >> 6 && Tail(y, 1) == y >> 7
  {
    assert Tail(y, 6) == Halve(Tail(y, 7));
    assert Tail(y, 5) == Halve(Tail(y, 6));
    assert Tail(y, 4) == Halve(Tail(y, 5));
    assert Tail(y, 3) == Halve(Tail(y, 4));
    assert Tail(y, 2) == Halve(Tail(y, 3));
    assert Tail(y, 1) == Halve(Tail(y, 2));
  }

  function Sum8(a: bv8, b: bv8, c: bv8, d: bv8, e: bv8, f: bv8, g: bv8, h: bv8): bv8 {
    Xor(a, Xor(b, Xor(c, Xor(d, Xor(e, Xor(f, Xor(g, h)))))))
  }

  lemma ProductExpanded(x0: bv8, x1: bv8, x2: bv8, x3: bv8, x4: bv8, x5: bv8, x6: bv8, x7: bv8, y: bv8)
    requires x1 == Shift(x0) && x2 == Shift(x1) && x3 == Shift(x2) && x4 == Shift(x3)
    requires x5 == Shift(x4) && x6 == Shift(x5) && x7 == Shift(x6)
    ensures Mul(x0, y) == Sum8(Masked(y, 1, x0), Masked(y, 2, x1), Masked(y, 4, x2), Masked(y, 8, x3),
                               Masked(y, 16, x4), Masked(y, 32, x5), Masked(y, 64, x6), Masked(y, 128, x7))
  {
    hide Shift, Xor, Masked, MaskIs, Tail, Product;
    MaskedBits(y);
    MaskedStep(x0, y, 1, 8);
    MaskedStep(x1, y, 2, 7);
    MaskedStep(x2, y, 4, 6);
    MaskedStep(x3, y, 8, 5);
    MaskedStep(x4, y, 16, 4);
    MaskedStep(x5, y, 32, 3);
    MaskedStep(x6, y, 64, 2);
    MaskedStep(x7, y, 128, 1);
    EmptyProduct(Shift(x7), Tail(y, 0));
    XorLaws(Masked(y, 128, x7), 0, 0);
    assert Tail(y, 8) == y by { Tails(y); }
  }

  lemma MaskedStep(x: bv8, y: bv8, mask: bv8, n: nat)
    requires 1 <= n <= 8 && MaskIs(y, mask, n)
    ensures Product(x, Tail(y, n), n) == Xor(Masked(y, mask, x), Product(Shift(x), Tail(y, n - 1), n - 1))
  {
    hide Shift, Xor, Masked, Term, Halve;
    assert Masked(y, mask, x) == Term(Tail(y, n), x);
  }

  // ------------------------------------------------------------- the field laws

  lemma {:induction false} ProductXorLeft(x: bv8, x': bv8, y: bv8, n: nat)
    ensures Product(Xor(x, x'), y, n) == Xor(Product(x, y, n), Product(x', y, n))
    decreases n
  {
    hide Shift, Term, Halve, Xor;
    if n == 0 {
      XorLaws(0, 0, 0);
    } else {
      ShiftXor(x, x');
      TermXor(y, x, x');
      ProductXorLeft(Shift(x), Shift(x'), Halve(y), n - 1);
      XorExchange(Term(y, x), Term(y, x'), Product(Shift(x), Halve(y), n - 1), Product(Shift(x'), Halve(y), n - 1));
    }
  }

  lemma {:induction false} ProductXorRight(x: bv8, y: bv8, y': bv8, n: nat)
    ensures Product(x, Xor(y, y'), n) == Xor(Product(x, y, n), Product(x, y', n))
    decreases n
  {
    hide Shift, Term, Halve, Xor;
    if n == 0 {
      XorLaws(0, 0, 0);
    } else {
      TermXorRight(y, y', x);
      ProductXorRight(Shift(x), Halve(y), Halve(y'), n - 1);
      XorExchange(Term(y, x), Term(y', x), Product(Shift(x), Halve(y), n - 1), Product(Shift(x), Halve(y'), n - 1));
    }
  }

  lemma MulXor(x: bv8, y: bv8, y': bv8)
    ensures Mul(x, Xor(y, y')) == Xor(Mul(x, y), Mul(x, y'))
    ensures Mul(Xor(y, y'), x) == Xor(Mul(y, x), Mul(y', x))
  {
    hide Product, Xor;
    ProductXorRight(x, y, y', 8);
    ProductXorLeft(y, y', x, 8);
  }

  lemma {:induction false} ShiftOut(x: bv8, y: bv8, n: nat)
    ensures Product(Shift(x), y, n) == Shift(Product(x, y, n))
    decreases n
  {
    if n == 0 {
    } else {
      hide Shift, Term, Halve, Xor;
      ShiftOut(Shift(x), Halve(y), n - 1);
      TermOfShift(y, x);
      ShiftXor(Term(y, x), Product(Shift(x), Halve(y), n - 1));
    }
  }

  // A term times y
  lemma TermTimes(x: bv8, a: bv8, y: bv8)
    ensures Mul(Term(x, a), y) == Term(x, Mul(a, y))
  {
    ZeroTimes(y);
    hide Mul, Product;
  }

  // (a*x)*y == (a*y)*x
  lemma {:induction false} MulExchange(a: bv8, x: bv8, y: bv8, n: nat)
    ensures Mul(Product(a, x, n), y) == Product(Mul(a, y), x, n)
    decreases n
  {
    hide Shift, Mul, Term, Halve, Xor;
    if n == 0 {
      ZeroTimes(y);
    } else {
      MulXor(y, Term(x, a), Product(Shift(a), Halve(x), n - 1));
      TermTimes(x, a, y);
      MulExchange(Shift(a), Halve(x), y, n - 1);
      ShiftTimes(a, y);
    }
  }

  lemma ShiftTimes(a: bv8, y: bv8)
    ensures Mul(Shift(a), y) == Shift(Mul(a, y))
  {
    hide Shift, Product;
    ShiftOut(a, y, 8);
  }

  lemma {:induction false} ZeroProduct(y: bv8, n: nat)
    ensures Product(0, y, n) == 0 && Product(y, 0, n) == 0
    decreases n
  {
    if n > 0 {
      ZeroProduct(Halve(y), n - 1);
      ZeroProduct(Shift(y), n - 1);
    }
  }

  lemma ZeroTimes(x: bv8)
    ensures Mul(0, x) == 0 && Mul(x, 0) == 0
  {
    ZeroProduct(x, 8);
  }

  lemma MulOne(y: bv8)
    ensures Mul(1, y) == y && Mul(y, 1) == y
  {
    hide Masked, Sum8;
    assert Mul(y, 1) == y by {
      ZeroProduct(Shift(y), 7);
      assert Mul(y, 1) == Xor(y, 0);
    }
    hide Product, Mul;
    ProductExpanded(1, 2, 4, 8, 16, 32, 64, 128, y);
    MaskedOnes(y);
    BitsAdd(y, y & 1, y & 2, y & 4, y & 8, y & 16, y & 32, y & 64, y & 128);
  }

  lemma MaskedOnes(y: bv8)
    ensures Masked(y, 1, 1) == y & 1 && Masked(y, 2, 2) == y & 2 && Masked(y, 4, 4) == y & 4 && Masked(y, 8, 8) == y & 8
    ensures Masked(y, 16, 16) == y & 16 && Masked(y, 32, 32) == y & 32
    ensures Masked(y, 64, 64) == y & 64 && Masked(y, 128, 128) == y & 128
  {
  }

  lemma BitsAdd(y: bv8, a: bv8, b: bv8, c: bv8, d: bv8, e: bv8, f: bv8, g: bv8, h: bv8)
    requires a == y & 1 && b == y & 2 && c == y & 4 && d == y & 8
    requires e == y & 16 && f == y & 32 && g == y & 64 && h == y & 128
    ensures Sum8(a, b, c, d, e, f, g, h) == y
  {
  }

  lemma MulComm(x: bv8, y: bv8)
    ensures Mul(x, y) == Mul(y, x)
  {
    hide Product;
    MulExchange(1, x, y, 8);
    MulOne(x);
    MulOne(y);
  }

  lemma MulAssoc(x: bv8, y: bv8, z: bv8)
    ensures Mul(Mul(x, y), z) == Mul(x, Mul(y, z))
  {
    hide Product;
    MulComm(x, y);
    MulExchange(y, x, z, 8);
    MulComm(Mul(y, z), x);
  }

  // ----------------------------------------------------------------- inverses

  // One step of the Euclidean algorithm: some multiple of x modulo the field
  // polynomial is smaller than x and not zero, as the polynomial is irreducible.
  lemma StepDown(x: bv8) returns (q: bv8)
    requires x > 1
    ensures 0 < Mul(q, x) < x
  {
    hide Shift, Product, Mul;
    if x < 16 {
      q := SmallInverse(x);
    } else if x < 32 {
      q := StepDown4(x);
    } else if x < 64 {
      q := StepDown5(x);
    } else {
      q := StepDown6(x);
    }
    MulComm(x, q);
  }

  lemma SmallInverse(x: bv8) returns (q: bv8)
    requires 1 < x < 16
    ensures Mul(x, q) == 1
  {
    q := match x
      case 2 => 0x8d
      case 3 => 0xf6
      case 4 => 0xcb
      case 5 => 0x52
      case 6 => 0x7b
      case 7 => 0xd1
      case 8 => 0xe8
      case 9 => 0x4f
      case 10 => 0x29
      case 11 => 0xc0
      case 12 => 0xb0
      case 13 => 0xe1
      case 14 => 0xe5
      case _ => 0xc7;
    var x1 := Shift(x);
    var x2 := Shift(x1);
    var x3 := Shift(x2);
    var x4 := Shift(x3);
    var x5 := Shift(x4);
    var x6 := Shift(x5);
    ProductExpanded(x, x1, x2, x3, x4, x5, x6, Shift(x6), q);
  }

  lemma StepDown6(x: bv8) returns (q: bv8)
    requires x >= 64
    ensures 0 < Mul(x, q) < x
  {
    var x1 := Shift(x);
    var x2 := Shift(x1);
    var x3 := Shift(x2);
    var x4 := Shift(x3);
    var x5 := Shift(x4);
    var x6 := Shift(x5);
    if x < 128 {
      q := 4 ^ (if x2 & 128 != 0 then 2 else 0);
      var r := x2 ^ (if x2 & 128 != 0 then x1 else 0);
      q := q ^ (if r & 64 != 0 then 1 else 0);
    } else {
      q := 2 ^ (if x1 & 128 != 0 then 1 else 0);
    }
    ProductExpanded(x, x1, x2, x3, x4, x5, x6, Shift(x6), q);
  }

  lemma StepDown5(x: bv8) returns (q: bv8)
    requires 32 <= x < 64
    ensures 0 < Mul(x, q) < x
  {
    var x1 := Shift(x);
    var x2 := Shift(x1);
    var x3 := Shift(x2);
    var x4 := Shift(x3);
    var x5 := Shift(x4);
    var x6 := Shift(x5);
    q := 8 ^ (if x3 & 128 != 0 then 4 else 0);
    var r := x3 ^ (if x3 & 128 != 0 then x2 else 0);
    q := q ^ (if r & 64 != 0 then 2 else 0);
    r := r ^ (if r & 64 != 0 then x1 else 0);
    q := q ^ (if r & 32 != 0 then 1 else 0);
    ProductExpanded(x, x1, x2, x3, x4, x5, x6, Shift(x6), q);
  }

  lemma StepDown4(x: bv8) returns (q: bv8)
    requires 16 <= x < 32
    ensures 0 < Mul(x, q) < x
  {
    var x1 := Shift(x);
    var x2 := Shift(x1);
    var x3 := Shift(x2);
    var x4 := Shift(x3);
    var x5 := Shift(x4);
    var x6 := Shift(x5);
    q := 16 ^ (if x4 & 128 != 0 then 8 else 0);
    var r := x4 ^ (if x4 & 128 != 0 then x3 else 0);
    q := q ^ (if r & 64 != 0 then 4 else 0);
    r := r ^ (if r & 64 != 0 then x2 else 0);
    q := q ^ (if r & 32 != 0 then 2 else 0);
    r := r ^ (if r & 32 != 0 then x1 else 0);
    q := q ^ (if r & 16 != 0 then 1 else 0);
    ProductExpanded(x, x1, x2, x3, x4, x5, x6, Shift(x6), q);
  }

  lemma {:induction false} InverseExists(x: bv8) returns (i: bv8)
    requires x != 0
    ensures Mul(i, x) == 1
    decreases x
  {
    hide Product, Mul;
    if x == 1 {
      i := 1;
      MulOne(1);
    } else {
      var q := StepDown(x);
      var j := InverseExists(Mul(q, x));
      i := Mul(j, q);
      MulAssoc(j, q, x);
    }
  }

  lemma InverseUnique(x: bv8, i: bv8, j: bv8)
    requires Mul(i, x) == 1 && Mul(j, x) == 1
    ensures i == j
  {
    hide Product, Mul;
    MulComm(j, x);
    MulAssoc(i, x, j);
    MulOne(i);
    MulOne(j);
  }

  // The multiplicative inverse, with zero for zero.
  ghost function Inverse(x: bv8): (i: bv8)
    ensures if x == 0 then i == 0 else Mul(i, x) == 1
  {
    if x == 0 then 0
    else
      var i := InverseOf(x);
      i
  }

  ghost function InverseOf(x: bv8): (i: bv8)
    requires x != 0
    ensures Mul(i, x) == 1
  {
    assert exists i :: Mul(i, x) == 1 by {
      var i := InverseExists(x);
    }
    var i :| Mul(i, x) == 1;
    i
  }

  method Gf28ComputeInverse(x: bv8) returns (r: bv8)
    ensures r == Inverse(x)
  {
    hide Product, Mul;
    if x == 0 {
      return 0;
    }
    for i: nat := 0 to 256
      invariant forall j: nat {:trigger j as bv8} | j < i :: Mul(j as bv8, x) != 1
    {
      var m := Gf28Multiply(i as bv8, x);
      if m == 1 {
        InverseUnique(x, i as bv8, Inverse(x));
        return i as bv8;
      }
    }
    OctetRoundTrip(Inverse(x));
    assert false;
    r := 0;
  }
}
