// Octets as numbers below 256, with exclusive or by its bits: for the modules that
// count and compare octets more than they combine them.
module Octets {

  type Octet = n: nat | n < 256

  function Power2(n: nat): (p: nat)
    ensures p > 0
  {
    if n == 0 then 1 else 2 * Power2(n - 1)
  }

  // Bit by bit: a sum without carry.
  function XorBits(a: nat, b: nat, n: nat): (x: nat)
    ensures x < Power2(n)
  {
    if n == 0 then 0 else (a + b) % 2 + 2 * XorBits(a / 2, b / 2, n - 1)
  }

  lemma TwoToTheEighth()
    ensures Power2(8) == 256
  {
    assert Power2(4) == 16;
  }

  function Xor(a: Octet, b: Octet): Octet {
    TwoToTheEighth();
    XorBits(a, b, 8)
  }

  lemma Halves(p: nat, x: nat)
    requires p < 2
    ensures (p + 2 * x) / 2 == x
  {
  }

  lemma SumTwice(a: nat, b: nat, p: nat, x: nat)
    requires p == (a + b) % 2
    ensures (p + 2 * x + b) % 2 == a % 2
  {
    var h, k := a / 2, b / 2;
    assert a == 2 * h + a % 2 && b == 2 * k + b % 2;
  }

  lemma XorUnrolled(a: nat, b: nat, n: nat)
    requires n > 0
    ensures XorBits(a, b, n) == (a + b) % 2 + 2 * XorBits(a / 2, b / 2, n - 1)
  {
  }

  lemma {:induction false} XorBitsTwice(a: nat, b: nat, n: nat)
    requires a < Power2(n)
    ensures XorBits(XorBits(a, b, n), b, n) == a
  {
    if n > 0 {
      assert a / 2 < Power2(n - 1);
      hide XorBits, Power2;
      var p, x := (a + b) % 2, XorBits(a / 2, b / 2, n - 1);
      XorUnrolled(a, b, n);
      XorUnrolled(p + 2 * x, b, n);
      Halves(p, x);
      SumTwice(a, b, p, x);
      XorBitsTwice(a / 2, b / 2, n - 1);
    }
  }

  lemma {:induction false} XorBitsComm(a: nat, b: nat, n: nat)
    ensures XorBits(a, b, n) == XorBits(b, a, n)
  {
    if n > 0 {
      XorBitsComm(a / 2, b / 2, n - 1);
    }
  }

  lemma {:induction false} XorBitsZero(a: nat, n: nat)
    requires a < Power2(n)
    ensures XorBits(a, 0, n) == a
  {
    if n > 0 {
      XorBitsZero(a / 2, n - 1);
    }
  }

  lemma XorTwice(a: Octet, b: Octet)
    ensures Xor(Xor(a, b), b) == a
  {
    TwoToTheEighth();
    XorBitsTwice(a, b, 8);
  }

  lemma XorComm(a: Octet, b: Octet)
    ensures Xor(a, b) == Xor(b, a)
  {
    XorBitsComm(a, b, 8);
  }

  lemma XorZero(a: Octet)
    ensures Xor(a, 0) == a && Xor(0, a) == a
  {
    TwoToTheEighth();
    XorBitsZero(a, 8);
    XorComm(a, 0);
  }

  // Combining with the same octet keeps octets apart.
  lemma XorInjective(k: Octet, a: Octet, b: Octet)
    requires Xor(k, a) == Xor(k, b)
    ensures a == b
  {
    hide Xor;
    XorComm(k, a);
    XorComm(k, b);
    XorTwice(a, k);
    XorTwice(b, k);
  }

  type Block = s: seq<Octet> | |s| == 16 witness seq(16, i => 0)

  function XorBlocks(a: Block, b: Block): (c: Block) {
    seq(16, i requires 0 <= i < 16 => Xor(a[i], b[i]))
  }

  lemma XorBlocksTwice(a: Block, b: Block)
    ensures XorBlocks(XorBlocks(a, b), b) == a
  {
    hide Xor;
    forall i | 0 <= i < 16
      ensures XorBlocks(XorBlocks(a, b), b)[i] == a[i]
    {
      XorTwice(a[i], b[i]);
    }
  }
}
