// The table of roots of unity that a transform plan holds, read as a function on
// all exponents, and the values of its half, third, quarter and fifth turns.
module Twiddles {
  import opened Complex
  import opened NatArith
  import opened RingSums

  const CR: Ring<Cpx> := Ring(ZERO, (a, b) => Add(a, b), (a, b) => Mul(a, b))

  lemma CpxIsRing()
    ensures IsRing(CR)
  {
    forall a, b, c
      ensures CR.MulAssoc(a, b, c) && CR.Distributes(a, b, c)
    {
      MulAssoc(a, b, c);
      MulAdd(a, b, c);
    }
    forall a, b
      ensures CR.MulComm(a, b)
    {
      MulComm(a, b);
    }
  }

  // w is k -> exp(-2*pi*i*k/n), or its conjugate for an inverse plan.  The laws of
  // cos and sin are taken as given: angles add, the modulus is one, n steps make a
  // full turn and fewer do not, and a quarter turn is -i (forward) or i (inverse).
  ghost predicate IsRoots(w: nat -> Cpx, n: nat, inverse: bool) {
    && n >= 1
    && w(0) == ONE && w(n) == ONE
    && IsCharacter(CR, w)
    && (forall k: nat {:trigger OnUnitCircle(w(k))} :: OnUnitCircle(w(k)))
    && (forall k | 0 < k < n :: w(k) != ONE)
    && (forall h: nat | 4 * h == n :: w(h) == Cpx(0.0, if inverse then 1.0 else -1.0))
  }

  ghost predicate OnUnitCircle(a: Cpx) { a.r * a.r + a.i * a.i == 1.0 }

  // What kiss_fft_alloc leaves in its table.
  ghost predicate Tabulates(tw: seq<Cpx>, w: nat -> Cpx) {
    forall k | 0 <= k < |tw| :: tw[k] == w(k)
  }

  lemma ExpAdd(w: nat -> Cpx, n: nat, inverse: bool, a: nat, b: nat)
    requires IsRoots(w, n, inverse)
    ensures w(a + b) == Mul(w(a), w(b))
  {
    assert ExponentRule(CR, w, a, b);
  }

  lemma {:induction false} FullTurns(w: nat -> Cpx, n: nat, inverse: bool, q: nat)
    requires IsRoots(w, n, inverse)
    ensures w(q * n) == ONE
  {
    hide Mul;
    if q > 0 {
      FullTurns(w, n, inverse, q - 1);
      assert q * n == (q - 1) * n + n;
      ExpAdd(w, n, inverse, (q - 1) * n, n);
      MulOne(ONE);
    } else {
      assert q * n == 0;
    }
  }

  lemma ExpPeriod(w: nat -> Cpx, n: nat, inverse: bool, a: nat, q: nat)
    requires IsRoots(w, n, inverse)
    ensures w(q * n + a) == w(a)
  {
    hide Mul;
    FullTurns(w, n, inverse, q);
    ExpAdd(w, n, inverse, q * n, a);
    MulOne(w(a));
  }

  lemma ExpConj(w: nat -> Cpx, n: nat, inverse: bool, a: nat, b: nat)
    requires IsRoots(w, n, inverse) && a + b == n
    ensures w(b) == Conj(w(a))
  {
    hide Mul;
    var x, y := w(a), w(b);
    assert OnUnitCircle(x);
    assert Mul(x, y) == ONE by {
      ExpAdd(w, n, inverse, a, b);
    }
    UnitInverse(x, y);
  }

  // On the unit circle the inverse is the conjugate.
  lemma UnitInverse(a: Cpx, b: Cpx)
    requires OnUnitCircle(a) && Mul(a, b) == ONE
    ensures b == Conj(a)
  {
    assert Mul(Conj(a), Mul(a, b)) == Mul(Mul(Conj(a), a), b) by { MulAssoc(Conj(a), a, b); }
    assert Mul(Conj(a), a) == ONE;
    assert Mul(ONE, b) == b;
  }

  lemma ZeroProduct(x: real, y: real)
    requires x * y == 0.0
    ensures x == 0.0 || y == 0.0
  {
  }

  lemma SquareRootOfOne(w: Cpx)
    requires Mul(w, w) == ONE && w != ONE
    ensures w == Cpx(-1.0, 0.0)
  {
    assert w.r * w.i == 0.0;
    assert w.r == 0.0 || w.i == 0.0;
    assert (w.r - 1.0) * (w.r + 1.0) == w.i * w.i;
  }

  lemma CubeRootOfOne(w: Cpx)
    requires Mul(w, w) == Conj(w) && OnUnitCircle(w) && w != ONE
    ensures w.r == -0.5
  {
    assert w.r * w.r - w.i * w.i == w.r;
    assert (2.0 * w.r + 1.0) * (w.r - 1.0) == 0.0;
    ZeroProduct(2.0 * w.r + 1.0, w.r - 1.0);
    if w.r == 1.0 {
      ZeroProduct(w.i, w.i);
    }
  }

  lemma HalfTurn(w: nat -> Cpx, n: nat, inverse: bool, h: nat)
    requires IsRoots(w, n, inverse) && 2 * h == n
    ensures w(h) == Cpx(-1.0, 0.0)
  {
    hide Mul;
    ExpAdd(w, n, inverse, h, h);
    assert h + h == n;
    SquareRootOfOne(w(h));
  }

  lemma QuarterTurns(w: nat -> Cpx, n: nat, inverse: bool, h: nat)
    requires IsRoots(w, n, inverse) && 4 * h == n
    ensures w(h) == Cpx(0.0, if inverse then 1.0 else -1.0)
    ensures w(h * 2) == Cpx(-1.0, 0.0)
    ensures w(h * 3) == Cpx(0.0, if inverse then -1.0 else 1.0)
  {
    hide Mul;
    HalfTurn(w, n, inverse, h * 2);
    ExpConj(w, n, inverse, h, h * 3);
  }

  lemma CubeRoot(w: nat -> Cpx, n: nat, inverse: bool, h: nat)
    requires IsRoots(w, n, inverse) && 0 < h < n && Mul(w(h), w(h)) == Conj(w(h))
    ensures w(h).r == -0.5
  {
    hide Mul;
    assert OnUnitCircle(w(h));
    CubeRootOfOne(w(h));
  }

  lemma ThirdTurns(w: nat -> Cpx, n: nat, inverse: bool, h: nat)
    requires IsRoots(w, n, inverse) && 3 * h == n
    ensures w(h).r == -0.5
    ensures w(h * 2) == Conj(w(h))
  {
    hide Mul;
    ExpAdd(w, n, inverse, h, h);
    assert h * 2 == h + h;
    ExpConj(w, n, inverse, h, h * 2);
    CubeRoot(w, n, inverse, h);
  }

  lemma FifthTurns(w: nat -> Cpx, n: nat, inverse: bool, h: nat)
    requires IsRoots(w, n, inverse) && 5 * h == n
    ensures w(h * 3) == Conj(w(h * 2))
    ensures w(h * 4) == Conj(w(h))
  {
    hide Mul;
    ExpConj(w, n, inverse, h * 2, h * 3);
    ExpConj(w, n, inverse, h, h * 4);
  }
}
