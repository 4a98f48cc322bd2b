// Exact complex arithmetic: the pair of reals that kiss_fft_cpx holds, without
// rounding, and the field facts the transforms need.
module Complex {
  import opened RealProducts

  datatype Cpx = Cpx(r: real, i: real)

  const ZERO := Cpx(0.0, 0.0)
  const ONE := Cpx(1.0, 0.0)

  function Add(a: Cpx, b: Cpx): Cpx { Cpx(a.r + b.r, a.i + b.i) }

  function Sub(a: Cpx, b: Cpx): Cpx { Cpx(a.r - b.r, a.i - b.i) }

  function Mul(a: Cpx, b: Cpx): Cpx { Cpx(a.r * b.r - a.i * b.i, a.r * b.i + a.i * b.r) }

  function Conj(a: Cpx): Cpx { Cpx(a.r, -a.i) }

  // C_MULBYSCALAR
  function Scale(a: Cpx, s: real): Cpx { Cpx(Times(a.r, s), Times(a.i, s)) }

  // a scaled by s and turned by -i
  function Across(a: Cpx, s: real): Cpx { Cpx(Times(a.i, s), -Times(a.r, s)) }

  lemma MulOne(a: Cpx)
    ensures Mul(ONE, a) == a && Mul(a, ONE) == a
  {
  }

  lemma MulAssoc(a: Cpx, b: Cpx, c: Cpx)
    ensures Mul(Mul(a, b), c) == Mul(a, Mul(b, c))
  {
  }

  lemma MulComm(a: Cpx, b: Cpx)
    ensures Mul(a, b) == Mul(b, a)
  {
  }

  lemma MulAdd(a: Cpx, b: Cpx, c: Cpx)
    ensures Mul(a, Add(b, c)) == Add(Mul(a, b), Mul(a, c))
    ensures Mul(Add(b, c), a) == Add(Mul(b, a), Mul(c, a))
  {
  }

  // A pair of terms with conjugate factors needs only sums and differences.
  function ConjPair(b: Cpx, c: Cpx, e: Cpx): Cpx {
    Sub(Scale(Add(b, c), e.r), Across(Sub(b, c), e.i))
  }

  lemma MulConjPair(b: Cpx, c: Cpx, e: Cpx)
    ensures Add(Mul(b, e), Mul(c, Conj(e))) == ConjPair(b, c, e)
  {
    ProductPair(b.r, c.r, e.r);
    ProductPair(b.i, c.i, e.r);
    ProductPair(b.r, c.r, e.i);
    ProductPair(b.i, c.i, e.i);
  }

  lemma ProductPair(x: real, y: real, s: real)
    ensures (x + y) * s == x * s + y * s && (x - y) * s == x * s - y * s && y * -s == -(y * s)
  {
  }

  lemma ConjPairSwap(b: Cpx, c: Cpx, e: Cpx)
    ensures ConjPair(c, b, e) == Add(Scale(Add(b, c), e.r), Across(Sub(b, c), e.i))
  {
    assert Times(c.r - b.r, e.i) == -Times(b.r - c.r, e.i);
    assert Times(c.i - b.i, e.i) == -Times(b.i - c.i, e.i);
  }

  lemma ConjMul(a: Cpx, b: Cpx)
    ensures Conj(Mul(a, b)) == Mul(Conj(a), Conj(b))
  {
  }

  // The complex numbers have no zero divisors.
  lemma NoZeroDivisors(a: Cpx, b: Cpx)
    requires Mul(a, b) == ZERO
    ensures a == ZERO || b == ZERO
  {
    var na, nb := a.r * a.r + a.i * a.i, b.r * b.r + b.i * b.i;
    assert na * nb == Mul(a, b).r * Mul(a, b).r + Mul(a, b).i * Mul(a, b).i == 0.0;
    assert na == 0.0 || nb == 0.0;
  }
}
