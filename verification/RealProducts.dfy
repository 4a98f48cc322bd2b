// Products of reals under a name, so that they stay apart from the linear reasoning
// around them, and the few laws that are needed of them.
module RealProducts {

  function Times(x: real, y: real): real { x * y }

  // A sequence of coefficients, zero outside.
  function Coef(f: seq<real>, j: int): real {
    if 0 <= j < |f| then f[j] else 0.0
  }

  lemma TimesAdds(x: real, k: real, y: real, r: real)
    ensures Times(x + Times(k, y), r) == Times(x, r) + Times(k, Times(y, r))
    ensures Times(k, x + y) == Times(k, x) + Times(k, y)
    ensures Times(0.0, x) == 0.0 && Times(x, 0.0) == 0.0 && Times(1.0, x) == x && Times(x, 1.0) == x
  {
  }

  lemma TimesComm(x: real, y: real)
    ensures Times(x, y) == Times(y, x)
  {
  }

  lemma TimesAssoc(x: real, y: real, z: real)
    ensures Times(Times(x, y), z) == Times(x, Times(y, z))
  {
  }

  lemma ProductPositive(x: real, y: real)
    ensures x > 0.0 && y > 0.0 ==> Times(x, y) > 0.0
    ensures x == 0.0 ==> Times(x, y) == 0.0
    ensures Times(-x, -y) == Times(x, y) && Times(-x, y) == -Times(x, y) && Times(x, -y) == -Times(x, y)
  {
  }

  lemma SquarePositive(x: real)
    ensures Times(x, x) >= 0.0 && (x != 0.0 ==> Times(x, x) > 0.0)
  {
    hide Times;
    ProductPositive(x, x);
    ProductPositive(-x, -x);
  }

  lemma PositiveFactor(x: real, e: real)
    requires e > 0.0
    ensures Times(x, e) > 0.0 ==> x > 0.0
  {
    if x <= 0.0 {
      assert -x * e >= 0.0;
    }
  }

  // ------------------------------------------------------------------- quotients

  function Quotient(y: real, delta: real): (q: real)
    requires delta > 0.0
    ensures y >= 0.0 ==> q >= 0.0
  {
    y / delta
  }

  lemma QuotientBack(y: real, delta: real)
    requires delta > 0.0
    ensures Quotient(y, delta) * delta == y
  {
  }

  lemma InOrder(a: real, b: real, delta: real)
    requires a <= b && delta > 0.0
    ensures a * delta <= b * delta
  {
  }
}
