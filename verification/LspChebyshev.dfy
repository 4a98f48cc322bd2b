// Chebyshev series: why the series that the root search evaluates is the symmetric
// polynomial on the unit circle, and a product over the line spectrum pairs.
module LspChebyshev {
  import opened RealProducts
  import opened Complex
  import opened LspPolynomials

  function T(n: nat, x: real): real {
    if n == 0 then 1.0 else if n == 1 then x else Times(2.0 * x, T(n - 1, x)) - T(n - 2, x)
  }

  // T is even in its order.
  function TI(n: int, x: real): real { T(if n < 0 then -n else n, x) }

  lemma ThreeTerms(n: int, x: real)
    ensures TI(n - 1, x) + TI(n + 1, x) == Times(2.0 * x, TI(n, x))
  {
    if n == 0 {
      TimesAdds(2.0 * x, 0.0, 0.0, 0.0);
    }
  }

  // sum over j < n of f[j] * T(|j - c|)
  function Series(f: seq<real>, c: int, x: real, n: int): real
    decreases if n <= 0 then 0 else n
  {
    if n <= 0 then 0.0 else Series(f, c, x, n - 1) + Times(Coef(f, n - 1), TI(n - 1 - c, x))
  }

  lemma {:induction false} SeriesBeyond(f: seq<real>, c: int, x: real, n: int)
    requires n >= |f|
    ensures Series(f, c, x, n) == Series(f, c, x, |f|)
    decreases n
  {
    hide Times, TI;
    if n > |f| {
      SeriesBeyond(f, c, x, n - 1);
      TimesAdds(TI(n - 1 - c, x), 0.0, 0.0, 0.0);
    }
  }

  lemma ThreeProducts(c0: real, b: real, c1: real, c2: real, t: real)
    ensures Times(c0 - Times(b, c1) + c2, t) == Times(c0, t) - Times(b, Times(c1, t)) + Times(c2, t)
  {
  }

  lemma TimesSum(b: real, x: real, y: real)
    ensures Times(b, x + y) == Times(b, x) + Times(b, y) && Times(x + y, b) == Times(x, b) + Times(y, b)
    ensures Times(b, x - y) == Times(b, x) - Times(b, y) && Times(x - y, b) == Times(x, b) - Times(y, b)
    ensures Times(b, 0.0) == 0.0
  {
  }

  lemma {:induction false} SeriesQuadratic(f: seq<real>, a: real, c: int, x: real, n: int)
    requires n <= |f| + 2
    ensures Series(MulQuadratic(f, a), c, x, n)
         == Series(f, c, x, n) - Times(2.0 * a, Series(f, c - 1, x, n - 1)) + Series(f, c - 2, x, n - 2)
    decreases if n <= 0 then 0 else n
  {
    hide Times, TI, MulQuadratic;
    var b := 2.0 * a;
    if n <= 0 {
      TimesSum(b, 0.0, 0.0);
    } else {
      var j := n - 1;
      QuadraticCoef(f, a, j);
      SeriesQuadratic(f, a, c, x, j);
      var t, c1 := TI(j - c, x), Coef(f, j - 1);
      ThreeProducts(Coef(f, j), b, c1, Coef(f, j - 2), t);
      TimesAdds(t, 0.0, 0.0, 0.0);
      OneMoreTerm(f, c - 1, x, j);
      OneMoreTerm(f, c - 2, x, j - 1);
      TimesSum(b, Series(f, c - 1, x, j - 1), Times(c1, t));
    }
  }

  // Also below the first term, where the coefficient is zero.
  lemma OneMoreTerm(f: seq<real>, c: int, x: real, n: int)
    ensures Series(f, c, x, n) == Series(f, c, x, n - 1) + Times(Coef(f, n - 1), TI(n - 1 - c, x))
  {
    TimesAdds(TI(n - 1 - c, x), 0.0, 0.0, 0.0);
    hide Times;
  }

  lemma {:induction false} SeriesNeighbours(f: seq<real>, c: int, x: real, n: int)
    ensures Series(f, c + 1, x, n) + Series(f, c - 1, x, n) == Times(2.0 * x, Series(f, c, x, n))
    decreases if n <= 0 then 0 else n
  {
    hide Times, TI;
    var b := 2.0 * x;
    if n <= 0 {
      TimesSum(b, 0.0, 0.0);
    } else {
      var j := n - 1;
      SeriesNeighbours(f, c, x, j);
      var t, k := TI(j - c, x), Coef(f, j);
      ThreeTerms(j - c, x);
      TimesSum(k, TI(j - c - 1, x), TI(j - c + 1, x));
      TimesAssoc(b, k, t);
      TimesComm(b, k);
      TimesAssoc(k, b, t);
      TimesSum(b, Series(f, c, x, j), Times(k, t));
    }
  }

  // A second order factor turns into 2(x - a).
  lemma SeriesFactor(f: seq<real>, a: real, c: int, x: real)
    ensures Series(MulQuadratic(f, a), c + 1, x, |f| + 2) == Times(2.0 * (x - a), Series(f, c, x, |f|))
  {
    hide Times, TI;
    var n, s := |f|, Series(f, c, x, |f|);
    SeriesQuadratic(f, a, c + 1, x, n + 2);
    SeriesBeyond(f, c + 1, x, n + 2);
    SeriesBeyond(f, c, x, n + 1);
    SeriesNeighbours(f, c, x, n);
    TimesSum(s, 2.0 * x, 2.0 * a);
    assert 2.0 * (x - a) == 2.0 * x - 2.0 * a;
  }

  // the product of 2(x - t) over all t in xs
  function RootProduct(xs: seq<real>, x: real): real {
    if xs == [] then 1.0 else Times(2.0 * (x - xs[|xs| - 1]), RootProduct(xs[..|xs| - 1], x))
  }

  lemma EmptySeries(x: real)
    ensures Series([1.0], 0, x, 1) == 1.0
  {
    TimesAdds(1.0, 0.0, 0.0, 0.0);
    assert Series([1.0], 0, x, 1) == Series([1.0], 0, x, 0) + Times(1.0, TI(0, x));
  }

  // The Chebyshev series of a cascade vanishes exactly at its line spectrum pairs.
  lemma {:induction false} CascadeSeries(xs: seq<real>, x: real)
    ensures Series(Cascade(xs), |xs|, x, 2 * |xs| + 1) == RootProduct(xs, x)
  {
    hide Times, TI, MulQuadratic, Series;
    if xs == [] {
      EmptySeries(x);
    } else {
      var ys := xs[..|xs| - 1];
      CascadeSeries(ys, x);
      SeriesFactor(Cascade(ys), xs[|xs| - 1], |ys|, x);
    }
  }

  // ------------------------------------------------------------ half coefficients

  // Half of a palindrome, all but its last entry doubled, as the root search uses it.
  function Doubled(p: seq<real>): (d: seq<real>)
    ensures |d| == |p|
  {
    seq(|p|, j requires 0 <= j < |p| => if j < |p| - 1 then 2.0 * p[j] else p[j])
  }

  // The palindrome whose first half is p.
  function Full(p: seq<real>): (f: seq<real>)
    requires |p| > 0
    ensures |f| == 2 * |p| - 1
  {
    seq(2 * |p| - 1, j requires 0 <= j < 2 * |p| - 1 => if j < |p| then p[j] else p[2 * |p| - 2 - j])
  }

  // sum over i < n of coef[m - i] * T(i), what cheb_poly_eva adds up
  function EvaSum(coef: seq<real>, m: int, x: real, n: nat): real {
    if n == 0 then 0.0 else EvaSum(coef, m, x, n - 1) + Times(Coef(coef, m - (n - 1)), T(n - 1, x))
  }

  // The terms within k of the middle.
  lemma {:induction false} EvaIsWindow(p: seq<real>, x: real, k: nat)
    requires k < |p|
    ensures var m := |p| - 1;
            Series(Full(p), m, x, m + k + 1) - Series(Full(p), m, x, m - k) == EvaSum(Doubled(p), m, x, k + 1)
  {
    hide Times, T;
    var m, f, d := |p| - 1, Full(p), Doubled(p);
    if k == 0 {
      assert EvaSum(d, m, x, 1) == EvaSum(d, m, x, 0) + Times(Coef(d, m), T(0, x));
      assert Series(f, m, x, m + 1) == Series(f, m, x, m) + Times(Coef(f, m), TI(0, x));
    } else {
      EvaIsWindow(p, x, k - 1);
      var c, t := p[m - k], T(k, x);
      assert Series(f, m, x, m + k + 1) == Series(f, m, x, m + k) + Times(Coef(f, m + k), TI(k, x));
      var l: int := m - k;
      assert Series(f, m, x, l + 1) == Series(f, m, x, l) + Times(Coef(f, l), TI(l - m, x));
      TimesSum(t, c, c);
      assert Coef(d, m - k) == c + c;
    }
  }

  // The series on the half coefficients is the series of the whole palindrome.
  lemma EvaIsSeries(p: seq<real>, x: real)
    requires |p| > 0
    ensures EvaSum(Doubled(p), |p| - 1, x, |p|) == Series(Full(p), |p| - 1, x, 2 * |p| - 1)
  {
    hide Times, T;
    EvaIsWindow(p, x, |p| - 1);
  }

  // -------------------------------------------------------- on the unit circle

  lemma {:induction false} PowerAdds(z: Cpx, a: nat, b: nat)
    ensures Power(z, a + b) == Mul(Power(z, a), Power(z, b))
    decreases a
  {
    hide Mul;
    if a == 0 {
      MulOne(Power(z, b));
    } else {
      PowerAdds(z, a - 1, b);
      MulAssoc(z, Power(z, a - 1), Power(z, b));
    }
  }

  // x is half of z + 1/z.
  ghost predicate OnCircle(z: Cpx, x: real) { Scale(z, 2.0 * x) == Add(ONE, Mul(z, z)) }

  // z^n * 2T(n) == 1 + z^(2n)
  lemma {:induction false} PowerOfT(z: Cpx, x: real, n: nat)
    requires OnCircle(z, x)
    ensures Scale(Power(z, n), 2.0 * T(n, x)) == Add(ONE, Power(z, 2 * n))
  {
    hide Mul, Scale;
    if n == 0 {
      ScaleAdds(ONE, 1.0, 1.0);
      ScaleZero(ONE);
    } else if n == 1 {
      MulOne(z);
      assert Power(z, 1) == z && Power(z, 2) == Mul(z, Mul(z, ONE));
    } else {
      PowerOfT(z, x, n - 1);
      PowerOfT(z, x, n - 2);
      PowerStep(z, x, n, Power(z, n - 2), Power(z, n - 1), T(n - 2, x), T(n - 1, x), Power(z, 2 * n - 4), Power(z, 2 * n - 2));
      assert Power(z, 2 * n - 2) == Mul(z, Mul(z, Power(z, 2 * n - 4)));
    }
  }

  lemma PowerStep(z: Cpx, x: real, n: nat, p2: Cpx, p1: Cpx, t2: real, t1: real, q2: Cpx, q1: Cpx)
    requires OnCircle(z, x) && p1 == Mul(z, p2) && q1 == Mul(z, Mul(z, q2))
    requires Scale(p2, 2.0 * t2) == Add(ONE, q2) && Scale(p1, 2.0 * t1) == Add(ONE, q1)
    ensures Scale(Mul(z, p1), 2.0 * (Times(2.0 * x, t1) - t2)) == Add(ONE, Mul(z, Mul(z, q1)))
  {
    hide Mul, Scale, Times;
    var w, zz := Mul(z, p1), Mul(z, z);
    assert 2.0 * (Times(2.0 * x, t1) - t2) == Times(2.0 * x, 2.0 * t1) - 2.0 * t2 by { DoubleTimes(2.0 * x, t1); }
    ScaleAdds(w, Times(2.0 * x, 2.0 * t1), 2.0 * t2);
    // the first part: 2x z * (2 t1 p1)
    ScaleTwice(w, 2.0 * x, 2.0 * t1);
    ScaleMul(z, p1, 2.0 * x);
    assert Scale(w, 2.0 * x) == Mul(Add(ONE, zz), p1);
    ScaleMul(Add(ONE, zz), p1, 2.0 * t1);
    MulAdd(Add(ONE, zz), ONE, q1);
    MulAdd(q1, ONE, zz);
    MulOne(Add(ONE, zz));
    MulOne(q1);
    // the second part: z^2 * (2 t2 p2)
    MulAssoc(z, z, p2);
    ScaleMul(zz, p2, 2.0 * t2);
    MulAdd(zz, ONE, q2);
    MulOne(zz);
    MulAssoc(z, z, q2);
    MulAssoc(z, z, q1);
  }

  lemma DoubleTimes(b: real, t: real)
    ensures Times(b, 2.0 * t) == 2.0 * Times(b, t)
  {
  }

  lemma EvaStep(d: seq<real>, m: int, x: real, k: nat)
    ensures EvaSum(d, m, x, k + 1) == EvaSum(d, m, x, k) + Times(Coef(d, m - k), T(k, x))
    ensures EvaSum(d, m, x, 0) == 0.0
  {
    hide Times, T;
  }

  // The terms within k of the middle, at a point of the circle.
  lemma {:induction false} WindowAt(p: seq<real>, z: Cpx, x: real, k: nat)
    requires k < |p| && OnCircle(z, x)
    ensures var m := |p| - 1;
            Partial(Full(p), z, m + k + 1) == Add(Partial(Full(p), z, m - k), Scale(Power(z, m), EvaSum(Doubled(p), m, x, k + 1)))
  {
    hide Mul, Scale, Times, T, Power, OnCircle, EvaSum;
    var m, f, d := |p| - 1, Full(p), Doubled(p);
    var w := Power(z, m);
    EvaStep(d, m, x, k);
    if k == 0 {
      assert Partial(f, z, m + 1) == Add(Partial(f, z, m), Scale(w, Coef(f, m)));
      assert T(0, x) == 1.0 by { FirstT(x); }
      TimesAdds(Coef(d, m), 0.0, 0.0, 0.0);
    } else {
      WindowAt(p, z, x, k - 1);
      var c, t, v := p[m - k], T(k, x), Power(z, m - k);
      assert Partial(f, z, m + k + 1) == Add(Partial(f, z, m + k), Scale(Power(z, m + k), Coef(f, m + k)));
      assert Partial(f, z, m - k + 1) == Add(Partial(f, z, m - k), Scale(v, Coef(f, m - k)));
      assert Coef(d, m - k) == 2.0 * c;
      ScaleAdds(w, EvaSum(d, m, x, k), Times(2.0 * c, t));
      PairOfTerms(z, x, m - k, k, c);
    }
  }

  lemma FirstT(x: real)
    ensures T(0, x) == 1.0
  {
  }

  // c z^(m-k) + c z^(m+k) == 2c T(k) z^m
  lemma PairOfTerms(z: Cpx, x: real, l: nat, k: nat, c: real)
    requires OnCircle(z, x)
    ensures Add(Scale(Power(z, l), c), Scale(Power(z, l + 2 * k), c)) == Scale(Power(z, l + k), Times(2.0 * c, T(k, x)))
  {
    hide Mul, Scale, Times, T;
    var v, u, t := Power(z, l), Power(z, k), T(k, x);
    PowerAdds(z, l, 2 * k);
    PowerAdds(z, l, k);
    PowerOfT(z, x, k);
    MulAdd(v, ONE, Power(z, 2 * k));
    MulOne(v);
    ScaleMul(v, u, 2.0 * t);
    ScaleTwice(Mul(v, u), 2.0 * t, c);
    assert Times(2.0 * c, t) == Times(2.0 * t, c) by { SwapDouble(c, t); }
    ScaleSum(v, Mul(v, Power(z, 2 * k)), c);
  }

  lemma SwapDouble(c: real, t: real)
    ensures Times(2.0 * c, t) == Times(2.0 * t, c)
  {
  }

  lemma ScaleSum(a: Cpx, b: Cpx, c: real)
    ensures Scale(Add(a, b), c) == Add(Scale(a, c), Scale(b, c))
  {
  }

  // What cheb_poly_eva returns, times z^m, is the palindrome at z, wherever x is half
  // of z + 1/z: on the unit circle, x is the cosine of the angle.
  lemma EvaOnCircle(p: seq<real>, z: Cpx, x: real)
    requires |p| > 0 && OnCircle(z, x)
    ensures At(Full(p), z) == Scale(Power(z, |p| - 1), EvaSum(Doubled(p), |p| - 1, x, |p|))
  {
    hide Mul, Scale, Times, T, Power, OnCircle, Full, Doubled;
    WindowAt(p, z, x, |p| - 1);
  }
}
