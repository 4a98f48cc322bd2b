// Between prediction coefficients and line spectrum pairs: what the synthesis
// computes as a polynomial, and that the analysis rebuilds the same factors.
module LspInverse {
  import opened RealProducts
  import opened Complex
  import opened LspPolynomials
  import opened LspChebyshev
  import opened Lsp

  // -------------------------------------------------------------- the synthesis

  // The coefficients of (P (1 + y) + Q (1 - y)) / 2, one past the order included.
  function SynthesisSeq(P: seq<real>, Q: seq<real>): (a: seq<real>)
    requires |P| == |Q|
    ensures |a| == |P| + 1
  {
    seq(|P| + 1, j => Synthesis(P, Q, j))
  }

  lemma {:induction false} MeanPartial(f: seq<real>, g: seq<real>, h: seq<real>, z: Cpx, n: int)
    requires |f| == |g| == |h| && forall j {:trigger MeanAt(f, g, h, j)} | 0 <= j < |f| :: MeanAt(f, g, h, j)
    requires n <= |f|
    ensures Partial(h, z, n) == Scale(Add(Partial(f, z, n), Partial(g, z, n)), 0.5)
    decreases if n <= 0 then 0 else n
  {
    hide Scale, Power, Coef;
    if n <= 0 {
      MeanZero();
    } else {
      MeanPartial(f, g, h, z, n - 1);
      assert MeanAt(f, g, h, n - 1);
      MeanTerm(Partial(f, z, n - 1), Partial(g, z, n - 1), Power(z, n - 1), Coef(f, n - 1), Coef(g, n - 1));
    }
  }

  ghost predicate MeanAt(f: seq<real>, g: seq<real>, h: seq<real>, j: int) {
    Coef(h, j) == 0.5 * (Coef(f, j) + Coef(g, j))
  }

  lemma MeanZero()
    ensures Scale(Add(ZERO, ZERO), 0.5) == ZERO
  {
  }

  lemma MeanTerm(s: Cpx, t: Cpx, p: Cpx, c: real, d: real)
    ensures Add(Scale(Add(s, t), 0.5), Scale(p, 0.5 * (c + d))) == Scale(Add(Add(s, Scale(p, c)), Add(t, Scale(p, d))), 0.5)
  {
  }

  lemma LinearCoef(f: seq<real>, s: real, j: int)
    requires 0 <= j <= |f|
    ensures Coef(MulLinear(f, s), j) == Coef(f, j) + Times(s, Coef(f, j - 1))
  {
    hide Times;
  }

  lemma UnitTimes(x: real)
    ensures Times(1.0, x) == x && Times(-1.0, x) == -x
  {
  }

  lemma SynthesisIsMean(P: seq<real>, Q: seq<real>, j: int)
    requires |P| == |Q| && 0 <= j <= |P|
    ensures MeanAt(MulLinear(P, 1.0), MulLinear(Q, -1.0), SynthesisSeq(P, Q), j)
  {
    LinearCoef(P, 1.0, j);
    LinearCoef(Q, -1.0, j);
    UnitTimes(Coef(P, j - 1));
    UnitTimes(Coef(Q, j - 1));
    hide MulLinear;
  }

  // At every point, the coefficients add up to half of P (1 + z) + Q (1 - z), with P and
  // Q the products of the second order factors of even and odd line spectrum pairs.
  lemma SynthesisAt(ps: seq<real>, qs: seq<real>, z: Cpx)
    requires |ps| == |qs|
    ensures At(SynthesisSeq(Cascade(ps), Cascade(qs)), z)
         == Scale(Add(Mul(Add(ONE, z), Product(ps, z)), Mul(Sub(ONE, z), Product(qs, z))), 0.5)
  {
    hide Mul, Scale, MulLinear, Cascade, Product, SynthesisSeq;
    var P, Q := Cascade(ps), Cascade(qs);
    var f, g, a := MulLinear(P, 1.0), MulLinear(Q, -1.0), SynthesisSeq(P, Q);
    forall j {:trigger MeanAt(f, g, a, j)} | 0 <= j < |f|
      ensures MeanAt(f, g, a, j)
    {
      SynthesisIsMean(P, Q, j);
    }
    MeanPartial(f, g, a, z, |f|);
    LinearAt(P, 1.0, z);
    LinearAt(Q, -1.0, z);
    CascadeAt(ps, z);
    CascadeAt(qs, z);
    UnitScale(z);
  }

  lemma UnitScale(z: Cpx)
    ensures Scale(z, 1.0) == z && Add(ONE, Scale(z, -1.0)) == Sub(ONE, z)
  {
  }

  // The coefficient one past the order cancels, so the stored ones are all there is.
  lemma SynthesisCancels(ps: seq<real>, qs: seq<real>)
    requires |ps| == |qs|
    ensures var P, Q := Cascade(ps), Cascade(qs);
            Synthesis(P, Q, 2 * |ps| + 1) == 0.0 && Synthesis(P, Q, 0) == 1.0
  {
    hide Cascade;
    CascadePalindrome(ps);
    CascadePalindrome(qs);
  }

  // ----------------------------------------------------------------- the analysis

  // The recursions that divide A(z) + z^-(n+1) A(1/z) by 1 + z^-1, and the difference by
  // 1 - z^-1.
  function HalfP(a: seq<real>, n: nat, i: nat): real {
    if i == 0 then 1.0 else Coef(a, i) + Coef(a, n + 1 - i) - HalfP(a, n, i - 1)
  }

  function HalfQ(a: seq<real>, n: nat, i: nat): real {
    if i == 0 then 1.0 else Coef(a, i) - Coef(a, n + 1 - i) + HalfQ(a, n, i - 1)
  }

  function HalfPs(a: seq<real>, n: nat): (p: seq<real>)
    ensures |p| == n / 2 + 1
  {
    seq(n / 2 + 1, i requires 0 <= i => HalfP(a, n, i))
  }

  function HalfQs(a: seq<real>, n: nat): (q: seq<real>)
    ensures |q| == n / 2 + 1
  {
    seq(n / 2 + 1, i requires 0 <= i => HalfQ(a, n, i))
  }

  lemma HalfStep(a: seq<real>, n: nat, i: nat)
    requires i <= n / 2
    ensures HalfPs(a, n)[i] == if i == 0 then 1.0 else Coef(a, i) + Coef(a, n + 1 - i) - HalfPs(a, n)[i - 1]
    ensures HalfQs(a, n)[i] == if i == 0 then 1.0 else Coef(a, i) - Coef(a, n + 1 - i) + HalfQs(a, n)[i - 1]
  {
    hide Coef;
  }

  lemma FullCoef(p: seq<real>, m: nat, j: int)
    requires |p| == m + 1
    ensures Coef(Full(p), j) == if j < 0 || 2 * m < j then 0.0 else if j <= m then p[j] else p[2 * m - j]
  {
  }

  // For even order, the palindrome on the half coefficients times 1 + y is the symmetric
  // polynomial of a, and the other one times 1 - y the antisymmetric.
  lemma HalvesDivide(a: seq<real>, n: nat, m: nat, j: nat)
    requires n == 2 * m && |a| == n + 1 && a[0] == 1.0 && j <= n + 1
    ensures Coef(MulLinear(Full(HalfPs(a, n)), 1.0), j) == Coef(a, j) + Coef(a, n + 1 - j)
    ensures Coef(MulLinear(Full(HalfQs(a, n)), -1.0), j) == Coef(a, j) - Coef(a, n + 1 - j)
  {
    hide MulLinear, Times, Full, HalfPs, HalfQs;
    var p, q := HalfPs(a, n), HalfQs(a, n);
    var f, g := Full(p), Full(q);
    LinearCoef(f, 1.0, j);
    LinearCoef(g, -1.0, j);
    UnitTimes(Coef(f, j - 1));
    UnitTimes(Coef(g, j - 1));
    FullCoef(p, m, j);
    FullCoef(q, m, j);
    FullCoef(p, m, j - 1);
    FullCoef(q, m, j - 1);
    HalfStep(a, n, if j <= m then j else n + 1 - j);
  }

  // On coefficients that come from a synthesis, the halves are those of its two factors.
  lemma {:induction false} HalvesOfSynthesis(P: seq<real>, Q: seq<real>, a: seq<real>, i: nat)
    requires |P| == |Q| && |P| % 2 == 1 && Palindrome(P) && Palindrome(Q)
    requires Coef(P, 0) == 1.0 && Coef(Q, 0) == 1.0
    requires |a| == |P| && forall j | 0 <= j < |a| :: a[j] == Synthesis(P, Q, j)
    requires 2 * i < |P|
    ensures HalfP(a, |P| - 1, i) == Coef(P, i) && HalfQ(a, |P| - 1, i) == Coef(Q, i)
  {
    if i > 0 {
      HalvesOfSynthesis(P, Q, a, i - 1);
      var k := |P| - i;
      assert Mirrored(P, i) && Mirrored(P, i - 1) && Mirrored(Q, i) && Mirrored(Q, i - 1);
      assert Coef(a, i) == Synthesis(P, Q, i) && Coef(a, k) == Synthesis(P, Q, k);
    }
  }

  lemma FullOfHalf(P: seq<real>, p: seq<real>)
    requires |P| == 2 * |p| - 1 && Palindrome(P) && forall i | 0 <= i < |p| :: p[i] == Coef(P, i)
    ensures Full(p) == P
  {
    forall j | 0 <= j < |P|
      ensures Full(p)[j] == P[j]
    {
      assert Mirrored(P, j);
    }
  }

  // What the root search evaluates on synthesised coefficients: the products over even
  // and over odd line spectrum pairs.
  lemma SearchSeesProducts(ps: seq<real>, qs: seq<real>, a: seq<real>, x: real)
    requires |ps| == |qs| && |a| == 2 * |ps| + 1
    requires forall j | 0 <= j < |a| :: a[j] == Synthesis(Cascade(ps), Cascade(qs), j)
    ensures var n, m := 2 * |ps|, |ps|;
            && EvaSum(Doubled(HalfPs(a, n)), m, x, m + 1) == RootProduct(ps, x)
            && EvaSum(Doubled(HalfQs(a, n)), m, x, m + 1) == RootProduct(qs, x)
  {
    hide Cascade, EvaSum, Series, RootProduct, Synthesis, Palindrome;
    var n, P, Q := 2 * |ps|, Cascade(ps), Cascade(qs);
    var p, q := HalfPs(a, n), HalfQs(a, n);
    CascadePalindrome(ps);
    CascadePalindrome(qs);
    forall i | 0 <= i < |p|
      ensures p[i] == Coef(P, i) && q[i] == Coef(Q, i)
    {
      HalvesOfSynthesis(P, Q, a, i);
    }
    FullOfHalf(P, p);
    FullOfHalf(Q, q);
    EvaIsSeries(p, x);
    EvaIsSeries(q, x);
    CascadeSeries(ps, x);
    CascadeSeries(qs, x);
  }

  // --------------------------------------------------------------------- brackets

  // No factor changes its sign on an interval without a root.
  lemma {:induction false} NoRootNoSign(xs: seq<real>, l: real, r: real)
    requires r <= l && forall t | t in xs :: !(r <= t <= l)
    ensures Times(RootProduct(xs, l), RootProduct(xs, r)) > 0.0
  {
    if xs == [] {
      TimesAdds(1.0, 0.0, 0.0, 0.0);
    } else {
      hide Times;
      var ys, t := xs[..|xs| - 1], xs[|xs| - 1];
      forall s | s in ys
        ensures !(r <= s <= l)
      {
        assert s in xs;
      }
      NoRootNoSign(ys, l, r);
      var a, b, u, v := 2.0 * (l - t), 2.0 * (r - t), RootProduct(ys, l), RootProduct(ys, r);
      assert t in xs;
      ProductPositive(a, b);
      ProductPositive(-a, -b);
      ProductPositive(Times(a, b), Times(u, v));
      FourFactors(a, u, b, v);
    }
  }

  lemma FourFactors(a: real, u: real, b: real, v: real)
    ensures Times(Times(a, u), Times(b, v)) == Times(Times(a, b), Times(u, v))
  {
  }

  // Where the series does not keep its sign, there is a line spectrum pair.
  lemma BracketHoldsRoot(xs: seq<real>, l: real, r: real)
    requires r <= l && Times(RootProduct(xs, l), RootProduct(xs, r)) <= 0.0
    ensures exists t :: t in xs && r <= t <= l
  {
    hide Times, RootProduct;
    if forall t | t in xs :: !(r <= t <= l) {
      NoRootNoSign(xs, l, r);
    }
  }
}
