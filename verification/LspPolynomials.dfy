// The polynomials behind line spectrum pairs: cascades of second order factors, their
// values at complex points, and their Chebyshev form on the real line.
module LspPolynomials {
  import opened RealProducts
  import opened Complex

  // f times 1 - 2a y + y^2, by coefficients
  function MulQuadratic(f: seq<real>, a: real): (g: seq<real>)
    ensures |g| == |f| + 2
  {
    seq(|f| + 2, j => Coef(f, j) - Times(2.0 * a, Coef(f, j - 1)) + Coef(f, j - 2))
  }

  lemma QuadraticCoef(f: seq<real>, a: real, j: int)
    requires j >= 0
    ensures Coef(MulQuadratic(f, a), j) == Coef(f, j) - Times(2.0 * a, Coef(f, j - 1)) + Coef(f, j - 2)
  {
    TimesAdds(2.0 * a, 0.0, 0.0, 0.0);
    hide Times;
  }

  // the product of 1 - 2x y + y^2 over all x in xs
  function Cascade(xs: seq<real>): (f: seq<real>)
    ensures |f| == 2 * |xs| + 1
  {
    if xs == [] then [1.0] else MulQuadratic(Cascade(xs[..|xs| - 1]), xs[|xs| - 1])
  }

  // f times 1 + s y
  function MulLinear(f: seq<real>, s: real): (g: seq<real>)
    ensures |g| == |f| + 1
  {
    seq(|f| + 1, j => Coef(f, j) + Times(s, Coef(f, j - 1)))
  }

  // -------------------------------------------------- values at complex points

  function Power(z: Cpx, n: int): Cpx
    decreases if n <= 0 then 0 else n
  {
    if n <= 0 then ONE else Mul(z, Power(z, n - 1))
  }

  // sum over j < n of f[j] * z^j
  function Partial(f: seq<real>, z: Cpx, n: int): Cpx
    decreases if n <= 0 then 0 else n
  {
    if n <= 0 then ZERO else Add(Partial(f, z, n - 1), Scale(Power(z, n - 1), Coef(f, n - 1)))
  }

  function At(f: seq<real>, z: Cpx): Cpx { Partial(f, z, |f|) }

  lemma ScaleAdds(a: Cpx, s: real, t: real)
    ensures Scale(a, s + t) == Add(Scale(a, s), Scale(a, t)) && Scale(a, s - t) == Sub(Scale(a, s), Scale(a, t))
  {
  }

  lemma ScaleMul(z: Cpx, a: Cpx, s: real)
    ensures Mul(z, Scale(a, s)) == Scale(Mul(z, a), s) && Mul(Scale(z, s), a) == Scale(Mul(z, a), s)
  {
  }

  lemma ScaleTwice(a: Cpx, s: real, t: real)
    ensures Scale(Scale(a, s), t) == Scale(a, Times(s, t)) && Times(s, t) == Times(t, s)
  {
    ProductTwice(a.r, s, t);
    ProductTwice(a.i, s, t);
    hide Times;
  }

  lemma ProductTwice(x: real, s: real, t: real)
    ensures Times(Times(x, s), t) == Times(x, Times(s, t)) && Times(s, t) == Times(t, s)
  {
  }

  lemma ScaleZero(a: Cpx)
    ensures Scale(a, 0.0) == ZERO && Scale(a, 1.0) == a
  {
  }

  lemma MulZero(z: Cpx)
    ensures Mul(z, ZERO) == ZERO && Mul(ZERO, z) == ZERO
  {
  }

  lemma {:induction false} PartialBeyond(f: seq<real>, z: Cpx, n: int)
    requires n >= |f|
    ensures Partial(f, z, n) == At(f, z)
    decreases n
  {
    hide Mul, Scale, Power;
    if n > |f| {
      PartialBeyond(f, z, n - 1);
      ScaleZero(Power(z, n - 1));
    }
  }

  // b*z times one more term
  lemma ShiftedTerm(f: seq<real>, z: Cpx, b: real, j: nat)
    ensures Mul(Scale(z, b), Partial(f, z, j))
         == Add(Mul(Scale(z, b), Partial(f, z, j - 1)), Scale(Power(z, j), Times(b, Coef(f, j - 1))))
  {
    hide Mul, Scale, Times;
    var w := Scale(z, b);
    if j == 0 {
      TimesAdds(b, 0.0, 0.0, 0.0);
      ScaleZero(Power(z, 0));
      MulZero(w);
    } else {
      var q, c := Power(z, j - 1), Coef(f, j - 1);
      MulAdd(w, Partial(f, z, j - 1), Scale(q, c));
      ScaleMul(w, q, c);
      ScaleMul(z, q, b);
      ScaleTwice(Mul(z, q), b, c);
    }
  }

  // z^2 times one more term
  lemma SquaredTerm(f: seq<real>, z: Cpx, j: nat)
    ensures Mul(Mul(z, z), Partial(f, z, j - 1))
         == Add(Mul(Mul(z, z), Partial(f, z, j - 2)), Scale(Power(z, j), Coef(f, j - 2)))
  {
    hide Mul, Scale;
    if j <= 1 {
      ScaleZero(Power(z, j));
      MulZero(Mul(z, z));
    } else {
      var r, c := Power(z, j - 2), Coef(f, j - 2);
      assert Power(z, j - 1) == Mul(z, r);
      assert Power(z, j) == Mul(z, Mul(z, r));
      MulAdd(Mul(z, z), Partial(f, z, j - 2), Scale(r, c));
      ScaleMul(Mul(z, z), r, c);
      MulAssoc(z, z, r);
    }
  }

  // f + s*y*f, cut after n terms
  lemma {:induction false} LinearPartial(f: seq<real>, s: real, z: Cpx, n: nat)
    requires n <= |f| + 1
    ensures Partial(MulLinear(f, s), z, n) == Add(Partial(f, z, n), Mul(Scale(z, s), Partial(f, z, n - 1)))
  {
    hide Mul, Scale, Times, Power;
    if n == 0 {
      MulZero(Scale(z, s));
    } else {
      var j := n - 1;
      LinearPartial(f, s, z, j);
      ScaleAdds(Power(z, j), Coef(f, j), Times(s, Coef(f, j - 1)));
      ShiftedTerm(f, z, s, j);
    }
  }

  lemma LinearAt(f: seq<real>, s: real, z: Cpx)
    ensures At(MulLinear(f, s), z) == Mul(Add(ONE, Scale(z, s)), At(f, z))
  {
    hide Mul, Scale;
    LinearPartial(f, s, z, |f| + 1);
    PartialBeyond(f, z, |f| + 1);
    MulAdd(At(f, z), ONE, Scale(z, s));
    MulOne(At(f, z));
  }

  function Quadratic(z: Cpx, a: real): Cpx {
    Add(Sub(ONE, Scale(z, 2.0 * a)), Mul(z, z))
  }

  // f - 2a*y*f + y^2*f, cut after n terms
  lemma {:induction false} QuadraticPartial(f: seq<real>, a: real, z: Cpx, n: nat)
    requires n <= |f| + 2
    ensures Partial(MulQuadratic(f, a), z, n)
         == Add(Sub(Partial(f, z, n), Mul(Scale(z, 2.0 * a), Partial(f, z, n - 1))), Mul(Mul(z, z), Partial(f, z, n - 2)))
  {
    hide Mul, Scale, Times, Power, MulQuadratic;
    if n == 0 {
      MulZero(Scale(z, 2.0 * a));
      MulZero(Mul(z, z));
    } else {
      var j, b := n - 1, 2.0 * a;
      QuadraticCoef(f, a, j);
      QuadraticPartial(f, a, z, j);
      QuadraticTerm(Power(z, j), Coef(f, j), Times(b, Coef(f, j - 1)), Coef(f, j - 2));
      ShiftedTerm(f, z, b, j);
      SquaredTerm(f, z, j);
    }
  }

  lemma QuadraticTerm(p: Cpx, x: real, y: real, w: real)
    ensures Scale(p, x - y + w) == Add(Sub(Scale(p, x), Scale(p, y)), Scale(p, w))
  {
    hide Scale;
    ScaleAdds(p, x, y);
    ScaleAdds(p, x - y, w);
  }

  lemma QuadraticAt(f: seq<real>, a: real, z: Cpx)
    ensures At(MulQuadratic(f, a), z) == Mul(Quadratic(z, a), At(f, z))
  {
    hide Mul, Scale;
    var v, b := At(f, z), Scale(z, 2.0 * a);
    QuadraticPartial(f, a, z, |f| + 2);
    PartialBeyond(f, z, |f| + 2);
    PartialBeyond(f, z, |f| + 1);
    MulAdd(v, Sub(ONE, b), Mul(z, z));
    MulSub(ONE, b, v);
    MulOne(v);
  }

  lemma MulSub(a: Cpx, b: Cpx, c: Cpx)
    ensures Mul(Sub(a, b), c) == Sub(Mul(a, c), Mul(b, c))
  {
  }

  // the product of 1 - 2x z + z^2 over all x in xs
  function Product(xs: seq<real>, z: Cpx): Cpx {
    if xs == [] then ONE else Mul(Quadratic(z, xs[|xs| - 1]), Product(xs[..|xs| - 1], z))
  }

  // The coefficients of the cascade are those of the product.
  lemma {:induction false} CascadeAt(xs: seq<real>, z: Cpx)
    ensures At(Cascade(xs), z) == Product(xs, z)
  {
    if xs == [] {
      assert At([1.0], z) == Add(Partial([1.0], z, 0), Scale(ONE, 1.0));
    } else {
      hide Mul, Scale, Quadratic;
      CascadeAt(xs[..|xs| - 1], z);
      QuadraticAt(Cascade(xs[..|xs| - 1]), xs[|xs| - 1], z);
    }
  }

  // ------------------------------------------------------------- palindromes

  ghost predicate Mirrored(f: seq<real>, j: int) { Coef(f, j) == Coef(f, |f| - 1 - j) }

  ghost predicate Palindrome(f: seq<real>) { forall j: int {:trigger Mirrored(f, j)} :: Mirrored(f, j) }

  lemma QuadraticPalindrome(f: seq<real>, a: real)
    requires Palindrome(f)
    ensures Palindrome(MulQuadratic(f, a))
  {
    hide Times;
    var g, n := MulQuadratic(f, a), |f|;
    TimesAdds(2.0 * a, 0.0, 0.0, 0.0);
    forall j: int
      ensures Mirrored(g, j)
    {
      assert Mirrored(f, j) && Mirrored(f, j - 1) && Mirrored(f, j - 2);
    }
  }

  lemma QuadraticFirst(f: seq<real>, a: real)
    ensures Coef(MulQuadratic(f, a), 0) == Coef(f, 0)
  {
    TimesAdds(2.0 * a, 0.0, 0.0, 0.0);
    hide Times;
  }

  // Cascades read the same from both ends, and start and end with one.
  lemma {:induction false} CascadePalindrome(xs: seq<real>)
    ensures Palindrome(Cascade(xs)) && Coef(Cascade(xs), 0) == 1.0 && Coef(Cascade(xs), 2 * |xs|) == 1.0
  {
    hide MulQuadratic, Palindrome;
    if xs == [] {
      OnePalindrome();
    } else {
      var f, a := Cascade(xs[..|xs| - 1]), xs[|xs| - 1];
      CascadePalindrome(xs[..|xs| - 1]);
      QuadraticPalindrome(f, a);
      QuadraticFirst(f, a);
      PalindromeEnds(Cascade(xs));
    }
  }

  lemma OnePalindrome()
    ensures Palindrome([1.0])
  {
  }

  lemma PalindromeEnds(f: seq<real>)
    requires Palindrome(f)
    ensures Coef(f, 0) == Coef(f, |f| - 1)
  {
    assert Mirrored(f, 0);
  }
}
