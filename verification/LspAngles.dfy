// The synthesis in the angles that the caller passes: the polynomial of the coefficients at
// every complex point.
module LspAngles {
  import opened RealProducts
  import opened Complex
  import opened LspPolynomials
  import opened Lsp
  import opened LspInverse

  // The product of 1 - 2 cos(angle) z + z^2 over every other angle: the first n from the
  // one at first on
  function AngleProduct(angles: seq<real>, cos: real -> real, z: Cpx, first: nat, n: nat): Cpx
    requires n == 0 || 2 * n - 2 + first < |angles|
  {
    if n == 0 then ONE else
      var c := cos(angles[2 * n - 2 + first]);
      Mul(Add(Sub(ONE, Scale(z, 2.0 * c)), Mul(z, z)), AngleProduct(angles, cos, z, first, n - 1))
  }

  lemma {:induction false} EvenProduct(angles: seq<real>, cos: real -> real, z: Cpx, n: nat)
    requires 2 * n <= |angles|
    ensures Product(Evens(Cosines(angles, cos), n), z) == AngleProduct(angles, cos, z, 0, n)
  {
    hide Mul, Scale;
    if n > 0 {
      EvenProduct(angles, cos, z, n - 1);
      var xs := Evens(Cosines(angles, cos), n);
      assert xs[..n - 1] == Evens(Cosines(angles, cos), n - 1);
    }
  }

  lemma {:induction false} OddProduct(angles: seq<real>, cos: real -> real, z: Cpx, n: nat)
    requires 2 * n <= |angles|
    ensures Product(Odds(Cosines(angles, cos), n), z) == AngleProduct(angles, cos, z, 1, n)
  {
    hide Mul, Scale;
    if n > 0 {
      OddProduct(angles, cos, z, n - 1);
      var xs := Odds(Cosines(angles, cos), n);
      assert xs[..n - 1] == Odds(Cosines(angles, cos), n - 1);
    }
  }

  // What lsp_to_lpc leaves in ak
  ghost predicate MadeOf(ak: seq<real>, angles: seq<real>, cos: real -> real) {
    var m, freq := |angles| / 2, Cosines(angles, cos);
    |ak| == |angles| + 1
    && forall j: nat | j < |ak| :: ak[j] == Synthesis(Cascade(Evens(freq, m)), Cascade(Odds(freq, m)), j)
  }

  lemma {:induction false} SamePartial(f: seq<real>, g: seq<real>, z: Cpx, n: int)
    requires forall j: nat | j < n :: Coef(f, j) == Coef(g, j)
    ensures Partial(f, z, n) == Partial(g, z, n)
    decreases if n <= 0 then 0 else n
  {
    hide Scale, Power, Coef;
    if n > 0 {
      SamePartial(f, g, z, n - 1);
    }
  }

  lemma LastTerm(f: seq<real>, z: Cpx, n: nat)
    requires Coef(f, n) == 0.0
    ensures Partial(f, z, n + 1) == Partial(f, z, n)
  {
    hide Power;
    ScaleZero(Power(z, n));
  }

  // The stored coefficients lack at most the one past the order, which is zero.
  lemma StoredIsAll(ak: seq<real>, ps: seq<real>, qs: seq<real>, z: Cpx)
    requires |ps| == |qs| && 2 * |ps| + 1 <= |ak| <= 2 * |ps| + 2
    requires forall j: nat | j < |ak| :: ak[j] == Synthesis(Cascade(ps), Cascade(qs), j)
    ensures At(ak, z) == At(SynthesisSeq(Cascade(ps), Cascade(qs)), z)
  {
    hide Cascade, Partial, Synthesis;
    var s := SynthesisSeq(Cascade(ps), Cascade(qs));
    SynthesisCancels(ps, qs);
    SamePartial(ak, s, z, |ak|);
    if |ak| < |s| {
      LastTerm(s, z, |ak|);
    }
  }

  // The coefficients add up to half of (1 + z) times the product over the even angles plus
  // (1 - z) times the product over the odd ones.
  lemma PolynomialOfAngles(ak: seq<real>, angles: seq<real>, cos: real -> real, z: Cpx)
    requires MadeOf(ak, angles, cos)
    ensures var m := |angles| / 2;
            At(ak, z) == Scale(Add(Mul(Add(ONE, z), AngleProduct(angles, cos, z, 0, m)),
                                   Mul(Sub(ONE, z), AngleProduct(angles, cos, z, 1, m))), 0.5)
  {
    hide Mul, Scale, Product, AngleProduct, Cascade, At, Synthesis, Evens, Odds;
    var m, freq := |angles| / 2, Cosines(angles, cos);
    EvenProduct(angles, cos, z, m);
    OddProduct(angles, cos, z, m);
    SynthesisAt(Evens(freq, m), Odds(freq, m), z);
    StoredIsAll(ak, Evens(freq, m), Odds(freq, m), z);
  }
}
