// lsp.c over the reals: the filter cascade that turns line spectrum pairs into
// prediction coefficients, and the root search that goes back.
module Lsp {
  import opened RealProducts
  import opened Complex
  import opened LspPolynomials
  import opened LspChebyshev

  const LSP_MAX_ORDER := 20

  // ------------------------------------------------------------- cheb_poly_eva

  method ChebPolyEva(coef: array<real>, x: real, m: nat) returns (sum: real)
    requires m <= LSP_MAX_ORDER && m / 2 < coef.Length
    ensures sum == EvaSum(coef[..], m / 2, x, m / 2 + 1)
  {
    hide Times;
    var t := new real[LSP_MAX_ORDER / 2 + 1];
    t[0] := 1.0;
    t[1] := x;
    for i: nat := 2 to if m / 2 < 2 then 2 else m / 2 + 1
      invariant forall k: nat {:trigger T(k, x)} | k < i :: t[k] == T(k, x)
    {
      t[i] := Times(2.0 * x, t[i - 1]) - t[i - 2];
    }
    sum := 0.0;
    for i: nat := 0 to m / 2 + 1
      invariant sum == EvaSum(coef[..], m / 2, x, i)
    {
      assert t[i] == T(i, x);
      sum := sum + Times(coef[m / 2 - i], t[i]);
    }
  }

  // ----------------------------------------------------------------- lsp_to_lpc

  function Evens(freq: seq<real>, m: nat): (xs: seq<real>)
    requires 2 * m <= |freq|
    ensures |xs| == m
  {
    seq(m, i requires 0 <= i < m => freq[2 * i])
  }

  function Odds(freq: seq<real>, m: nat): (xs: seq<real>)
    requires 2 * m <= |freq|
    ensures |xs| == m
  {
    seq(m, i requires 0 <= i < m => freq[2 * i + 1])
  }

  // Coefficient j of (P (1 + y) + Q (1 - y)) / 2
  function Synthesis(P: seq<real>, Q: seq<real>, j: int): real {
    0.5 * ((Coef(P, j) + Coef(P, j - 1)) + (Coef(Q, j) - Coef(Q, j - 1)))
  }

  lemma SynthesisIs(ps: seq<real>, qs: seq<real>, j: int)
    ensures var P, Q := Cascade(ps), Cascade(qs);
            Synthesis(P, Q, j) == ((Coef(P, j) + Coef(P, j - 1)) + (Coef(Q, j) - Coef(Q, j - 1))) * 0.5
  {
  }

  // The delay line before clock j: at stage i, the last two inputs of both filters.
  ghost predicate StageHolds(Wp: seq<real>, ps: seq<real>, qs: seq<real>, i: nat, j: int) {
    && 4 * i + 4 <= |Wp| && i <= |ps| == |qs|
    && Wp[4 * i] == Coef(Cascade(ps[..i]), j - 1) && Wp[4 * i + 1] == Coef(Cascade(ps[..i]), j - 2)
    && Wp[4 * i + 2] == Coef(Cascade(qs[..i]), j - 1) && Wp[4 * i + 3] == Coef(Cascade(qs[..i]), j - 2)
  }

  ghost predicate LineHolds(Wp: seq<real>, ps: seq<real>, qs: seq<real>, from: nat, to: nat, j: int) {
    forall i: nat {:trigger StageHolds(Wp, ps, qs, i, j)} | from <= i < to :: StageHolds(Wp, ps, qs, i, j)
  }

  lemma StageOut(xs: seq<real>, i: nat, j: nat)
    requires i < |xs|
    ensures Coef(Cascade(xs[..i + 1]), j)
         == Coef(Cascade(xs[..i]), j) - Times(2.0 * xs[i], Coef(Cascade(xs[..i]), j - 1)) + Coef(Cascade(xs[..i]), j - 2)
  {
    hide MulQuadratic, Times, Cascade, Coef;
    CascadeGrows(xs, i);
    QuadraticCoef(Cascade(xs[..i]), xs[i], j);
  }

  lemma CascadeGrows(xs: seq<real>, i: nat)
    requires i < |xs|
    ensures Cascade(xs[..i + 1]) == MulQuadratic(Cascade(xs[..i]), xs[i])
  {
    hide MulQuadratic;
    var ys := xs[..i + 1];
    assert ys[..|ys| - 1] == xs[..i] && ys[|ys| - 1] == xs[i];
  }

  // One stage of the cascade, for both filters.
  method ClockStage(Wp: array<real>, freq: array<real>, i: nat, xin1: real, xin2: real,
                    ghost ps: seq<real>, ghost qs: seq<real>, ghost j: nat) returns (xout1: real, xout2: real)
    requires Wp != freq && i < |ps| == |qs| && 2 * |ps| <= freq.Length && 4 * |ps| + 2 <= Wp.Length
    requires ps == Evens(freq[..], |ps|) && qs == Odds(freq[..], |ps|)
    requires StageHolds(Wp[..], ps, qs, i, j)
    requires xin1 == Coef(Cascade(ps[..i]), j) && xin2 == Coef(Cascade(qs[..i]), j)
    modifies Wp
    ensures xout1 == Coef(Cascade(ps[..i + 1]), j) && xout2 == Coef(Cascade(qs[..i + 1]), j)
    ensures StageHolds(Wp[..], ps, qs, i, j + 1)
    ensures forall k | 0 <= k < Wp.Length && !(4 * i <= k < 4 * i + 4) :: Wp[k] == old(Wp[k])
  {
    hide Times, Coef, Cascade;
    StageOut(ps, i, j);
    StageOut(qs, i, j);
    xout1 := xin1 - Times(2.0 * freq[2 * i], Wp[4 * i]) + Wp[4 * i + 1];
    xout2 := xin2 - Times(2.0 * freq[2 * i + 1], Wp[4 * i + 2]) + Wp[4 * i + 3];
    Wp[4 * i + 1] := Wp[4 * i];
    Wp[4 * i + 3] := Wp[4 * i + 2];
    Wp[4 * i] := xin1;
    Wp[4 * i + 2] := xin2;
  }

  lemma OtherStages(Wp: seq<real>, Wp': seq<real>, ps: seq<real>, qs: seq<real>, from: nat, to: nat, i: nat, j: int)
    requires |Wp'| == |Wp| && LineHolds(Wp, ps, qs, from, to, j) && (i < from || to <= i)
    requires forall k | 0 <= k < |Wp| && !(4 * i <= k < 4 * i + 4) :: Wp'[k] == Wp[k]
    ensures LineHolds(Wp', ps, qs, from, to, j)
  {
    hide Coef, Cascade;
    forall s: nat {:trigger StageHolds(Wp', ps, qs, s, j)} | from <= s < to
      ensures StageHolds(Wp', ps, qs, s, j)
    {
      assert StageHolds(Wp, ps, qs, s, j);
    }
  }

  // All stages at one clock.
  method ClockCascade(Wp: array<real>, freq: array<real>, m: nat, in1: real, in2: real,
                      ghost ps: seq<real>, ghost qs: seq<real>, ghost j: nat) returns (xin1: real, xin2: real)
    requires Wp != freq && m == |ps| == |qs| && 2 * m <= freq.Length && 4 * m + 2 <= Wp.Length
    requires ps == Evens(freq[..], m) && qs == Odds(freq[..], m)
    requires LineHolds(Wp[..], ps, qs, 0, m, j)
    requires in1 == Coef([1.0], j) && in2 == Coef([1.0], j)
    modifies Wp
    ensures xin1 == Coef(Cascade(ps), j) && xin2 == Coef(Cascade(qs), j)
    ensures LineHolds(Wp[..], ps, qs, 0, m, j + 1)
    ensures Wp[4 * m] == old(Wp[4 * m]) && Wp[4 * m + 1] == old(Wp[4 * m + 1])
  {
    hide Coef, Evens, Odds, StageHolds, LineHolds;
    assert Cascade(ps[..0]) == [1.0] && Cascade(qs[..0]) == [1.0];
    hide Cascade;
    xin1, xin2 := in1, in2;
    ghost var fs := freq[..];
    NoStages(Wp[..], ps, qs, j + 1);
    for i: nat := 0 to m
      invariant freq[..] == fs
      invariant xin1 == Coef(Cascade(ps[..i]), j) && xin2 == Coef(Cascade(qs[..i]), j)
      invariant LineHolds(Wp[..], ps, qs, 0, i, j + 1) && LineHolds(Wp[..], ps, qs, i, m, j)
      invariant Wp[4 * m] == old(Wp[4 * m]) && Wp[4 * m + 1] == old(Wp[4 * m + 1])
    {
      ghost var before := Wp[..];
      OneStage(before, ps, qs, i, m, j);
      xin1, xin2 := ClockStage(Wp, freq, i, xin1, xin2, ps, qs, j);
      OtherStages(before, Wp[..], ps, qs, 0, i, i, j + 1);
      OtherStages(before, Wp[..], ps, qs, i + 1, m, i, j);
      AddStage(Wp[..], ps, qs, i, j + 1);
    }
    assert ps[..m] == ps && qs[..m] == qs;
  }

  lemma NoStages(Wp: seq<real>, ps: seq<real>, qs: seq<real>, j: int)
    ensures LineHolds(Wp, ps, qs, 0, 0, j)
  {
  }

  lemma OneStage(Wp: seq<real>, ps: seq<real>, qs: seq<real>, i: nat, m: nat, j: int)
    requires i < m && LineHolds(Wp, ps, qs, i, m, j)
    ensures StageHolds(Wp, ps, qs, i, j) && LineHolds(Wp, ps, qs, i + 1, m, j)
  {
    hide StageHolds;
  }

  lemma AddStage(Wp: seq<real>, ps: seq<real>, qs: seq<real>, i: nat, j: int)
    requires LineHolds(Wp, ps, qs, 0, i, j) && StageHolds(Wp, ps, qs, i, j)
    ensures LineHolds(Wp, ps, qs, 0, i + 1, j)
  {
    hide StageHolds;
  }

  // The loop over cos, and the loop that clears the delay line.
  method TakeCosines(lsp: array<real>, lpcrdr: nat, cos: real -> real) returns (freq: array<real>)
    requires lpcrdr <= LSP_MAX_ORDER && lpcrdr <= lsp.Length
    ensures fresh(freq) && freq.Length == LSP_MAX_ORDER && freq[..lpcrdr] == Cosines(lsp[..lpcrdr], cos)
  {
    freq := new real[LSP_MAX_ORDER];
    for i: nat := 0 to lpcrdr
      invariant forall k: nat | k < i :: freq[k] == cos(lsp[k])
    {
      freq[i] := cos(lsp[i]);
    }
  }

  method EmptyDelays(m: nat) returns (Wp: array<real>)
    requires 2 * m <= LSP_MAX_ORDER
    ensures fresh(Wp) && Wp.Length == LSP_MAX_ORDER * 4 + 2
    ensures forall k: nat | k < 4 * m + 2 :: Wp[k] == 0.0
  {
    Wp := new real[LSP_MAX_ORDER * 4 + 2];
    for i: nat := 0 to 4 * m + 2
      invariant forall k: nat | k < i :: Wp[k] == 0.0
    {
      Wp[i] := 0.0;
    }
  }

  lemma SameHalves(freq: seq<real>, xs: seq<real>, m: nat)
    requires 2 * m <= |xs| <= |freq| && freq[..|xs|] == xs
    ensures Evens(freq, m) == Evens(xs, m) && Odds(freq, m) == Odds(xs, m)
  {
    forall i: nat | i < |xs|
      ensures freq[i] == xs[i]
    {
      assert freq[..|xs|][i] == xs[i];
    }
  }

  // An impulse through both cascades, clock by clock.
  method LspToLpc(lsp: array<real>, ak: array<real>, lpcrdr: nat, cos: real -> real)
    requires 2 <= lpcrdr <= LSP_MAX_ORDER && lpcrdr <= lsp.Length && lpcrdr < ak.Length && lsp != ak
    modifies ak
    ensures var m := lpcrdr / 2;
            var freq := Cosines(lsp[..lpcrdr], cos);
            forall j: nat | j <= lpcrdr :: ak[j] == Synthesis(Cascade(Evens(freq, m)), Cascade(Odds(freq, m)), j)
  {
    hide Cascade, Coef, LineHolds, StageHolds, Synthesis, Evens, Odds;
    var m := lpcrdr / 2;
    ghost var angles := lsp[..lpcrdr];
    var freq := TakeCosines(lsp, lpcrdr, cos);
    var Wp := EmptyDelays(m);
    ghost var ps, qs := Evens(freq[..], m), Odds(freq[..], m);
    ghost var fs := freq[..];
    SameHalves(freq[..], Cosines(angles, cos), m);
    var xin1, xin2 := 1.0, 1.0;
    EmptyLine(Wp[..], ps, qs, m);
    for j: nat := 0 to lpcrdr + 1
      invariant freq[..] == fs && lsp[..lpcrdr] == angles
      invariant xin1 == Coef([1.0], j) && xin2 == Coef([1.0], j)
      invariant LineHolds(Wp[..], ps, qs, 0, m, j)
      invariant Wp[4 * m] == Coef(Cascade(ps), j - 1) && Wp[4 * m + 1] == Coef(Cascade(qs), j - 1)
      invariant forall k: nat | k < j :: ak[k] == Synthesis(Cascade(ps), Cascade(qs), k)
    {
      xin1, xin2 := ClockCascade(Wp, freq, m, xin1, xin2, ps, qs, j);
      var xout1, xout2 := xin1 + Wp[4 * m], xin2 - Wp[4 * m + 1];
      ak[j] := (xout1 + xout2) * 0.5;
      assert ak[j] == Synthesis(Cascade(ps), Cascade(qs), j) by { SynthesisIs(ps, qs, j); }
      ghost var before := Wp[..];
      Wp[4 * m] := xin1;
      Wp[4 * m + 1] := xin2;
      LastDelays(before, Wp[..], ps, qs, m, j + 1);
      Impulse(j + 1);
      xin1, xin2 := 0.0, 0.0;
    }
  }

  function Cosines(angles: seq<real>, cos: real -> real): (xs: seq<real>)
    ensures |xs| == |angles|
  {
    seq(|angles|, i requires 0 <= i < |angles| => cos(angles[i]))
  }

  lemma Impulse(j: nat)
    ensures Coef([1.0], j) == if j == 0 then 1.0 else 0.0
  {
  }

  lemma EmptyLine(Wp: seq<real>, ps: seq<real>, qs: seq<real>, m: nat)
    requires m == |ps| == |qs| && 4 * m + 2 <= |Wp| && forall k: nat | k < 4 * m + 2 :: Wp[k] == 0.0
    ensures LineHolds(Wp, ps, qs, 0, m, 0)
    ensures Wp[4 * m] == Coef(Cascade(ps), -1) && Wp[4 * m + 1] == Coef(Cascade(qs), -1)
    ensures Coef([1.0], 0) == 1.0
  {
    hide Cascade;
    forall i: nat {:trigger StageHolds(Wp, ps, qs, i, 0)} | i < m
      ensures StageHolds(Wp, ps, qs, i, 0)
    {
    }
  }

  lemma LastDelays(Wp: seq<real>, Wp': seq<real>, ps: seq<real>, qs: seq<real>, m: nat, j: int)
    requires |Wp'| == |Wp| && LineHolds(Wp, ps, qs, 0, m, j)
    requires forall k | 0 <= k < 4 * m && k < |Wp| :: Wp'[k] == Wp[k]
    ensures LineHolds(Wp', ps, qs, 0, m, j)
  {
    hide Coef, Cascade;
    forall s: nat {:trigger StageHolds(Wp', ps, qs, s, j)} | s < m
      ensures StageHolds(Wp', ps, qs, s, j)
    {
      assert StageHolds(Wp, ps, qs, s, j);
    }
  }
}
