// What the Levinson-Durbin recursion computes, over the reals: the order by order
// solution of the normal equations of linear prediction.
module LevinsonSpec {

  import opened RealProducts

  // ---------------------------------------------------------------- the equations

  // R at a lag of either sign
  function Lag(R: seq<real>, d: int): real {
    var e := if d < 0 then -d else d;
    if e < |R| then R[e] else 0.0
  }

  // sum over j < n of a[j] * R[|m - j|]
  function Corr(a: seq<real>, R: seq<real>, m: int, n: nat): real {
    if n == 0 then 0.0 else Corr(a, R, m, n - 1) + Times(Coef(a, n - 1), Lag(R, m - (n - 1)))
  }

  ghost predicate Equation(a: seq<real>, R: seq<real>, m: int) {
    Corr(a, R, m, |a|) == 0.0
  }

  // a solves the normal equations of its order, m = 1, ..., |a| - 1.
  ghost predicate Solves(a: seq<real>, R: seq<real>) {
    forall m {:trigger Equation(a, R, m)} | 1 <= m < |a| :: Equation(a, R, m)
  }

  // ---------------------------------------------------------------- the recursion

  // a[j] + k*a[i - j], for the next order i
  function Extend(a: seq<real>, k: real): (b: seq<real>)
    ensures |b| == |a| + 1
  {
    seq(|a| + 1, j => Coef(a, j) + Times(k, Coef(a, |a| - j)))
  }

  // The error of the old predictor one lag further on.
  function Gap(R: seq<real>, i: nat): real
    requires i > 0
    decreases i, 0
  {
    Corr(Predictor(R, i - 1), R, i, i)
  }

  function Ratio(g: real, e: real): real
    requires e != 0.0
  {
    -1.0 * g / e
  }

  // The reflection coefficient before it is clamped; zero stands for a quotient by zero.
  function RawReflection(R: seq<real>, i: nat): real
    requires i > 0
    decreases i, 1
  {
    if Energy(R, i - 1) == 0.0 then 0.0 else Ratio(Gap(R, i), Energy(R, i - 1))
  }

  predicate OutOfRange(k: real) { k > 1.0 || k < -1.0 }

  // The quotient of a gap by zero energy is infinite, and clamped as well.
  predicate Clamped(R: seq<real>, i: nat)
    requires i > 0
    decreases i, 2
  {
    OutOfRange(RawReflection(R, i)) || (Energy(R, i - 1) == 0.0 && Gap(R, i) != 0.0)
  }

  // Nothing is divided by nothing; in floating point the quotient is no number, nor is
  // any coefficient after it.
  predicate Indefinite(R: seq<real>, i: nat)
    requires i > 0
  {
    Energy(R, i - 1) == 0.0 && Gap(R, i) == 0.0
  }

  predicate Definite(R: seq<real>, order: nat) {
    forall i {:trigger Indefinite(R, i)} | 1 <= i <= order :: !Indefinite(R, i)
  }

  function Reflection(R: seq<real>, i: nat): real
    requires i > 0
    decreases i, 3
  {
    if Clamped(R, i) then 0.0 else RawReflection(R, i)
  }

  function Predictor(R: seq<real>, i: nat): (a: seq<real>)
    ensures |a| == i + 1
    decreases i, 4
  {
    if i == 0 then [1.0] else Extend(Predictor(R, i - 1), Reflection(R, i))
  }

  function Energy(R: seq<real>, i: nat): real
    decreases i, 4
  {
    if i == 0 then Lag(R, 0)
    else Times(1.0 - Times(Reflection(R, i), Reflection(R, i)), Energy(R, i - 1))
  }

  // ------------------------------------------------------ one step of the recursion

  // sum over j < n of a[i - j] * R[|m - j|]
  function Mirror(a: seq<real>, R: seq<real>, m: int, i: int, n: nat): real {
    if n == 0 then 0.0 else Mirror(a, R, m, i, n - 1) + Times(Coef(a, i - (n - 1)), Lag(R, m - (n - 1)))
  }

  lemma {:induction false} CorrExtendPart(a: seq<real>, R: seq<real>, k: real, m: int, n: nat)
    requires n <= |a| + 1
    ensures Corr(Extend(a, k), R, m, n) == Corr(a, R, m, n) + Times(k, Mirror(a, R, m, |a|, n))
  {
    hide Times;
    if n == 0 {
      TimesAdds(k, 0.0, 0.0, 0.0);
    } else {
      var j := n - 1;
      CorrExtendPart(a, R, k, m, j);
      var y, r := Coef(a, |a| - j), Lag(R, m - j);
      TimesAdds(Coef(a, j), k, y, r);
      TimesAdds(Mirror(a, R, m, |a|, j), k, Times(y, r), 0.0);
    }
  }

  // Mirrored, the sum runs down the coefficients.
  lemma {:induction false} MirrorIsCorr(a: seq<real>, R: seq<real>, m: int, i: nat, n: nat)
    requires n <= i + 1
    ensures Mirror(a, R, m, i, n) + Corr(a, R, i - m, i + 1 - n) == Corr(a, R, i - m, i + 1)
  {
    hide Times;
    if n > 0 {
      MirrorIsCorr(a, R, m, i, n - 1);
      var t := i + 1 - n;
      assert Lag(R, m - (n - 1)) == Lag(R, i - m - t);
    }
  }

  // Extending adds k times the mirrored equation.
  lemma CorrExtend(a: seq<real>, R: seq<real>, k: real, m: int)
    ensures Corr(Extend(a, k), R, m, |a| + 1) == Corr(a, R, m, |a|) + Times(k, Corr(a, R, |a| - m, |a|))
  {
    hide Times;
    var i := |a|;
    CorrExtendPart(a, R, k, m, i + 1);
    MirrorIsCorr(a, R, m, i, i + 1);
    TimesAdds(Lag(R, m - i), 0.0, 0.0, 0.0);
    TimesAdds(Lag(R, i - m - i), 0.0, 0.0, 0.0);
  }

  lemma RatioSolves(g: real, e: real)
    requires e != 0.0
    ensures g + Times(Ratio(g, e), e) == 0.0
    ensures OutOfRange(Ratio(g, e)) ==> g != 0.0
  {
  }

  lemma EnergyStep(g: real, e: real, k: real)
    requires g + Times(k, e) == 0.0
    ensures e + Times(k, g) == Times(1.0 - Times(k, k), e)
  {
    assert e + k * g == e - k * (k * e);
  }

  lemma ReflectionSolves(R: seq<real>, i: nat)
    requires i > 0 && !Clamped(R, i)
    ensures Gap(R, i) + Times(Reflection(R, i), Energy(R, i - 1)) == 0.0
  {
    hide Times, Ratio, Gap, Energy;
    if Energy(R, i - 1) == 0.0 {
      TimesAdds(Reflection(R, i), 0.0, 0.0, 0.0);
    } else {
      RatioSolves(Gap(R, i), Energy(R, i - 1));
    }
  }

  // What holds at order i when nothing was clamped on the way.
  ghost predicate Solved(R: seq<real>, i: nat) {
    && Solves(Predictor(R, i), R)
    && Energy(R, i) == Corr(Predictor(R, i), R, 0, i + 1)
  }

  lemma FirstOrder(R: seq<real>)
    ensures Solved(R, 0)
  {
    assert Corr([1.0], R, 0, 1) == Corr([1.0], R, 0, 0) + Times(1.0, Lag(R, 0));
  }

  // The extension by the coefficient that closes the gap solves one order more.
  lemma ExtendSolves(a: seq<real>, R: seq<real>, e: real, k: real)
    requires |a| > 0 && Solves(a, R) && e == Corr(a, R, 0, |a|) && Corr(a, R, |a|, |a|) + Times(k, e) == 0.0
    ensures Solves(Extend(a, k), R)
    ensures Corr(Extend(a, k), R, 0, |a| + 1) == Times(1.0 - Times(k, k), e)
  {
    hide Times;
    var i, g := |a|, Corr(a, R, |a|, |a|);
    var b := Extend(a, k);
    EnergyStep(g, e, k);
    forall m | 1 <= m < i + 1
      ensures Equation(b, R, m)
    {
      CorrExtend(a, R, k, m);
      if m < i {
        assert Equation(a, R, m) && Equation(a, R, i - m);
        TimesAdds(k, 0.0, 0.0, 0.0);
      }
    }
    CorrExtend(a, R, k, 0);
  }

  lemma StepSolves(R: seq<real>, i: nat)
    requires i > 0 && Solved(R, i - 1) && !Clamped(R, i)
    ensures Solved(R, i)
  {
    hide Times, Ratio, Extend, Corr, Clamped;
    assert |Predictor(R, i - 1)| == i;
    assert Gap(R, i) == Corr(Predictor(R, i - 1), R, i, i);
    ReflectionSolves(R, i);
    ExtendSolves(Predictor(R, i - 1), R, Energy(R, i - 1), Reflection(R, i));
  }

  // A clamped step leaves the last equation of its order unsolved.
  lemma ClampFails(R: seq<real>, i: nat)
    requires i > 0 && Clamped(R, i)
    ensures !Solves(Predictor(R, i), R)
  {
    hide Times, Ratio, Corr, Extend;
    var a, b, g := Predictor(R, i - 1), Predictor(R, i), Gap(R, i);
    if Energy(R, i - 1) != 0.0 {
      RatioSolves(g, Energy(R, i - 1));
    }
    assert Reflection(R, i) == 0.0;
    assert b == Extend(a, 0.0);
    CorrExtend(a, R, 0.0, i);
    TimesAdds(Corr(a, R, 0, i), 0.0, 0.0, 0.0);
    assert |a| == i && i - i == 0;
    assert Corr(a, R, i, i) == g;
    assert Corr(b, R, i, |b|) == g;
    assert !Equation(b, R, i);
  }

  ghost predicate NoneClamped(R: seq<real>, order: nat) {
    forall i {:trigger Clamped(R, i)} | 1 <= i <= order :: !Clamped(R, i)
  }

  lemma {:induction false} SolvedUnlessClamped(R: seq<real>, order: nat)
    requires NoneClamped(R, order)
    ensures forall i {:trigger Solved(R, i)} | 0 <= i <= order :: Solved(R, i)
  {
    hide Solved, Clamped, Energy;
    if order == 0 {
      FirstOrder(R);
    } else {
      SolvedUnlessClamped(R, order - 1);
      assert Solved(R, order - 1) && !Clamped(R, order);
      StepSolves(R, order);
    }
  }

  // Every order solves its normal equations if and only if no reflection coefficient
  // was clamped on the way.
  lemma SolvesExactlyUnlessClamped(R: seq<real>, order: nat)
    ensures (forall i {:trigger Predictor(R, i)} | 0 <= i <= order :: Solves(Predictor(R, i), R)) <==> NoneClamped(R, order)
    ensures NoneClamped(R, order) ==> forall i {:trigger Energy(R, i)} | 0 <= i <= order :: Energy(R, i) == Corr(Predictor(R, i), R, 0, i + 1)
  {
    if NoneClamped(R, order) {
      SolvedUnlessClamped(R, order);
      forall i {:trigger Predictor(R, i)} | 0 <= i <= order
        ensures Solves(Predictor(R, i), R)
      {
        assert Solved(R, i);
      }
      forall i {:trigger Energy(R, i)} | 0 <= i <= order
        ensures Energy(R, i) == Corr(Predictor(R, i), R, 0, i + 1)
      {
        assert Solved(R, i);
      }
    } else {
      var i :| 1 <= i <= order && Clamped(R, i);
      ClampFails(R, i);
    }
  }

  // With R = [1, 2] the first reflection coefficient is -2: clamped, equation not solved.
  lemma ClampExample()
    ensures var R := [1.0, 2.0]; Definite(R, 1) && Clamped(R, 1) && !Solves(Predictor(R, 1), R)
  {
    var R := [1.0, 2.0];
    assert Energy(R, 0) == 1.0;
    assert Corr([1.0], R, 1, 1) == Corr([1.0], R, 1, 0) + Times(1.0, Lag(R, 1));
    assert Gap(R, 1) == 2.0;
    ClampFails(R, 1);
  }
}
