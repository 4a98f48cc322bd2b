// lpc.c over the reals: autocorrelation and the Levinson-Durbin recursion in its
// arrays, and why the recursion never clamps on the autocorrelation of a frame.
module Lpc {
  import opened RealProducts
  import opened LevinsonSpec

  const LPC_MAX := 20

  // --------------------------------------------------------------- autocorrelation

  // sum over i < n of s[i] * s[i + j]
  function AutoSum(s: seq<real>, j: nat, n: nat): real
    requires n + j <= |s|
  {
    if n == 0 then 0.0 else AutoSum(s, j, n - 1) + Times(s[n - 1], s[n - 1 + j])
  }

  function AutoCorr(s: seq<real>, j: nat): real {
    if j <= |s| then AutoSum(s, j, |s| - j) else 0.0
  }

  function AutoCorrs(s: seq<real>, order: nat): (R: seq<real>)
    ensures |R| == order + 1
  {
    seq(order + 1, j requires 0 <= j => AutoCorr(s, j))
  }

  method Autocorrelate(Sn: array<real>, Rn: array<real>, Nsam: nat, order: nat)
    requires Nsam <= Sn.Length && order + 1 <= Rn.Length && Sn != Rn
    modifies Rn
    ensures Rn[..order + 1] == AutoCorrs(Sn[..Nsam], order)
    ensures Rn[order + 1..] == old(Rn[order + 1..])
  {
    hide Times;
    ghost var s := Sn[..Nsam];
    for j: nat := 0 to order + 1
      invariant Sn[..Nsam] == s
      invariant Rn[..j] == AutoCorrs(s, order)[..j]
      invariant Rn[order + 1..] == old(Rn[order + 1..])
    {
      Rn[j] := 0.0;
      var i: nat := 0;
      while i < Nsam - j
        invariant i == 0 || i <= Nsam - j
        invariant Sn[..Nsam] == s
        invariant Rn[j] == if j <= Nsam then AutoSum(s, j, i) else 0.0
        invariant Rn[..j] == AutoCorrs(s, order)[..j]
        invariant Rn[order + 1..] == old(Rn[order + 1..])
      {
        assert Sn[i] == s[i] && Sn[i + j] == s[i + j];
        Rn[j] := Rn[j] + Times(Sn[i], Sn[i + j]);
        i := i + 1;
      }
    }
  }

  // ------------------------------------------------------------- the recursion

  // Row i of the array a, where entry 0 is never stored and stands for 1.
  ghost predicate Row(a: array2<real>, i: nat, p: seq<real>)
    reads a
  {
    i < a.Length0 && |p| == i + 1 <= a.Length1 && p[0] == 1.0 && forall j | 1 <= j <= i :: a[i, j] == p[j]
  }

  lemma LeadingOne(R: seq<real>, i: nat)
    ensures Predictor(R, i)[0] == 1.0
  {
    if i > 0 {
      LeadingOne(R, i - 1);
      assert Times(Reflection(R, i), 0.0) == 0.0;
      hide Times;
    }
  }

  // The sum of the code, which starts at 1 and adds R[i] for the leading one.
  function Partial(p: seq<real>, R: seq<real>, i: nat, n: nat): real {
    if n <= 1 then 0.0 else Partial(p, R, i, n - 1) + Times(Coef(p, n - 1), Lag(R, i - (n - 1)))
  }

  lemma {:induction false} PartialIsCorr(p: seq<real>, R: seq<real>, i: nat, n: nat)
    requires 1 <= n && |p| > 0 && p[0] == 1.0
    ensures Lag(R, i) + Partial(p, R, i, n) == Corr(p, R, i, n)
  {
    if n == 1 {
      TimesAdds(Lag(R, i), 0.0, 0.0, 0.0);
      assert Corr(p, R, i, 1) == Corr(p, R, i, 0) + Times(Coef(p, 0), Lag(R, i - 0));
    } else {
      hide Times;
      PartialIsCorr(p, R, i, n - 1);
    }
  }

  method GapSum(a: array2<real>, R: array<real>, i: nat, ghost p: seq<real>) returns (sum: real)
    requires 1 <= i < R.Length && Row(a, i - 1, p)
    ensures R[i] + sum == Corr(p, R[..], i, i)
  {
    hide Times;
    sum := 0.0;
    for j: nat := 1 to i
      invariant sum == Partial(p, R[..], i, j)
    {
      sum := sum + Times(a[i - 1, j], R[i - j]);
    }
    PartialIsCorr(p, R[..], i, i);
  }

  // The coefficients of order i from those of order i - 1.
  method NextRow(a: array2<real>, i: nat, k: real, ghost p: seq<real>)
    requires 1 <= i && i < a.Length0 && i < a.Length1 && Row(a, i - 1, p)
    modifies a
    ensures Row(a, i, Extend(p, k))
  {
    ghost var b := Extend(p, k);
    ExtendEnds(p, k);
    hide Times;
    a[i, i] := k;
    for j: nat := 1 to i
      invariant Row(a, i - 1, p)
      invariant forall l | 1 <= l < j || l == i :: a[i, l] == b[l]
    {
      a[i, j] := a[i - 1, j] + Times(k, a[i - 1, i - j]);
    }
  }

  lemma ExtendEnds(p: seq<real>, k: real)
    requires |p| > 0 && p[0] == 1.0
    ensures Extend(p, k)[0] == 1.0 && Extend(p, k)[|p|] == k
  {
    hide Times;
    TimesAdds(k, 0.0, 0.0, 0.0);
  }

  // Whether the coefficients are numbers; if not, all but the first of them are none.
  method LevinsonDurbin(R: array<real>, lpcs: array<real>, order: nat) returns (definite: bool)
    requires order <= LPC_MAX && order + 1 <= R.Length && order + 1 <= lpcs.Length && R != lpcs
    modifies lpcs
    ensures definite <==> Definite(R[..], order)
    ensures definite ==> lpcs[..order + 1] == Predictor(R[..], order)
    ensures lpcs[order + 1..] == old(lpcs[order + 1..])
  {
    hide Times, Ratio, Extend;
    var E, k := new real[LPC_MAX + 1], new real[LPC_MAX + 1];
    var a := new real[LPC_MAX + 1, LPC_MAX + 1];
    ghost var r := R[..];
    E[0] := R[0];
    for i: nat := 1 to order + 1
      invariant R[..] == r && lpcs[..] == old(lpcs[..])
      invariant E[i - 1] == Energy(r, i - 1) && Definite(r, i - 1)
      invariant Row(a, i - 1, Predictor(r, i - 1))
    {
      ghost var p := Predictor(r, i - 1);
      var sum := GapSum(a, R, i, p);
      assert R[i] + sum == Gap(r, i);
      if E[i - 1] == 0.0 {
        if R[i] + sum == 0.0 {
          assert Indefinite(r, i);
          return false;
        }
        k[i] := 0.0;
      } else {
        k[i] := Ratio(R[i] + sum, E[i - 1]);
        if OutOfRange(k[i]) {
          k[i] := 0.0;
        }
      }
      assert k[i] == Reflection(r, i);
      NextRow(a, i, k[i], p);
      E[i] := Times(1.0 - Times(k[i], k[i]), E[i - 1]);
    }
    LeadingOne(r, order);
    for i: nat := 1 to order + 1
      invariant R[..] == r && Row(a, order, Predictor(r, order))
      invariant forall j | 1 <= j < i :: lpcs[j] == Predictor(r, order)[j]
      invariant lpcs[order + 1..] == old(lpcs[order + 1..])
    {
      lpcs[i] := a[order, i];
    }
    lpcs[0] := 1.0;
    definite := true;
  }

  // --------------------------------------------- a frame has positive prediction errors

  // The frame, silent outside its samples
  function Sample(s: seq<real>, n: int): real {
    if 0 <= n < |s| then s[n] else 0.0
  }

  // sum over t < n of s(t - j) * s(t - l)
  function ShiftSum(s: seq<real>, j: nat, l: nat, n: nat): real {
    if n == 0 then 0.0 else ShiftSum(s, j, l, n - 1) + Times(Sample(s, n - 1 - j), Sample(s, n - 1 - l))
  }

  lemma {:induction false} ShiftSumSwap(s: seq<real>, j: nat, l: nat, n: nat)
    ensures ShiftSum(s, j, l, n) == ShiftSum(s, l, j, n)
  {
    if n > 0 {
      ShiftSumSwap(s, j, l, n - 1);
      TimesComm(Sample(s, n - 1 - j), Sample(s, n - 1 - l));
    }
  }

  // The first l terms are silent, then the products of the autocorrelation follow.
  lemma {:induction false} ShiftSumIs(s: seq<real>, j: nat, l: nat, n: nat)
    requires j <= l
    ensures var d := l - j;
            ShiftSum(s, j, l, n) == if n <= l || |s| <= d then 0.0
                                    else if n - l <= |s| - d then AutoSum(s, d, n - l)
                                    else AutoSum(s, d, |s| - d)
  {
    hide Times;
    if n > 0 {
      ShiftSumIs(s, j, l, n - 1);
      var x, y := Sample(s, n - 1 - j), Sample(s, n - 1 - l);
      TimesAdds(x, 0.0, 0.0, 0.0);
      TimesAdds(y, 0.0, 0.0, 0.0);
      TimesComm(x, y);
    }
  }

  lemma ShiftIsLag(s: seq<real>, order: nat, j: nat, l: nat)
    requires j <= order && l <= order
    ensures ShiftSum(s, j, l, |s| + order) == Lag(AutoCorrs(s, order), l - j)
  {
    if j <= l {
      ShiftSumIs(s, j, l, |s| + order);
    } else {
      ShiftSumSwap(s, j, l, |s| + order);
      ShiftSumIs(s, l, j, |s| + order);
    }
  }

  // The prediction error at t, with the first p coefficients.
  function Filtered(s: seq<real>, a: seq<real>, t: int, p: nat): real {
    if p == 0 then 0.0 else Filtered(s, a, t, p - 1) + Times(Coef(a, p - 1), Sample(s, t - (p - 1)))
  }

  // sum over t < n of the error times the frame m samples back
  function CrossSum(s: seq<real>, a: seq<real>, p: nat, m: nat, n: nat): real {
    if n == 0 then 0.0 else CrossSum(s, a, p, m, n - 1) + Times(Filtered(s, a, n - 1, p), Sample(s, n - 1 - m))
  }

  // sum over t < n of the error with q coefficients times the error with p
  function ErrorSum(s: seq<real>, a: seq<real>, q: nat, p: nat, n: nat): real {
    if n == 0 then 0.0 else ErrorSum(s, a, q, p, n - 1) + Times(Filtered(s, a, n - 1, q), Filtered(s, a, n - 1, p))
  }

  lemma {:induction false} CrossStep(s: seq<real>, a: seq<real>, p: nat, m: nat, n: nat)
    ensures CrossSum(s, a, p + 1, m, n) == CrossSum(s, a, p, m, n) + Times(Coef(a, p), ShiftSum(s, p, m, n))
  {
    hide Times;
    if n == 0 {
      TimesAdds(Coef(a, p), 0.0, 0.0, 0.0);
    } else {
      var t, c := n - 1, Coef(a, p);
      CrossStep(s, a, p, m, t);
      TimesAdds(Filtered(s, a, t, p), c, Sample(s, t - p), Sample(s, t - m));
      TimesAdds(ShiftSum(s, p, m, t), c, Times(Sample(s, t - p), Sample(s, t - m)), 0.0);
    }
  }

  // The error is correlated with the frame as the equations say.
  lemma {:induction false} CrossIsCorr(s: seq<real>, a: seq<real>, order: nat, p: nat, m: nat)
    requires p <= order + 1 && m <= order
    ensures CrossSum(s, a, p, m, |s| + order) == Corr(a, AutoCorrs(s, order), m, p)
  {
    hide Times, AutoCorrs;
    if p == 0 {
      NoCross(s, a, m, |s| + order);
    } else {
      CrossIsCorr(s, a, order, p - 1, m);
      CrossStep(s, a, p - 1, m, |s| + order);
      ShiftIsLag(s, order, p - 1, m);
    }
  }

  lemma {:induction false} NoCross(s: seq<real>, a: seq<real>, m: nat, n: nat)
    ensures CrossSum(s, a, 0, m, n) == 0.0
  {
    if n > 0 {
      NoCross(s, a, m, n - 1);
    }
  }

  lemma {:induction false} ErrorStep(s: seq<real>, a: seq<real>, q: nat, p: nat, n: nat)
    ensures ErrorSum(s, a, q, p + 1, n) == ErrorSum(s, a, q, p, n) + Times(Coef(a, p), CrossSum(s, a, q, p, n))
  {
    hide Times;
    if n == 0 {
      TimesAdds(Coef(a, p), 0.0, 0.0, 0.0);
    } else {
      var t, c := n - 1, Coef(a, p);
      ErrorStep(s, a, q, p, t);
      var f := Filtered(s, a, t, q);
      TimesComm(f, Filtered(s, a, t, p + 1));
      TimesComm(f, Filtered(s, a, t, p));
      TimesComm(f, Sample(s, t - p));
      TimesAdds(Filtered(s, a, t, p), c, Sample(s, t - p), f);
      TimesAdds(CrossSum(s, a, q, p, t), c, Times(f, Sample(s, t - p)), 0.0);
    }
  }

  lemma {:induction false} NoError(s: seq<real>, a: seq<real>, q: nat, n: nat)
    ensures ErrorSum(s, a, q, 0, n) == 0.0
  {
    if n > 0 {
      NoError(s, a, q, n - 1);
    }
  }

  // When the equations are solved, only the term of the leading one is left.
  lemma {:induction false} ErrorIsEnergy(s: seq<real>, a: seq<real>, order: nat, p: nat)
    requires 1 <= p <= |a| <= order + 1 && a[0] == 1.0 && Solves(a, AutoCorrs(s, order))
    ensures ErrorSum(s, a, |a|, p, |s| + order) == Corr(a, AutoCorrs(s, order), 0, |a|)
  {
    hide Times, AutoCorrs, Corr;
    var q, n, R := |a|, |s| + order, AutoCorrs(s, order);
    ErrorStep(s, a, q, p - 1, n);
    CrossIsCorr(s, a, order, q, p - 1);
    var c := Corr(a, R, p - 1, q);
    if p == 1 {
      NoError(s, a, q, n);
      TimesAdds(c, 0.0, 0.0, 0.0);
    } else {
      ErrorIsEnergy(s, a, order, p - 1);
      assert Equation(a, R, p - 1);
      TimesAdds(Coef(a, p - 1), 0.0, 0.0, 0.0);
    }
  }

  // Squares add up to something positive where the first sample that sounds is in range.
  lemma {:induction false} ErrorPositive(s: seq<real>, a: seq<real>, at: nat, n: nat)
    requires |a| > 0 && a[0] == 1.0 && at < |s| && s[at] != 0.0 && forall i | 0 <= i < at :: s[i] == 0.0
    ensures ErrorSum(s, a, |a|, |a|, n) >= 0.0
    ensures at < n ==> ErrorSum(s, a, |a|, |a|, n) > 0.0
  {
    hide Times, Filtered;
    if n > 0 {
      ErrorPositive(s, a, at, n - 1);
      var f := Filtered(s, a, n - 1, |a|);
      SquarePositive(f);
      if at == n - 1 {
        Onset(s, a, at, |a|);
      }
    }
  }

  // Nothing but the first coefficient meets the first sample.
  lemma {:induction false} Onset(s: seq<real>, a: seq<real>, at: nat, p: nat)
    requires |a| > 0 && a[0] == 1.0 && at < |s| && p > 0 && forall i | 0 <= i < at :: s[i] == 0.0
    ensures Filtered(s, a, at, p) == s[at]
  {
    hide Times;
    var c, x := Coef(a, p - 1), Sample(s, at - (p - 1));
    TimesAdds(x, 0.0, 0.0, 0.0);
    if p > 1 {
      Onset(s, a, at, p - 1);
      TimesAdds(c, 0.0, 0.0, 0.0);
    } else {
      assert Filtered(s, a, at, 0) == 0.0;
    }
  }

  ghost predicate Sounds(s: seq<real>) { exists i :: 0 <= i < |s| && s[i] != 0.0 }

  lemma FirstSound(s: seq<real>) returns (at: nat)
    requires Sounds(s)
    ensures at < |s| && s[at] != 0.0 && forall i | 0 <= i < at :: s[i] == 0.0
  {
    at := 0;
    while s[at] == 0.0
      invariant at < |s| && forall i | 0 <= i < at :: s[i] == 0.0
      invariant Sounds(s[at..])
      decreases |s| - at
    {
      var i :| 0 <= i < |s[at..]| && s[at..][i] != 0.0;
      assert s[at..][0] == 0.0;
      assert s[at + 1..][i - 1] != 0.0;
      at := at + 1;
    }
  }

  // Whatever solves its equations leaves a prediction error, and so positive energy.
  lemma EnergyPositive(s: seq<real>, order: nat, a: seq<real>)
    requires Sounds(s) && 1 <= |a| <= order + 1 && a[0] == 1.0 && Solves(a, AutoCorrs(s, order))
    ensures Corr(a, AutoCorrs(s, order), 0, |a|) > 0.0
  {
    hide Times, AutoCorrs, Corr, Solves;
    ErrorIsEnergy(s, a, order, |a|);
    var at := FirstSound(s);
    ErrorPositive(s, a, at, |s| + order);
  }

  lemma SquareOutOfRange(k: real)
    ensures OutOfRange(k) ==> Times(k, k) > 1.0
  {
    if k > 1.0 {
      assert k * k > 1.0;
    } else if k < -1.0 {
      assert (-k) * (-k) > 1.0;
    }
  }

  lemma NotOutOfRange(k: real, e: real)
    requires e > 0.0 && Times(1.0 - Times(k, k), e) > 0.0
    ensures !OutOfRange(k)
  {
    hide Times;
    PositiveFactor(1.0 - Times(k, k), e);
    SquareOutOfRange(k);
  }

  lemma ExtendLeads(a: seq<real>, k: real)
    requires |a| > 0 && a[0] == 1.0
    ensures Extend(a, k)[0] == 1.0
  {
    ExtendEnds(a, k);
  }

  // What the recursion finds at order i for a frame that is not silent.
  ghost predicate FrameStep(R: seq<real>, i: nat) {
    Solved(R, i) && Energy(R, i) > 0.0 && (i > 0 ==> !Clamped(R, i))
  }

  lemma FrameStepHolds(s: seq<real>, order: nat, i: nat)
    requires Sounds(s) && 1 <= i <= order && FrameStep(AutoCorrs(s, order), i - 1)
    ensures FrameStep(AutoCorrs(s, order), i)
  {
    hide Times, Ratio, AutoCorrs, Corr, Extend, Solves, OutOfRange;
    var R := AutoCorrs(s, order);
    var a, e := Predictor(R, i - 1), Energy(R, i - 1);
    var k := RawReflection(R, i);
    LeadingOne(R, i - 1);
    assert |a| == i && Gap(R, i) == Corr(a, R, i, i) && k == Ratio(Gap(R, i), e);
    RatioSolves(Gap(R, i), e);
    ExtendSolves(a, R, e, k);
    ExtendLeads(a, k);
    EnergyPositive(s, order, Extend(a, k));
    NotOutOfRange(k, e);
    assert Reflection(R, i) == k;
    assert Energy(R, i) == Times(1.0 - Times(k, k), e);
    StepSolves(R, i);
  }

  // On the autocorrelation of a frame that is not silent, the recursion never divides by
  // zero and never clamps, and every order solves its normal equations.
  lemma {:induction false} FrameNeverClamps(s: seq<real>, order: nat, n: nat)
    requires Sounds(s) && n <= order
    ensures var R := AutoCorrs(s, order);
            && (forall i {:trigger FrameStep(R, i)} | 0 <= i <= n :: FrameStep(R, i))
            && Definite(R, n) && NoneClamped(R, n)
  {
    hide AutoCorrs, Energy, Clamped, Solved;
    var R := AutoCorrs(s, order);
    if n == 0 {
      FirstOrder(R);
      LeadingOne(R, 0);
      FirstEnergy(s, order);
    } else {
      FrameNeverClamps(s, order, n - 1);
      assert FrameStep(R, n - 1);
      FrameStepHolds(s, order, n);
      assert !Indefinite(R, n);
    }
  }

  lemma {:induction false} SilentSum(s: seq<real>, j: nat, n: nat)
    requires n + j <= |s| && !Sounds(s)
    ensures AutoSum(s, j, n) == 0.0
  {
    hide Times;
    if n > 0 {
      SilentSum(s, j, n - 1);
      TimesAdds(s[n - 1 + j], 0.0, 0.0, 0.0);
    }
  }

  // A silent frame makes the first quotient one of nothing by nothing; there is no other.
  lemma DefiniteIffSounds(s: seq<real>, order: nat)
    requires order > 0
    ensures Definite(AutoCorrs(s, order), order) <==> Sounds(s)
  {
    hide Times;
    var R := AutoCorrs(s, order);
    if Sounds(s) {
      FrameNeverClamps(s, order, order);
    } else {
      if |s| > 0 {
        SilentSum(s, 0, |s|);
        SilentSum(s, 1, |s| - 1);
      }
      assert R[0] == 0.0 == R[1];
      PartialIsCorr([1.0], R, 1, 1);
      assert Predictor(R, 0) == [1.0] && Gap(R, 1) == Lag(R, 1);
      assert Indefinite(R, 1);
    }
  }

  lemma FirstEnergy(s: seq<real>, order: nat)
    requires Sounds(s)
    ensures Energy(AutoCorrs(s, order), 0) > 0.0
  {
    hide AutoCorrs, Times;
    var R := AutoCorrs(s, order);
    FirstOrder(R);
    assert Predictor(R, 0) == [1.0];
    EnergyPositive(s, order, [1.0]);
  }
}
