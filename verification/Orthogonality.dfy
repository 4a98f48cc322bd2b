// Why a transform with the conjugate table undoes a transform: the rows of the
// table are orthogonal.
module Orthogonality {
  import opened RealProducts
  import opened Complex
  import opened NatArith
  import opened RingSums
  import opened Twiddles
  import opened KissFft

  // The tables of a forward and a reverse plan: cos is even and sin is odd.
  ghost predicate Opposite(wf: nat -> Cpx, wr: nat -> Cpx) {
    forall k: nat :: OppositeAt(wf, wr, k)
  }

  ghost predicate OppositeAt(wf: nat -> Cpx, wr: nat -> Cpx, k: nat) {
    wr(k) == Conj(wf(k))
  }

  ghost predicate TablePair(wf: nat -> Cpx, wr: nat -> Cpx, n: nat) {
    IsRoots(wf, n, false) && IsRoots(wr, n, true) && Opposite(wf, wr)
  }

  // sum over k < len of wf(k*j) * wr(l*k)
  function PairSum(wf: nat -> Cpx, wr: nat -> Cpx, j: nat, l: nat, len: nat): Cpx {
    if len == 0 then ZERO
    else Add(PairSum(wf, wr, j, l, len - 1), Mul(wf((len - 1) * j), wr(l * (len - 1))))
  }

  function Real(x: nat): Cpx { Cpx(x as real, 0.0) }

  lemma ConjSelf(a: Cpx)
    requires OnUnitCircle(a)
    ensures Mul(a, Conj(a)) == ONE
  {
  }

  lemma {:induction false} PairSumSame(wf: nat -> Cpx, wr: nat -> Cpx, n: nat, l: nat, len: nat)
    requires TablePair(wf, wr, n)
    ensures PairSum(wf, wr, l, l, len) == Real(len)
  {
    hide Mul, Conj;
    if len > 0 {
      PairSumSame(wf, wr, n, l, len - 1);
      var a := (len - 1) * l;
      assert OppositeAt(wf, wr, a) && OnUnitCircle(wf(a));
      ConjSelf(wf(a));
    }
  }

  // The ratio between one term and the next.
  function Ratio(wf: nat -> Cpx, wr: nat -> Cpx, j: nat, l: nat): Cpx {
    Mul(wf(j), wr(l))
  }

  function Term(wf: nat -> Cpx, wr: nat -> Cpx, j: nat, l: nat, k: nat): Cpx {
    Mul(wf(k * j), wr(l * k))
  }

  lemma TermStep(wf: nat -> Cpx, wr: nat -> Cpx, n: nat, j: nat, l: nat, k: nat)
    requires TablePair(wf, wr, n)
    ensures Term(wf, wr, j, l, k + 1) == Mul(Ratio(wf, wr, j, l), Term(wf, wr, j, l, k))
  {
    hide Mul;
    assert (k + 1) * j == j + k * j && l * (k + 1) == l + l * k;
    ExpAdd(wf, n, false, j, k * j);
    ExpAdd(wr, n, true, l, l * k);
    Interchange(wf(j), wf(k * j), wr(l), wr(l * k));
  }

  lemma Interchange(a: Cpx, b: Cpx, c: Cpx, d: Cpx)
    ensures Mul(Mul(a, b), Mul(c, d)) == Mul(Mul(a, c), Mul(b, d))
  {
    hide Mul;
    MulAssoc(Mul(a, b), c, d);
    MulAssoc(a, b, c);
    MulComm(b, c);
    MulAssoc(a, c, b);
    MulAssoc(Mul(a, c), b, d);
  }

  // Multiplying a geometric sum by its ratio shifts it by one term.
  lemma {:induction false} Telescopes(wf: nat -> Cpx, wr: nat -> Cpx, n: nat, j: nat, l: nat, len: nat)
    requires TablePair(wf, wr, n)
    ensures Add(Mul(Ratio(wf, wr, j, l), PairSum(wf, wr, j, l, len)), ONE)
         == Add(PairSum(wf, wr, j, l, len), Term(wf, wr, j, l, len))
  {
    hide Mul, Ratio, Term;
    var z := Ratio(wf, wr, j, l);
    if len == 0 {
      assert Mul(z, ZERO) == ZERO by { MulZero(z); }
      FirstIsOne(wf, wr, n, j, l);
    } else {
      var k := len - 1;
      Telescopes(wf, wr, n, j, l, k);
      var s, t := PairSum(wf, wr, j, l, k), Term(wf, wr, j, l, k);
      assert PairSum(wf, wr, j, l, len) == Add(s, t) by { PairSumStep(wf, wr, j, l, k); }
      MulAdd(z, s, t);
      TermStep(wf, wr, n, j, l, k);
    }
  }

  lemma PairSumStep(wf: nat -> Cpx, wr: nat -> Cpx, j: nat, l: nat, k: nat)
    ensures PairSum(wf, wr, j, l, k + 1) == Add(PairSum(wf, wr, j, l, k), Term(wf, wr, j, l, k))
  {
    hide Mul;
  }

  lemma MulZero(z: Cpx)
    ensures Mul(z, ZERO) == ZERO && Mul(ZERO, z) == ZERO
  {
  }

  lemma FirstIsOne(wf: nat -> Cpx, wr: nat -> Cpx, n: nat, j: nat, l: nat)
    requires TablePair(wf, wr, n)
    ensures Term(wf, wr, j, l, 0) == ONE && Term(wf, wr, j, l, n) == ONE
  {
    hide Mul;
    assert 0 * j == 0 && l * 0 == 0;
    FullTurns(wf, n, false, j);
    FullTurns(wr, n, true, l);
    assert n * j == j * n;
    MulOne(ONE);
  }

  lemma RatioIsNotOne(wf: nat -> Cpx, wr: nat -> Cpx, n: nat, j: nat, l: nat)
    requires TablePair(wf, wr, n) && j < n && l < n && j != l
    ensures Ratio(wf, wr, j, l) != ONE
  {
    hide Mul, Conj;
    if Ratio(wf, wr, j, l) == ONE {
      assert OppositeAt(wf, wr, l) && OnUnitCircle(wf(l)) && OnUnitCircle(wf(j));
      SameAngle(wf(j), wf(l));
      var a, b := if j < l then j else l, if j < l then l else j;
      ExpAdd(wf, n, false, b - a, a);
      assert OnUnitCircle(wf(a));
      OnlyOneFixes(wf(b - a), wf(a));
      assert false;
    }
  }

  lemma SameAngle(a: Cpx, b: Cpx)
    requires OnUnitCircle(a) && OnUnitCircle(b) && Mul(a, Conj(b)) == ONE
    ensures a == b
  {
    hide Mul;
    UnitInverse(a, Conj(b));
  }

  lemma OnlyOneFixes(d: Cpx, a: Cpx)
    requires Mul(d, a) == a && OnUnitCircle(a)
    ensures d == ONE
  {
    assert Mul(Mul(d, a), Conj(a)) == Mul(d, Mul(a, Conj(a))) by { MulAssoc(d, a, Conj(a)); }
    ConjSelf(a);
    MulOne(d);
  }

  // Distinct rows are orthogonal.
  lemma PairSumVanishes(wf: nat -> Cpx, wr: nat -> Cpx, n: nat, j: nat, l: nat)
    requires TablePair(wf, wr, n) && j < n && l < n && j != l
    ensures PairSum(wf, wr, j, l, n) == ZERO
  {
    hide Mul, Ratio, Term, PairSum;
    var z, s := Ratio(wf, wr, j, l), PairSum(wf, wr, j, l, n);
    Telescopes(wf, wr, n, j, l, n);
    FirstIsOne(wf, wr, n, j, l);
    RatioIsNotOne(wf, wr, n, j, l);
    FixedPointIsZero(z, s);
  }

  lemma FixedPointIsZero(z: Cpx, s: Cpx)
    requires Add(Mul(z, s), ONE) == Add(s, ONE) && z != ONE
    ensures s == ZERO
  {
    hide Mul;
    assert Mul(z, s) == s;
    MulAdd(s, Sub(z, ONE), ONE);
    assert Add(Sub(z, ONE), ONE) == z;
    MulOne(s);
    NoZeroDivisors(Sub(z, ONE), s);
  }

  // ------------------------------------------------------ exchanging the sums

  // sum over j < m of x[j] * PairSum(j, l, len)
  function Weighted(x: seq<Cpx>, wf: nat -> Cpx, wr: nat -> Cpx, l: nat, len: nat, m: nat): Cpx {
    if m == 0 then ZERO
    else Add(Weighted(x, wf, wr, l, len, m - 1), Mul(At(CR, x, m - 1), PairSum(wf, wr, m - 1, l, len)))
  }

  // The transform cut after m samples, transformed back, cut after len entries.
  function Back(x: seq<Cpx>, wf: nat -> Cpx, wr: nat -> Cpx, l: nat, len: nat, m: nat): Cpx {
    if len == 0 then ZERO
    else Add(Back(x, wf, wr, l, len - 1, m), Mul(Sum(CR, x, 0, 1, wf, len - 1, m), wr(l * (len - 1))))
  }

  lemma {:induction false} BackOneMore(x: seq<Cpx>, wf: nat -> Cpx, wr: nat -> Cpx, l: nat, len: nat, m: nat)
    ensures Back(x, wf, wr, l, len, m + 1) == Add(Back(x, wf, wr, l, len, m), Mul(At(CR, x, m), PairSum(wf, wr, m, l, len)))
    decreases len
  {
    hide Mul;
    var x', k := At(CR, x, m), len - 1;
    if len == 0 {
      MulZero(x');
    } else {
      BackOneMore(x, wf, wr, l, k, m);
      var s, v, r := Sum(CR, x, 0, 1, wf, k, m), wf(k * m), wr(l * k);
      assert Sum(CR, x, 0, 1, wf, k, m + 1) == Add(s, Mul(x', v));
      MulAdd(r, s, Mul(x', v));
      MulAssoc(x', v, r);
      MulAdd(x', PairSum(wf, wr, m, l, k), Mul(v, r));
    }
  }

  lemma {:induction false} BackIsWeighted(x: seq<Cpx>, wf: nat -> Cpx, wr: nat -> Cpx, l: nat, len: nat, m: nat)
    ensures Back(x, wf, wr, l, len, m) == Weighted(x, wf, wr, l, len, m)
    decreases m
  {
    hide Mul;
    if m == 0 {
      BackOfNothing(x, wf, wr, l, len);
    } else {
      BackIsWeighted(x, wf, wr, l, len, m - 1);
      BackOneMore(x, wf, wr, l, len, m - 1);
    }
  }

  lemma {:induction false} BackOfNothing(x: seq<Cpx>, wf: nat -> Cpx, wr: nat -> Cpx, l: nat, len: nat)
    ensures Back(x, wf, wr, l, len, 0) == ZERO
  {
    hide Mul;
    if len > 0 {
      BackOfNothing(x, wf, wr, l, len - 1);
      MulZero(wr(l * (len - 1)));
    }
  }

  lemma {:induction false} BackIsDft(x: seq<Cpx>, wf: nat -> Cpx, wr: nat -> Cpx, n: nat, l: nat, len: nat)
    requires len <= n
    ensures Sum(CR, Dft(x, 1, wf, n), 0, 1, wr, l, len) == Back(x, wf, wr, l, len, n)
  {
    hide Mul;
    if len > 0 {
      BackIsDft(x, wf, wr, n, l, len - 1);
    }
  }

  lemma AddZero(a: Cpx)
    ensures Add(ZERO, a) == a && Add(a, ZERO) == a
  {
  }

  lemma {:induction false} OneSurvives(x: seq<Cpx>, wf: nat -> Cpx, wr: nat -> Cpx, n: nat, l: nat, m: nat)
    requires TablePair(wf, wr, n) && l < n == |x| && m <= n
    ensures Weighted(x, wf, wr, l, n, m) == if l < m then Scale(x[l], n as real) else ZERO
  {
    hide Mul, PairSum, Scale, Add, TablePair, Real;
    if m > 0 {
      OneSurvives(x, wf, wr, n, l, m - 1);
      if m - 1 == l {
        PairSumSame(wf, wr, n, l, n);
        MulReal(x[l], n);
        AddZero(Scale(x[l], n as real));
      } else {
        PairSumVanishes(wf, wr, n, m - 1, l);
        MulZero(x[m - 1]);
        AddZero(Weighted(x, wf, wr, l, n, m - 1));
      }
    }
  }

  lemma MulReal(a: Cpx, n: nat)
    ensures Mul(a, Real(n)) == Scale(a, n as real)
  {
  }

  function Scaled(x: seq<Cpx>, s: real): (y: seq<Cpx>)
    ensures |y| == |x|
  {
    seq(|x|, i requires 0 <= i < |x| => Scale(x[i], s))
  }

  // Transforming with one table and then with its conjugate multiplies by n.
  lemma DftInverts(x: seq<Cpx>, wf: nat -> Cpx, wr: nat -> Cpx)
    requires TablePair(wf, wr, |x|)
    ensures Dft(Dft(x, 1, wf, |x|), 1, wr, |x|) == Scaled(x, |x| as real)
  {
    var n := |x|;
    forall l: nat | l < n
      ensures Dft(Dft(x, 1, wf, n), 1, wr, n)[l] == Scale(x[l], n as real)
    {
      hide Mul, Times;
      BackIsDft(x, wf, wr, n, l, n);
      BackIsWeighted(x, wf, wr, l, n, n);
      OneSurvives(x, wf, wr, n, l, n);
    }
  }
}
