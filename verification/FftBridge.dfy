// fft.c: the transform with the calling convention of the codec, on interleaved
// real and imaginary parts, with its globals as the fields of a class.
module FftBridge {
  import opened Complex
  import opened NatArith
  import opened RingSums
  import opened Twiddles
  import opened KissButterflies
  import opened KissFactor
  import opened KissFft
  import opened Orthogonality

  // The n complex samples that x holds, real and imaginary parts in turn.
  function Samples(x: seq<real>, n: nat): (y: seq<Cpx>)
    requires 2 * n <= |x|
    ensures |y| == n
  {
    seq(n, i requires 0 <= i < n => Cpx(x[2 * i], x[2 * i + 1]))
  }

  function ConjAll(y: seq<Cpx>): (z: seq<Cpx>)
    ensures |z| == |y|
  {
    seq(|y|, i requires 0 <= i < |y| => Conj(y[i]))
  }

  // Conjugating before and after a sum conjugates the table.
  lemma {:induction false} ConjSum(y: seq<Cpx>, w: nat -> Cpx, w': nat -> Cpx, k: nat, len: nat)
    requires Opposite(w, w')
    ensures Conj(Sum(CR, ConjAll(y), 0, 1, w, k, len)) == Sum(CR, y, 0, 1, w', k, len)
  {
    if len == 0 {
      ConjZero();
    } else {
      hide Mul, Conj;
      var j := len - 1;
      ConjSum(y, w, w', k, j);
      assert OppositeAt(w, w', k * j);
      var a, r := At(CR, y, j), Sum(CR, ConjAll(y), 0, 1, w, k, j);
      ConjTwice(a);
      ConjMul(Conj(a), w(k * j));
      ConjAdd(r, Mul(Conj(a), w(k * j)));
      assert 0 + 1 * j == j;
      assert At(CR, ConjAll(y), j) == Conj(a) by { ConjZero(); }
    }
  }

  lemma ConjTwice(a: Cpx)
    ensures Conj(Conj(a)) == a
  {
  }

  lemma ConjAdd(a: Cpx, b: Cpx)
    ensures Conj(Add(a, b)) == Add(Conj(a), Conj(b))
  {
  }

  lemma ConjZero()
    ensures Conj(ZERO) == ZERO
  {
  }

  lemma ConjDft(y: seq<Cpx>, w: nat -> Cpx, w': nat -> Cpx)
    requires Opposite(w, w')
    ensures ConjAll(Dft(ConjAll(y), 1, w, |y|)) == Dft(y, 1, w', |y|)
  {
    forall k: nat | k < |y|
      ensures ConjAll(Dft(ConjAll(y), 1, w, |y|))[k] == Dft(y, 1, w', |y|)[k]
    {
      hide Mul, Sum, Conj;
      ConjSum(y, w, w', k, |y|);
    }
  }

  lemma OppositeSymmetric(w: nat -> Cpx, w': nat -> Cpx)
    requires Opposite(w, w')
    ensures Opposite(w', w)
  {
    forall k: nat
      ensures OppositeAt(w', w, k)
    {
      assert OppositeAt(w, w', k);
    }
  }

  // ---------------------------------------------- the transform on the numbers of x

  // The real part of output k: the sum over j < n of the product of sample j, whose parts
  // are x[2j] and x[2j + 1], with entry j * k of the table
  function RealSum(x: seq<real>, w: nat -> Cpx, k: nat, n: nat): real
    requires 2 * n <= |x|
  {
    if n == 0 then 0.0 else
      var j := n - 1;
      RealSum(x, w, k, j) + (x[2 * j] * w(k * j).r - x[2 * j + 1] * w(k * j).i)
  }

  function ImaginarySum(x: seq<real>, w: nat -> Cpx, k: nat, n: nat): real
    requires 2 * n <= |x|
  {
    if n == 0 then 0.0 else
      var j := n - 1;
      ImaginarySum(x, w, k, j) + (x[2 * j] * w(k * j).i + x[2 * j + 1] * w(k * j).r)
  }

  lemma {:induction false} SumInParts(x: seq<real>, m: nat, w: nat -> Cpx, k: nat, n: nat)
    requires n <= m && 2 * m <= |x|
    ensures Sum(CR, Samples(x, m), 0, 1, w, k, n) == Cpx(RealSum(x, w, k, n), ImaginarySum(x, w, k, n))
  {
    if n > 0 {
      var j := n - 1;
      SumInParts(x, m, w, k, j);
      assert 0 + 1 * j == j;
      assert At(CR, Samples(x, m), j) == Cpx(x[2 * j], x[2 * j + 1]);
    }
  }

  // y holds the transform of x, part by part.
  ghost predicate TransformedInParts(x: seq<real>, y: seq<real>, w: nat -> Cpx, n: nat)
    requires 2 * n <= |x| && 2 * n <= |y|
  {
    forall k: nat | k < n :: y[2 * k] == RealSum(x, w, k, n) && y[2 * k + 1] == ImaginarySum(x, w, k, n)
  }

  lemma DftInParts(x: seq<real>, y: seq<real>, w: nat -> Cpx, n: nat)
    requires 2 * n <= |x| && 2 * n <= |y| && Samples(y, n) == Dft(Samples(x, n), 1, w, n)
    ensures TransformedInParts(x, y, w, n)
  {
    hide Sum, RealSum, ImaginarySum;
    forall k: nat | k < n
      ensures y[2 * k] == RealSum(x, w, k, n) && y[2 * k + 1] == ImaginarySum(x, w, k, n)
    {
      SumInParts(x, n, w, k, n);
      assert Samples(y, n)[k] == Cpx(y[2 * k], y[2 * k + 1]);
    }
  }

  class FftGlobals {
    var fin: array?<Cpx>
    var fout: array?<Cpx>
    var cfgForward: KissFftState?
    var cfgReverse: KissFftState?

    // Before the first call nothing is set up; afterwards everything is, for length n.
    ghost predicate Valid(n: nat, forward: nat -> Cpx, reverse: nat -> Cpx)
      reads this
      reads if cfgForward == null then {} else {cfgForward.twiddles, cfgForward.factors}
      reads if cfgReverse == null then {} else {cfgReverse.twiddles, cfgReverse.factors}
    {
      cfgForward != null ==>
        && cfgReverse != null && fin != null && fout != null && fin != fout
        && fin.Length == n && fout.Length == n
        && {fin, fout} !! {cfgForward.twiddles, cfgReverse.twiddles}
        && cfgForward.nfft == n && Ready(cfgForward, forward)
        && cfgReverse.nfft == n && Ready(cfgReverse, reverse)
    }

    constructor ()
      ensures cfgForward == null && cfgReverse == null && fin == null && fout == null
    {
      cfgForward, cfgReverse, fin, fout := null, null, null, null;
    }

    method InitializeFft(n: nat, forward: nat -> Cpx, reverse: nat -> Cpx)
      requires 1 <= n < INT_LIMIT && TablePair(forward, reverse, n)
      modifies this
      ensures cfgForward != null && cfgReverse != null && Valid(n, forward, reverse)
      ensures fresh(fin) && fresh(fout)
    {
      hide IsRoots, Opposite, Tabulates, StageList;
      var a, b := new Cpx[n], new Cpx[n];
      cfgForward := KissFftAlloc(n, false, forward);
      cfgReverse := KissFftAlloc(n, true, reverse);
      fin, fout := a, b;
    }

    method Fft(x: array<real>, n: nat, isign: int, forward: nat -> Cpx, reverse: nat -> Cpx)
      requires 1 <= n < INT_LIMIT && TablePair(forward, reverse, n)
      requires Valid(n, forward, reverse) && 2 * n <= x.Length
      modifies this, x, fin, fout
      ensures cfgForward != null && Valid(n, forward, reverse)
      ensures fin == old(fin) || fresh(fin)
      ensures fout == old(fout) || fresh(fout)
      ensures Samples(x[..], n) == Dft(old(Samples(x[..], n)), 1, if isign == -1 then forward else reverse, n)
      ensures TransformedInParts(old(x[..]), x[..], if isign == -1 then forward else reverse, n)
      ensures x[2 * n..] == old(x[2 * n..])
    {
      hide IsRoots, Opposite, Tabulates, StageList, Sum, Mul, TransformedInParts;
      ghost var x0, y := x[..], Samples(x[..], n);
      if cfgForward == null {
        InitializeFft(n, forward, reverse);
      }
      var a, b := fin, fout;
      LoadConjugates(x, n, a);
      var cfg;
      if isign == -1 {
        cfg := cfgReverse;
      } else {
        cfg := cfgForward;
      }
      ghost var w, w' := if isign == -1 then reverse else forward, if isign == -1 then forward else reverse;
      KissFft.KissFft(cfg, a, b, w);
      assert b[..] == b[..n];
      OppositeSymmetric(forward, reverse);
      ConjDft(y, w, w');
      StoreConjugates(x, n, b);
      DftInParts(x0, x[..], w', n);
    }
  }

  // The loops of fft before and after the transform.
  method LoadConjugates(x: array<real>, n: nat, fin: array<Cpx>)
    requires 2 * n <= x.Length && fin.Length == n
    modifies fin
    ensures fin[..] == ConjAll(Samples(x[..], n))
  {
    for c: nat := 0 to n
      invariant fin[..c] == ConjAll(Samples(x[..], n))[..c]
    {
      fin[c] := Cpx(x[2 * c], -x[2 * c + 1]);
    }
  }

  method StoreConjugates(x: array<real>, n: nat, fout: array<Cpx>)
    requires 2 * n <= x.Length && fout.Length == n
    modifies x
    ensures Samples(x[..], n) == ConjAll(fout[..])
    ensures x[2 * n..] == old(x[2 * n..])
  {
    for c: nat := 0 to n
      invariant x[2 * n..] == old(x[2 * n..])
      invariant forall i: nat | i < c :: x[2 * i] == fout[i].r && x[2 * i + 1] == -fout[i].i
    {
      x[2 * c] := fout[c].r;
      x[2 * c + 1] := -fout[c].i;
    }
  }

  // fft with sign -1 and then with sign 1 multiplies every sample by n.
  lemma FftRoundTrip(x0: seq<real>, x1: seq<real>, x2: seq<real>, n: nat, forward: nat -> Cpx, reverse: nat -> Cpx)
    requires n >= 1 && TablePair(forward, reverse, n)
    requires |x0| >= 2 * n && |x1| >= 2 * n && |x2| >= 2 * n
    requires Samples(x1, n) == Dft(Samples(x0, n), 1, forward, n)
    requires Samples(x2, n) == Dft(Samples(x1, n), 1, reverse, n)
    ensures forall i | 0 <= i < 2 * n :: x2[i] == x0[i] * n as real
  {
    hide Sum, Mul, IsRoots;
    DftInverts(Samples(x0, n), forward, reverse);
    var y := Scaled(Samples(x0, n), n as real);
    assert Samples(x2, n) == y;
    forall i | 0 <= i < 2 * n
      ensures x2[i] == x0[i] * n as real
    {
      assert Samples(x2, n)[i / 2] == Scale(Samples(x0, n)[i / 2], n as real);
      assert i == 2 * (i / 2) || i == 2 * (i / 2) + 1;
    }
  }

  // The two calls, on one array
  method FftThereAndBack(g: FftGlobals, x: array<real>, n: nat, forward: nat -> Cpx, reverse: nat -> Cpx)
    requires 1 <= n < INT_LIMIT && TablePair(forward, reverse, n)
    requires g.Valid(n, forward, reverse) && 2 * n <= x.Length
    modifies g, x, g.fin, g.fout
    ensures g.Valid(n, forward, reverse)
    ensures forall i | 0 <= i < 2 * n :: x[i] == old(x[i]) * n as real
    ensures x[2 * n..] == old(x[2 * n..])
  {
    hide IsRoots, Opposite, Sum, Mul, Ready;
    ghost var x0 := x[..];
    g.Fft(x, n, -1, forward, reverse);
    ghost var x1 := x[..];
    g.Fft(x, n, 1, forward, reverse);
    FftRoundTrip(x0, x1, x[..], n, forward, reverse);
  }

  // ------------------------------------------- a table as the laws ask for it

  // The four quarter turns
  function Turn(i: nat): Cpx
    requires i < 4
  {
    match i
    case 0 => ONE
    case 1 => Cpx(0.0, -1.0)
    case 2 => Cpx(-1.0, 0.0)
    case _ => Cpx(0.0, 1.0)
  }

  function QuarterTurn(k: nat): Cpx { Turn(k % 4) }

  function CounterTurn(k: nat): Cpx { Conj(QuarterTurn(k)) }

  lemma MulByTurn(a: Cpx)
    ensures Mul(a, Cpx(0.0, -1.0)) == Cpx(a.i, -a.r)
    ensures Mul(a, Cpx(-1.0, 0.0)) == Cpx(-a.r, -a.i)
    ensures Mul(a, Cpx(0.0, 1.0)) == Cpx(-a.i, a.r)
  {
  }

  lemma TurnsAdd(i: nat, j: nat)
    requires i < 4 && j < 4
    ensures Turn((i + j) % 4) == Mul(Turn(i), Turn(j))
  {
    hide Mul;
    MulOne(Turn(i));
    MulByTurn(Turn(i));
    if i == 0 {
    } else if i == 1 {
    } else if i == 2 {
    } else {
    }
  }

  lemma AxesOnCircle()
    ensures OnUnitCircle(Cpx(1.0, 0.0)) && OnUnitCircle(Cpx(-1.0, 0.0))
    ensures OnUnitCircle(Cpx(0.0, 1.0)) && OnUnitCircle(Cpx(0.0, -1.0))
  {
  }

  lemma TurnsOnCircle(i: nat)
    requires i < 4
    ensures OnUnitCircle(Turn(i)) && OnUnitCircle(Conj(Turn(i)))
  {
    hide OnUnitCircle;
    AxesOnCircle();
    assert Turn(i) in {ONE, Cpx(0.0, -1.0), Cpx(-1.0, 0.0), Cpx(0.0, 1.0)};
    assert Conj(Turn(i)) in {ONE, Cpx(0.0, -1.0), Cpx(-1.0, 0.0), Cpx(0.0, 1.0)};
  }

  lemma QuartersAdd(a: nat, b: nat)
    ensures QuarterTurn(a + b) == Mul(QuarterTurn(a), QuarterTurn(b))
    ensures CounterTurn(a + b) == Mul(CounterTurn(a), CounterTurn(b))
    ensures OnUnitCircle(QuarterTurn(a)) && OnUnitCircle(CounterTurn(a))
  {
    hide Mul, Conj, Turn, OnUnitCircle;
    assert (a + b) % 4 == (a % 4 + b % 4) % 4;
    TurnsAdd(a % 4, b % 4);
    TurnsOnCircle(a % 4);
    ConjMul(QuarterTurn(a), QuarterTurn(b));
  }

  // What is asked of one table, for the quarter turns or their conjugates
  lemma QuarterRoots(w: nat -> Cpx, inverse: bool)
    requires forall k: nat :: w(k) == if inverse then CounterTurn(k) else QuarterTurn(k)
    ensures IsRoots(w, 4, inverse)
  {
    hide Mul, QuarterTurn, CounterTurn, OnUnitCircle;
    forall a: nat, b: nat
      ensures ExponentRule(CR, w, a, b)
    {
      QuartersAdd(a, b);
    }
    forall k: nat
      ensures OnUnitCircle(w(k))
    {
      QuartersAdd(k, 0);
    }
    FiveTurns();
  }

  lemma FiveTurns()
    ensures QuarterTurn(0) == ONE == QuarterTurn(4) && QuarterTurn(1) == Cpx(0.0, -1.0)
    ensures QuarterTurn(2) == Cpx(-1.0, 0.0) && QuarterTurn(3) == Cpx(0.0, 1.0)
    ensures CounterTurn(0) == ONE == CounterTurn(4) && CounterTurn(1) == Cpx(0.0, 1.0)
    ensures CounterTurn(2) == Cpx(-1.0, 0.0) && CounterTurn(3) == Cpx(0.0, -1.0)
  {
  }

  // The laws that are asked of a pair of tables hold of them: they can be met.
  lemma LawsHold() returns (w: nat -> Cpx, w': nat -> Cpx)
    ensures TablePair(w, w', 4)
  {
    w, w' := (k: nat) => QuarterTurn(k), (k: nat) => CounterTurn(k);
    hide IsRoots, QuarterTurn;
    QuarterRoots(w, false);
    QuarterRoots(w', true);
    forall k: nat
      ensures OppositeAt(w, w', k)
    {
    }
  }
}
