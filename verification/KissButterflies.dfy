// The butterflies of kiss_fft.c.  Each overwrites a block of the output array in
// place; each is proved to compute one stage of the transform.
module KissButterflies {
  import opened RealProducts
  import opened Complex
  import opened NatArith
  import opened RingSums
  import opened Twiddles
  import opened ButterflySpec

  class KissFftState {
    const nfft: nat
    const inverse: bool
    const factors: array<int>
    const twiddles: array<Cpx>

    // The table holds the first nfft values of w.
    ghost predicate Holds(w: nat -> Cpx)
      reads twiddles
    {
      && twiddles.Length == nfft
      && IsRoots(w, nfft, inverse)
      && Tabulates(twiddles[..], w)
    }

    constructor (nfft: nat, inverse: bool, factors: array<int>, twiddles: array<Cpx>)
      ensures this.nfft == nfft && this.inverse == inverse
      ensures this.factors == factors && this.twiddles == twiddles
    {
      this.nfft, this.inverse, this.factors, this.twiddles := nfft, inverse, factors, twiddles;
    }
  }

  // A stage of radix p on the block at base of an array of length len.
  ghost predicate StageFits(len: nat, base: nat, p: nat, m: nat, n: nat, fstride: nat) {
    && m > 0 && fstride > 0 && p > 0
    && p * (fstride * m) == n
    && base + p * m <= len
  }

  lemma TwiddleInTable(p: nat, m: nat, fstride: nat, u: nat, j: nat)
    requires u < m && j < p && fstride > 0
    ensures fstride * u * j < p * (fstride * m)
  {
    MulMono(u, m, fstride);
    MulMono(fstride * u, fstride * m, j);
    MulMono(j + 1, p, fstride * m);
    assert (j + 1) * (fstride * m) == fstride * m * j + fstride * m;
    MulMono(1, fstride, m);
  }

  // Twisted input j of a column that is not done, read off the array and the table.
  lemma ReadTerm(F0: seq<Cpx>, F: seq<Cpx>, base: nat, p: nat, m: nat, w: nat -> Cpx, tw: seq<Cpx>, fstride: nat,
                 u: nat,
                 j: nat, pos: nat, idx: nat)
    requires Tabulates(tw, w) && StageFits(|F0|, base, p, m, |tw|, fstride) && u < m && j < p
    requires ColumnsDone(CR, F0, F, base, p, m, w, fstride, u)
    requires pos == Slot(base, m, j, u) && idx == fstride * u * j
    ensures pos < |F| && idx < |tw| && Twisted(CR, F0, base, p, m, w, fstride, u)[j] == Mul(F[pos], tw[idx])
  {
    hide Mul;
    ReadRow(CR, F0, F, base, p, m, w, fstride, u, j);
    TwiddleInTable(p, m, fstride, u, j);
  }

  lemma ReadFirst(F0: seq<Cpx>, F: seq<Cpx>, base: nat, p: nat, m: nat, w: nat -> Cpx, fstride: nat, u: nat)
    requires w(0) == ONE && p > 0 && u < m
    requires ColumnsDone(CR, F0, F, base, p, m, w, fstride, u)
    ensures base + u < |F| == |F0| && Twisted(CR, F0, base, p, m, w, fstride, u)[0] == F[base + u]
  {
    hide Mul;
    ReadRow(CR, F0, F, base, p, m, w, fstride, u, 0);
    assert fstride * u * 0 == 0;
    assert Slot(base, m, 0, u) == base + u;
    MulOne(F[base + u]);
  }

  lemma TurnsFold(w: nat -> Cpx, n: nat, inverse: bool, h: nat, p: nat)
    requires IsRoots(w, n, inverse) && p > 0 && p * h == n
    ensures Folds(w, h, p)
  {
    hide IsRoots, FoldRule;
    forall x: nat
      ensures FoldRule(w, h, p, x)
    {
      TurnFolds(w, n, inverse, h, p, x);
    }
  }

  lemma TurnFolds(w: nat -> Cpx, n: nat, inverse: bool, h: nat, p: nat, x: nat)
    requires IsRoots(w, n, inverse) && p > 0 && p * h == n
    ensures FoldRule(w, h, p, x)
  {
    hide IsRoots;
    TurnsOut(h, p, x / p, x % p, x, n);
    ExpPeriod(w, n, inverse, h * (x % p), x / p);
  }

  lemma TurnsOut(h: nat, p: nat, q: nat, r: nat, x: nat, n: nat)
    requires x == q * p + r && p * h == n
    ensures h * x == q * n + h * r
  {
    hide Prod;
    assert Prod(q, p) == q * p && Prod(p, h) == p * h && Prod(h, x) == h * x && Prod(q, n) == q * n && Prod(h, r) == h * r by {
      FiveProds(h, p, q, r, x, n);
    }
    ProdSum(h, Prod(q, p), r);
    ProdComm(h, Prod(q, p));
    ProdAssoc(q, p, h);
  }

  lemma FiveProds(h: nat, p: nat, q: nat, r: nat, x: nat, n: nat)
    ensures Prod(q, p) == q * p && Prod(p, h) == p * h && Prod(h, x) == h * x && Prod(q, n) == q * n && Prod(h, r) == h * r
  {
  }

  // Writing the rows of column u finishes it, when the values are the spun inputs.
  lemma WriteRows(F0: seq<Cpx>, F: seq<Cpx>, base: nat, m: nat, w: nat -> Cpx, n: nat, inverse: bool, fstride: nat,
                  u: nat, vs: seq<Cpx>)
    requires IsRoots(w, n, inverse) && |vs| > 0 && |vs| * (fstride * m) == n && u < m
    requires ColumnsDone(CR, F0, F, base, |vs|, m, w, fstride, u)
    requires forall q: nat | q < |vs| ::
               vs[q] == Spin(CR, Twisted(CR, F0, base, |vs|, m, w, fstride, u), w, fstride * m, |vs|, q, |vs|)
    ensures forall q: nat {:trigger Slot(base, m, q, u)} | q < |vs| :: Slot(base, m, q, u) < |F|
    ensures ColumnsDone(CR, F0, WriteColumn(F, base, m, u, vs), base, |vs|, m, w, fstride, u + 1)
  {
    hide Mul;
    CpxIsRing();
    TurnsFold(w, n, inverse, fstride * m, |vs|);
    FinishColumn(CR, F0, F, base, m, w, fstride, u, vs);
  }

  lemma Write2(F: seq<Cpx>, base: nat, m: nat, u: nat, vs: seq<Cpx>)
    requires |vs| == 2 && u < m && base + 2 * m <= |F|
    ensures forall q: nat {:trigger Slot(base, m, q, u)} | q < 2 :: Slot(base, m, q, u) < |F|
    ensures WriteColumn(F, base, m, u, vs) == F[base + u := vs[0]][base + m + u := vs[1]]
  {
    assert Slot(base, m, 0, u) == base + u && Slot(base, m, 1, u) == base + m + u;
    assert WriteColumn(F, base, m, u, vs[..1]) == F[base + u := vs[0]];
  }

  lemma Write4(F: seq<Cpx>, base: nat, m: nat, u: nat, vs: seq<Cpx>)
    requires |vs| == 4 && u < m && base + 4 * m <= |F|
    ensures forall q: nat {:trigger Slot(base, m, q, u)} | q < 4 :: Slot(base, m, q, u) < |F|
    ensures WriteColumn(F, base, m, u, vs)
         == F[base + u := vs[0]][base + m + u := vs[1]][base + 2 * m + u := vs[2]][base + 3 * m + u := vs[3]]
  {
    assert Slot(base, m, 2, u) == base + 2 * m + u && Slot(base, m, 3, u) == base + 3 * m + u;
    Write2(F, base, m, u, vs[..2]);
    assert vs[..3][..2] == vs[..2];
    assert WriteColumn(F, base, m, u, vs[..3]) == WriteColumn(F, base, m, u, vs[..2])[base + 2 * m + u := vs[2]];
  }

  // ------------------------------------------------------------------- radix 2

  lemma Radix2(t: seq<Cpx>, w: nat -> Cpx, n: nat, inverse: bool, h: nat, q: nat)
    requires IsRoots(w, n, inverse) && 2 * h == n && |t| == 2 && q < 2
    ensures Spin(CR, t, w, h, 2, q, 2) == [Add(t[0], t[1]), Sub(t[0], t[1])][q]
  {
    HalfTurn(w, n, inverse, h);
    assert Spin(CR, t, w, h, 2, q, 1) == t[0];
  }

  lemma Column2(F0: seq<Cpx>, F: seq<Cpx>, base: nat, m: nat, w: nat -> Cpx, n: nat, inverse: bool, fstride: nat,
                u: nat, t: seq<Cpx>)
    requires IsRoots(w, n, inverse) && 2 * (fstride * m) == n && u < m && base + 2 * m <= |F|
    requires ColumnsDone(CR, F0, F, base, 2, m, w, fstride, u)
    requires t == Twisted(CR, F0, base, 2, m, w, fstride, u)
    ensures ColumnsDone(CR, F0, F[base + u := Add(t[0], t[1])][base + m + u := Sub(t[0], t[1])], base, 2, m, w, fstride, u + 1)
  {
    hide Mul, Twisted;
    var vs := [Add(t[0], t[1]), Sub(t[0], t[1])];
    forall q: nat | q < 2
      ensures vs[q] == Spin(CR, t, w, fstride * m, 2, q, 2)
    {
      Radix2(t, w, n, inverse, fstride * m, q);
    }
    WriteRows(F0, F, base, m, w, n, inverse, fstride, u, vs);
    Write2(F, base, m, u, vs);
  }

  method KfBfly2(Fout: array<Cpx>, base: nat, fstride: nat, st: KissFftState, m: nat, ghost w: nat -> Cpx)
    requires Fout != st.twiddles && st.Holds(w)
    requires StageFits(Fout.Length, base, 2, m, st.nfft, fstride)
    modifies Fout
    ensures IsButterfly(CR, old(Fout[..]), Fout[..], base, 2, m, w, fstride)
  {
    hide Mul, Spin, Twisted, WriteColumn, ColumnsDone, Cell;
    ghost var F0, tw := Fout[..], st.twiddles[..];
    NothingDone(CR, F0, base, 2, m, w, fstride);
    var u, tw1 := 0, 0;
    while u < m
      invariant u <= m && tw1 == fstride * u
      invariant st.twiddles[..] == tw
      invariant ColumnsDone(CR, F0, Fout[..], base, 2, m, w, fstride, u)
    {
      ghost var F := Fout[..];
      ReadFirst(F0, F, base, 2, m, w, fstride, u);
      ReadTerm(F0, F, base, 2, m, w, tw, fstride, u, 1, base + m + u, tw1);
      var t := Mul(Fout[base + m + u], st.twiddles[tw1]);
      assert Twisted(CR, F0, base, 2, m, w, fstride, u) == [F[base + u], t];
      Column2(F0, F, base, m, w, st.nfft, st.inverse, fstride, u, [F[base + u], t]);
      Fout[base + m + u] := Sub(Fout[base + u], t);
      Fout[base + u] := Add(Fout[base + u], t);
      assert Fout[..] == F[base + u := Add(F[base + u], t)][base + m + u := Sub(F[base + u], t)];
      MulSucc(fstride, u);
      tw1 := tw1 + fstride;
      u := u + 1;
    }
  }

  // ------------------------------------------------------------------- radix 4

  // scratch[4] turned by a quarter, backwards for the inverse transform
  function Quarter(a: Cpx, inverse: bool): Cpx {
    if inverse then Cpx(-a.i, a.r) else Cpx(a.i, -a.r)
  }

  function Values4(t: seq<Cpx>, inverse: bool): (vs: seq<Cpx>)
    requires |t| == 4
    ensures |vs| == 4
  {
    var even, odd := Add(t[0], t[2]), Add(t[1], t[3]);
    var s5, turned := Sub(t[0], t[2]), Quarter(Sub(t[1], t[3]), inverse);
    [Add(even, odd), Add(s5, turned), Sub(even, odd), Sub(s5, turned)]
  }

  lemma Spin4(t: seq<Cpx>, w: nat -> Cpx, h: nat, q: nat)
    requires |t| == 4
    ensures Spin(CR, t, w, h, 4, q, 4)
         == Add(Add(Add(Add(ZERO, Mul(t[0], w(h * ((q * 0) % 4)))), Mul(t[1], w(h * ((q * 1) % 4)))),
                    Mul(t[2], w(h * ((q * 2) % 4)))), Mul(t[3], w(h * ((q * 3) % 4))))
  {
    hide Mul;
    assert Spin(CR, t, w, h, 4, q, 1) == Add(ZERO, Mul(t[0], w(h * ((q * 0) % 4))));
    assert Spin(CR, t, w, h, 4, q, 2) == Add(Spin(CR, t, w, h, 4, q, 1), Mul(t[1], w(h * ((q * 1) % 4))));
    assert Spin(CR, t, w, h, 4, q, 3) == Add(Spin(CR, t, w, h, 4, q, 2), Mul(t[2], w(h * ((q * 2) % 4))));
  }

  // k quarter turns
  function Turn4(k: nat, inverse: bool): Cpx
    requires k < 4
  {
    match k
    case 0 => ONE
    case 1 => Cpx(0.0, if inverse then 1.0 else -1.0)
    case 2 => Cpx(-1.0, 0.0)
    case _ => Cpx(0.0, if inverse then -1.0 else 1.0)
  }

  lemma Algebra4(t: seq<Cpx>, inverse: bool, q: nat)
    requires |t| == 4 && q < 4
    ensures Add(Add(Add(Add(ZERO, Mul(t[0], Turn4((q * 0) % 4, inverse))), Mul(t[1], Turn4((q * 1) % 4, inverse))),
                    Mul(t[2], Turn4((q * 2) % 4, inverse))), Mul(t[3], Turn4((q * 3) % 4, inverse)))
         == Values4(t, inverse)[q]
  {
    hide Mul;
    forall j | 0 <= j < 4
      ensures Mul(t[j], Turn4(0, inverse)) == t[j] && Mul(t[j], Turn4(1, inverse)) == Quarter(t[j], inverse)
      ensures Mul(t[j], Turn4(2, inverse)) == Sub(ZERO, t[j]) && Mul(t[j], Turn4(3, inverse)) == Sub(ZERO, Quarter(t[j], inverse))
    {
      MulTurn4(t[j], inverse);
    }
    match q {
      case 0 =>
      case 1 =>
      case 2 =>
      case _ => assert q == 3;
    }
  }

  lemma MulTurn4(x: Cpx, inverse: bool)
    ensures Mul(x, Turn4(0, inverse)) == x && Mul(x, Turn4(1, inverse)) == Quarter(x, inverse)
    ensures Mul(x, Turn4(2, inverse)) == Sub(ZERO, x) && Mul(x, Turn4(3, inverse)) == Sub(ZERO, Quarter(x, inverse))
  {
  }

  lemma Radix4(t: seq<Cpx>, w: nat -> Cpx, n: nat, inverse: bool, h: nat, q: nat)
    requires IsRoots(w, n, inverse) && 4 * h == n && |t| == 4 && q < 4
    ensures Spin(CR, t, w, h, 4, q, 4) == Values4(t, inverse)[q]
  {
    hide Mul;
    QuarterTurns(w, n, inverse, h);
    forall k: nat | k < 4
      ensures w(h * k) == Turn4(k, inverse)
    {
      assert h * 0 == 0 && h * 1 == h;
    }
    Spin4(t, w, h, q);
    Algebra4(t, inverse, q);
  }

  lemma ReadColumn4(F0: seq<Cpx>, F: seq<Cpx>, base: nat, m: nat, w: nat -> Cpx, tw: seq<Cpx>, fstride: nat, u: nat,
                    tw1: nat, tw2: nat, tw3: nat)
    requires w(0) == ONE && Tabulates(tw, w) && StageFits(|F0|, base, 4, m, |tw|, fstride) && u < m
    requires ColumnsDone(CR, F0, F, base, 4, m, w, fstride, u)
    requires tw1 == fstride * u * 1 && tw2 == fstride * u * 2 && tw3 == fstride * u * 3
    ensures |F| == |F0| && tw1 < |tw| && tw2 < |tw| && tw3 < |tw|
    ensures Twisted(CR, F0, base, 4, m, w, fstride, u)
         == [F[base + u], Mul(F[base + m + u], tw[tw1]), Mul(F[base + 2 * m + u], tw[tw2]), Mul(F[base + 3 * m + u], tw[tw3])]
  {
    hide Mul;
    ReadFirst(F0, F, base, 4, m, w, fstride, u);
    ReadTerm(F0, F, base, 4, m, w, tw, fstride, u, 1, base + m + u, tw1);
    ReadTerm(F0, F, base, 4, m, w, tw, fstride, u, 2, base + 2 * m + u, tw2);
    ReadTerm(F0, F, base, 4, m, w, tw, fstride, u, 3, base + 3 * m + u, tw3);
  }

  lemma Column4(F0: seq<Cpx>, F: seq<Cpx>, base: nat, m: nat, w: nat -> Cpx, n: nat, inverse: bool, fstride: nat,
                u: nat, t: seq<Cpx>)
    requires IsRoots(w, n, inverse) && 4 * (fstride * m) == n && u < m && base + 4 * m <= |F|
    requires ColumnsDone(CR, F0, F, base, 4, m, w, fstride, u)
    requires t == Twisted(CR, F0, base, 4, m, w, fstride, u)
    ensures var vs := Values4(t, inverse);
            ColumnsDone(CR, F0, F[base + u := vs[0]][base + m + u := vs[1]][base + 2 * m + u := vs[2]][base + 3 * m + u := vs[3]],
                        base, 4, m, w, fstride, u + 1)
  {
    hide Mul, Values4, Twisted;
    var vs := Values4(t, inverse);
    forall q: nat | q < 4
      ensures vs[q] == Spin(CR, t, w, fstride * m, 4, q, 4)
    {
      Radix4(t, w, n, inverse, fstride * m, q);
    }
    WriteRows(F0, F, base, m, w, n, inverse, fstride, u, vs);
    Write4(F, base, m, u, vs);
  }

  method KfBfly4(Fout: array<Cpx>, base: nat, fstride: nat, st: KissFftState, m: nat, ghost w: nat -> Cpx)
    requires Fout != st.twiddles && st.Holds(w)
    requires StageFits(Fout.Length, base, 4, m, st.nfft, fstride)
    modifies Fout
    ensures IsButterfly(CR, old(Fout[..]), Fout[..], base, 4, m, w, fstride)
  {
    hide Mul, Spin, Twisted, WriteColumn, ColumnsDone, Cell;
    ghost var F0, tw := Fout[..], st.twiddles[..];
    NothingDone(CR, F0, base, 4, m, w, fstride);
    var m2, m3 := 2 * m, 3 * m;
    var u, tw1, tw2, tw3 := 0, 0, 0, 0;
    while u < m
      invariant u <= m && tw1 == fstride * u * 1 && tw2 == fstride * u * 2 && tw3 == fstride * u * 3
      invariant st.twiddles[..] == tw
      invariant ColumnsDone(CR, F0, Fout[..], base, 4, m, w, fstride, u)
    {
      ghost var F := Fout[..];
      ReadColumn4(F0, F, base, m, w, tw, fstride, u, tw1, tw2, tw3);
      var s0 := Mul(Fout[base + m + u], st.twiddles[tw1]);
      var s1 := Mul(Fout[base + m2 + u], st.twiddles[tw2]);
      var s2 := Mul(Fout[base + m3 + u], st.twiddles[tw3]);
      ghost var vs := Values4([F[base + u], s0, s1, s2], st.inverse);
      Column4(F0, F, base, m, w, st.nfft, st.inverse, fstride, u, [F[base + u], s0, s1, s2]);
      var s5 := Sub(Fout[base + u], s1);
      Fout[base + u] := Add(Fout[base + u], s1);
      var s3, s4 := Add(s0, s2), Sub(s0, s2);
      Fout[base + m2 + u] := Sub(Fout[base + u], s3);
      StepTwiddle(fstride, u, 1);
      StepTwiddle(fstride, u, 2);
      StepTwiddle(fstride, u, 3);
      tw1, tw2, tw3 := tw1 + fstride, tw2 + fstride * 2, tw3 + fstride * 3;
      Fout[base + u] := Add(Fout[base + u], s3);
      if st.inverse {
        Fout[base + m + u] := Cpx(s5.r - s4.i, s5.i + s4.r);
        Fout[base + m3 + u] := Cpx(s5.r + s4.i, s5.i - s4.r);
      } else {
        Fout[base + m + u] := Cpx(s5.r + s4.i, s5.i - s4.r);
        Fout[base + m3 + u] := Cpx(s5.r - s4.i, s5.i + s4.r);
      }
      assert Fout[base + u] == vs[0] && Fout[base + m + u] == vs[1];
      assert Fout[base + m2 + u] == vs[2] && Fout[base + m3 + u] == vs[3];
      assert Fout[..] == F[base + u := vs[0]][base + m + u := vs[1]][base + 2 * m + u := vs[2]][base + 3 * m + u := vs[3]];
      u := u + 1;
    }
  }

  // ------------------------------------------------------------------- radix 3

  function Values3(t: seq<Cpx>, epi3: Cpx): (vs: seq<Cpx>)
    requires |t| == 3
    ensures |vs| == 3
  {
    var s3, s0 := Add(t[1], t[2]), Scale(Sub(t[1], t[2]), epi3.i);
    var mid := Sub(t[0], Scale(s3, 0.5));
    [Add(t[0], s3), Cpx(mid.r - s0.i, mid.i + s0.r), Cpx(mid.r + s0.i, mid.i - s0.r)]
  }

  lemma Spin3(t: seq<Cpx>, w: nat -> Cpx, h: nat, q: nat)
    requires |t| == 3
    ensures Spin(CR, t, w, h, 3, q, 3)
         == Add(Add(Add(ZERO, Mul(t[0], w(h * ((q * 0) % 3)))), Mul(t[1], w(h * ((q * 1) % 3)))), Mul(t[2], w(h * ((q * 2) % 3))))
  {
    hide Mul;
    assert Spin(CR, t, w, h, 3, q, 1) == Add(ZERO, Mul(t[0], w(h * ((q * 0) % 3))));
    assert Spin(CR, t, w, h, 3, q, 2) == Add(Spin(CR, t, w, h, 3, q, 1), Mul(t[1], w(h * ((q * 1) % 3))));
  }

  // k third turns, from the value of one
  function Turn3(k: nat, e: Cpx): Cpx
    requires k < 3
  {
    match k
    case 0 => ONE
    case 1 => e
    case _ => Conj(e)
  }

  lemma Algebra3(t: seq<Cpx>, e: Cpx, q: nat)
    requires |t| == 3 && q < 3 && e.r == -0.5
    ensures Add(Add(Add(ZERO, Mul(t[0], Turn3((q * 0) % 3, e))), Mul(t[1], Turn3((q * 1) % 3, e))), Mul(t[2], Turn3((q * 2) % 3, e)))
         == Values3(t, e)[q]
  {
    hide Mul;
    MulOne(t[0]);
    MulOne(t[1]);
    MulOne(t[2]);
    MulConjPair(t[1], t[2], e);
    MulConjPair(t[2], t[1], e);
    match q {
      case 0 =>
      case 1 =>
      case _ => assert q == 2;
    }
  }

  lemma Radix3(t: seq<Cpx>, w: nat -> Cpx, n: nat, inverse: bool, h: nat, q: nat)
    requires IsRoots(w, n, inverse) && 3 * h == n && |t| == 3 && q < 3
    ensures Spin(CR, t, w, h, 3, q, 3) == Values3(t, w(h))[q]
  {
    hide Mul, Values3;
    ThirdTurns(w, n, inverse, h);
    forall k: nat | k < 3
      ensures w(h * k) == Turn3(k, w(h))
    {
      assert h * 0 == 0 && h * 1 == h;
    }
    Spin3(t, w, h, q);
    Algebra3(t, w(h), q);
  }

  lemma Write3(F: seq<Cpx>, base: nat, m: nat, u: nat, vs: seq<Cpx>)
    requires |vs| == 3 && u < m && base + 3 * m <= |F|
    ensures forall q: nat {:trigger Slot(base, m, q, u)} | q < 3 :: Slot(base, m, q, u) < |F|
    ensures WriteColumn(F, base, m, u, vs) == F[base + u := vs[0]][base + m + u := vs[1]][base + 2 * m + u := vs[2]]
  {
    assert Slot(base, m, 2, u) == base + 2 * m + u;
    Write2(F, base, m, u, vs[..2]);
  }

  lemma Column3(F0: seq<Cpx>, F: seq<Cpx>, base: nat, m: nat, w: nat -> Cpx, n: nat, inverse: bool, fstride: nat,
                u: nat, t: seq<Cpx>)
    requires IsRoots(w, n, inverse) && 3 * (fstride * m) == n && u < m && base + 3 * m <= |F|
    requires ColumnsDone(CR, F0, F, base, 3, m, w, fstride, u)
    requires t == Twisted(CR, F0, base, 3, m, w, fstride, u)
    ensures var vs := Values3(t, w(fstride * m));
            ColumnsDone(CR, F0, F[base + u := vs[0]][base + m + u := vs[1]][base + 2 * m + u := vs[2]], base, 3, m, w, fstride, u + 1)
  {
    hide Mul, Values3, Twisted;
    var vs := Values3(t, w(fstride * m));
    forall q: nat | q < 3
      ensures vs[q] == Spin(CR, t, w, fstride * m, 3, q, 3)
    {
      Radix3(t, w, n, inverse, fstride * m, q);
    }
    WriteRows(F0, F, base, m, w, n, inverse, fstride, u, vs);
    Write3(F, base, m, u, vs);
  }

  lemma ReadColumn3(F0: seq<Cpx>, F: seq<Cpx>, base: nat, m: nat, w: nat -> Cpx, tw: seq<Cpx>, inverse: bool,
                    fstride: nat, u: nat,
                    tw1: nat, tw2: nat)
    requires IsRoots(w, |tw|, inverse) && Tabulates(tw, w) && StageFits(|F0|, base, 3, m, |tw|, fstride) && u < m
    requires ColumnsDone(CR, F0, F, base, 3, m, w, fstride, u)
    requires tw1 == fstride * u * 1 && tw2 == fstride * u * 2
    ensures |F| == |F0| && base + 2 * m + u < |F| && tw1 < |tw| && tw2 < |tw|
    ensures Twisted(CR, F0, base, 3, m, w, fstride, u)
         == [F[base + u], Mul(F[base + m + u], tw[tw1]), Mul(F[base + 2 * m + u], tw[tw2])]
  {
    hide Mul;
    ReadFirst(F0, F, base, 3, m, w, fstride, u);
    ReadTerm(F0, F, base, 3, m, w, tw, fstride, u, 1, base + m + u, tw1);
    ReadTerm(F0, F, base, 3, m, w, tw, fstride, u, 2, base + 2 * m + u, tw2);
  }

  // Values3 in the words of the code.
  lemma Values3Coded(f0: Cpx, s1: Cpx, s2: Cpx, epi3: Cpx)
    ensures var s3, s0 := Add(s1, s2), Scale(Sub(s1, s2), epi3.i);
            var mid := Sub(f0, Scale(s3, 0.5));
            (Values3([f0, s1, s2], epi3)
             == [Add(f0, s3), Cpx(mid.r - s0.i, mid.i + s0.r), Cpx(mid.r + s0.i, mid.i - s0.r)])
  {
    hide Times;
  }

  // The factor every column of the stage uses.
  lemma ThirdInTable(w: nat -> Cpx, tw: seq<Cpx>, len: nat, base: nat, m: nat, fstride: nat)
    requires Tabulates(tw, w) && StageFits(len, base, 3, m, |tw|, fstride)
    ensures fstride * m < |tw| && tw[fstride * m] == w(fstride * m)
  {
    MulMono(1, m, fstride);
  }

  method KfBfly3(Fout: array<Cpx>, base: nat, fstride: nat, st: KissFftState, m: nat, ghost w: nat -> Cpx)
    requires Fout != st.twiddles && st.Holds(w)
    requires StageFits(Fout.Length, base, 3, m, st.nfft, fstride)
    modifies Fout
    ensures IsButterfly(CR, old(Fout[..]), Fout[..], base, 3, m, w, fstride)
  {
    hide Mul, Times, Scale, Add, Sub, Values3, Spin, Twisted, WriteColumn, ColumnsDone, Cell, IsRoots, Tabulates;
    ghost var F0, tw := Fout[..], st.twiddles[..];
    NothingDone(CR, F0, base, 3, m, w, fstride);
    ThirdInTable(w, tw, Fout.Length, base, m, fstride);
    var m2 := 2 * m;
    var epi3 := st.twiddles[fstride * m];
    var u, tw1, tw2 := 0, 0, 0;
    while u < m
      invariant u <= m && tw1 == fstride * u * 1 && tw2 == fstride * u * 2
      invariant st.twiddles[..] == tw
      invariant ColumnsDone(CR, F0, Fout[..], base, 3, m, w, fstride, u)
    {
      ghost var F := Fout[..];
      ReadColumn3(F0, F, base, m, w, tw, st.inverse, fstride, u, tw1, tw2);
      var s1 := Mul(Fout[base + m + u], st.twiddles[tw1]);
      var s2 := Mul(Fout[base + m2 + u], st.twiddles[tw2]);
      ghost var vs := Values3([F[base + u], s1, s2], epi3);
      Values3Coded(F[base + u], s1, s2, epi3);
      Column3(F0, F, base, m, w, st.nfft, st.inverse, fstride, u, [F[base + u], s1, s2]);
      var s3, s0 := Add(s1, s2), Sub(s1, s2);
      StepTwiddle(fstride, u, 1);
      StepTwiddle(fstride, u, 2);
      tw1, tw2 := tw1 + fstride, tw2 + fstride * 2;
      Fout[base + m + u] := Sub(Fout[base + u], Scale(s3, 0.5));
      s0 := Scale(s0, epi3.i);
      Fout[base + u] := Add(Fout[base + u], s3);
      Fout[base + m2 + u] := Cpx(Fout[base + m + u].r + s0.i, Fout[base + m + u].i - s0.r);
      Fout[base + m + u] := Cpx(Fout[base + m + u].r - s0.i, Fout[base + m + u].i + s0.r);
      assert Fout[base + u] == vs[0] && Fout[base + m + u] == vs[1] && Fout[base + m2 + u] == vs[2];
      assert Fout[..] == F[base + u := vs[0]][base + m + u := vs[1]][base + 2 * m + u := vs[2]];
      u := u + 1;
    }
  }

  // ------------------------------------------------------------------- radix 5

  function Values5(t: seq<Cpx>, ya: Cpx, yb: Cpx): (vs: seq<Cpx>)
    requires |t| == 5
    ensures |vs| == 5
  {
    var s7, s10, s8, s9 := Add(t[1], t[4]), Sub(t[1], t[4]), Add(t[2], t[3]), Sub(t[2], t[3]);
    var s5 := Add(Add(t[0], Scale(s7, ya.r)), Scale(s8, yb.r));
    var s6 := Add(Across(s10, ya.i), Across(s9, yb.i));
    var s11 := Add(Add(t[0], Scale(s7, yb.r)), Scale(s8, ya.r));
    var s12 := Sub(Across(s9, ya.i), Across(s10, yb.i));
    [Add(t[0], Add(s7, s8)), Sub(s5, s6), Add(s11, s12), Sub(s11, s12), Add(s5, s6)]
  }

  lemma Spin5(t: seq<Cpx>, w: nat -> Cpx, h: nat, q: nat)
    requires |t| == 5
    ensures Spin(CR, t, w, h, 5, q, 5)
         == Add(Add(Add(Add(Add(ZERO, Mul(t[0], w(h * ((q * 0) % 5)))), Mul(t[1], w(h * ((q * 1) % 5)))),
                        Mul(t[2], w(h * ((q * 2) % 5)))), Mul(t[3], w(h * ((q * 3) % 5)))), Mul(t[4], w(h * ((q * 4) % 5))))
  {
    hide Mul;
    assert Spin(CR, t, w, h, 5, q, 1) == Add(ZERO, Mul(t[0], w(h * ((q * 0) % 5))));
    assert Spin(CR, t, w, h, 5, q, 2) == Add(Spin(CR, t, w, h, 5, q, 1), Mul(t[1], w(h * ((q * 1) % 5))));
    assert Spin(CR, t, w, h, 5, q, 3) == Add(Spin(CR, t, w, h, 5, q, 2), Mul(t[2], w(h * ((q * 2) % 5))));
    assert Spin(CR, t, w, h, 5, q, 4) == Add(Spin(CR, t, w, h, 5, q, 3), Mul(t[3], w(h * ((q * 3) % 5))));
  }

  // k fifth turns, from the values of one and two
  function Turn5(k: nat, ya: Cpx, yb: Cpx): Cpx
    requires k < 5
  {
    match k
    case 0 => ONE
    case 1 => ya
    case 2 => yb
    case 3 => Conj(yb)
    case _ => Conj(ya)
  }

  lemma Values5Outer(t: seq<Cpx>, ya: Cpx, yb: Cpx)
    requires |t| == 5
    ensures Values5(t, ya, yb)[1] == Add(t[0], Add(ConjPair(t[1], t[4], ya), ConjPair(t[2], t[3], yb)))
    ensures Values5(t, ya, yb)[4] == Add(t[0], Add(ConjPair(t[4], t[1], ya), ConjPair(t[3], t[2], yb)))
  {
    hide Times;
    ConjPairSwap(t[1], t[4], ya);
    ConjPairSwap(t[2], t[3], yb);
  }

  lemma Values5Inner(t: seq<Cpx>, ya: Cpx, yb: Cpx)
    requires |t| == 5
    ensures Values5(t, ya, yb)[2] == Add(t[0], Add(ConjPair(t[1], t[4], yb), ConjPair(t[3], t[2], ya)))
    ensures Values5(t, ya, yb)[3] == Add(t[0], Add(ConjPair(t[4], t[1], yb), ConjPair(t[2], t[3], ya)))
  {
    hide Times;
    ConjPairSwap(t[2], t[3], ya);
    ConjPairSwap(t[1], t[4], yb);
  }

  lemma Regroup5(z: Cpx, a: Cpx, b: Cpx, c: Cpx, d: Cpx)
    ensures Add(Add(Add(Add(Add(ZERO, z), a), b), c), d) == Add(z, Add(Add(a, d), Add(b, c)))
    ensures Add(a, d) == Add(d, a) && Add(b, c) == Add(c, b)
  {
  }

  lemma Algebra5(t: seq<Cpx>, ya: Cpx, yb: Cpx, q: nat)
    requires |t| == 5 && q < 5
    ensures Add(Add(Add(Add(Add(ZERO, Mul(t[0], Turn5((q * 0) % 5, ya, yb))), Mul(t[1], Turn5((q * 1) % 5, ya, yb))),
                        Mul(t[2], Turn5((q * 2) % 5, ya, yb))), Mul(t[3], Turn5((q * 3) % 5, ya, yb))), Mul(t[4], Turn5((q * 4) % 5, ya, yb)))
         == Values5(t, ya, yb)[q]
  {
    hide Mul, ConjPair, Values5, Add;
    MulOne(t[0]);
    Regroup5(t[0], Mul(t[1], Turn5((q * 1) % 5, ya, yb)), Mul(t[2], Turn5((q * 2) % 5, ya, yb)),
             Mul(t[3], Turn5((q * 3) % 5, ya, yb)), Mul(t[4], Turn5((q * 4) % 5, ya, yb)));
    match q {
      case 0 => MulOne(t[1]); MulOne(t[2]); MulOne(t[3]); MulOne(t[4]); Sum5(t, ya, yb);
      case 1 => MulConjPair(t[1], t[4], ya); MulConjPair(t[2], t[3], yb); Values5Outer(t, ya, yb);
      case 2 => MulConjPair(t[1], t[4], yb); MulConjPair(t[3], t[2], ya); Values5Inner(t, ya, yb);
      case 3 => MulConjPair(t[4], t[1], yb); MulConjPair(t[2], t[3], ya); Values5Inner(t, ya, yb);
      case _ => MulConjPair(t[4], t[1], ya); MulConjPair(t[3], t[2], yb); Values5Outer(t, ya, yb);
    }
  }

  lemma Sum5(t: seq<Cpx>, ya: Cpx, yb: Cpx)
    requires |t| == 5
    ensures Values5(t, ya, yb)[0] == Add(t[0], Add(Add(t[1], t[4]), Add(t[2], t[3])))
  {
  }

  lemma Radix5(t: seq<Cpx>, w: nat -> Cpx, n: nat, inverse: bool, h: nat, q: nat)
    requires IsRoots(w, n, inverse) && 5 * h == n && |t| == 5 && q < 5
    ensures Spin(CR, t, w, h, 5, q, 5) == Values5(t, w(h), w(h * 2))[q]
  {
    hide Mul, Values5;
    FifthTurns(w, n, inverse, h);
    forall k: nat | k < 5
      ensures w(h * k) == Turn5(k, w(h), w(h * 2))
    {
      assert h * 0 == 0 && h * 1 == h;
    }
    Spin5(t, w, h, q);
    Algebra5(t, w(h), w(h * 2), q);
  }

  lemma Write5(F: seq<Cpx>, base: nat, m: nat, u: nat, vs: seq<Cpx>)
    requires |vs| == 5 && u < m && base + 5 * m <= |F|
    ensures forall q: nat {:trigger Slot(base, m, q, u)} | q < 5 :: Slot(base, m, q, u) < |F|
    ensures WriteColumn(F, base, m, u, vs)
         == F[base + u := vs[0]][base + m + u := vs[1]][base + 4 * m + u := vs[4]][base + 2 * m + u := vs[2]][base + 3 * m + u := vs[3]]
  {
    assert Slot(base, m, 4, u) == base + 4 * m + u;
    Write4(F, base, m, u, vs[..4]);
  }

  lemma Column5(F0: seq<Cpx>, F: seq<Cpx>, base: nat, m: nat, w: nat -> Cpx, n: nat, inverse: bool, fstride: nat,
                u: nat, t: seq<Cpx>)
    requires IsRoots(w, n, inverse) && 5 * (fstride * m) == n && u < m && base + 5 * m <= |F|
    requires ColumnsDone(CR, F0, F, base, 5, m, w, fstride, u)
    requires t == Twisted(CR, F0, base, 5, m, w, fstride, u)
    ensures var vs := Values5(t, w(fstride * m), w(fstride * m * 2));
            ColumnsDone(CR, F0,
                        F[base + u := vs[0]][base + m + u := vs[1]][base + 4 * m + u := vs[4]][base + 2 * m + u := vs[2]][base + 3 * m + u := vs[3]],
                        base, 5, m, w, fstride, u + 1)
  {
    hide Mul, Values5, Twisted;
    var vs := Values5(t, w(fstride * m), w(fstride * m * 2));
    forall q: nat | q < 5
      ensures vs[q] == Spin(CR, t, w, fstride * m, 5, q, 5)
    {
      Radix5(t, w, n, inverse, fstride * m, q);
    }
    WriteRows(F0, F, base, m, w, n, inverse, fstride, u, vs);
    Write5(F, base, m, u, vs);
  }

  lemma ReadColumn5(F0: seq<Cpx>, F: seq<Cpx>, base: nat, m: nat, w: nat -> Cpx, tw: seq<Cpx>, fstride: nat, u: nat,
                    i1: nat, i2: nat, i3: nat, i4: nat)
    requires w(0) == ONE && Tabulates(tw, w) && StageFits(|F0|, base, 5, m, |tw|, fstride) && u < m
    requires ColumnsDone(CR, F0, F, base, 5, m, w, fstride, u)
    requires i1 == fstride * u * 1 && i2 == fstride * u * 2 && i3 == fstride * u * 3 && i4 == fstride * u * 4
    ensures |F| == |F0| && i1 < |tw| && i2 < |tw| && i3 < |tw| && i4 < |tw|
    ensures Twisted(CR, F0, base, 5, m, w, fstride, u)
         == [F[base + u], Mul(F[base + m + u], tw[i1]), Mul(F[base + 2 * m + u], tw[i2]),
             Mul(F[base + 3 * m + u], tw[i3]), Mul(F[base + 4 * m + u], tw[i4])]
  {
    hide Mul;
    ReadFirst(F0, F, base, 5, m, w, fstride, u);
    ReadTerm(F0, F, base, 5, m, w, tw, fstride, u, 1, base + m + u, i1);
    ReadTerm(F0, F, base, 5, m, w, tw, fstride, u, 2, base + 2 * m + u, i2);
    ReadTerm(F0, F, base, 5, m, w, tw, fstride, u, 3, base + 3 * m + u, i3);
    ReadTerm(F0, F, base, 5, m, w, tw, fstride, u, 4, base + 4 * m + u, i4);
  }

  // Values5 in the words of the code.
  lemma Values5Coded(s0: Cpx, s1: Cpx, s2: Cpx, s3: Cpx, s4: Cpx, ya: Cpx, yb: Cpx)
    ensures var s7, s10, s8, s9 := Add(s1, s4), Sub(s1, s4), Add(s2, s3), Sub(s2, s3);
            var s5 := Cpx(s0.r + Times(s7.r, ya.r) + Times(s8.r, yb.r), s0.i + Times(s7.i, ya.r) + Times(s8.i, yb.r));
            var s6 := Cpx(Times(s10.i, ya.i) + Times(s9.i, yb.i), -Times(s10.r, ya.i) - Times(s9.r, yb.i));
            var s11 := Cpx(s0.r + Times(s7.r, yb.r) + Times(s8.r, ya.r), s0.i + Times(s7.i, yb.r) + Times(s8.i, ya.r));
            var s12 := Cpx(-Times(s10.i, yb.i) + Times(s9.i, ya.i), Times(s10.r, yb.i) - Times(s9.r, ya.i));
            (Values5([s0, s1, s2, s3, s4], ya, yb)
             == [Cpx(s0.r + (s7.r + s8.r), s0.i + (s7.i + s8.i)), Sub(s5, s6), Add(s11, s12), Sub(s11, s12), Add(s5, s6)])
  {
    hide Times;
  }

  // The sums of one turn of the loop in kf_bfly5
  method Combine5(s0: Cpx, s1: Cpx, s2: Cpx, s3: Cpx, s4: Cpx, ya: Cpx, yb: Cpx)
    returns (v0: Cpx, v1: Cpx, v2: Cpx, v3: Cpx, v4: Cpx)
    ensures [v0, v1, v2, v3, v4] == Values5([s0, s1, s2, s3, s4], ya, yb)
  {
    hide Times, Add, Sub, Values5;
    Values5Coded(s0, s1, s2, s3, s4, ya, yb);
    var s7, s10, s8, s9 := Add(s1, s4), Sub(s1, s4), Add(s2, s3), Sub(s2, s3);
    v0 := Cpx(s0.r + (s7.r + s8.r), s0.i + (s7.i + s8.i));
    var s5 := Cpx(s0.r + Times(s7.r, ya.r) + Times(s8.r, yb.r), s0.i + Times(s7.i, ya.r) + Times(s8.i, yb.r));
    var s6 := Cpx(Times(s10.i, ya.i) + Times(s9.i, yb.i), -Times(s10.r, ya.i) - Times(s9.r, yb.i));
    v1 := Sub(s5, s6);
    v4 := Add(s5, s6);
    var s11 := Cpx(s0.r + Times(s7.r, yb.r) + Times(s8.r, ya.r), s0.i + Times(s7.i, yb.r) + Times(s8.i, ya.r));
    var s12 := Cpx(-Times(s10.i, yb.i) + Times(s9.i, ya.i), Times(s10.r, yb.i) - Times(s9.r, ya.i));
    v2 := Add(s11, s12);
    v3 := Sub(s11, s12);
  }

  method KfBfly5(Fout: array<Cpx>, base: nat, fstride: nat, st: KissFftState, m: nat, ghost w: nat -> Cpx)
    requires Fout != st.twiddles && st.Holds(w)
    requires StageFits(Fout.Length, base, 5, m, st.nfft, fstride)
    modifies Fout
    ensures IsButterfly(CR, old(Fout[..]), Fout[..], base, 5, m, w, fstride)
  {
    hide Mul, Times, Add, Sub, Values5, Spin, Twisted, WriteColumn, ColumnsDone, Cell;
    ghost var F0, tw := Fout[..], st.twiddles[..];
    NothingDone(CR, F0, base, 5, m, w, fstride);
    var ya, yb := st.twiddles[fstride * m], st.twiddles[fstride * m * 2];
    for u: nat := 0 to m
      invariant st.twiddles[..] == tw
      invariant ColumnsDone(CR, F0, Fout[..], base, 5, m, w, fstride, u)
    {
      ghost var F := Fout[..];
      var f0, f1, f2, f3, f4 := base + u, base + m + u, base + 2 * m + u, base + 3 * m + u, base + 4 * m + u;
      var i1, i2, i3, i4 := fstride * u * 1, fstride * u * 2, fstride * u * 3, fstride * u * 4;
      ReadColumn5(F0, F, base, m, w, tw, fstride, u, i1, i2, i3, i4);
      var s0 := Fout[f0];
      var s1, s2 := Mul(Fout[f1], st.twiddles[i1]), Mul(Fout[f2], st.twiddles[i2]);
      var s3, s4 := Mul(Fout[f3], st.twiddles[i3]), Mul(Fout[f4], st.twiddles[i4]);
      ghost var vs := Values5([s0, s1, s2, s3, s4], ya, yb);
      Column5(F0, F, base, m, w, st.nfft, st.inverse, fstride, u, [s0, s1, s2, s3, s4]);
      Fout[f0], Fout[f1], Fout[f2], Fout[f3], Fout[f4] := Combine5(s0, s1, s2, s3, s4, ya, yb);
      assert Fout[..] == F[f0 := vs[0]][f1 := vs[1]][f4 := vs[4]][f2 := vs[2]][f3 := vs[3]];
    }
  }
}
