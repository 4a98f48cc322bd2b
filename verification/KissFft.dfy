// The generic butterfly, the recursion of kf_work and the user-callable
// transform, proved to compute the discrete Fourier transform for every plan.
module KissFft {
  import opened Complex
  import opened NatArith
  import opened RingSums
  import opened Twiddles
  import opened ButterflySpec
  import opened KissButterflies
  import opened KissFactor

  // --------------------------------------------------- the generic butterfly

  // The outputs of column u.
  ghost function ColumnOutputs(F0: seq<Cpx>, base: nat, p: nat, m: nat, w: nat -> Cpx, fstride: nat,
                               u: nat): (vs: seq<Cpx>)
    ensures |vs| == p
  {
    seq(p, (q: nat) => Output(CR, F0, base, p, m, w, fstride, q, u))
  }

  // Adding a step smaller than n to a remainder and subtracting n once, if needed,
  // steps the remainder.
  lemma WrapOnce(a: nat, b: nat, e: nat, n: nat)
    requires e < n && b == a + e
    ensures b % n == if a % n + e >= n then a % n + e - n else a % n + e
  {
    var x, t := a % n + e, a / n;
    assert b == t * n + x;
    if x >= n {
      assert b == (t + 1) * n + (x - n);
      DivModUnique(b, t + 1, x - n, n);
    } else {
      DivModUnique(b, t, x, n);
    }
  }

  lemma ExpMod(w: nat -> Cpx, n: nat, inverse: bool, x: nat)
    requires IsRoots(w, n, inverse)
    ensures w(x % n) == w(x)
  {
    hide Mul;
    assert x == (x / n) * n + x % n;
    ExpPeriod(w, n, inverse, x % n, x / n);
  }

  // q steps through the table, modulo a full turn
  function TwiddleIndex(step: nat, q: nat, n: nat): (i: nat)
    requires n > 0
    ensures i < n
  {
    (step * q) % n
  }

  lemma AdvanceTwiddle(step: nat, q: nat, n: nat)
    requires step < n
    ensures var i := TwiddleIndex(step, q, n) + step;
            TwiddleIndex(step, q + 1, n) == if i >= n then i - n else i
  {
    MulSucc(step, q);
    WrapOnce(step * q, step * (q + 1), step, n);
  }

  lemma StartTwiddle(step: nat, n: nat, p: nat, m: nat, fstride: nat, q: nat, u: nat)
    requires q < p && u < m && fstride > 0 && p * (fstride * m) == n && step == fstride * (q * m + u)
    ensures 0 <= step < n && TwiddleIndex(step, 0, n) == 0
  {
    StepInTable(fstride, p, m, q, u);
  }

  // The step of the twiddle index stays inside the table.
  lemma StepInTable(fstride: nat, p: nat, m: nat, q: nat, u: nat)
    requires q < p && u < m && fstride > 0
    ensures fstride * (q * m + u) < p * (fstride * m)
  {
    RowColumn(q, u, m, p);
    var k, s := q * m + u, p * m;
    MulMono(k + 1, s, fstride);
    assert (k + 1) * fstride == fstride * k + fstride;
    assert s * fstride == p * (fstride * m);
  }

  // One pass over q of the inner loop: the next term of the output sum.
  lemma NextTerm(F0: seq<Cpx>, F: seq<Cpx>, base: nat, p: nat, m: nat, w: nat -> Cpx, n: nat, inverse: bool,
                 fstride: nat, u: nat, e: nat, q: nat, twidx: nat)
    requires IsRoots(w, n, inverse) && ColumnsDone(CR, F0, F, base, p, m, w, fstride, u) && u < m && 1 <= q < p
    requires n > 0 && twidx == TwiddleIndex(e, q, n)
    ensures Slot(base, m, q, u) < |F|
    ensures Sum(CR, F0, base + u, m, w, e, q + 1) == Add(Sum(CR, F0, base + u, m, w, e, q), Mul(F[Slot(base, m, q, u)], w(twidx)))
  {
    hide Mul;
    assert Cell(CR, F0, F, base, p, m, w, fstride, u, q, u);
    assert Slot(base, m, q, u) == base + u + m * q;
    ExpMod(w, n, inverse, e * q);
  }

  lemma FirstTerm(F0: seq<Cpx>, F: seq<Cpx>, base: nat, p: nat, m: nat, w: nat -> Cpx, fstride: nat, u: nat, e: nat)
    requires w(0) == ONE && ColumnsDone(CR, F0, F, base, p, m, w, fstride, u) && u < m && p > 0
    ensures Slot(base, m, 0, u) < |F| && Sum(CR, F0, base + u, m, w, e, 1) == F[Slot(base, m, 0, u)]
  {
    hide Mul;
    assert Cell(CR, F0, F, base, p, m, w, fstride, u, 0, u);
    assert m * 0 == 0 && e * 0 == 0;
    assert Sum(CR, F0, base + u, m, w, e, 0) == ZERO;
    MulOne(F[base + u]);
  }

  lemma SlotsInside(F0: seq<Cpx>, F: seq<Cpx>, base: nat, p: nat, m: nat, w: nat -> Cpx, fstride: nat, u: nat)
    requires ColumnsDone(CR, F0, F, base, p, m, w, fstride, u) && u < m
    ensures forall q: nat {:trigger Slot(base, m, q, u)} | q < p :: Slot(base, m, q, u) < |F|
  {
    forall q: nat {:trigger Slot(base, m, q, u)} | q < p
      ensures Slot(base, m, q, u) < |F|
    {
      assert Cell(CR, F0, F, base, p, m, w, fstride, u, q, u);
    }
  }

  lemma ColumnFinished(F0: seq<Cpx>, F: seq<Cpx>, base: nat, p: nat, m: nat, w: nat -> Cpx, fstride: nat, u: nat)
    requires ColumnsDone(CR, F0, F, base, p, m, w, fstride, u) && u < m
    requires forall q: nat {:trigger Slot(base, m, q, u)} | q < p :: Slot(base, m, q, u) < |F|
    ensures ColumnsDone(CR, F0, WriteColumn(F, base, m, u, ColumnOutputs(F0, base, p, m, w, fstride, u)), base, p, m, w, fstride, u + 1)
  {
    hide Mul;
    var vs := ColumnOutputs(F0, base, p, m, w, fstride, u);
    WriteColumnWrites(F, base, m, u, vs);
    ColumnDone(CR, F0, F, WriteColumn(F, base, m, u, vs), base, m, w, fstride, u, vs);
  }

  lemma WriteOneMore(F: seq<Cpx>, base: nat, m: nat, u: nat, vs: seq<Cpx>, q: nat)
    requires q < |vs| && forall q: nat {:trigger Slot(base, m, q, u)} | q < |vs| :: Slot(base, m, q, u) < |F|
    ensures WriteColumn(F, base, m, u, vs[..q + 1]) == WriteColumn(F, base, m, u, vs[..q])[Slot(base, m, q, u) := vs[q]]
  {
    assert vs[..q + 1][..q] == vs[..q];
  }

  lemma WriteNone(F: seq<Cpx>, base: nat, m: nat, u: nat)
    ensures WriteColumn(F, base, m, u, []) == F
  {
  }

  ghost predicate Gathered(scratch: seq<Cpx>, F: seq<Cpx>, base: nat, m: nat, u: nat, count: nat) {
    count <= |scratch| && forall q: nat {:trigger Slot(base, m, q, u)} | q < count ::
      Slot(base, m, q, u) < |F| && scratch[q] == F[Slot(base, m, q, u)]
  }

  method GatherColumn(Fout: array<Cpx>, base: nat, m: nat, p: nat, u: nat, scratch: array<Cpx>)
    requires scratch != Fout && scratch.Length == p && u < m && base + p * m <= Fout.Length
    modifies scratch
    ensures Gathered(scratch[..], Fout[..], base, m, u, p)
  {
    var k := u;
    for q1: nat := 0 to p
      invariant k == q1 * m + u && Gathered(scratch[..], Fout[..], base, m, u, q1)
    {
      RowColumn(q1, u, m, p);
      assert base + k == Slot(base, m, q1, u);
      scratch[q1] := Fout[base + k];
      MulSucc(m, q1);
      k := k + m;
    }
  }

  // The inner loop: one output of column u, from the gathered inputs.
  method OneOutput(Fout: array<Cpx>, base: nat, fstride: nat, st: KissFftState, m: nat, p: nat, scratch: array<Cpx>,
                   k: nat,
                   ghost w: nat -> Cpx, ghost F0: seq<Cpx>, ghost F: seq<Cpx>, ghost u: nat, ghost row: nat)
    requires Fout != st.twiddles && Fout != scratch && st.Holds(w)
    requires StageFits(Fout.Length, base, p, m, st.nfft, fstride) && u < m && row < p && k == row * m + u
    requires ColumnsDone(CR, F0, F, base, p, m, w, fstride, u)
    requires Gathered(scratch[..], F, base, m, u, p)
    modifies Fout
    ensures Slot(base, m, row, u) < Fout.Length
    ensures Fout[..] == old(Fout[..])[Slot(base, m, row, u) := Output(CR, F0, base, p, m, w, fstride, row, u)]
  {
    hide Mul, Add, Sum, Cell, ColumnsDone, TwiddleIndex;
    ghost var G, tw, sc := Fout[..], st.twiddles[..], scratch[..];
    var n, step := st.nfft, fstride * k;
    SlotInBlock(base, p, m, row, u);
    FirstTerm(F0, F, base, p, m, w, fstride, u, step);
    StartTwiddle(step, n, p, m, fstride, row, u);
    var twidx := 0;
    Fout[base + k] := scratch[0];
    for q: nat := 1 to p
      invariant twidx == TwiddleIndex(step, q - 1, n)
      invariant st.twiddles[..] == tw && scratch[..] == sc
      invariant Fout[..] == G[base + k := Sum(CR, F0, base + u, m, w, step, q)]
    {
      AdvanceTwiddle(step, q - 1, n);
      twidx := twidx + step;
      if twidx >= n {
        twidx := twidx - n;
      }
      NextTerm(F0, F, base, p, m, w, n, st.inverse, fstride, u, step, q, twidx);
      var t := Mul(scratch[q], st.twiddles[twidx]);
      Fout[base + k] := Add(Fout[base + k], t);
    }
  }

  method KfBflyGeneric(Fout: array<Cpx>, base: nat, fstride: nat, st: KissFftState, m: nat, p: nat, ghost w: nat -> Cpx)
    requires Fout != st.twiddles && st.Holds(w)
    requires StageFits(Fout.Length, base, p, m, st.nfft, fstride)
    modifies Fout
    ensures IsButterfly(CR, old(Fout[..]), Fout[..], base, p, m, w, fstride)
  {
    hide Mul, Add, Sum, Cell, WriteColumn, ColumnsDone, IsRoots;
    ghost var F0, tw := Fout[..], st.twiddles[..];
    NothingDone(CR, F0, base, p, m, w, fstride);
    var scratch := new Cpx[p];
    for u: nat := 0 to m
      invariant st.twiddles[..] == tw
      invariant ColumnsDone(CR, F0, Fout[..], base, p, m, w, fstride, u)
    {
      ghost var F := Fout[..];
      SlotsInside(F0, F, base, p, m, w, fstride, u);
      ghost var vs := ColumnOutputs(F0, base, p, m, w, fstride, u);
      GatherColumn(Fout, base, m, p, u, scratch);
      ghost var sc := scratch[..];
      var k := u;
      WriteNone(F, base, m, u);
      assert vs[..0] == [];
      for q1: nat := 0 to p
        invariant k == q1 * m + u && st.twiddles[..] == tw && scratch[..] == sc
        invariant Fout[..] == WriteColumn(F, base, m, u, vs[..q1])
      {
        OneOutput(Fout, base, fstride, st, m, p, scratch, k, w, F0, F, u, q1);
        WriteOneMore(F, base, m, u, vs, q1);
        MulSucc(m, q1);
        k := k + m;
      }
      assert vs[..p] == vs;
      ColumnFinished(F0, F, base, p, m, w, fstride, u);
    }
  }

  // ------------------------------------------------------------------- kf_work

  // The buffers and the plan of one call: a transform of len samples of f, taken
  // stride apart from off on, into Fout[base..base+len].
  ghost predicate WorkFits(lenOut: nat, base: nat, lenIn: nat, off: nat, stride: nat, fac: seq<int>, idx: nat,
                           len: nat, fstride: nat, n: nat) {
    && StageList(fac, idx, len)
    && fstride > 0 && fstride * len == n
    && base + len <= lenOut
    && off + stride * (len - 1) < lenIn
  }

  lemma WorkSplits(lenOut: nat, base: nat, lenIn: nat, off: nat, stride: nat, fac: seq<int>, idx: nat, len: nat,
                   fstride: nat, n: nat, p: nat, m: nat, q: nat, inStride: nat)
    requires WorkFits(lenOut, base, lenIn, off, stride, fac, idx, len, fstride, n)
    requires p == fac[idx] && m == fac[idx + 1] && q < p && stride == fstride * inStride
    ensures off + stride * q < lenIn && base + q * m < lenOut
    ensures fstride * p * inStride == stride * p
    ensures m > 1 ==> WorkFits(lenOut, base + q * m, lenIn, off + stride * q, fstride * p * inStride, fac, idx + 2, m, fstride * p, n)
  {
    hide Prod, StageList;
    ProdsAre(fstride, inStride, p, stride, q, m, len);
    assert Prod(p, m) == len && m > 0 by { WorkStarts(lenOut, base, lenIn, off, stride, fac, idx, len, fstride, n); }
    assert m > 1 ==> StageList(fac, idx + 2, m) by { NextStages(fac, idx, len); }
    RowFits(stride, p, m, q);
    ProdAssoc(fstride, inStride, p);
    ProdAssoc(fstride, p, m);
    ProdMono(fstride, 1, p);
    ProdOne(fstride);
  }

  lemma NextStages(fac: seq<int>, idx: nat, len: int)
    requires StageList(fac, idx, len)
    ensures fac[idx + 1] > 1 ==> StageList(fac, idx + 2, fac[idx + 1])
  {
  }

  lemma ProdsAre(fstride: nat, inStride: nat, p: nat, stride: nat, q: nat, m: nat, len: nat)
    ensures Prod(fstride, inStride) == fstride * inStride && Prod(fstride, p) == fstride * p && Prod(fstride, len) == fstride * len
    ensures Prod(Prod(fstride, p), inStride) == fstride * p * inStride && Prod(Prod(fstride, p), m) == fstride * p * m
    ensures Prod(p, m) == p * m && Prod(q, m) == q * m && Prod(stride, q) == stride * q && Prod(stride, p) == stride * p
    ensures len > 0 ==> Prod(stride, len - 1) == stride * (len - 1)
    ensures m > 0 ==> Prod(Prod(stride, p), m - 1) == stride * p * (m - 1)
    ensures m > 0 ==> Prod(Prod(Prod(fstride, p), inStride), m - 1) == fstride * p * inStride * (m - 1)
  {
  }

  // Row q of p rows of m: it starts and ends within the p * m samples.
  lemma RowFits(stride: nat, p: nat, m: nat, q: nat)
    requires q < p && m > 0
    ensures Prod(q, m) + m <= Prod(p, m) && Prod(p, m) > q
    ensures Prod(stride, q) <= Prod(stride, Prod(p, m) - 1)
    ensures Prod(stride, q) + Prod(Prod(stride, p), m - 1) <= Prod(stride, Prod(p, m) - 1)
  {
    hide Prod;
    ProdComm(p, m);
    ProdComm(q, m);
    ProdMono(m, q + 1, p);
    ProdSum(m, q, 1);
    ProdOne(m);
    ProdMono(p, 1, m);
    ProdOne(p);
    ProdSum(p, m - 1, 1);
    ProdAssoc(stride, p, m - 1);
    ProdSum(stride, q, Prod(p, m - 1));
    ProdMono(stride, q + Prod(p, m - 1), Prod(p, m) - 1);
    ProdMono(stride, q, Prod(p, m) - 1);
  }

  lemma WorkStarts(lenOut: nat, base: nat, lenIn: nat, off: nat, stride: nat, fac: seq<int>, idx: nat, len: nat,
                   fstride: nat, n: nat)
    requires WorkFits(lenOut, base, lenIn, off, stride, fac, idx, len, fstride, n)
    ensures idx + 1 < |fac| && fac[idx] >= 1 && fac[idx + 1] >= 1 && fac[idx] * fac[idx + 1] == len
  {
  }

  lemma WorkIsStage(lenOut: nat, base: nat, lenIn: nat, off: nat, stride: nat, fac: seq<int>, idx: nat, len: nat,
                    fstride: nat, n: nat, p: nat, m: nat)
    requires WorkFits(lenOut, base, lenIn, off, stride, fac, idx, len, fstride, n)
    requires p == fac[idx] && m == fac[idx + 1]
    ensures StageFits(lenOut, base, p, m, n, fstride)
  {
    assert p * (fstride * m) == fstride * (p * m);
  }

  lemma RootsTurn(w: nat -> Cpx, n: nat, inverse: bool)
    requires IsRoots(w, n, inverse)
    ensures IsRing(CR) && IsCharacter(CR, w) && WholeTurns(w, n)
  {
    hide Mul;
    CpxIsRing();
    forall q: nat, a: nat
      ensures WholeTurn(w, n, q, a)
    {
      ExpPeriod(w, n, inverse, a, q);
    }
  }

  // One sample is its own transform.
  lemma SingleSample(F: seq<Cpx>, F': seq<Cpx>, base: nat, q: nat, p: nat, f: seq<Cpx>, off: nat, stride: nat,
                     w: nat -> Cpx, fstride: nat)
    requires w(0) == ONE && base + q < |F| && off + stride * q < |f| && F' == F[base + q := f[off + stride * q]]
    ensures SameOutside(F, F', base + q * 1, 1)
    ensures Transformed(CR, F', base + q * 1, 1, f, off + stride * q, stride * p, w, fstride * p)
  {
    hide Mul;
    var off', stride', e := off + stride * q, stride * p, fstride * p;
    assert Sum(CR, f, off', stride', w, e * 0, 0) == ZERO;
    assert stride' * 0 == 0 && e * 0 * 0 == 0;
    MulOne(f[off']);
    assert TransformCell(CR, F', base + q, 1, f, off', stride', w, e, 0);
  }

  lemma SameOutsideWider<T>(F0: seq<T>, F: seq<T>, F': seq<T>, base: nat, len: nat, base': nat, len': nat)
    requires SameOutside(F0, F, base, len) && SameOutside(F, F', base', len')
    requires base <= base' && base' + len' <= base + len
    ensures SameOutside(F0, F', base, len)
  {
  }

  // The samples, the table and the plan stay as they are while Fout is written.
  ghost predicate Kept(st: KissFftState, f: array<Cpx>, fs: seq<Cpx>, tw: seq<Cpx>, fac: seq<int>)
    reads f, st.twiddles, st.factors
  {
    f[..] == fs && st.twiddles[..] == tw && st.factors[..] == fac
  }

  lemma NothingWritten(F0: seq<Cpx>, base: nat, p: nat, m: nat, f: seq<Cpx>, off: nat, stride: nat, w: nat -> Cpx,
                       fstride: nat)
    ensures SameOutside(F0, F0, base, p * m)
    ensures RowsReady(CR, F0, base, p, m, f, off, stride, w, fstride, 0)
  {
  }

  // One more row: what lies outside it, and so the rows before it, stays the same.
  lemma OneMoreRow(F0: seq<Cpx>, F: seq<Cpx>, F': seq<Cpx>, base: nat, p: nat, m: nat, f: seq<Cpx>, off: nat,
                   stride: nat, w: nat -> Cpx, fstride: nat, q: nat)
    requires q < p && m > 0
    requires SameOutside(F0, F, base, p * m) && SameOutside(F, F', base + q * m, m)
    requires RowsReady(CR, F, base, p, m, f, off, stride, w, fstride, q)
    requires Transformed(CR, F', base + q * m, m, f, off + stride * q, stride * p, w, fstride * p)
    ensures SameOutside(F0, F', base, p * m)
    ensures RowsReady(CR, F', base, p, m, f, off, stride, w, fstride, q + 1)
  {
    hide Mul, Sum, Transformed;
    RowColumn(q, m - 1, m, p);
    RowsSurvive(CR, F, F', base, p, m, f, off, stride, w, fstride, q);
  }

  // The switch at the end of kf_work.
  method Recombine(Fout: array<Cpx>, base: nat, fstride: nat, st: KissFftState, m: nat, p: nat, ghost w: nat -> Cpx,
                   ghost fs: seq<Cpx>, ghost off: nat, ghost stride: nat)
    requires Fout != st.twiddles && st.Holds(w)
    requires StageFits(Fout.Length, base, p, m, st.nfft, fstride)
    requires RowsReady(CR, Fout[..], base, p, m, fs, off, stride, w, fstride, p)
    modifies Fout
    ensures SameOutside(old(Fout[..]), Fout[..], base, p * m)
    ensures Transformed(CR, Fout[..], base, p * m, fs, off, stride, w, fstride)
  {
    hide Mul, Add, Sum, Cell, ColumnsDone, RowsReady, SameOutside, Transformed;
    ghost var F := Fout[..];
    match p {
      case 2 => KfBfly2(Fout, base, fstride, st, m, w);
      case 3 => KfBfly3(Fout, base, fstride, st, m, w);
      case 4 => KfBfly4(Fout, base, fstride, st, m, w);
      case 5 => KfBfly5(Fout, base, fstride, st, m, w);
      case _ => KfBflyGeneric(Fout, base, fstride, st, m, p, w);
    }
    RootsTurn(w, st.nfft, st.inverse);
    StageTransforms(CR, F, Fout[..], base, p, m, fs, off, stride, w, fstride, st.nfft);
    ButterflyOutside(F, Fout[..], base, p, m, w, fstride);
  }

  lemma ButterflyOutside(F0: seq<Cpx>, F: seq<Cpx>, base: nat, p: nat, m: nat, w: nat -> Cpx, fstride: nat)
    requires IsButterfly(CR, F0, F, base, p, m, w, fstride)
    ensures SameOutside(F0, F, base, p * m)
  {
  }

  method KfWork(Fout: array<Cpx>, base: nat, f: array<Cpx>, off: nat, fstride: nat, inStride: nat, idx: nat,
                st: KissFftState,
                ghost w: nat -> Cpx, ghost len: nat)
    requires Fout != f && Fout != st.twiddles && st.Holds(w)
    requires WorkFits(Fout.Length, base, f.Length, off, fstride * inStride, st.factors[..], idx, len, fstride, st.nfft)
    modifies Fout
    ensures SameOutside(old(Fout[..]), Fout[..], base, len)
    ensures Transformed(CR, Fout[..], base, len, f[..], off, fstride * inStride, w, fstride)
    decreases st.factors.Length - idx
  {
    hide Mul, Add, Sum, RowsReady, SameOutside, Transformed, Tabulates, WorkFits;
    ghost var F0, fs, tw, fac := Fout[..], f[..], st.twiddles[..], st.factors[..];
    WorkStarts(Fout.Length, base, f.Length, off, fstride * inStride, fac, idx, len, fstride, st.nfft);
    var p: nat, m: nat := st.factors[idx], st.factors[idx + 1];
    var stride := fstride * inStride;
    NothingWritten(F0, base, p, m, fs, off, stride, w, fstride);
    for q: nat := 0 to p
      invariant Kept(st, f, fs, tw, fac)
      invariant SameOutside(F0, Fout[..], base, p * m)
      invariant RowsReady(CR, Fout[..], base, p, m, fs, off, stride, w, fstride, q)
    {
      ghost var F := Fout[..];
      WorkSplits(Fout.Length, base, f.Length, off, stride, fac, idx, len, fstride, st.nfft, p, m, q, inStride);
      if m == 1 {
        Fout[base + q] := f[off + stride * q];
        SingleSample(F, Fout[..], base, q, p, fs, off, stride, w, fstride);
      } else {
        KfWork(Fout, base + q * m, f, off + stride * q, fstride * p, inStride, idx + 2, st, w, m);
      }
      OneMoreRow(F0, F, Fout[..], base, p, m, fs, off, stride, w, fstride, q);
    }
    WorkIsStage(Fout.Length, base, f.Length, off, stride, fac, idx, len, fstride, st.nfft, p, m);
    ghost var F := Fout[..];
    Recombine(Fout, base, fstride, st, m, p, w, fs, off, stride);
    SameOutsideWider(F0, F, Fout[..], base, p * m, base, p * m);
  }

  // -------------------------------------------------------- the public entries

  // The discrete Fourier transform by its definition: entry k is the sum over
  // j < n of f[stride*j] * w(k*j).
  function Dft(f: seq<Cpx>, stride: nat, w: nat -> Cpx, n: nat): (g: seq<Cpx>)
    ensures |g| == n
  {
    seq(n, (k: nat) => Sum(CR, f, 0, stride, w, k, n))
  }

  // A table for w and a plan for its length.
  ghost predicate Ready(st: KissFftState, w: nat -> Cpx)
    reads st.twiddles, st.factors
  {
    st.nfft >= 1 && st.Holds(w) && StageList(st.factors[..], 0, st.nfft)
  }

  lemma TransformedIsDft(F: seq<Cpx>, f: seq<Cpx>, stride: nat, w: nat -> Cpx, n: nat)
    requires Transformed(CR, F, 0, n, f, 0, stride, w, 1) && n <= |F|
    ensures F[..n] == Dft(f, stride, w, n)
  {
    forall k: nat | k < n
      ensures F[k] == Dft(f, stride, w, n)[k]
    {
      assert TransformCell(CR, F, 0, n, f, 0, stride, w, 1, k);
      assert 1 * k == k;
    }
  }

  method KissFftAlloc(nfft: nat, inverse: bool, cexp: nat -> Cpx) returns (st: KissFftState)
    requires 1 <= nfft < INT_LIMIT && IsRoots(cexp, nfft, inverse)
    ensures fresh(st) && fresh(st.twiddles) && fresh(st.factors)
    ensures st.nfft == nfft && st.inverse == inverse && Ready(st, cexp)
  {
    hide IsRoots, Planned;
    var twiddles, factors := new Cpx[nfft], new int[2 * MAXFACTORS];
    for i: nat := 0 to nfft
      invariant forall k: nat | k < i :: twiddles[k] == cexp(k)
    {
      twiddles[i] := cexp(i);
    }
    var _ := KfFactor(nfft, factors);
    st := new KissFftState(nfft, inverse, factors, twiddles);
  }

  method KissFftStride(st: KissFftState, fin: array<Cpx>, fout: array<Cpx>, inStride: nat, ghost w: nat -> Cpx)
    requires Ready(st, w) && fout != st.twiddles
    requires inStride * (st.nfft - 1) < fin.Length && st.nfft <= fout.Length
    modifies fout
    ensures fout[..st.nfft] == Dft(old(fin[..]), inStride, w, st.nfft)
    ensures fout[st.nfft..] == old(fout[st.nfft..])
  {
    hide Mul, Sum, IsRoots, Transformed;
    ghost var f, n := fin[..], st.nfft;
    if fin == fout {
      var tmpbuf := new Cpx[st.nfft];
      KfWork(tmpbuf, 0, fin, 0, 1, inStride, 0, st, w, n);
      TransformedIsDft(tmpbuf[..], f, inStride, w, n);
      for i: nat := 0 to st.nfft
        invariant fout[..i] == tmpbuf[..i] && fout[n..] == f[n..]
        invariant tmpbuf[..] == Dft(f, inStride, w, n)
      {
        fout[i] := tmpbuf[i];
      }
    } else {
      KfWork(fout, 0, fin, 0, 1, inStride, 0, st, w, n);
      TransformedIsDft(fout[..], f, inStride, w, n);
    }
  }

  method KissFft(st: KissFftState, fin: array<Cpx>, fout: array<Cpx>, ghost w: nat -> Cpx)
    requires Ready(st, w) && fout != st.twiddles
    requires st.nfft <= fin.Length && st.nfft <= fout.Length
    modifies fout
    ensures fout[..st.nfft] == Dft(old(fin[..]), 1, w, st.nfft)
    ensures fout[st.nfft..] == old(fout[st.nfft..])
  {
    KissFftStride(st, fin, fout, 1, w);
  }
}
