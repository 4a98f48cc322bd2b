// What one stage of the mixed-radix transform computes, over any commutative
// ring: a block of p rows of m sub-transform outputs becomes, column by column,
// the p*m outputs of the combined transform.
module ButterflySpec {
  import opened NatArith
  import opened RingSums

  // The position of row q, column u of the block.
  function Slot(base: nat, m: nat, q: nat, u: nat): nat { base + (q * m + u) }

  // Output of a stage at row q, column u: the length p transform of the column.
  function Output<T>(R: Ring<T>, F: seq<T>, base: nat, p: nat, m: nat, w: nat -> T, fstride: nat, q: nat, u: nat): T {
    Sum(R, F, base + u, m, w, fstride * (q * m + u), p)
  }

  // Row q, column u of F: already the output if the column is below done, else as in F0.
  ghost predicate Cell<T>(R: Ring<T>, F0: seq<T>, F: seq<T>, base: nat, p: nat, m: nat, w: nat -> T, fstride: nat,
                          done: nat, q: nat, u: nat) {
    var s := Slot(base, m, q, u);
    s < |F0| == |F| && F[s] == if u < done then Output(R, F0, base, p, m, w, fstride, q, u) else F0[s]
  }

  ghost predicate SameOutside<T>(F0: seq<T>, F: seq<T>, base: nat, size: nat) {
    |F| == |F0| && forall i | 0 <= i < |F0| && (i < base || base + size <= i) :: F[i] == F0[i]
  }

  // The columns below done are finished, everything else is still as it was.
  ghost predicate ColumnsDone<T>(R: Ring<T>, F0: seq<T>, F: seq<T>, base: nat, p: nat, m: nat, w: nat -> T,
                                 fstride: nat, done: nat) {
    && SameOutside(F0, F, base, p * m)
    && forall q: nat, u: nat {:trigger Cell(R, F0, F, base, p, m, w, fstride, done, q, u)} | q < p && u < m ::
         Cell(R, F0, F, base, p, m, w, fstride, done, q, u)
  }

  // F is F0 with the whole block at base replaced by its outputs.
  ghost predicate IsButterfly<T>(R: Ring<T>, F0: seq<T>, F: seq<T>, base: nat, p: nat, m: nat, w: nat -> T,
                                 fstride: nat) {
    ColumnsDone(R, F0, F, base, p, m, w, fstride, m)
  }

  lemma NothingDone<T(!new)>(R: Ring<T>, F0: seq<T>, base: nat, p: nat, m: nat, w: nat -> T, fstride: nat)
    requires base + p * m <= |F0|
    ensures ColumnsDone(R, F0, F0, base, p, m, w, fstride, 0)
  {
    forall q: nat, u: nat | q < p && u < m
      ensures Cell(R, F0, F0, base, p, m, w, fstride, 0, q, u)
    {
      RowColumn(q, u, m, p);
    }
  }

  lemma SlotInBlock(base: nat, p: nat, m: nat, q: nat, u: nat)
    requires q < p && u < m
    ensures base <= Slot(base, m, q, u) < base + p * m
  {
    RowColumn(q, u, m, p);
  }

  lemma SlotInjective(base: nat, m: nat, q: nat, u: nat, q': nat, u': nat)
    requires u < m && u' < m && Slot(base, m, q, u) == Slot(base, m, q', u')
    ensures q == q' && u == u'
  {
    DivModUnique(q * m + u, q, u, m);
    DivModUnique(q' * m + u', q', u', m);
  }

  // F' is F with column u overwritten by vs.
  ghost predicate ColumnWritten<T>(F: seq<T>, F': seq<T>, base: nat, m: nat, u: nat, vs: seq<T>) {
    && |F'| == |F|
    && (forall q: nat {:trigger Slot(base, m, q, u)} | q < |vs| :: Slot(base, m, q, u) < |F'| && F'[Slot(base, m, q, u)] == vs[q])
    && (forall i | 0 <= i < |F| && !InColumn(i, base, |vs|, m, u) :: F'[i] == F[i])
  }

  ghost predicate InColumn(i: int, base: nat, p: nat, m: nat, u: nat) {
    exists q: nat {:trigger Slot(base, m, q, u)} | q < p :: i == Slot(base, m, q, u)
  }

  function WriteColumn<T>(F: seq<T>, base: nat, m: nat, u: nat, vs: seq<T>): (F': seq<T>)
    requires forall q: nat {:trigger Slot(base, m, q, u)} | q < |vs| :: Slot(base, m, q, u) < |F|
    ensures |F'| == |F|
  {
    if vs == [] then F
    else
      var q := |vs| - 1;
      WriteColumn(F, base, m, u, vs[..q])[Slot(base, m, q, u) := vs[q]]
  }

  lemma {:induction false} WriteColumnWrites<T(!new)>(F: seq<T>, base: nat, m: nat, u: nat, vs: seq<T>)
    requires u < m && forall q: nat {:trigger Slot(base, m, q, u)} | q < |vs| :: Slot(base, m, q, u) < |F|
    ensures ColumnWritten(F, WriteColumn(F, base, m, u, vs), base, m, u, vs)
  {
    if vs != [] {
      var last := |vs| - 1;
      WriteColumnWrites(F, base, m, u, vs[..last]);
      var F' := WriteColumn(F, base, m, u, vs[..last]);
      forall q: nat {:trigger Slot(base, m, q, u)} | q < |vs|
        ensures WriteColumn(F, base, m, u, vs)[Slot(base, m, q, u)] == vs[q]
      {
        if q < last && Slot(base, m, q, u) == Slot(base, m, last, u) {
          SlotInjective(base, m, q, u, last, u);
        }
      }
      forall i | 0 <= i < |F| && !InColumn(i, base, |vs|, m, u)
        ensures WriteColumn(F, base, m, u, vs)[i] == F[i]
      {
        assert i != Slot(base, m, last, u);
        assert !InColumn(i, base, last, m, u);
      }
    }
  }

  ghost predicate ColumnValues<T>(R: Ring<T>, F0: seq<T>, base: nat, m: nat, w: nat -> T, fstride: nat, u: nat,
                                  vs: seq<T>) {
    forall q: nat {:trigger vs[q]} | q < |vs| :: vs[q] == Output(R, F0, base, |vs|, m, w, fstride, q, u)
  }

  lemma ColumnDone<T(!new)>(R: Ring<T>, F0: seq<T>, F: seq<T>, F': seq<T>, base: nat, m: nat, w: nat -> T,
                            fstride: nat, u: nat, vs: seq<T>)
    requires u < m && ColumnsDone(R, F0, F, base, |vs|, m, w, fstride, u)
    requires ColumnWritten(F, F', base, m, u, vs) && ColumnValues(R, F0, base, m, w, fstride, u, vs)
    ensures ColumnsDone(R, F0, F', base, |vs|, m, w, fstride, u + 1)
  {
    var p, done := |vs|, u + 1;
    forall q: nat, v: nat | q < p && v < m
      ensures Cell(R, F0, F', base, p, m, w, fstride, done, q, v)
    {
      assert Cell(R, F0, F, base, p, m, w, fstride, u, q, v);
      var s := Slot(base, m, q, v);
      if v == u {
        assert F'[s] == vs[q];
      } else if InColumn(s, base, p, m, u) {
        var q': nat :| q' < p && s == Slot(base, m, q', u);
        SlotInjective(base, m, q, v, q', u);
      }
    }
    forall i | 0 <= i < |F0| && (i < base || base + p * m <= i)
      ensures F'[i] == F0[i]
    {
      if InColumn(i, base, p, m, u) {
        var q: nat :| q < p && i == Slot(base, m, q, u);
        SlotInBlock(base, p, m, q, u);
      }
    }
  }

  // ------------------------------------- a column as p twisted inputs, spun

  // input j of column u times its twiddle
  function Twisted<T>(R: Ring<T>, F: seq<T>, base: nat, p: nat, m: nat, w: nat -> T, fstride: nat, u: nat): (t: seq<T>)
    ensures |t| == p
  {
    seq(p, (j: nat) => R.mul(At(R, F, base + u + m * j), w(fstride * u * j)))
  }

  // sum over j < len of t[j] * w(h * (q*j mod p)), with h a p-th of a full turn
  function Spin<T>(R: Ring<T>, t: seq<T>, w: nat -> T, h: nat, p: nat, q: nat, len: nat): T
    requires len <= |t| && p > 0
  {
    if len == 0 then R.zero
    else R.add(Spin(R, t, w, h, p, q, len - 1), R.mul(t[len - 1], w(h * ((q * (len - 1)) % p))))
  }

  // Multiples of h only matter modulo p.
  ghost predicate FoldRule<T>(w: nat -> T, h: nat, p: nat, x: nat)
    requires p > 0
  {
    w(h * x) == w(h * (x % p))
  }

  ghost predicate Folds<T>(w: nat -> T, h: nat, p: nat)
    requires p > 0
  {
    forall x: nat :: FoldRule(w, h, p, x)
  }

  lemma TermIsSpun<T(!new)>(R: Ring<T>, x: T, w: nat -> T, p: nat, m: nat, fstride: nat, q: nat, u: nat, j: nat)
    requires IsRing(R) && IsCharacter(R, w) && p > 0 && Folds(w, fstride * m, p)
    ensures R.mul(x, w(fstride * (q * m + u) * j))
         == R.mul(R.mul(x, w(fstride * u * j)), w(fstride * m * ((q * j) % p)))
  {
    var h := fstride * m;
    assert fstride * (q * m + u) * j == fstride * u * j + h * (q * j);
    assert ExponentRule(R, w, fstride * u * j, h * (q * j));
    assert FoldRule(w, h, p, q * j);
    assert R.MulAssoc(x, w(fstride * u * j), w(h * (q * j)));
  }

  lemma {:induction false} OutputIsSpin<T(!new)>(R: Ring<T>, F: seq<T>, base: nat, p: nat, m: nat, w: nat -> T,
                                                 fstride: nat, q: nat, u: nat, len: nat)
    requires IsRing(R) && IsCharacter(R, w) && p > 0 && Folds(w, fstride * m, p) && len <= p
    ensures Sum(R, F, base + u, m, w, fstride * (q * m + u), len)
         == Spin(R, Twisted(R, F, base, p, m, w, fstride, u), w, fstride * m, p, q, len)
  {
    if len > 0 {
      OutputIsSpin(R, F, base, p, m, w, fstride, q, u, len - 1);
      TermIsSpun(R, At(R, F, base + u + m * (len - 1)), w, p, m, fstride, q, u, len - 1);
    }
  }

  // Writing the spun inputs into the rows of column u finishes the column.
  lemma FinishColumn<T(!new)>(R: Ring<T>, F0: seq<T>, F: seq<T>, base: nat, m: nat, w: nat -> T, fstride: nat, u: nat,
                              vs: seq<T>)
    requires IsRing(R) && IsCharacter(R, w) && u < m && |vs| > 0 && Folds(w, fstride * m, |vs|)
    requires ColumnsDone(R, F0, F, base, |vs|, m, w, fstride, u)
    requires forall q: nat | q < |vs| ::
               vs[q] == Spin(R, Twisted(R, F0, base, |vs|, m, w, fstride, u), w, fstride * m, |vs|, q, |vs|)
    ensures forall q: nat {:trigger Slot(base, m, q, u)} | q < |vs| :: Slot(base, m, q, u) < |F|
    ensures ColumnsDone(R, F0, WriteColumn(F, base, m, u, vs), base, |vs|, m, w, fstride, u + 1)
  {
    forall q: nat {:trigger Slot(base, m, q, u)} | q < |vs|
      ensures Slot(base, m, q, u) < |F|
    {
      assert Cell(R, F0, F, base, |vs|, m, w, fstride, u, q, u);
    }
    WriteColumnWrites(F, base, m, u, vs);
    forall q: nat | q < |vs|
      ensures vs[q] == Output(R, F0, base, |vs|, m, w, fstride, q, u)
    {
      OutputIsSpin(R, F0, base, |vs|, m, w, fstride, q, u, |vs|);
    }
    ColumnDone(R, F0, F, WriteColumn(F, base, m, u, vs), base, m, w, fstride, u, vs);
  }

  // Reading row j of a column that is not done.
  lemma ReadRow<T(!new)>(R: Ring<T>, F0: seq<T>, F: seq<T>, base: nat, p: nat, m: nat, w: nat -> T, fstride: nat,
                         u: nat, j: nat)
    requires u < m && j < p && ColumnsDone(R, F0, F, base, p, m, w, fstride, u)
    ensures Slot(base, m, j, u) < |F|
    ensures Twisted(R, F0, base, p, m, w, fstride, u)[j] == R.mul(F[Slot(base, m, j, u)], w(fstride * u * j))
  {
    assert Cell(R, F0, F, base, p, m, w, fstride, u, j, u);
    assert Slot(base, m, j, u) == base + u + m * j;
  }

  // ------------------------------------------- a stage on finished sub-transforms

  // F[base+k] for k < len is the transform of the len samples f[off], f[off+stride], ...
  ghost predicate TransformCell<T>(R: Ring<T>, F: seq<T>, base: nat, len: nat, f: seq<T>, off: nat, stride: nat,
                                   w: nat -> T, fstride: nat, k: nat) {
    base + k < |F| && F[base + k] == Sum(R, f, off, stride, w, fstride * k, len)
  }

  ghost predicate Transformed<T>(R: Ring<T>, F: seq<T>, base: nat, len: nat, f: seq<T>, off: nat, stride: nat,
                                 w: nat -> T, fstride: nat) {
    forall k: nat {:trigger TransformCell(R, F, base, len, f, off, stride, w, fstride, k)} | k < len ::
      TransformCell(R, F, base, len, f, off, stride, w, fstride, k)
  }

  // Row j of the block holds the transform of samples j, j+p, j+2p, ...
  ghost predicate RowReady<T>(R: Ring<T>, F: seq<T>, base: nat, p: nat, m: nat, f: seq<T>, off: nat, stride: nat,
                              w: nat -> T, fstride: nat, j: nat) {
    Transformed(R, F, base + j * m, m, f, off + stride * j, stride * p, w, fstride * p)
  }

  ghost predicate RowsReady<T>(R: Ring<T>, F: seq<T>, base: nat, p: nat, m: nat, f: seq<T>, off: nat, stride: nat,
                               w: nat -> T, fstride: nat, rows: nat) {
    forall j: nat {:trigger RowReady(R, F, base, p, m, f, off, stride, w, fstride, j)} | j < rows ::
      RowReady(R, F, base, p, m, f, off, stride, w, fstride, j)
  }

  // The first len rows, combined at exponent step e.
  lemma {:induction false} OutputIsCombined<T(!new)>(R: Ring<T>, F: seq<T>, base: nat, p: nat, m: nat, f: seq<T>,
                                                     off: nat, stride: nat, w: nat -> T, fstride: nat, u: nat, e: nat,
                                                     len: nat)
    requires RowsReady(R, F, base, p, m, f, off, stride, w, fstride, p) && u < m && len <= p
    requires forall j: nat :: SameTurn(w, fstride * p * u, e * p, j)
    ensures Sum(R, F, base + u, m, w, e, len) == Combined(R, f, off, stride, w, e, p, m, len)
  {
    if len > 0 {
      var j := len - 1;
      OutputIsCombined(R, F, base, p, m, f, off, stride, w, fstride, u, e, j);
      assert RowReady(R, F, base, p, m, f, off, stride, w, fstride, j);
      assert TransformCell(R, F, base + j * m, m, f, off + stride * j, stride * p, w, fstride * p, u);
      assert base + j * m + u == base + u + m * j;
      SumPeriod(R, f, off + stride * j, stride * p, w, fstride * p * u, e * p, m);
    }
  }

  // The exponents of row q and of row 0 differ by whole turns.
  ghost predicate WholeTurns<T>(w: nat -> T, n: nat) {
    forall q: nat, a: nat :: WholeTurn(w, n, q, a)
  }

  ghost predicate WholeTurn<T>(w: nat -> T, n: nat, q: nat, a: nat) {
    w(q * n + a) == w(a)
  }

  lemma RowsTurn<T(!new)>(w: nat -> T, n: nat, p: nat, m: nat, fstride: nat, q: nat, u: nat, j: nat)
    requires WholeTurns(w, n) && p * (fstride * m) == n
    ensures SameTurn(w, fstride * p * u, fstride * (q * m + u) * p, j)
  {
    var d, e := fstride * p * u, fstride * (q * m + u);
    OutputStep(p, m, fstride, q, u);
    var qn := q * n;
    MulSum(qn, d, j);
    assert qn * j == q * j * n by { MulAssoc3(q, n, j); }
    assert WholeTurn(w, n, q * j, d * j);
  }

  // The exponent step of output row q, spread over p rows: q whole turns more.
  lemma OutputStep(p: nat, m: nat, fstride: nat, q: nat, u: nat)
    ensures fstride * (q * m + u) * p == q * (p * (fstride * m)) + fstride * p * u
  {
    MulSum(q * m, u, fstride);
    MulSum(fstride * (q * m), fstride * u, p);
    MulAssoc3(fstride, u, p);
    assert fstride * (q * m) * p == q * (p * (fstride * m));
  }

  // A butterfly on finished sub-transforms finishes the transform.
  lemma StageTransforms<T(!new)>(R: Ring<T>, F: seq<T>, F': seq<T>, base: nat, p: nat, m: nat, f: seq<T>, off: nat,
                                 stride: nat, w: nat -> T, fstride: nat, n: nat)
    requires IsRing(R) && IsCharacter(R, w) && WholeTurns(w, n) && p * (fstride * m) == n && m > 0
    requires RowsReady(R, F, base, p, m, f, off, stride, w, fstride, p)
    requires IsButterfly(R, F, F', base, p, m, w, fstride)
    ensures Transformed(R, F', base, p * m, f, off, stride, w, fstride)
  {
    forall k: nat | k < p * m
      ensures TransformCell(R, F', base, p * m, f, off, stride, w, fstride, k)
    {
      var q, u := k / m, k % m;
      PositionSplits(k, m, p);
      StageOutput(R, F, F', base, p, m, f, off, stride, w, fstride, n, q, u);
    }
  }

  lemma StageOutput<T(!new)>(R: Ring<T>, F: seq<T>, F': seq<T>, base: nat, p: nat, m: nat, f: seq<T>, off: nat,
                             stride: nat, w: nat -> T, fstride: nat, n: nat, q: nat, u: nat)
    requires IsRing(R) && IsCharacter(R, w) && WholeTurns(w, n) && p * (fstride * m) == n && q < p && u < m
    requires RowsReady(R, F, base, p, m, f, off, stride, w, fstride, p)
    requires IsButterfly(R, F, F', base, p, m, w, fstride)
    ensures TransformCell(R, F', base, p * m, f, off, stride, w, fstride, q * m + u)
  {
    var e := fstride * (q * m + u);
    assert Cell(R, F, F', base, p, m, w, fstride, m, q, u);
    forall j: nat
      ensures SameTurn(w, fstride * p * u, e * p, j)
    {
      RowsTurn(w, n, p, m, fstride, q, u, j);
    }
    OutputIsCombined(R, F, base, p, m, f, off, stride, w, fstride, u, e, p);
    Decimation(R, f, off, stride, w, e, p, m);
  }

  // Rows ready so far stay ready when only later rows change.
  lemma RowsSurvive<T(!new)>(R: Ring<T>, F: seq<T>, F': seq<T>, base: nat, p: nat, m: nat, f: seq<T>, off: nat,
                             stride: nat, w: nat -> T, fstride: nat, rows: nat)
    requires RowsReady(R, F, base, p, m, f, off, stride, w, fstride, rows)
    requires SameOutside(F, F', base + rows * m, m)
    requires RowReady(R, F', base, p, m, f, off, stride, w, fstride, rows)
    ensures RowsReady(R, F', base, p, m, f, off, stride, w, fstride, rows + 1)
  {
    forall j: nat | j < rows + 1
      ensures RowReady(R, F', base, p, m, f, off, stride, w, fstride, j)
    {
      if j < rows {
        assert RowReady(R, F, base, p, m, f, off, stride, w, fstride, j);
        forall k: nat {:trigger TransformCell(R, F', base + j * m, m, f, off + stride * j, stride * p, w, fstride * p, k)} | k < m
          ensures TransformCell(R, F', base + j * m, m, f, off + stride * j, stride * p, w, fstride * p, k)
        {
          assert TransformCell(R, F, base + j * m, m, f, off + stride * j, stride * p, w, fstride * p, k);
          RowColumn(j, k, m, rows);
        }
      }
    }
  }
}
