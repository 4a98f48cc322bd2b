// lpc_to_lsp: the grid search with bisection for the line spectrum pairs, over the reals.
module LspSearch {
  import opened RealProducts
  import opened LspPolynomials
  import opened LspChebyshev
  import opened Lsp
  import opened LspInverse

  // The value of the series that is searched.
  ghost function Value(coef: seq<real>, m: nat, x: real): real { EvaSum(coef, m, x, m + 1) }

  // delta halved k times
  function Halved(delta: real, k: nat): real {
    if k == 0 then delta else Halved(delta, k - 1) / 2.0
  }

  // x is an end of the bracket from r to l, which is delta halved k times wide, and the
  // series does not keep its sign on it.
  ghost predicate Bracketed(coef: seq<real>, m: nat, x: real, delta: real, k: nat, l: real, r: real) {
    && (x == l || x == r) && r <= l && l - r == Halved(delta, k)
    && Times(Value(coef, m, l), Value(coef, m, r)) <= 0.0
  }

  // The grid of the search: x, x - delta, x - 2 delta, ...
  function Grid(x: real, delta: real, i: nat): real {
    if i == 0 then x else Grid(x, delta, i - 1) - delta
  }

  // The sign changes in cell i of the grid.
  ghost predicate Changes(coef: seq<real>, m: nat, x: real, delta: real, i: nat) {
    Times(Value(coef, m, Grid(x, delta, i + 1)), Value(coef, m, Grid(x, delta, i))) < 0.0
  }

  ghost predicate NoChange(coef: seq<real>, m: nat, x: real, delta: real, n: nat) {
    forall i: nat | i < n :: !Changes(coef, m, x, delta, i)
  }

  // No cell down to -1 has a change of sign.
  ghost predicate Exhausted(coef: seq<real>, m: nat, x: real, delta: real) {
    exists n: nat :: Grid(x, delta, n) < -1.0 && NoChange(coef, m, x, delta, n)
  }

  // One bisection, and the point at which it was done
  datatype Half = Half(l: real, r: real, x: real)

  ghost function HalfOf(coef: seq<real>, m: nat, l: real, r: real): Half {
    var x := (l + r) / 2.0;
    if Times(Value(coef, m, x), Value(coef, m, l)) > 0.0 then Half(x, r, x) else Half(l, x, x)
  }

  // k bisections of the interval from r to l
  ghost function Halving(coef: seq<real>, m: nat, l: real, r: real, k: nat): Half {
    if k == 0 then Half(l, r, r) else
      var h := Halving(coef, m, l, r, k - 1);
      HalfOf(coef, m, h.l, h.r)
  }

  // Cell i of the grid, bisected k times
  ghost function CellHalved(coef: seq<real>, m: nat, from: real, delta: real, i: nat, k: nat): Half {
    Halving(coef, m, Grid(from, delta, i), Grid(from, delta, i + 1), k)
  }

  lemma SignKeeps(v: real, l: real, r: real)
    requires Times(v, l) > 0.0 && Times(l, r) <= 0.0
    ensures Times(v, r) <= 0.0
  {
    if l > 0.0 {
      assert v > 0.0 by { PositiveFactor(v, l); }
      PositivePart(l, r);
      NegativePart(v, r);
    } else {
      assert l < 0.0 by { NotZero(v, l); }
      ProductPositive(v, l);
      ProductPositive(l, r);
      assert Times(-v, -l) == Times(v, l);
      PositiveFactor(-v, -l);
      PositivePart(-l, -r);
      NegativePart(-v, -r);
      ProductPositive(v, r);
    }
  }

  lemma NotZero(v: real, l: real)
    requires Times(v, l) > 0.0
    ensures l != 0.0
  {
  }

  lemma PositivePart(l: real, r: real)
    requires l > 0.0 && Times(l, r) <= 0.0
    ensures r <= 0.0
  {
    hide Times;
    ProductPositive(l, r);
  }

  lemma NegativePart(v: real, r: real)
    requires v > 0.0 && r <= 0.0
    ensures Times(v, r) <= 0.0
  {
    hide Times;
    ProductPositive(v, -r);
    ProductPositive(-r, v);
    TimesComm(v, -r);
    ProductPositive(v, r);
    ProductPositive(r, v);
    TimesComm(r, v);
  }

  // ------------------------------------------------------------ P' and Q'

  method BuildHalves(a: array<real>, lpcrdr: nat, P: array<real>, Q: array<real>)
    requires lpcrdr <= LSP_MAX_ORDER && lpcrdr < a.Length && P.Length == Q.Length == LSP_MAX_ORDER + 1
    requires P != Q && P != a && Q != a
    modifies P, Q
    ensures P[..lpcrdr / 2 + 1] == HalfPs(a[..lpcrdr + 1], lpcrdr)
    ensures Q[..lpcrdr / 2 + 1] == HalfQs(a[..lpcrdr + 1], lpcrdr)
  {
    ghost var s := a[..lpcrdr + 1];
    ghost var ps, qs := HalfPs(s, lpcrdr), HalfQs(s, lpcrdr);
    hide HalfPs, HalfQs, Coef;
    HalfStep(s, lpcrdr, 0);
    P[0], Q[0] := 1.0, 1.0;
    for i: nat := 1 to lpcrdr / 2 + 1
      invariant P[..i] == ps[..i] && Q[..i] == qs[..i]
    {
      HalfStep(s, lpcrdr, i);
      CoefIn(s, i);
      CoefIn(s, lpcrdr + 1 - i);
      assert P[..i][i - 1] == ps[i - 1] && Q[..i][i - 1] == qs[i - 1];
      P[i] := a[i] + a[lpcrdr + 1 - i] - P[i - 1];
      Q[i] := a[i] - a[lpcrdr + 1 - i] + Q[i - 1];
    }
    assert ps[..lpcrdr / 2 + 1] == ps && qs[..lpcrdr / 2 + 1] == qs;
  }

  lemma CoefIn(s: seq<real>, i: nat)
    requires i < |s|
    ensures Coef(s, i) == s[i]
  {
  }

  method DoubleHalves(P: array<real>, Q: array<real>, m: nat)
    requires P != Q && m < P.Length && m < Q.Length
    modifies P, Q
    ensures P[..m + 1] == Doubled(old(P[..m + 1])) && Q[..m + 1] == Doubled(old(Q[..m + 1]))
  {
    for i: nat := 0 to m
      invariant forall k: nat | k < i :: P[k] == 2.0 * old(P[k]) && Q[k] == 2.0 * old(Q[k])
      invariant forall k: nat | i <= k <= m :: P[k] == old(P[k]) && Q[k] == old(Q[k])
    {
      P[i] := 2.0 * P[i];
      Q[i] := 2.0 * Q[i];
    }
  }

  // ------------------------------------------------------------ the search

  // Halving keeps the change of sign.
  lemma {:induction false} HalvingBrackets(coef: seq<real>, m: nat, l: real, r: real, delta: real, k: nat)
    requires r < l && l - r == delta && Times(Value(coef, m, l), Value(coef, m, r)) <= 0.0
    ensures var h := Halving(coef, m, l, r, k);
            && r <= h.r < h.l <= l && h.l - h.r == Halved(delta, k)
            && Times(Value(coef, m, h.l), Value(coef, m, h.r)) <= 0.0
            && (k > 0 ==> Bracketed(coef, m, h.x, delta, k, h.l, h.r) && h.x < l)
  {
    hide Times, EvaSum;
    if k > 0 {
      HalvingBrackets(coef, m, l, r, delta, k - 1);
      var h := Halving(coef, m, l, r, k - 1);
      var x := (h.l + h.r) / 2.0;
      if Times(Value(coef, m, x), Value(coef, m, h.l)) > 0.0 {
        SignKeeps(Value(coef, m, x), Value(coef, m, h.l), Value(coef, m, h.r));
      } else {
        TimesComm(Value(coef, m, x), Value(coef, m, h.l));
      }
    }
  }

  // nb + 1 bisections of an interval on which the sign changes.
  method Bisect(coef: array<real>, lpcrdr: nat, xl0: real, xr0: real, psuml0: real, psumr0: real, delta: real, nb: nat)
    returns (xm: real, xr: real, ghost l: real)
    requires lpcrdr <= LSP_MAX_ORDER && lpcrdr / 2 < coef.Length
    requires delta > 0.0 && xl0 - xr0 == delta
    requires psuml0 == Value(coef[..], lpcrdr / 2, xl0) && psumr0 == Value(coef[..], lpcrdr / 2, xr0)
    requires Times(psumr0, psuml0) < 0.0
    ensures Halving(coef[..], lpcrdr / 2, xl0, xr0, nb + 1) == Half(l, xr, xm)
    ensures Bracketed(coef[..], lpcrdr / 2, xm, delta, nb + 1, l, xr)
    ensures xr0 <= xr <= xm < xl0 && xr <= l <= xl0
  {
    hide Times, EvaSum;
    TimesComm(psumr0, psuml0);
    var xl, psuml, psumr := xl0, psuml0, psumr0;
    xr, xm := xr0, xr0;
    for k: nat := 0 to nb + 1
      invariant Halving(coef[..], lpcrdr / 2, xl0, xr0, k) == Half(xl, xr, xm)
      invariant psuml == Value(coef[..], lpcrdr / 2, xl) && psumr == Value(coef[..], lpcrdr / 2, xr)
    {
      xm := (xl + xr) / 2.0;
      var psumm := ChebPolyEva(coef, xm, lpcrdr);
      if Times(psumm, psuml) > 0.0 {
        psuml := psumm;
        xl := xm;
      } else {
        psumr := psumm;
        xr := xm;
      }
    }
    l := xl;
    HalvingBrackets(coef[..], lpcrdr / 2, xl0, xr0, delta, nb + 1);
  }

  lemma Archimedes(y: real, delta: real) returns (n: nat)
    requires delta > 0.0
    ensures y < n as real * delta
  {
    if y < 0.0 {
      n := 0;
    } else {
      var q := y / delta;
      n := q.Floor + 1;
      assert q < n as real;
      assert q * delta == y;
      StrictlyMore(q, n as real, delta);
    }
  }

  lemma StrictlyMore(q: real, n: real, delta: real)
    requires q < n && delta > 0.0
    ensures q * delta < n * delta
  {
  }

  lemma OneStepLess(n: nat, delta: real)
    requires n > 0
    ensures (n - 1) as real * delta == n as real * delta - delta
  {
  }

  // The loop for one pair: down the grid to the first change of sign, then into it.
  method SearchOne(coef: array<real>, lpcrdr: nat, xl0: real, xr0: real, delta: real, nb: nat)
    returns (found: bool, xl: real, xr: real, xm: real, ghost l: real, ghost n: nat)
    requires lpcrdr <= LSP_MAX_ORDER && lpcrdr / 2 < coef.Length && delta > 0.0 && xr0 <= xl0
    ensures xr <= xl <= xl0
    ensures found ==> xl == xm < xl0 && Bracketed(coef[..], lpcrdr / 2, xm, delta, nb + 1, l, xr)
    ensures found ==> xr0 >= -1.0 && RecordedIn(coef[..], lpcrdr / 2, xl0, xm, delta, nb + 1, n)
    ensures found ==> CellHalved(coef[..], lpcrdr / 2, xl0, delta, n, nb + 1).r == xr
    ensures !found ==> xr < -1.0 && (xr0 < -1.0 || Exhausted(coef[..], lpcrdr / 2, xl0, delta))
  {
    hide Times, EvaSum, Changes, Halving;
    xl, xr, xm, l, n := xl0, xr0, 0.0, 0.0, 0;
    var psuml := ChebPolyEva(coef, xl, lpcrdr);
    var flag := true;
    found := false;
    ghost var steps := Archimedes(xl + 1.0, delta);
    while flag && xr >= -1.0
      invariant xr <= xl <= xl0 && found == !flag
      invariant flag ==> psuml == Value(coef[..], lpcrdr / 2, xl) && xl + 1.0 < steps as real * delta
      invariant flag ==> xl == Grid(xl0, delta, n) && xr == (if n == 0 then xr0 else xl)
      invariant flag ==> NoChange(coef[..], lpcrdr / 2, xl0, delta, n) && (n > 0 ==> xr0 >= -1.0)
      invariant found ==> xl == xm < xl0 && Bracketed(coef[..], lpcrdr / 2, xm, delta, nb + 1, l, xr)
      invariant found ==> xr0 >= -1.0 && RecordedIn(coef[..], lpcrdr / 2, xl0, xm, delta, nb + 1, n)
      invariant found ==> CellHalved(coef[..], lpcrdr / 2, xl0, delta, n, nb + 1).r == xr
      decreases flag, steps
    {
      xr := xl - delta;
      var psumr := ChebPolyEva(coef, xr, lpcrdr);
      var tempPsumr, tempXr := psumr, xr;
      CellChanges(coef[..], lpcrdr / 2, xl0, delta, n);
      if Times(psumr, psuml) < 0.0 {
        xm, xr, l := Bisect(coef, lpcrdr, xl, xr, psuml, psumr, delta, nb);
        xl := xm;
        flag := false;
        found := true;
      } else {
        psuml := tempPsumr;
        xl := tempXr;
        SomeSteps(steps, delta);
        OneStepLess(steps, delta);
        steps := steps - 1;
        n := n + 1;
      }
    }
  }

  lemma CellChanges(coef: seq<real>, m: nat, x: real, delta: real, n: nat)
    ensures Changes(coef, m, x, delta, n) <==> Times(Value(coef, m, Grid(x, delta, n) - delta), Value(coef, m, Grid(x, delta, n))) < 0.0
  {
    hide Times, EvaSum;
  }

  lemma SomeSteps(n: nat, delta: real)
    ensures 0.0 < n as real * delta ==> n > 0
  {
  }

  // The polynomial, or the line spectrum pairs, of the parity of j.
  function Alternate(even: seq<real>, odd: seq<real>, j: nat): seq<real> {
    if j % 2 == 1 then odd else even
  }

  // The search for root j starts from the last root.
  function From(xs: seq<real>, j: nat): real
    requires j <= |xs|
  {
    if j == 0 then 1.0 else xs[j - 1]
  }

  // What the first cell with a change of sign, cell n of the grid, is bisected to
  ghost predicate RecordedIn(c: seq<real>, m: nat, from: real, x: real, delta: real, k: nat, n: nat) {
    NoChange(c, m, from, delta, n) && Changes(c, m, from, delta, n) && CellHalved(c, m, from, delta, n, k).x == x
  }

  // Root j was recorded as x, searching for a change of sign in the series of its parity.
  ghost predicate Recorded(pc: seq<real>, qc: seq<real>, m: nat, j: nat, from: real, x: real, delta: real, k: nat) {
    exists n: nat :: RecordedIn(Alternate(pc, qc, j), m, from, x, delta, k, n)
  }

  // So it is an end of a bracket inside its cell.
  lemma RecordedIsBracketed(c: seq<real>, m: nat, from: real, x: real, delta: real, k: nat, n: nat)
    requires RecordedIn(c, m, from, x, delta, k, n) && delta > 0.0 && k > 0
    ensures var h := CellHalved(c, m, from, delta, n, k);
            && Bracketed(c, m, x, delta, k, h.l, h.r)
            && Grid(from, delta, n + 1) <= h.r < h.l <= Grid(from, delta, n)
  {
    hide Times, EvaSum, Halving, NoChange;
    var l, r := Grid(from, delta, n), Grid(from, delta, n + 1);
    TimesComm(Value(c, m, r), Value(c, m, l));
    HalvingBrackets(c, m, l, r, delta, k);
  }

  ghost predicate AllRecorded(pc: seq<real>, qc: seq<real>, m: nat, xs: seq<real>, delta: real, k: nat) {
    forall j: nat {:trigger From(xs, j)} | j < |xs| :: Recorded(pc, qc, m, j, From(xs, j), xs[j], delta, k)
  }

  // The bracket of root j reached below -1.
  ghost predicate Overran(pc: seq<real>, qc: seq<real>, m: nat, xs: seq<real>, j: nat, delta: real, k: nat)
    requires j < |xs|
  {
    exists n: nat :: OverranIn(Alternate(pc, qc, j), m, From(xs, j), xs[j], delta, k, n)
  }

  ghost predicate OverranIn(c: seq<real>, m: nat, from: real, x: real, delta: real, k: nat, n: nat) {
    RecordedIn(c, m, from, x, delta, k, n) && CellHalved(c, m, from, delta, n, k).r < -1.0
  }

  // Where the search stopped before the last root: there is no more change of sign, or
  // the last bracket reached below -1.
  ghost predicate Stopped(pc: seq<real>, qc: seq<real>, m: nat, xs: seq<real>, delta: real, k: nat) {
    || Exhausted(Alternate(pc, qc, |xs|), m, From(xs, |xs|), delta)
    || (xs != [] && Overran(pc, qc, m, xs, |xs| - 1, delta, k))
  }

  // What a whole run of the search records
  ghost predicate Searched(pc: seq<real>, qc: seq<real>, m: nat, order: nat, xs: seq<real>, delta: real, k: nat) {
    && |xs| <= order && Decreasing(xs) && AllRecorded(pc, qc, m, xs, delta, k)
    && (|xs| < order ==> Stopped(pc, qc, m, xs, delta, k))
  }

  ghost predicate Decreasing(xs: seq<real>) {
    (forall i | 0 <= i < |xs| :: xs[i] < 1.0) && forall i, j | 0 <= i < j < |xs| :: xs[j] < xs[i]
  }

  lemma RecordMore(pc: seq<real>, qc: seq<real>, m: nat, xs: seq<real>, x: real, delta: real, k: nat, n: nat)
    requires AllRecorded(pc, qc, m, xs, delta, k) && Decreasing(xs)
    requires RecordedIn(Alternate(pc, qc, |xs|), m, From(xs, |xs|), x, delta, k, n)
    requires x < From(xs, |xs|)
    ensures AllRecorded(pc, qc, m, xs + [x], delta, k) && Decreasing(xs + [x])
    ensures OverranIn(Alternate(pc, qc, |xs|), m, From(xs, |xs|), x, delta, k, n) ==> Overran(pc, qc, m, xs + [x], |xs|, delta, k)
  {
    hide RecordedIn, CellHalved;
    var ys := xs + [x];
    assert From(ys, |xs|) == From(xs, |xs|);
    forall j: nat {:trigger From(ys, j)} | j < |ys|
      ensures Recorded(pc, qc, m, j, From(ys, j), ys[j], delta, k)
    {
      assert From(ys, j) == From(xs, j);
    }
  }

  // The roots that are found are recorded in turn, from P' and Q' alternately, and
  // turned into angles at the end, together with whatever the rest of freq held.
  method LpcToLsp(a: array<real>, lpcrdr: nat, freq: array<real>, nb: nat, delta: real, acos: real -> real)
    returns (roots: nat, ghost xs: seq<real>)
    requires lpcrdr <= LSP_MAX_ORDER && lpcrdr < a.Length && lpcrdr <= freq.Length && a != freq && delta > 0.0
    modifies freq
    ensures roots == |xs| <= lpcrdr
    ensures var p, q := Doubled(HalfPs(a[..lpcrdr + 1], lpcrdr)), Doubled(HalfQs(a[..lpcrdr + 1], lpcrdr));
            Searched(p, q, lpcrdr / 2, lpcrdr, xs, delta, nb + 1)
    ensures forall i: nat | i < lpcrdr :: freq[i] == acos(if i < roots then xs[i] else old(freq[i]))
  {
    hide AllRecorded, Stopped, Decreasing;
    var P, Q := new real[LSP_MAX_ORDER + 1], new real[LSP_MAX_ORDER + 1];
    BuildHalves(a, lpcrdr, P, Q);
    DoubleHalves(P, Q, lpcrdr / 2);
    roots, xs := SearchAll(P, Q, lpcrdr, freq, nb, delta);
    PrefixRecorded(P[..], Q[..], lpcrdr / 2, xs, delta, nb + 1);
    PrefixStopped(P[..], Q[..], lpcrdr / 2, xs, delta, nb + 1);
    for i: nat := 0 to lpcrdr
      invariant forall k: nat | k < i :: freq[k] == acos(if k < roots then xs[k] else old(freq[k]))
      invariant forall k: nat | i <= k < lpcrdr :: freq[k] == if k < roots then xs[k] else old(freq[k])
    {
      freq[i] := acos(freq[i]);
    }
  }

  method SearchAll(P: array<real>, Q: array<real>, lpcrdr: nat, freq: array<real>, nb: nat, delta: real)
    returns (roots: nat, ghost xs: seq<real>)
    requires lpcrdr <= LSP_MAX_ORDER && lpcrdr <= freq.Length && P.Length == Q.Length == LSP_MAX_ORDER + 1
    requires P != freq && Q != freq && delta > 0.0
    modifies freq
    ensures roots == |xs| && Searched(P[..], Q[..], lpcrdr / 2, lpcrdr, xs, delta, nb + 1)
    ensures forall k: nat | k < lpcrdr :: freq[k] == if k < roots then xs[k] else old(freq[k])
  {
    hide AllRecorded, Bracketed, RecordedIn, Exhausted, Decreasing, Overran, CellHalved;
    ghost var pc, qc := P[..], Q[..];
    roots, xs := 0, [];
    var xr, xl := 0.0, 1.0;
    NothingRecorded(pc, qc, lpcrdr / 2, delta, nb + 1);
    for j: nat := 0 to lpcrdr
      invariant P[..] == pc && Q[..] == qc
      invariant roots == |xs| <= j && (roots < j ==> xr < -1.0 && Stopped(pc, qc, lpcrdr / 2, xs, delta, nb + 1))
      invariant xr <= xl && (roots == j ==> xl == From(xs, roots))
      invariant roots == j ==> xr >= -1.0 || (xs != [] && Overran(pc, qc, lpcrdr / 2, xs, roots - 1, delta, nb + 1))
      invariant AllRecorded(pc, qc, lpcrdr / 2, xs, delta, nb + 1) && Decreasing(xs)
      invariant forall k: nat | k < lpcrdr :: freq[k] == if k < roots then xs[k] else old(freq[k])
    {
      var pt := if j % 2 == 1 then Q else P;
      assert roots == j ==> pt[..] == Alternate(pc, qc, roots);
      var found, xl', xr', xm;
      ghost var l, n;
      found, xl', xr', xm, l, n := SearchOne(pt, lpcrdr, xl, xr, delta, nb);
      if found {
        RecordMore(pc, qc, lpcrdr / 2, xs, xm, delta, nb + 1, n);
        roots := roots + 1;
        freq[j] := xm;
        xs := xs + [xm];
      }
      xl, xr := xl', xr';
    }
  }

  lemma NothingRecorded(pc: seq<real>, qc: seq<real>, m: nat, delta: real, k: nat)
    ensures AllRecorded(pc, qc, m, [], delta, k) && Decreasing([])
  {
  }

  // Only the first half of the buffers is read.
  lemma {:induction false} PrefixValue(coef: seq<real>, m: nat, x: real, n: nat)
    requires m < |coef| && n <= m + 1
    ensures EvaSum(coef[..m + 1], m, x, n) == EvaSum(coef, m, x, n)
  {
    hide Times;
    if n > 0 {
      PrefixValue(coef, m, x, n - 1);
    }
  }

  lemma PrefixNoChange(c: seq<real>, m: nat, x: real, delta: real, n: nat)
    requires m < |c| && NoChange(c, m, x, delta, n)
    ensures NoChange(c[..m + 1], m, x, delta, n)
  {
    hide Changes;
    var d := c[..m + 1];
    forall i: nat | i < n
      ensures !Changes(d, m, x, delta, i)
    {
      PrefixChanges(c, m, x, delta, i);
    }
  }

  lemma PrefixChanges(c: seq<real>, m: nat, x: real, delta: real, i: nat)
    requires m < |c|
    ensures Changes(c[..m + 1], m, x, delta, i) <==> Changes(c, m, x, delta, i)
  {
    hide Times, EvaSum, Grid;
    PrefixValue(c, m, Grid(x, delta, i), m + 1);
    PrefixValue(c, m, Grid(x, delta, i + 1), m + 1);
  }

  lemma {:induction false} PrefixHalving(c: seq<real>, m: nat, l: real, r: real, k: nat)
    requires m < |c|
    ensures Halving(c[..m + 1], m, l, r, k) == Halving(c, m, l, r, k)
  {
    hide Times, EvaSum;
    if k > 0 {
      PrefixHalving(c, m, l, r, k - 1);
      var h := Halving(c, m, l, r, k - 1);
      PrefixValue(c, m, (h.l + h.r) / 2.0, m + 1);
      PrefixValue(c, m, h.l, m + 1);
    }
  }

  lemma PrefixIn(c: seq<real>, m: nat, from: real, x: real, delta: real, k: nat, n: nat)
    requires m < |c| && RecordedIn(c, m, from, x, delta, k, n)
    ensures RecordedIn(c[..m + 1], m, from, x, delta, k, n)
    ensures CellHalved(c[..m + 1], m, from, delta, n, k) == CellHalved(c, m, from, delta, n, k)
  {
    hide Changes, NoChange, Halving, Grid;
    PrefixHalving(c, m, Grid(from, delta, n), Grid(from, delta, n + 1), k);
    PrefixNoChange(c, m, from, delta, n);
    PrefixChanges(c, m, from, delta, n);
  }

  lemma PrefixRecorded(pc: seq<real>, qc: seq<real>, m: nat, xs: seq<real>, delta: real, k: nat)
    requires m < |pc| && m < |qc| && AllRecorded(pc, qc, m, xs, delta, k)
    ensures AllRecorded(pc[..m + 1], qc[..m + 1], m, xs, delta, k)
  {
    hide RecordedIn;
    forall j: nat {:trigger From(xs, j)} | j < |xs|
      ensures Recorded(pc[..m + 1], qc[..m + 1], m, j, From(xs, j), xs[j], delta, k)
    {
      var c := Alternate(pc, qc, j);
      assert Recorded(pc, qc, m, j, From(xs, j), xs[j], delta, k);
      var n: nat :| RecordedIn(c, m, From(xs, j), xs[j], delta, k, n);
      PrefixIn(c, m, From(xs, j), xs[j], delta, k, n);
      assert Alternate(pc[..m + 1], qc[..m + 1], j) == c[..m + 1];
    }
  }

  lemma PrefixStopped(pc: seq<real>, qc: seq<real>, m: nat, xs: seq<real>, delta: real, k: nat)
    requires m < |pc| && m < |qc|
    ensures Stopped(pc, qc, m, xs, delta, k) ==> Stopped(pc[..m + 1], qc[..m + 1], m, xs, delta, k)
  {
    hide NoChange, RecordedIn, CellHalved;
    var c, x := Alternate(pc, qc, |xs|), From(xs, |xs|);
    assert Alternate(pc[..m + 1], qc[..m + 1], |xs|) == c[..m + 1];
    if Exhausted(c, m, x, delta) {
      var n: nat :| Grid(x, delta, n) < -1.0 && NoChange(c, m, x, delta, n);
      PrefixNoChange(c, m, x, delta, n);
    } else if Stopped(pc, qc, m, xs, delta, k) {
      var j := |xs| - 1;
      var d := Alternate(pc, qc, j);
      assert Alternate(pc[..m + 1], qc[..m + 1], j) == d[..m + 1];
      var n: nat :| OverranIn(d, m, From(xs, j), xs[j], delta, k, n);
      PrefixIn(d, m, From(xs, j), xs[j], delta, k, n);
      assert OverranIn(d[..m + 1], m, From(xs, j), xs[j], delta, k, n);
    }
  }
}
