// Analysis after synthesis: when the search finds every line spectrum pair.
module LspRecovery {
  import opened RealProducts
  import opened LspPolynomials
  import opened LspChebyshev
  import opened Lsp
  import opened LspInverse
  import opened LspSearch

  // a are the coefficients that the synthesis makes of the pairs ps and qs.
  ghost predicate Synthesised(ps: seq<real>, qs: seq<real>, a: seq<real>) {
    && |ps| == |qs| && |a| == 2 * |ps| + 1
    && forall i | 0 <= i < |a| :: a[i] == Synthesis(Cascade(ps), Cascade(qs), i)
  }

  // The series in which pair j is searched for
  ghost function Searches(a: seq<real>, j: nat): seq<real>
    requires |a| > 0
  {
    Alternate(Doubled(HalfPs(a, |a| - 1)), Doubled(HalfQs(a, |a| - 1)), j)
  }

  lemma ValueIsProduct(ps: seq<real>, qs: seq<real>, a: seq<real>, j: nat, x: real)
    requires Synthesised(ps, qs, a)
    ensures Value(Searches(a, j), |ps|, x) == RootProduct(Alternate(ps, qs, j), x)
  {
    hide EvaSum, RootProduct, Doubled, HalfPs, HalfQs, Synthesis, Cascade;
    SearchSeesProducts(ps, qs, a, x);
  }

  // ----------------------------------------------------------- changes of sign

  function Flip(odd: bool, inside: bool): bool { odd != inside }

  // Whether an odd number of line spectrum pairs lies between r and l
  predicate OddBetween(xs: seq<real>, r: real, l: real) {
    if xs == [] then false else Flip(OddBetween(xs[..|xs| - 1], r, l), r < xs[|xs| - 1] < l)
  }

  lemma SignOfProduct(a: real, b: real)
    ensures Times(a, b) < 0.0 <==> (a < 0.0 < b) || (b < 0.0 < a)
    ensures Times(a, b) > 0.0 <==> (a > 0.0 && b > 0.0) || (a < 0.0 && b < 0.0)
  {
    hide Times;
    ProductPositive(a, b);
    ProductPositive(-a, -b);
    ProductPositive(-a, b);
    ProductPositive(a, -b);
    TimesOpposite(a, b);
    TimesNothing(a, b);
  }

  lemma TimesOpposite(a: real, b: real)
    ensures Times(-a, b) == -Times(a, b) && Times(a, -b) == -Times(a, b) && Times(-a, -b) == Times(a, b)
  {
  }

  lemma TimesNothing(a: real, b: real)
    ensures a == 0.0 || b == 0.0 ==> Times(a, b) == 0.0
  {
  }

  // The product changes its sign over an interval exactly when it holds an odd number of
  // the roots, and none is one of its ends.
  lemma {:induction false} ChangeIffOdd(xs: seq<real>, l: real, r: real)
    requires r < l
    ensures Times(RootProduct(xs, r), RootProduct(xs, l)) < 0.0 <==> l !in xs && r !in xs && OddBetween(xs, r, l)
    ensures Times(RootProduct(xs, r), RootProduct(xs, l)) > 0.0 <==> l !in xs && r !in xs && !OddBetween(xs, r, l)
  {
    if xs == [] {
      UnitProduct();
    } else {
      hide Times;
      var ys, t := xs[..|xs| - 1], xs[|xs| - 1];
      assert xs == ys + [t];
      ChangeIffOdd(ys, l, r);
      var a, b, u, v := 2.0 * (r - t), 2.0 * (l - t), RootProduct(ys, r), RootProduct(ys, l);
      FourFactors(a, u, b, v);
      SignOfProduct(a, b);
      SignOfProduct(Times(a, b), Times(u, v));
    }
  }

  lemma UnitProduct()
    ensures Times(1.0, 1.0) == 1.0
  {
  }

  lemma OneCell(x: real, delta: real, n: nat)
    requires delta > 0.0
    ensures Grid(x, delta, n + 1) < Grid(x, delta, n)
  {
  }

  // A cell of the grid that the search would enter, on synthesised coefficients: between
  // its ends lies an odd number of line spectrum pairs of the parity, and none on them.
  ghost predicate OddCell(ts: seq<real>, x: real, delta: real, i: nat) {
    Grid(x, delta, i) !in ts && Grid(x, delta, i + 1) !in ts && OddBetween(ts, Grid(x, delta, i + 1), Grid(x, delta, i))
  }

  lemma ChangesIsOdd(ps: seq<real>, qs: seq<real>, a: seq<real>, j: nat, x: real, delta: real, i: nat)
    requires Synthesised(ps, qs, a) && delta > 0.0
    ensures Changes(Searches(a, j), |ps|, x, delta, i) <==> OddCell(Alternate(ps, qs, j), x, delta, i)
  {
    hide Times, Value, RootProduct, OddBetween, Grid, Synthesised, Searches;
    var l, r := Grid(x, delta, i), Grid(x, delta, i + 1);
    ValueIsProduct(ps, qs, a, j, l);
    ValueIsProduct(ps, qs, a, j, r);
    OneCell(x, delta, i);
    ChangeIffOdd(Alternate(ps, qs, j), l, r);
  }

  // -------------------------------------------------- one cell, and the next pair

  lemma {:induction false} NoneBetween(cs: seq<real>, r: real, l: real)
    requires forall i | 0 <= i < |cs| :: !(r < cs[i] < l)
    ensures !OddBetween(cs, r, l)
  {
    if cs != [] {
      NoneBetween(cs[..|cs| - 1], r, l);
    }
  }

  lemma {:induction false} OneBetween(cs: seq<real>, r: real, l: real, k: nat)
    requires k < |cs| && forall i | 0 <= i < |cs| :: r < cs[i] < l <==> i == k
    ensures OddBetween(cs, r, l)
  {
    var ys := cs[..|cs| - 1];
    if k == |ys| {
      NoneBetween(ys, r, l);
    } else {
      OneBetween(ys, r, l, k);
    }
  }

  // Searching down from f, cs[k] is the next pair, and no other one is within delta.
  ghost predicate NextPair(cs: seq<real>, f: real, k: nat, delta: real) {
    k < |cs| && cs[k] < f && forall i | 0 <= i < |cs| && i != k :: cs[i] > f || cs[i] < cs[k] - delta
  }

  lemma {:induction false} GridFalls(f: real, delta: real, i: nat, j: nat)
    requires delta > 0.0 && i <= j
    ensures Grid(f, delta, j) <= Grid(f, delta, i) && (i < j ==> Grid(f, delta, j) <= Grid(f, delta, i) - delta)
  {
    if i < j {
      GridFalls(f, delta, i, j - 1);
    }
  }

  lemma GridSteps(f: real, delta: real, n: nat)
    ensures Grid(f, delta, 0) == f && Grid(f, delta, n + 1) == Grid(f, delta, n) - delta
  {
  }

  // Before the next pair, and at a pair on the grid, the cells are not entered.
  lemma EarlierCell(cs: seq<real>, f: real, k: nat, delta: real, i: nat)
    requires NextPair(cs, f, k, delta) && delta > 0.0
    requires Grid(f, delta, i + 1) >= cs[k] || Grid(f, delta, i) == cs[k]
    ensures !OddCell(cs, f, delta, i)
  {
    hide OddBetween;
    GridFalls(f, delta, 0, i);
    if Grid(f, delta, i) != cs[k] {
      NoneBetween(cs, Grid(f, delta, i + 1), Grid(f, delta, i));
    }
  }

  // The cell around the next pair is.
  lemma ItsCell(cs: seq<real>, f: real, k: nat, delta: real, i: nat)
    requires NextPair(cs, f, k, delta) && delta > 0.0 && Grid(f, delta, i + 1) < cs[k] < Grid(f, delta, i)
    ensures OddCell(cs, f, delta, i)
  {
    hide OddBetween;
    GridFalls(f, delta, 0, i);
    OneBetween(cs, Grid(f, delta, i + 1), Grid(f, delta, i), k);
  }

  lemma GridIs(f: real, delta: real, n: nat)
    ensures Grid(f, delta, n) == f - n as real * delta
  {
    if n > 0 {
      GridIs(f, delta, n - 1);
      OneStepLess(n, delta);
    }
  }

  lemma {:induction false} CellFrom(f: real, delta: real, t: real, n: nat) returns (i: nat)
    requires Grid(f, delta, n) <= t < f
    ensures Grid(f, delta, i + 1) <= t < Grid(f, delta, i)
  {
    if Grid(f, delta, n - 1) <= t {
      i := CellFrom(f, delta, t, n - 1);
    } else {
      i := n - 1;
    }
  }

  lemma CellOf(f: real, delta: real, t: real) returns (i: nat)
    requires t < f && delta > 0.0
    ensures Grid(f, delta, i + 1) <= t < Grid(f, delta, i)
  {
    hide Grid;
    var n := Archimedes(f - t, delta);
    GridIs(f, delta, n);
    i := CellFrom(f, delta, t, n);
  }

  // --------------------------------------------------------- one pair of a run

  // The cell around the next pair is the one that the search enters.
  lemma CellIs(ps: seq<real>, qs: seq<real>, a: seq<real>, j: nat, from: real, x: real, delta: real, k: nat,
               n: nat, i: nat, g: nat)
    requires Synthesised(ps, qs, a) && delta > 0.0 && NextPair(Alternate(ps, qs, j), from, i, delta)
    requires RecordedIn(Searches(a, j), |ps|, from, x, delta, k, n)
    requires Grid(from, delta, g + 1) < Alternate(ps, qs, j)[i] < Grid(from, delta, g)
    ensures n == g
  {
    assert |a| > 0;
    hide Times, Value, Searches, RootProduct, OddCell, Changes, CellHalved, Synthesised, Grid;
    var cs := Alternate(ps, qs, j);
    ChangesIsOdd(ps, qs, a, j, from, delta, n);
    ChangesIsOdd(ps, qs, a, j, from, delta, g);
    ItsCell(cs, from, i, delta, g);
    if n < g {
      GridFalls(from, delta, n + 1, g);
      EarlierCell(cs, from, i, delta, n);
    }
  }

  // What is recorded for the next pair, if that is not on the grid: an end of a bracket
  // that holds it.
  lemma PairInBracket(ps: seq<real>, qs: seq<real>, a: seq<real>, j: nat, from: real, x: real, delta: real, k: nat,
                      n: nat, i: nat)
    requires Synthesised(ps, qs, a) && delta > 0.0 && k > 0 && NextPair(Alternate(ps, qs, j), from, i, delta)
    requires RecordedIn(Searches(a, j), |ps|, from, x, delta, k, n)
    requires forall g: nat :: Grid(from, delta, g) != Alternate(ps, qs, j)[i]
    ensures var h, t := CellHalved(Searches(a, j), |ps|, from, delta, n, k), Alternate(ps, qs, j)[i];
            h.r <= t <= h.l && h.l - h.r == Halved(delta, k) && (x == h.l || x == h.r)
  {
    assert |a| > 0;
    hide Times, Value, Searches, RootProduct, OddCell, Changes, CellHalved, Synthesised, Grid;
    var cs, c, m := Alternate(ps, qs, j), Searches(a, j), |ps|;
    var t := cs[i];
    var g := CellOf(from, delta, t);
    CellIs(ps, qs, a, j, from, x, delta, k, n, i, g);
    RecordedIsBracketed(c, m, from, x, delta, k, n);
    var h := CellHalved(c, m, from, delta, n, k);
    ValueIsProduct(ps, qs, a, j, h.l);
    ValueIsProduct(ps, qs, a, j, h.r);
    BracketHoldsRoot(cs, h.l, h.r);
    var e :| e in cs && h.r <= e <= h.l;
    GridFalls(from, delta, 0, n);
    GridSteps(from, delta, n);
    OnlyItself(cs, from, i, delta, e, Grid(from, delta, n), Grid(from, delta, n + 1));
  }

  lemma OnlyItself(cs: seq<real>, f: real, k: nat, delta: real, e: real, l: real, r: real)
    requires NextPair(cs, f, k, delta) && e in cs && r <= e <= l <= f && r == l - delta && r <= cs[k] <= l
    ensures e == cs[k]
  {
  }

  // A next pair that is on the grid is passed over by delta or more.
  lemma PairOnGrid(ps: seq<real>, qs: seq<real>, a: seq<real>, j: nat, from: real, x: real, delta: real, k: nat,
                   n: nat, i: nat, g: nat)
    requires Synthesised(ps, qs, a) && delta > 0.0 && k > 0 && NextPair(Alternate(ps, qs, j), from, i, delta)
    requires RecordedIn(Searches(a, j), |ps|, from, x, delta, k, n)
    requires Grid(from, delta, g) == Alternate(ps, qs, j)[i]
    ensures x <= Alternate(ps, qs, j)[i] - delta
  {
    assert |a| > 0;
    hide Times, Value, Searches, RootProduct, OddCell, Changes, CellHalved, Synthesised, Grid;
    var cs := Alternate(ps, qs, j);
    ChangesIsOdd(ps, qs, a, j, from, delta, n);
    if n + 1 <= g {
      GridFalls(from, delta, n + 1, g);
      EarlierCell(cs, from, i, delta, n);
    } else if n == g {
      EarlierCell(cs, from, i, delta, n);
    } else {
      GridFalls(from, delta, g, n);
      RecordedIsBracketed(Searches(a, j), |ps|, from, x, delta, k, n);
    }
  }

  // ------------------------------------------------------------- the whole run

  // What one pair has to keep: inside the interval, more than h from its neighbour and
  // more than delta from the next of its parity.
  ghost predicate PairFits(ts: seq<real>, j: nat, delta: real, h: real)
    requires j < |ts|
  {
    && -1.0 < ts[j] < 1.0
    && (j + 1 < |ts| ==> ts[j] - ts[j + 1] > h)
    && (j + 2 < |ts| ==> ts[j] - ts[j + 2] > delta)
  }

  ghost predicate Separated(ts: seq<real>, delta: real, h: real) {
    forall j: nat | j < |ts| :: PairFits(ts, j, delta, h)
  }

  lemma {:induction false} SameParity(ts: seq<real>, i: nat, j: nat, delta: real, h: real)
    requires Separated(ts, delta, h) && delta > 0.0 && i < j < |ts| && i % 2 == j % 2
    ensures ts[i] - ts[j] > delta
  {
    assert PairFits(ts, j - 2, delta, h);
    if i < j - 2 {
      SameParity(ts, i, j - 2, delta, h);
    }
  }

  function Ps(ts: seq<real>): seq<real> { Evens(ts, |ts| / 2) }

  function Qs(ts: seq<real>): seq<real> { Odds(ts, |ts| / 2) }

  lemma ParityMember(ts: seq<real>, j: nat, i: nat)
    requires |ts| % 2 == 0 && 2 * i + j % 2 < |ts|
    ensures var cs := Alternate(Ps(ts), Qs(ts), j);
            i < |cs| == |ts| / 2 && cs[i] == ts[2 * i + j % 2]
  {
  }

  // When the search starts between pair j - 2 and pair j, pair j is the next.
  lemma NextIs(ts: seq<real>, j: nat, f: real, delta: real, h: real)
    requires |ts| % 2 == 0 && j < |ts| && Separated(ts, delta, h) && delta > 0.0
    requires ts[j] < f && (j >= 2 ==> f < ts[j - 2])
    ensures NextPair(Alternate(Ps(ts), Qs(ts), j), f, j / 2, delta)
    ensures Alternate(Ps(ts), Qs(ts), j)[j / 2] == ts[j]
  {
    hide Separated, Ps, Qs, Alternate;
    ParityMember(ts, j, j / 2);
    var cs := Alternate(Ps(ts), Qs(ts), j);
    forall i | 0 <= i < |cs| && i != j / 2
      ensures cs[i] > f || cs[i] < cs[j / 2] - delta
    {
      ParityMember(ts, j, i);
      var i' := 2 * i + j % 2;
      if i' < j - 2 {
        SameParity(ts, i', j - 2, delta, h);
      } else if i' > j {
        SameParity(ts, j, i', delta, h);
      }
    }
  }

  ghost predicate Near(ts: seq<real>, xs: seq<real>, j: nat, h: real)
    requires j < |ts|
  {
    j < |xs| && -h <= xs[j] - ts[j] <= h
  }

  // All pairs are found, each one to within h.
  ghost predicate Recovers(ts: seq<real>, xs: seq<real>, h: real) {
    |xs| == |ts| && forall j: nat | j < |ts| :: Near(ts, xs, j, h)
  }

  ghost predicate OffGridAt(ts: seq<real>, xs: seq<real>, delta: real, j: nat)
    requires j < |ts| && j <= |xs|
  {
    forall g: nat :: Grid(From(xs, j), delta, g) != ts[j]
  }

  // No pair is on the grid of its search.
  ghost predicate OffGrid(ts: seq<real>, xs: seq<real>, delta: real) {
    forall j: nat | j < |ts| && j <= |xs| :: OffGridAt(ts, xs, delta, j)
  }

  // a are synthesised from ts, in order, and xs is what the search records in a.
  ghost predicate Resynthesised(ts: seq<real>, a: seq<real>, xs: seq<real>, delta: real, k: nat) {
    && |ts| % 2 == 0 && Synthesised(Ps(ts), Qs(ts), a) && delta > 0.0 && k > 0
    && Searched(Searches(a, 0), Searches(a, 1), |ts| / 2, |ts|, xs, delta, k)
  }

  lemma StartsBetween(ts: seq<real>, xs: seq<real>, j: nat, delta: real, h: real)
    requires Separated(ts, delta, h) && j < |ts| && j <= |xs| && (j > 0 ==> Near(ts, xs, j - 1, h))
    ensures ts[j] < From(xs, j) && (j >= 2 ==> From(xs, j) < ts[j - 2])
  {
    assert PairFits(ts, j, delta, h);
    if j > 0 {
      assert PairFits(ts, j - 1, delta, h);
    }
    if j > 1 {
      assert PairFits(ts, j - 2, delta, h);
    }
  }

  lemma RecordedAt(ts: seq<real>, a: seq<real>, xs: seq<real>, delta: real, k: nat, j: nat) returns (n: nat)
    requires Resynthesised(ts, a, xs, delta, k) && j < |xs|
    ensures RecordedIn(Searches(a, j), |ts| / 2, From(xs, j), xs[j], delta, k, n)
  {
    assert |a| > 0;
    hide RecordedIn, Doubled, HalfPs, HalfQs, Synthesised;
    var p, q := Searches(a, 0), Searches(a, 1);
    assert Recorded(p, q, |ts| / 2, j, From(xs, j), xs[j], delta, k);
    n :| RecordedIn(Alternate(p, q, j), |ts| / 2, From(xs, j), xs[j], delta, k, n);
    assert Alternate(p, q, j) == Searches(a, j);
  }

  lemma {:induction false} HalvedLess(delta: real, k: nat)
    requires delta > 0.0
    ensures 0.0 < Halved(delta, k) <= delta && (k > 0 ==> Halved(delta, k) < delta)
  {
    if k > 0 {
      HalvedLess(delta, k - 1);
    }
  }

  // Pair j is recorded, if the ones before are and it is not on its grid.
  lemma RecordedNear(ts: seq<real>, a: seq<real>, xs: seq<real>, delta: real, k: nat, j: nat)
    requires Resynthesised(ts, a, xs, delta, k) && Separated(ts, delta, Halved(delta, k))
    requires j < |ts| && j < |xs| && (j > 0 ==> Near(ts, xs, j - 1, Halved(delta, k))) && OffGridAt(ts, xs, delta, j)
    ensures Near(ts, xs, j, Halved(delta, k))
  {
    hide RecordedIn, Searches, Synthesised, Searched, CellHalved, NextPair, Ps, Qs, Separated, Halved, Grid;
    var h := Halved(delta, k);
    StartsBetween(ts, xs, j, delta, h);
    NextIs(ts, j, From(xs, j), delta, h);
    ParityMember(ts, j, j / 2);
    HalvesAre(ts);
    var n := RecordedAt(ts, a, xs, delta, k, j);
    PairInBracket(Ps(ts), Qs(ts), a, j, From(xs, j), xs[j], delta, k, n, j / 2);
  }

  lemma HalvesAre(ts: seq<real>)
    ensures |Ps(ts)| == |ts| / 2 == |Qs(ts)|
  {
  }

  // The search does not stop short of a pair that is not on its grid.
  lemma DoesNotStop(ts: seq<real>, a: seq<real>, xs: seq<real>, delta: real, k: nat)
    requires Resynthesised(ts, a, xs, delta, k) && Separated(ts, delta, Halved(delta, k)) && OffGrid(ts, xs, delta)
    requires forall i: nat | i < |xs| :: Near(ts, xs, i, Halved(delta, k))
    ensures |xs| == |ts|
  {
    assert |a| > 0;
    hide Exhausted, Overran, Synthesised, AllRecorded, Decreasing, Near, Separated, Halved, OffGridAt, Doubled, HalfPs, HalfQs;
    var j, h := |xs|, Halved(delta, k);
    if j < |ts| {
      assert j > 0 ==> Near(ts, xs, j - 1, h);
      assert OffGridAt(ts, xs, delta, j);
      assert Alternate(Searches(a, 0), Searches(a, 1), j) == Searches(a, j);
      StartsBetween(ts, xs, j, delta, h);
      FitsAt(ts, j, delta, h);
      NotExhausted(ts, a, xs, delta, k);
      if j > 0 {
        NotOverrun(ts, a, xs, delta, k);
      }
    }
  }

  lemma NotExhausted(ts: seq<real>, a: seq<real>, xs: seq<real>, delta: real, k: nat)
    requires Resynthesised(ts, a, xs, delta, k) && Separated(ts, delta, Halved(delta, k)) && |a| > 0
    requires |xs| < |ts| && OffGridAt(ts, xs, delta, |xs|) && ts[|xs|] > -1.0
    requires ts[|xs|] < From(xs, |xs|) && (|xs| >= 2 ==> From(xs, |xs|) < ts[|xs| - 2])
    ensures !Exhausted(Searches(a, |xs|), |ts| / 2, From(xs, |xs|), delta)
  {
    hide Searches, Synthesised, Searched, NextPair, Ps, Qs, Separated, Halved, Grid, OddCell, Changes;
    var j, f := |xs|, From(xs, |xs|);
    NextIs(ts, j, f, delta, Halved(delta, k));
    HalvesAre(ts);
    var g := CellOf(f, delta, ts[j]);
    ItsCell(Alternate(Ps(ts), Qs(ts), j), f, j / 2, delta, g);
    ChangesIsOdd(Ps(ts), Qs(ts), a, j, f, delta, g);
    forall n: nat | Grid(f, delta, n) < -1.0
      ensures !NoChange(Searches(a, j), |ts| / 2, f, delta, n)
    {
      if n <= g {
        GridFalls(f, delta, n, g);
      }
    }
  }

  lemma NotOverrun(ts: seq<real>, a: seq<real>, xs: seq<real>, delta: real, k: nat)
    requires Resynthesised(ts, a, xs, delta, k) && Separated(ts, delta, Halved(delta, k)) && |a| > 0
    requires 0 < |xs| < |ts| && ts[|xs|] > -1.0
    requires forall i: nat | i < |xs| :: Near(ts, xs, i, Halved(delta, k)) && OffGridAt(ts, xs, delta, i)
    ensures !Overran(Searches(a, 0), Searches(a, 1), |ts| / 2, xs, |xs| - 1, delta, k)
  {
    hide Doubled, HalfPs, HalfQs, Synthesised, Searched, NextPair, Ps, Qs, Separated, Halved, Grid, CellHalved, RecordedIn;
    var j, m, h := |xs| - 1, |ts| / 2, Halved(delta, k);
    var p, q := Searches(a, 0), Searches(a, 1);
    assert Alternate(p, q, j) == Searches(a, j);
    assert j > 0 ==> Near(ts, xs, j - 1, h);
    StartsBetween(ts, xs, j, delta, h);
    NextIs(ts, j, From(xs, j), delta, h);
    HalvesAre(ts);
    ParityMember(ts, j, j / 2);
    FitsAt(ts, j, delta, h);
    assert OffGridAt(ts, xs, delta, j);
    forall n: nat
      ensures !OverranIn(Searches(a, j), m, From(xs, j), xs[j], delta, k, n)
    {
      if RecordedIn(Searches(a, j), m, From(xs, j), xs[j], delta, k, n) {
        PairInBracket(Ps(ts), Qs(ts), a, j, From(xs, j), xs[j], delta, k, n, j / 2);
      }
    }
  }

  lemma FitsAt(ts: seq<real>, j: nat, delta: real, h: real)
    requires Separated(ts, delta, h) && j < |ts|
    ensures PairFits(ts, j, delta, h)
  {
  }

  lemma {:induction false} AllNear(ts: seq<real>, a: seq<real>, xs: seq<real>, delta: real, k: nat, j: nat)
    requires Resynthesised(ts, a, xs, delta, k) && Separated(ts, delta, Halved(delta, k))
    requires j <= |xs| && j <= |ts| && forall i: nat | i < j :: OffGridAt(ts, xs, delta, i)
    ensures forall i: nat | i < j :: Near(ts, xs, i, Halved(delta, k))
  {
    hide Resynthesised, Separated, Near, OffGridAt, Halved;
    if j > 0 {
      AllNear(ts, a, xs, delta, k, j - 1);
      assert OffGridAt(ts, xs, delta, j - 1);
      RecordedNear(ts, a, xs, delta, k, j - 1);
    }
  }

  // The whole run. Pairs that lie inside (-1, 1), more than delta apart within a parity and
  // more than the final bracket from their neighbours, are all found, each to within the
  // final bracket, if and only if none of them falls on the grid of its search.
  lemma RecoversIff(ts: seq<real>, a: seq<real>, xs: seq<real>, delta: real, k: nat)
    requires Resynthesised(ts, a, xs, delta, k) && Separated(ts, delta, Halved(delta, k))
    ensures Recovers(ts, xs, Halved(delta, k)) <==> OffGrid(ts, xs, delta)
  {
    hide Separated, Near, Halved, Synthesised, AllRecorded, Stopped;
    if OffGrid(ts, xs, delta) {
      AllNear(ts, a, xs, delta, k, |xs|);
      DoesNotStop(ts, a, xs, delta, k);
    } else if Recovers(ts, xs, Halved(delta, k)) {
      var j: nat :| j < |ts| && j <= |xs| && !OffGridAt(ts, xs, delta, j);
      OnGridIsLost(ts, a, xs, delta, k, j);
    }
  }

  lemma OnGridIsLost(ts: seq<real>, a: seq<real>, xs: seq<real>, delta: real, k: nat, j: nat)
    requires Resynthesised(ts, a, xs, delta, k) && Separated(ts, delta, Halved(delta, k))
    requires j < |ts| && j < |xs| && (j > 0 ==> Near(ts, xs, j - 1, Halved(delta, k))) && !OffGridAt(ts, xs, delta, j)
    ensures !Near(ts, xs, j, Halved(delta, k))
  {
    hide RecordedIn, Searches, Synthesised, Searched, NextPair, Ps, Qs, Separated, Halved, Grid;
    var h := Halved(delta, k);
    StartsBetween(ts, xs, j, delta, h);
    NextIs(ts, j, From(xs, j), delta, h);
    HalvesAre(ts);
    var n := RecordedAt(ts, a, xs, delta, k, j);
    var g: nat :| Grid(From(xs, j), delta, g) == ts[j];
    PairOnGrid(Ps(ts), Qs(ts), a, j, From(xs, j), xs[j], delta, k, n, j / 2, g);
    HalvedLess(delta, k);
  }

  // --------------------------------------------- a condition on the pairs alone

  // Every point at which the search evaluates is 1 - b * h for some b.
  ghost predicate Fine(x: real, h: real) { exists b: nat :: Grid(1.0, h, b) == x }

  // No pair is such a point.
  ghost predicate OffFine(ts: seq<real>, h: real) { forall j: nat | j < |ts| :: !Fine(ts[j], h) }

  function Steps(k: nat): nat { if k == 0 then 1 else 2 * Steps(k - 1) }

  lemma {:induction false} GridHalf(x: real, d: real, n: nat)
    ensures Grid(x, d / 2.0, 2 * n) == Grid(x, d, n)
  {
    if n > 0 {
      GridHalf(x, d, n - 1);
      assert Grid(x, d / 2.0, 2 * n - 1) == Grid(x, d / 2.0, 2 * n - 2) - d / 2.0;
    }
  }

  lemma {:induction false} GridAdds(x: real, d: real, a: nat, b: nat)
    ensures Grid(x, d, a + b) == Grid(Grid(x, d, a), d, b)
  {
    if b > 0 {
      GridAdds(x, d, a, b - 1);
    }
  }

  // delta halved i times is a whole number of steps of delta halved k times.
  lemma {:induction false} WholeSteps(x: real, delta: real, i: nat, k: nat)
    requires i <= k
    ensures Grid(x, Halved(delta, k), Steps(k - i)) == x - Halved(delta, i)
  {
    if i == k {
      assert Grid(x, Halved(delta, k), 0) == x;
    } else {
      WholeSteps(x, delta, i, k - 1);
      GridHalf(x, Halved(delta, k - 1), Steps(k - 1 - i));
    }
  }

  lemma FineDown(x: real, delta: real, i: nat, k: nat)
    requires i <= k && Fine(x, Halved(delta, k))
    ensures Fine(x - Halved(delta, i), Halved(delta, k))
  {
    hide Grid, Halved;
    var h := Halved(delta, k);
    var b: nat :| Grid(1.0, h, b) == x;
    WholeSteps(x, delta, i, k);
    GridAdds(1.0, h, b, Steps(k - i));
  }

  lemma {:induction false} FineGrid(x: real, delta: real, k: nat, g: nat)
    requires Fine(x, Halved(delta, k))
    ensures Fine(Grid(x, delta, g), Halved(delta, k))
  {
    if g > 0 {
      FineGrid(x, delta, k, g - 1);
      hide Fine;
      FineDown(Grid(x, delta, g - 1), delta, 0, k);
    }
  }

  lemma {:induction false} FineHalving(c: seq<real>, m: nat, l: real, r: real, delta: real, i: nat, k: nat)
    requires i <= k && l - r == delta && Fine(l, Halved(delta, k)) && Fine(r, Halved(delta, k))
    ensures var h := Halving(c, m, l, r, i);
            Fine(h.l, Halved(delta, k)) && Fine(h.x, Halved(delta, k)) && h.l - h.r == Halved(delta, i)
  {
    hide Times, Value, Fine;
    if i > 0 {
      FineHalving(c, m, l, r, delta, i - 1, k);
      FineDown(Halving(c, m, l, r, i - 1).l, delta, i, k);
    }
  }

  lemma FineRecorded(c: seq<real>, m: nat, from: real, x: real, delta: real, k: nat, n: nat)
    requires RecordedIn(c, m, from, x, delta, k, n) && Fine(from, Halved(delta, k))
    ensures Fine(x, Halved(delta, k))
  {
    hide Fine, Halving, Changes, NoChange, Grid;
    FineGrid(from, delta, k, n);
    FineGrid(from, delta, k, n + 1);
    GridSteps(from, delta, n);
    FineHalving(c, m, Grid(from, delta, n), Grid(from, delta, n + 1), delta, k, k);
  }

  lemma FineOne(h: real)
    ensures Fine(1.0, h)
  {
    assert Grid(1.0, h, 0) == 1.0;
  }

  lemma {:induction false} FineFrom(ts: seq<real>, a: seq<real>, xs: seq<real>, delta: real, k: nat, j: nat)
    requires Resynthesised(ts, a, xs, delta, k) && j <= |xs|
    ensures Fine(From(xs, j), Halved(delta, k))
  {
    hide Fine, RecordedIn, Resynthesised, Halved;
    if j == 0 {
      FineOne(Halved(delta, k));
    } else {
      FineFrom(ts, a, xs, delta, k, j - 1);
      HasCoefficients(ts, a, xs, delta, k);
      var n := RecordedAt(ts, a, xs, delta, k, j - 1);
      FineRecorded(Searches(a, j - 1), |ts| / 2, From(xs, j - 1), xs[j - 1], delta, k, n);
    }
  }

  lemma HasCoefficients(ts: seq<real>, a: seq<real>, xs: seq<real>, delta: real, k: nat)
    requires Resynthesised(ts, a, xs, delta, k)
    ensures |a| > 0
  {
  }

  // Pairs that keep their distances, and of which none is a multiple of the final bracket
  // below 1, are all found.
  lemma OffFineRecovers(ts: seq<real>, a: seq<real>, xs: seq<real>, delta: real, k: nat)
    requires Resynthesised(ts, a, xs, delta, k) && Separated(ts, delta, Halved(delta, k)) && OffFine(ts, Halved(delta, k))
    ensures Recovers(ts, xs, Halved(delta, k))
  {
    hide Resynthesised, Separated, Recovers, Fine, Halved;
    forall j: nat | j < |ts| && j <= |xs|
      ensures OffGridAt(ts, xs, delta, j)
    {
      FineFrom(ts, a, xs, delta, k, j);
      forall g: nat
        ensures Grid(From(xs, j), delta, g) != ts[j]
      {
        FineGrid(From(xs, j), delta, k, g);
      }
    }
    RecoversIff(ts, a, xs, delta, k);
  }

  // ------------------------------------------------------------ what goes wrong

  // Nothing is recorded when no cell is odd for the first pair.
  lemma NothingFound(ts: seq<real>, a: seq<real>, xs: seq<real>, delta: real, k: nat)
    requires Resynthesised(ts, a, xs, delta, k) && forall i: nat :: !OddCell(Ps(ts), 1.0, delta, i)
    ensures xs == []
  {
    if |xs| > 0 {
      assert |a| > 0;
      var n := RecordedAt(ts, a, xs, delta, k, 0);
      HalvesAre(ts);
      hide Changes, OddCell, Searches, Synthesised, Searched;
      ChangesIsOdd(Ps(ts), Qs(ts), a, 0, 1.0, delta, n);
    }
  }

  lemma {:induction false} BelowHalf(i: nat)
    requires i >= 1
    ensures Grid(1.0, 0.5, i) <= 0.5 && (i >= 2 ==> Grid(1.0, 0.5, i) <= 0.0)
  {
    if i > 1 {
      BelowHalf(i - 1);
    }
  }

  // A pair that falls on a point of the grid is lost, and the search with it: the test for
  // a change of sign is strict.
  lemma GridHidesPair(a: seq<real>, xs: seq<real>, k: nat)
    requires Resynthesised([0.5, 0.2], a, xs, 0.5, k)
    ensures xs == []
  {
    hide Resynthesised;
    var ts := [0.5, 0.2];
    assert Ps(ts) == [0.5];
    forall i: nat
      ensures !OddCell(Ps(ts), 1.0, 0.5, i)
    {
      if i < 2 {
        assert Grid(1.0, 0.5, 1) == 0.5 && 0.5 in [0.5];
      } else {
        BelowHalf(i);
        NoneBetween([0.5], Grid(1.0, 0.5, i + 1), Grid(1.0, 0.5, i));
      }
    }
    NothingFound(ts, a, xs, 0.5, k);
  }

  // Two pairs of one parity in one cell are lost, and the search with them.
  lemma CellHidesPairs(a: seq<real>, xs: seq<real>, k: nat)
    requires Resynthesised([0.9, 0.85, 0.8, 0.7], a, xs, 0.5, k)
    ensures xs == []
  {
    hide Resynthesised;
    var ts := [0.9, 0.85, 0.8, 0.7];
    assert Ps(ts) == [0.9, 0.8];
    forall i: nat
      ensures !OddCell(Ps(ts), 1.0, 0.5, i)
    {
      if i == 0 {
        assert [0.9, 0.8][..1] == [0.9] && [0.9][..0] == [];
        assert Grid(1.0, 0.5, 1) == 0.5;
        assert OddBetween([0.9], 0.5, 1.0);
      } else {
        BelowHalf(i);
        NoneBetween([0.9, 0.8], Grid(1.0, 0.5, i + 1), Grid(1.0, 0.5, i));
      }
    }
    NothingFound(ts, a, xs, 0.5, k);
  }

  // The one bisection of the cell from 1 to 0.5
  lemma FirstIsFound(a: seq<real>, xs: seq<real>)
    requires Resynthesised([0.8, 0.78], a, xs, 0.5, 1)
    ensures |xs| > 0 && xs[0] == 0.75
  {
    assert |a| > 0;
    var ts := [0.8, 0.78];
    var c := Searches(a, 0);
    assert Ps(ts) == [0.8] && Qs(ts) == [0.78];
    assert Grid(1.0, 0.5, 0) == 1.0 && Grid(1.0, 0.5, 1) == 0.5;
    ChangesIsOdd(Ps(ts), Qs(ts), a, 0, 1.0, 0.5, 0);
    OneBetween([0.8], 0.5, 1.0, 0);
    assert Changes(c, 1, 1.0, 0.5, 0);
    hide Changes, Synthesised, Value, Grid, Doubled, HalfPs, HalfQs;
    OddAtOnce(c, 1, 1.0, 0.5);
    if |xs| > 0 {
      var n := RecordedAt(ts, a, xs, 0.5, 1, 0);
      assert n == 0;
      assert CellHalved(c, 1, 1.0, 0.5, 0, 1) == HalfOf(c, 1, 1.0, 0.5) by { OnceHalved(c, 1, 1.0, 0.5); }
    }
  }

  lemma OddAtOnce(c: seq<real>, m: nat, x: real, delta: real)
    requires Changes(c, m, x, delta, 0) && Grid(x, delta, 0) >= -1.0
    ensures !Exhausted(c, m, x, delta)
  {
    hide Changes;
  }

  lemma OnceHalved(c: seq<real>, m: nat, l: real, r: real)
    ensures Halving(c, m, l, r, 1) == HalfOf(c, m, l, r)
  {
    hide Value, Times;
    assert Halving(c, m, l, r, 0) == Half(l, r, r);
  }

  // A neighbour less than the final bracket away may lie above the point that is recorded
  // for the pair before it; the search, which goes on from there, does not see it.
  lemma NeighbourIsPassed(a: seq<real>, xs: seq<real>)
    requires Resynthesised([0.8, 0.78], a, xs, 0.5, 1)
    ensures xs == [0.75]
  {
    hide Searches, Synthesised, Searched, Changes, OddCell, Value;
    var ts := [0.8, 0.78];
    assert Ps(ts) == [0.8] && Qs(ts) == [0.78];
    FirstIsFound(a, xs);
    assert From(xs, 1) == 0.75;
    if |xs| > 1 {
      var n := RecordedAt(ts, a, xs, 0.5, 1, 1);
      ChangesIsOdd(Ps(ts), Qs(ts), a, 1, 0.75, 0.5, n);
      NoneFromThere(n);
    }
  }

  lemma NoneFromThere(n: nat)
    ensures !OddCell([0.78], 0.75, 0.5, n)
  {
    GridFalls(0.75, 0.5, 0, n);
    NoneBetween([0.78], Grid(0.75, 0.5, n + 1), Grid(0.75, 0.5, n));
  }
}
