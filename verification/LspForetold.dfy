// The condition under which the search finds every line spectrum pair, read off the pairs:
// where each of its searches starts follows from the pairs before.
module LspForetold {
  import opened RealProducts
  import opened LspPolynomials
  import opened LspChebyshev
  import opened Lsp
  import opened LspInverse
  import opened LspSearch
  import opened LspRecovery

  // k bisections of the interval from r to l that keep t, taking the upper half whenever t
  // is below the middle
  function Pinned(t: real, l: real, r: real, k: nat): Half {
    if k == 0 then Half(l, r, r) else
      var h := Pinned(t, l, r, k - 1);
      var x := (h.l + h.r) / 2.0;
      if x > t then Half(x, h.r, x) else Half(h.l, x, x)
  }

  // The cell of t on the grid down from f
  function CellIndex(f: real, delta: real, t: real): nat
    requires delta > 0.0
  {
    if t < f then Quotient(f - t, delta).Floor else 0
  }

  // What the search from f records for the pair t
  function Point(t: real, f: real, delta: real, k: nat): real
    requires delta > 0.0
  {
    var n := CellIndex(f, delta, t);
    Pinned(t, Grid(f, delta, n), Grid(f, delta, n + 1), k).x
  }

  // Where the search for pair j starts
  function Start(ts: seq<real>, delta: real, k: nat, j: nat): real
    requires j <= |ts| && delta > 0.0
  {
    if j == 0 then 1.0 else Point(ts[j - 1], Start(ts, delta, k, j - 1), delta, k)
  }

  predicate OnGridFrom(t: real, f: real, delta: real)
    requires delta > 0.0
  {
    t == Grid(f, delta, CellIndex(f, delta, t))
  }

  // No pair is on the grid of its search.
  predicate OffOwnGrid(ts: seq<real>, delta: real, k: nat)
    requires delta > 0.0
  {
    forall j: nat | j < |ts| :: !OnGridFrom(ts[j], Start(ts, delta, k, j), delta)
  }

  // ------------------------------------------------------------- cells and grid

  lemma CellHolds(f: real, delta: real, t: real)
    requires delta > 0.0 && t < f
    ensures var n := CellIndex(f, delta, t); Grid(f, delta, n + 1) < t <= Grid(f, delta, n)
  {
    hide Grid, Quotient;
    var q := Quotient(f - t, delta);
    var n := CellIndex(f, delta, t);
    GridIs(f, delta, n);
    GridIs(f, delta, n + 1);
    QuotientBack(f - t, delta);
    InOrder(n as real, q, delta);
    StrictlyMore(q, (n + 1) as real, delta);
  }

  lemma AtTheStart(f: real, delta: real, t: real)
    requires delta > 0.0 && t >= f
    ensures CellIndex(f, delta, t) == 0
  {
  }

  // The index of the cell tells whether t is any point of the grid.
  lemma OnGridIff(f: real, delta: real, t: real)
    requires delta > 0.0
    ensures OnGridFrom(t, f, delta) <==> exists g: nat :: Grid(f, delta, g) == t
  {
    hide CellIndex, Grid;
    if g: nat :| Grid(f, delta, g) == t {
      GridFalls(f, delta, 0, g);
      GridSteps(f, delta, 0);
      if t < f {
        var n := CellIndex(f, delta, t);
        CellHolds(f, delta, t);
        if g < n {
          GridFalls(f, delta, g, n);
        } else if g > n {
          GridFalls(f, delta, n + 1, g);
        }
      } else {
        AtTheStart(f, delta, t);
      }
    }
  }

  // -------------------------------------------------------- bisection foretold

  lemma OthersOutside(cs: seq<real>, f: real, i: nat, delta: real, n: nat)
    requires NextPair(cs, f, i, delta) && delta > 0.0 && Grid(f, delta, n + 1) < cs[i] < Grid(f, delta, n)
    ensures forall e | 0 <= e < |cs| && e != i :: cs[e] > Grid(f, delta, n) || cs[e] < Grid(f, delta, n + 1)
  {
    hide Grid;
    GridFalls(f, delta, 0, n);
    GridSteps(f, delta, 0);
    GridSteps(f, delta, n);
  }

  // In an interval that holds one pair, the sign at the middle tells on which side it is.
  lemma MiddleTells(cs: seq<real>, i: nat, l: real, r: real, x: real)
    requires i < |cs| && r < x < l && r <= cs[i] < l
    requires forall e | 0 <= e < |cs| && e != i :: cs[e] > l || cs[e] < r
    ensures Times(RootProduct(cs, x), RootProduct(cs, l)) > 0.0 <==> x > cs[i]
  {
    hide Times, RootProduct, OddBetween;
    ChangeIffOdd(cs, l, x);
    if x > cs[i] {
      NoneBetween(cs, x, l);
    } else if x < cs[i] {
      OneBetween(cs, x, l, i);
    }
  }

  lemma {:induction false} HalvingIsPinned(ps: seq<real>, qs: seq<real>, a: seq<real>, j: nat, i: nat, l: real, r: real,
                                           k: nat)
    requires Synthesised(ps, qs, a) && i < |Alternate(ps, qs, j)| && |a| > 0
    requires r < Alternate(ps, qs, j)[i] < l
    requires forall e | 0 <= e < |Alternate(ps, qs, j)| && e != i :: Alternate(ps, qs, j)[e] > l || Alternate(ps, qs, j)[e] < r
    ensures var t, h := Alternate(ps, qs, j)[i], Pinned(Alternate(ps, qs, j)[i], l, r, k);
            Halving(Searches(a, j), |ps|, l, r, k) == h && r <= h.r <= t < h.l <= l
  {
    hide Times, Value, Searches, RootProduct, Synthesised;
    var cs, c, m := Alternate(ps, qs, j), Searches(a, j), |ps|;
    if k > 0 {
      HalvingIsPinned(ps, qs, a, j, i, l, r, k - 1);
      var h := Pinned(cs[i], l, r, k - 1);
      var x := (h.l + h.r) / 2.0;
      ValueIsProduct(ps, qs, a, j, x);
      ValueIsProduct(ps, qs, a, j, h.l);
      MiddleTells(cs, i, h.l, h.r, x);
    }
  }

  // What the search records for the next pair, from the pair alone.
  lemma RecordsPoint(ps: seq<real>, qs: seq<real>, a: seq<real>, j: nat, from: real, x: real, delta: real, k: nat,
                     n: nat, i: nat)
    requires Synthesised(ps, qs, a) && delta > 0.0 && NextPair(Alternate(ps, qs, j), from, i, delta)
    requires RecordedIn(Searches(a, j), |ps|, from, x, delta, k, n)
    requires forall g: nat :: Grid(from, delta, g) != Alternate(ps, qs, j)[i]
    ensures x == Point(Alternate(ps, qs, j)[i], from, delta, k)
  {
    assert |a| > 0;
    hide Searches, Changes, NoChange, Synthesised, Grid, CellIndex, Halving, Pinned;
    var cs := Alternate(ps, qs, j);
    var g := CellIndex(from, delta, cs[i]);
    CellHolds(from, delta, cs[i]);
    CellIs(ps, qs, a, j, from, x, delta, k, n, i, g);
    OthersOutside(cs, from, i, delta, g);
    HalvingIsPinned(ps, qs, a, j, i, Grid(from, delta, g), Grid(from, delta, g + 1), k);
  }

  // ------------------------------------------------------------ starts foretold

  lemma RecordedIsPoint(ts: seq<real>, a: seq<real>, xs: seq<real>, delta: real, k: nat, j: nat)
    requires Resynthesised(ts, a, xs, delta, k) && Separated(ts, delta, Halved(delta, k))
    requires j < |ts| && j < |xs| && (j > 0 ==> Near(ts, xs, j - 1, Halved(delta, k))) && OffGridAt(ts, xs, delta, j)
    ensures xs[j] == Point(ts[j], From(xs, j), delta, k)
  {
    hide RecordedIn, Searches, Synthesised, Searched, NextPair, Ps, Qs, Separated, Halved, Grid, Point;
    StartsBetween(ts, xs, j, delta, Halved(delta, k));
    NextIs(ts, j, From(xs, j), delta, Halved(delta, k));
    ParityMember(ts, j, j / 2);
    HalvesAre(ts);
    var n := RecordedAt(ts, a, xs, delta, k, j);
    RecordsPoint(Ps(ts), Qs(ts), a, j, From(xs, j), xs[j], delta, k, n, j / 2);
  }

  // Up to the first pair on its grid, every search starts where the pairs say.
  lemma {:induction false} StartIsFrom(ts: seq<real>, a: seq<real>, xs: seq<real>, delta: real, k: nat, j: nat)
    requires Resynthesised(ts, a, xs, delta, k) && Separated(ts, delta, Halved(delta, k)) && delta > 0.0
    requires j <= |xs| && j <= |ts| && forall i: nat | i < j :: OffGridAt(ts, xs, delta, i)
    ensures From(xs, j) == Start(ts, delta, k, j)
  {
    hide Resynthesised, Separated, Near, OffGridAt, Halved, Point;
    if j > 0 {
      StartIsFrom(ts, a, xs, delta, k, j - 1);
      AllNear(ts, a, xs, delta, k, j - 1);
      RecordedIsPoint(ts, a, xs, delta, k, j - 1);
    }
  }

  lemma OffGridForetold(ts: seq<real>, a: seq<real>, xs: seq<real>, delta: real, k: nat, j: nat)
    requires Resynthesised(ts, a, xs, delta, k) && Separated(ts, delta, Halved(delta, k)) && delta > 0.0
    requires j <= |xs| && j < |ts| && forall i: nat | i < j :: OffGridAt(ts, xs, delta, i)
    ensures OffGridAt(ts, xs, delta, j) <==> !OnGridFrom(ts[j], Start(ts, delta, k, j), delta)
  {
    hide Resynthesised, Separated, Halved, Start, OnGridFrom, Grid;
    StartIsFrom(ts, a, xs, delta, k, j);
    var f, t := From(xs, j), ts[j];
    OnGridIff(f, delta, t);
    if OnGridFrom(t, f, delta) {
      var g: nat :| Grid(f, delta, g) == t;
      assert !OffGridAt(ts, xs, delta, j);
    } else {
      forall g: nat
        ensures Grid(f, delta, g) != t
      {
      }
      assert OffGridAt(ts, xs, delta, j);
    }
  }

  lemma {:induction false} OffGridUpTo(ts: seq<real>, a: seq<real>, xs: seq<real>, delta: real, k: nat, j: nat)
    requires Resynthesised(ts, a, xs, delta, k) && Separated(ts, delta, Halved(delta, k)) && delta > 0.0
    requires j <= |xs| + 1 && j <= |ts| && OffOwnGrid(ts, delta, k)
    ensures forall i: nat | i < j :: OffGridAt(ts, xs, delta, i)
  {
    hide Resynthesised, Separated, Halved, Start, OnGridFrom, OffGridAt;
    if j > 0 {
      OffGridUpTo(ts, a, xs, delta, k, j - 1);
      OffGridForetold(ts, a, xs, delta, k, j - 1);
    }
  }

  // Pairs that keep their distances are all found, each to within the final bracket, if and
  // only if none is on the grid of its search; and the pairs say where that grid starts.
  lemma RecoversIffForetold(ts: seq<real>, a: seq<real>, xs: seq<real>, delta: real, k: nat)
    requires Resynthesised(ts, a, xs, delta, k) && Separated(ts, delta, Halved(delta, k)) && delta > 0.0
    ensures Recovers(ts, xs, Halved(delta, k)) <==> OffOwnGrid(ts, delta, k)
  {
    hide Resynthesised, Separated, Near, Halved, Start, OnGridFrom, OffGridAt;
    RecoversIff(ts, a, xs, delta, k);
    if OffOwnGrid(ts, delta, k) {
      OffGridUpTo(ts, a, xs, delta, k, if |ts| <= |xs| then |ts| else |xs| + 1);
    } else if OffGrid(ts, xs, delta) {
      var j: nat :| j < |ts| && OnGridFrom(ts[j], Start(ts, delta, k, j), delta);
      OffGridForetold(ts, a, xs, delta, k, j);
    }
  }

  lemma EachIsNear(ts: seq<real>, xs: seq<real>, h: real)
    requires Recovers(ts, xs, h)
    ensures |xs| == |ts| && forall i: nat | i < |ts| :: -h <= xs[i] - ts[i] <= h
  {
    forall i: nat | i < |ts|
      ensures -h <= xs[i] - ts[i] <= h
    {
      assert Near(ts, xs, i, h);
    }
  }

  // lsp_to_lpc and then lpc_to_lsp
  method Recover(lsp: array<real>, ak: array<real>, freq: array<real>, lpcrdr: nat, nb: nat, delta: real,
                 cos: real -> real, acos: real -> real)
    returns (roots: nat, ghost xs: seq<real>)
    requires 2 <= lpcrdr <= LSP_MAX_ORDER && lpcrdr % 2 == 0 && delta > 0.0
    requires lpcrdr <= lsp.Length && lpcrdr < ak.Length && lpcrdr <= freq.Length && lsp != ak && ak != freq
    modifies ak, freq
    ensures roots == |xs|
    ensures Resynthesised(Cosines(old(lsp[..lpcrdr]), cos), ak[..lpcrdr + 1], xs, delta, nb + 1)
    ensures var ts, h := Cosines(old(lsp[..lpcrdr]), cos), Halved(delta, nb + 1);
            Separated(ts, delta, h) ==>
              && (Recovers(ts, xs, h) <==> OffOwnGrid(ts, delta, nb + 1))
              && (OffFine(ts, h) ==> Recovers(ts, xs, h))
    ensures var ts, h := Cosines(old(lsp[..lpcrdr]), cos), Halved(delta, nb + 1);
            Separated(ts, delta, h) && OffOwnGrid(ts, delta, nb + 1) ==>
              roots == lpcrdr && forall i: nat | i < lpcrdr :: -h <= xs[i] - cos(old(lsp[i])) <= h
    ensures forall i: nat | i < roots <= lpcrdr :: freq[i] == acos(xs[i])
  {
    hide Separated, Recovers, OffOwnGrid, OffFine, Searched, Doubled, HalfPs, HalfQs, Synthesis, Cascade, Halved;
    ghost var ts := Cosines(lsp[..lpcrdr], cos);
    LspToLpc(lsp, ak, lpcrdr, cos);
    ghost var a := ak[..lpcrdr + 1];
    roots, xs := LpcToLsp(ak, lpcrdr, freq, nb, delta, acos);
    assert Synthesised(Ps(ts), Qs(ts), a);
    assert Resynthesised(ts, a, xs, delta, nb + 1);
    if Separated(ts, delta, Halved(delta, nb + 1)) {
      RecoversIffForetold(ts, a, xs, delta, nb + 1);
      if OffOwnGrid(ts, delta, nb + 1) {
        EachIsNear(ts, xs, Halved(delta, nb + 1));
      }
      if OffFine(ts, Halved(delta, nb + 1)) {
        OffFineRecovers(ts, a, xs, delta, nb + 1);
      }
    }
  }
}
