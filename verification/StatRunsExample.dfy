// Data on which the last run decides: gaps and runs of one length after the other, and at the
// end the 210th run of six ones, which the code does not count.
module StatRunsExample {
  import opened Octets
  import opened BitField
  import opened NatArith
  import opened StatSpec
  import opened StatRuns

  // ------------------------------------------------------------- data from its bits

  function Digit(b: bool): nat { if b then 1 else 0 }

  // n bits from bit k on as a number, the first one lowest
  function FromBits(f: nat -> bool, k: nat, n: nat): (x: nat)
    ensures x < Power2(n)
    decreases n
  {
    if n == 0 then 0 else Digit(f(k)) + 2 * FromBits(f, k + 1, n - 1)
  }

  lemma {:induction false} BitFrom(f: nat -> bool, k: nat, n: nat, j: nat)
    requires j < n
    ensures Bit(FromBits(f, k, n), j) == Digit(f(k + j))
    decreases n
  {
    var x, b := FromBits(f, k + 1, n - 1), Digit(f(k));
    assert (b + 2 * x) / 2 == x && (b + 2 * x) % 2 == b;
    if j > 0 {
      BitFrom(f, k + 1, n - 1, j - 1);
    }
  }

  function DataOf(f: nat -> bool): TestData {
    TwoToTheEighth();
    seq(STAT_TEST_DATA_LEN, i requires 0 <= i => FromBits(f, 8 * i, 8))
  }

  lemma DataBit(f: nat -> bool, k: nat)
    requires k < 8 * STAT_TEST_DATA_LEN
    ensures BitAt(DataOf(f), k) == f(k)
  {
    BitFrom(f, 8 * (k / 8), 8, k % 8);
  }

  // ------------------------------------------------------------- one run after the other

  // Bits a to a + l are one run, and there is a bit behind it.
  ghost predicate RunAt(d: seq<Octet>, a: nat, l: nat, one: bool) {
    a + l < 8 * |d| && IsRun(d, a, l, one)
  }

  lemma {:induction false} InsideRun(d: seq<Octet>, a: nat, l: nat, one: bool, m: nat, o: bool, i: nat)
    requires IsRun(d, a, l, one) && 0 < m <= l
    ensures RunLen(d, a + m) == m && Finished(d, a + m, o, i) == Finished(d, a + 1, o, i)
  {
    hide BitAt;
    RunLenIs(d, a, a + m, one);
    if m > 1 {
      InsideRun(d, a, l, one, m - 1, o, i);
    }
  }

  // A whole run adds one to the count of its kind.
  lemma RunCounts(d: seq<Octet>, a: nat, l: nat, one: bool, o: bool, i: nat)
    requires RunAt(d, a, l, one)
    ensures Finished(d, a + l + 1, o, i) == Finished(d, a + 1, o, i) + if o == one && Class(l) == i then 1 else 0
  {
    hide BitAt;
    InsideRun(d, a, l, one, l, o, i);
  }

  // Gaps and runs of length l in turn, a gap first
  predicate InRun(k: nat, l: nat)
    requires l > 0
  {
    k / l % 2 == 1
  }

  // n times a gap and a run of length l from a on
  ghost predicate Pairs(d: seq<Octet>, a: nat, l: nat, n: nat) {
    && l > 0 && a + 2 * Prod(l, n) < 8 * |d| && (a > 0 ==> BitAt(d, a - 1)) && !BitAt(d, a + 2 * Prod(l, n))
    && forall k: nat | a <= k < a + 2 * Prod(l, n) :: BitAt(d, k) == InRun(k - a, l)
  }

  lemma HalfOf(l: nat, n: nat, r: nat)
    requires l > 0 && r < l
    ensures !InRun(2 * Prod(l, n) + r, l) && InRun(2 * Prod(l, n) + l + r, l)
  {
    assert 2 * (l * n) == (2 * n) * l;
    assert 2 * (l * n) + l == (2 * n + 1) * l;
    DivModUnique(2 * (l * n) + r, 2 * n, r, l);
    DivModUnique(2 * (l * n) + l + r, 2 * n + 1, r, l);
  }

  lemma OnePairMore(l: nat, n: nat)
    ensures Prod(l, n + 1) == Prod(l, n) + l
  {
    ProdSum(l, n, 1);
    ProdOne(l);
  }

  // The last of the pairs
  lemma LastPair(d: seq<Octet>, a: nat, l: nat, n: nat)
    requires Pairs(d, a, l, n + 1)
    ensures Pairs(d, a, l, n)
    ensures RunAt(d, a + 2 * Prod(l, n), l, false) && RunAt(d, a + 2 * Prod(l, n) + l, l, true)
  {
    hide BitAt, Prod, InRun;
    var p := 2 * Prod(l, n);
    OnePairMore(l, n);
    forall k: nat | a + p <= k < a + p + l
      ensures !BitAt(d, k)
    {
      HalfOf(l, n, k - a - p);
    }
    forall k: nat | a + p + l <= k < a + p + 2 * l
      ensures BitAt(d, k)
    {
      HalfOf(l, n, k - a - p - l);
    }
    if n > 0 {
      HalfOf(l, n - 1, l - 1);
      OnePairMore(l, n - 1);
    } else {
      NoPairs(l);
    }
  }

  lemma NoPairs(l: nat)
    ensures Prod(l, 0) == 0
  {
  }

  ghost predicate ShortFrom(d: seq<Octet>, a: nat, b: nat)
    requires b <= 8 * |d|
  {
    forall k: nat | a < k <= b :: RunLen(d, k) <= 25
  }

  lemma {:induction false} PairsCount(d: seq<Octet>, a: nat, l: nat, n: nat, o: bool, i: nat)
    requires Pairs(d, a, l, n) && l <= 25
    ensures Finished(d, a + 2 * Prod(l, n) + 1, o, i) == Finished(d, a + 1, o, i) + if Class(l) == i then n else 0
    ensures ShortFrom(d, a, a + 2 * Prod(l, n))
  {
    hide BitAt, Finished, Class, RunLen, Prod;
    if n > 0 {
      LastPair(d, a, l, n - 1);
      hide Pairs;
      var p := a + 2 * Prod(l, n - 1);
      OnePairMore(l, n - 1);
      PairsCount(d, a, l, n - 1, o, i);
      RunCounts(d, p, l, false, o, i);
      RunCounts(d, p + l, l, true, o, i);
      ShortRun(d, p, l, false);
      ShortRun(d, p + l, l, true);
    } else {
      NoPairs(l);
    }
  }

  lemma ShortRun(d: seq<Octet>, a: nat, l: nat, one: bool)
    requires IsRun(d, a, l, one) && l <= 25
    ensures ShortFrom(d, a, a + l)
  {
    hide BitAt, RunLen;
    forall k: nat | a < k <= a + l
      ensures RunLen(d, k) <= 25
    {
      InsideRun(d, a, l, one, k - a, true, 0);
    }
  }

  // ------------------------------------------------------------- the data

  function SegmentBit(k: nat): bool {
    if k < 4982 then k % 2 == 1
    else if k < 9982 then (k - 4982) / 2 % 2 == 1
    else if k < 13582 then (k - 9982) / 3 % 2 == 1
    else if k < 15982 then (k - 13582) / 4 % 2 == 1
    else if k < 17482 then (k - 15982) / 5 % 2 == 1
    else if k < 19990 then (k - 17482) / 6 % 2 == 1
    else k >= 19994
  }

  function Example(): TestData { DataOf((k: nat) => SegmentBit(k)) }

  lemma ExampleBit(k: nat)
    requires k < 20000
    ensures BitAt(Example(), k) == SegmentBit(k)
  {
    hide BitAt, SegmentBit;
    DataBit((k: nat) => SegmentBit(k), k);
  }

  lemma ExampleBits()
    ensures forall k: nat {:trigger BitAt(Example(), k)} | k < 20000 :: BitAt(Example(), k) == SegmentBit(k)
  {
    hide BitAt, SegmentBit, Example;
    forall k: nat | k < 20000
      ensures BitAt(Example(), k) == SegmentBit(k)
    {
      ExampleBit(k);
    }
  }

  lemma ExamplePairs()
    ensures Pairs(Example(), 0, 1, 2491) && Pairs(Example(), 4982, 2, 1250) && Pairs(Example(), 9982, 3, 600)
    ensures Pairs(Example(), 13582, 4, 300) && Pairs(Example(), 15982, 5, 150) && Pairs(Example(), 17482, 6, 209)
    ensures RunAt(Example(), 19990, 4, false) && IsRun(Example(), 19990, 4, false) && IsRun(Example(), 19994, 6, true)
  {
    hide BitAt, Example;
    ExampleBits();
  }

  // Its counts: 2491, 1250, 600, 300 (301 gaps), 150 and 209 of each class
  lemma ExampleCounts(o: bool, i: nat)
    requires i < 6
    ensures Finished(Example(), 20000, o, i) == [2491, 1250, 600, if o then 300 else 301, 150, 209][i]
    ensures NoLongRun(Example(), 20000)
  {
    hide BitAt, Example, Pairs, RunAt, IsRun, Finished, RunLen;
    var d := Example();
    ExamplePairs();
    PairsCount(d, 0, 1, 2491, o, i);
    PairsCount(d, 4982, 2, 1250, o, i);
    PairsCount(d, 9982, 3, 600, o, i);
    PairsCount(d, 13582, 4, 300, o, i);
    PairsCount(d, 15982, 5, 150, o, i);
    PairsCount(d, 17482, 6, 209, o, i);
    RunCounts(d, 19990, 4, false, o, i);
    InsideRun(d, 19994, 6, true, 6, o, i);
    ShortRun(d, 19990, 4, false);
    ShortRun(d, 19994, 6, true);
    NothingFinished(d, o, i);
  }

  lemma NothingFinished(d: seq<Octet>, o: bool, i: nat)
    requires |d| > 0
    ensures Finished(d, 1, o, i) == 0
  {
  }

  // The code passes it, and the standard counts 210 runs of six and more ones.
  lemma LastRunDecides()
    ensures RunsPass(Example()) && !RunsWithin(Example())
  {
    hide BitAt, Example, Finished, RunLen, NoLongRun, RunsPass, RunsWithin;
    var d := Example();
    forall o: bool, i: nat | i < 6
      ensures CountedRight(d, o, i)
    {
      ExampleCounts(o, i);
    }
    ExampleCounts(true, 5);
    ExamplePairs();
    InsideRun(d, 19994, 6, true, 6, true, 5);
    PassIs(d, true, 5);
    WithinIs(d, true, 5);
  }
}
