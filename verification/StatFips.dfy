// The bounds of the statistical tests against section 4.9.1 of FIPS 140-2, which wants the
// number of ones and the statistic of the nibbles strictly between the same numbers.
module StatFips {
  import opened StatSpec
  import opened Octets
  import opened NatArith
  import opened BitField

  predicate MonobitWithin(d: TestData) { 9725 < Ones(d, |d|) < 10275 }

  predicate PokerWithin(d: TestData) {
    2.16 < SquareSum(d, 16) as real * (16.0 / 5000.0) - 5000.0 < 46.17
  }

  // ------------------------------------------------------------- what is counted

  // n bits from bit k on as a number, the first one lowest
  function NumberAt(d: seq<Octet>, k: nat, n: nat): nat
    requires k + n <= 8 * |d|
    decreases n
  {
    if n == 0 then 0 else One(BitAt(d, k)) + 2 * NumberAt(d, k + 1, n - 1)
  }

  lemma {:induction false} ShrStep(x: nat, j: nat)
    ensures Shr(x, j) == Bit(x, j) + 2 * Shr(x, j + 1)
  {
    if j > 0 {
      ShrStep(x / 2, j - 1);
    }
  }

  lemma {:induction false} ShrGone(x: nat, n: nat)
    requires x < Power2(n)
    ensures Shr(x, n) == 0
  {
    if n > 0 {
      ShrGone(x / 2, n - 1);
    }
  }

  lemma {:induction false} RestOfOctet(d: seq<Octet>, i: nat, j: nat)
    requires i < |d| && j <= 8
    ensures NumberAt(d, 8 * i + j, 8 - j) == Shr(d[i], j)
    decreases 8 - j
  {
    hide BitAt, Shr, Bit, Power2;
    if j == 8 {
      TwoToTheEighth();
      ShrGone(d[i], 8);
    } else {
      RestOfOctet(d, i, j + 1);
      BitInOctet(d, i, j);
      ShrStep(d[i], j);
    }
  }

  // An octet is the number that its eight bits make, the first one lowest.
  lemma OctetOfBits(d: seq<Octet>, i: nat)
    requires i < |d|
    ensures NumberAt(d, 8 * i, 8) == d[i]
  {
    hide NumberAt;
    RestOfOctet(d, i, 0);
  }

  function One(b: bool): nat { if b then 1 else 0 }

  lemma BitInOctet(d: seq<Octet>, i: nat, j: nat)
    requires i < |d| && j < 8
    ensures One(BitAt(d, 8 * i + j)) == Bit(d[i], j)
  {
    hide Bit;
    assert (8 * i + j) / 8 == i && (8 * i + j) % 8 == j;
  }

  ghost function SetBits(d: seq<Octet>, n: nat): set<nat>
    requires n <= 8 * |d|
  {
    set k: nat | k < n && BitAt(d, k)
  }

  lemma OneMoreBit(d: seq<Octet>, n: nat)
    requires n < 8 * |d|
    ensures |SetBits(d, n + 1)| == |SetBits(d, n)| + One(BitAt(d, n))
  {
    hide BitAt;
    if BitAt(d, n) {
      assert SetBits(d, n + 1) == SetBits(d, n) + {n};
    } else {
      assert SetBits(d, n + 1) == SetBits(d, n);
    }
  }

  lemma {:induction false} WeightGrows(x: nat, n: nat)
    ensures Weight(x, n + 1) == Weight(x, n) + Bit(x, n)
  {
    if n > 0 {
      WeightGrows(x / 2, n - 1);
    }
  }

  lemma {:induction false} BitsOfOctet(d: seq<Octet>, i: nat, j: nat)
    requires i < |d| && j <= 8
    ensures |SetBits(d, 8 * i + j)| == |SetBits(d, 8 * i)| + Weight(d[i], j)
  {
    hide BitAt, SetBits, Bit;
    if j > 0 {
      BitsOfOctet(d, i, j - 1);
      OneMoreBit(d, 8 * i + j - 1);
      BitInOctet(d, i, j - 1);
      WeightGrows(d[i], j - 1);
    }
  }

  // Ones is how many of the bits are set.
  lemma {:induction false} OnesAreSetBits(d: seq<Octet>, n: nat)
    requires n <= |d|
    ensures Ones(d, n) == |SetBits(d, 8 * n)|
  {
    hide BitAt, Weight;
    if n == 0 {
      assert SetBits(d, 0) == {};
    } else {
      OnesAreSetBits(d, n - 1);
      BitsOfOctet(d, n - 1, 8);
    }
  }

  // The two nibbles of an octet, low and high
  function NibbleAt(d: seq<Octet>, p: nat): nat
    requires p < 2 * |d|
  {
    if p % 2 == 0 then d[p / 2] % 16 else d[p / 2] / 16
  }

  ghost function NibblesOf(d: seq<Octet>, n: nat, v: nat): set<nat>
    requires n <= 2 * |d|
  {
    set p: nat | p < n && NibbleAt(d, p) == v
  }

  lemma OneMoreNibble(d: seq<Octet>, n: nat, v: nat)
    requires n < 2 * |d|
    ensures |NibblesOf(d, n + 1, v)| == |NibblesOf(d, n, v)| + Is(NibbleAt(d, n), v)
  {
    hide NibbleAt;
    if NibbleAt(d, n) == v {
      assert NibblesOf(d, n + 1, v) == NibblesOf(d, n, v) + {n};
    } else {
      assert NibblesOf(d, n + 1, v) == NibblesOf(d, n, v);
    }
  }

  // The count of a nibble is how many of the 2n nibbles have its value.
  lemma {:induction false} NibblesAreCounted(d: seq<Octet>, n: nat, v: nat)
    requires n <= |d|
    ensures Nibbles(d, n, v) == |NibblesOf(d, 2 * n, v)|
  {
    hide Is;
    if n == 0 {
      assert NibblesOf(d, 0, v) == {};
    } else {
      hide NibblesOf;
      NibblesAreCounted(d, n - 1, v);
      OneMoreNibble(d, 2 * n - 2, v);
      OneMoreNibble(d, 2 * n - 1, v);
    }
  }

  // ------------------------------------------------------------------ monobit test

  // The two disagree at the end points and nowhere else.
  lemma MonobitAgreesIff(d: TestData)
    ensures (MonobitPasses(d) <==> MonobitWithin(d)) <==> Ones(d, |d|) !in {9725, 10275}
  {
  }

  function EndPointData(): TestData {
    seq(STAT_TEST_DATA_LEN, i => if i < 1215 then 255 else if i == 1215 then 31 else 0)
  }

  // 1215 octets of eight ones and one of five
  lemma MonobitEndPoint()
    ensures Ones(EndPointData(), STAT_TEST_DATA_LEN) == 9725
    ensures MonobitPasses(EndPointData()) && !MonobitWithin(EndPointData())
  {
    hide EndPointData;
    EndPointOnes(STAT_TEST_DATA_LEN);
  }

  lemma {:induction false} EndPointOnes(n: nat)
    requires n <= STAT_TEST_DATA_LEN
    ensures Ones(EndPointData(), n) == if n <= 1215 then 8 * n else 9725
  {
    if n > 0 {
      EndPointOnes(n - 1);
      Weights();
    }
  }

  lemma {:induction false} LowOnes(k: nat, n: nat)
    requires k <= n
    ensures Weight(Power2(k) - 1, n) == k
  {
    if n > 0 && k > 0 {
      assert (Power2(k) - 1) / 2 == Power2(k - 1) - 1;
      LowOnes(k - 1, n - 1);
    } else if n > 0 {
      LowOnes(0, n - 1);
    }
  }

  lemma Weights()
    ensures Weight(255, 8) == 8 && Weight(31, 8) == 5 && Weight(0, 8) == 0
  {
    hide Weight;
    LowOnes(8, 8);
    LowOnes(5, 8);
    LowOnes(0, 8);
    TwoToTheEighth();
    assert Power2(5) == 32;
  }

  // -------------------------------------------------------------------- poker test

  // Nibbles below v in the first n octets
  function NibblesBelow(d: seq<Octet>, n: nat, v: nat): nat
    requires n <= |d|
  {
    if v == 0 then 0 else NibblesBelow(d, n, v - 1) + Nibbles(d, n, v - 1)
  }

  lemma {:induction false} OneMoreOctet(d: seq<Octet>, n: nat, v: nat)
    requires n < |d|
    ensures NibblesBelow(d, n + 1, v)
            == NibblesBelow(d, n, v) + (if d[n] % 16 < v then 1 else 0) + (if d[n] / 16 < v then 1 else 0)
  {
    if v > 0 {
      OneMoreOctet(d, n, v - 1);
    }
  }

  // Every octet has two nibbles.
  lemma {:induction false} TwoEach(d: seq<Octet>, n: nat)
    requires n <= |d|
    ensures NibblesBelow(d, n, 16) == 2 * n
  {
    if n == 0 {
      NoneYet(d, 16);
    } else {
      hide NibblesBelow;
      TwoEach(d, n - 1);
      OneMoreOctet(d, n - 1, 16);
    }
  }

  lemma {:induction false} NoneYet(d: seq<Octet>, v: nat)
    ensures NibblesBelow(d, 0, v) == 0
  {
    if v > 0 {
      NoneYet(d, v - 1);
    }
  }

  // The squares add up to an even number just when the counts do.
  lemma {:induction false} SquareSumParity(d: TestData, v: nat)
    ensures SquareSum(d, v) % 2 == NibblesBelow(d, |d|, v) % 2
  {
    hide Nibbles;
    if v > 0 {
      SquareSumParity(d, v - 1);
      var c := Nibbles(d, |d|, v - 1);
      SquareParity(c);
      SumParity(SquareSum(d, v - 1), NibblesBelow(d, |d|, v - 1), c * c, c);
    }
  }

  // The code accepts the end points of the interval as well, but no data reach them: 2.16
  // needs an odd sum of squares, and 46.17 no whole one.
  lemma PokerAgrees(d: TestData)
    ensures PokerPasses(d) <==> PokerWithin(d)
  {
    hide SquareSum, NibblesBelow;
    SquareSumParity(d, 16);
    TwoEach(d, |d|);
    var s := SquareSum(d, 16);
    assert s % 2 == 0;
    assert s != 1563175;
    assert s as real * (16.0 / 5000.0) - 5000.0 == 2.16 ==> s as real == 1563175.0;
    assert s as real * (16.0 / 5000.0) - 5000.0 == 46.17 ==> s as real == 1576928.125;
  }
}
