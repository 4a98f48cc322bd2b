// What the statistical tests of FIPS 140-2 measure: the weight of a string of octets,
// how often each nibble occurs, and the maximal runs of equal bits.
module StatSpec {
  import opened Octets
  import opened BitField

  // The bits of a string, the lowest of every octet first
  function BitAt(d: seq<Octet>, k: nat): bool
    requires k < 8 * |d|
  {
    Bit(d[k / 8], k % 8) == 1
  }

  function Weight(x: nat, n: nat): nat { if n == 0 then 0 else x % 2 + Weight(x / 2, n - 1) }

  // Bits that are set in the first n octets
  function Ones(d: seq<Octet>, n: nat): nat
    requires n <= |d|
  {
    if n == 0 then 0 else Ones(d, n - 1) + Weight(d[n - 1], 8)
  }

  function Is(a: nat, b: nat): nat { if a == b then 1 else 0 }

  // Nibbles of value v in the first n octets
  function Nibbles(d: seq<Octet>, n: nat, v: nat): nat
    requires n <= |d|
  {
    if n == 0 then 0 else Nibbles(d, n - 1, v) + Is(d[n - 1] % 16, v) + Is(d[n - 1] / 16, v)
  }

  // How long the last of the first n bits has been the same
  function RunLen(d: seq<Octet>, n: nat): (l: nat)
    requires 0 < n <= 8 * |d|
    ensures 0 < l <= n
  {
    if n == 1 || BitAt(d, n - 2) != BitAt(d, n - 1) then 1 else RunLen(d, n - 1) + 1
  }

  // It is the length of the longest run that ends there.
  lemma {:induction false} RunIsMaximal(d: seq<Octet>, n: nat)
    requires 0 < n <= 8 * |d|
    ensures var s := n - RunLen(d, n);
            && (forall k: nat | s <= k < n :: BitAt(d, k) == BitAt(d, n - 1))
            && (s > 0 ==> BitAt(d, s - 1) != BitAt(d, n - 1))
  {
    hide BitAt;
    if n > 1 && BitAt(d, n - 2) == BitAt(d, n - 1) {
      RunIsMaximal(d, n - 1);
    }
  }

  function Class(length: nat): (i: nat)
    requires length > 0
    ensures i < 6
  {
    if length > 6 then 5 else length - 1
  }

  // A run of ones, or a gap of zeros, of class i is finished by bit n.
  predicate FinishedAt(d: seq<Octet>, n: nat, one: bool, i: nat)
    requires 0 < n < 8 * |d|
  {
    BitAt(d, n - 1) == one && BitAt(d, n) != one && Class(RunLen(d, n)) == i
  }

  // How many of them the first n bits finish
  function Finished(d: seq<Octet>, n: nat, one: bool, i: nat): nat
    requires n <= 8 * |d|
  {
    if n <= 1 then 0 else Finished(d, n - 1, one, i) + if FinishedAt(d, n - 1, one, i) then 1 else 0
  }

  const LONGEST: int := 25

  ghost predicate NoLongRun(d: seq<Octet>, n: nat)
    requires n <= 8 * |d|
  {
    forall k: nat | 0 < k <= n :: RunLen(d, k) <= LONGEST
  }

  // ------------------------------------------------------------- passing the tests

  const STAT_TEST_DATA_LEN: nat := 2500

  type TestData = d: seq<Octet> | |d| == STAT_TEST_DATA_LEN witness seq(STAT_TEST_DATA_LEN, i => 0)

  // The code accepts the bounds themselves, here and for the statistic below.
  predicate MonobitPasses(d: TestData) { 9725 <= Ones(d, |d|) <= 10275 }

  function SquareSum(d: TestData, v: nat): nat {
    if v == 0 then 0 else SquareSum(d, v - 1) + Nibbles(d, |d|, v - 1) * Nibbles(d, |d|, v - 1)
  }

  predicate PokerPasses(d: TestData) {
    2.16 <= SquareSum(d, 16) as real * (16.0 / 5000.0) - 5000.0 <= 46.17
  }

  const LO_VALUE: seq<nat> := [2315, 1114, 527, 240, 103, 103]
  const HI_VALUE: seq<nat> := [2685, 1386, 723, 384, 209, 209]

  predicate InRange(d: TestData, i: nat)
    requires i < 6
  {
    && LO_VALUE[i] <= Finished(d, 8 * |d|, true, i) <= HI_VALUE[i]
    && LO_VALUE[i] <= Finished(d, 8 * |d|, false, i) <= HI_VALUE[i]
  }

  ghost predicate RunsPass(d: TestData) {
    NoLongRun(d, 8 * |d|) && forall i: nat | i < 6 :: InRange(d, i)
  }

  // ------------------------------------------------------------------- longer strings

  lemma SameBit(d: seq<Octet>, e: seq<Octet>, k: nat)
    requires d <= e && k < 8 * |d|
    ensures BitAt(e, k) == BitAt(d, k)
  {
    hide Bit;
    assert e[k / 8] == d[k / 8];
  }

  // What was measured does not depend on what follows.
  lemma {:induction false} SameRun(d: seq<Octet>, e: seq<Octet>, n: nat)
    requires d <= e && 0 < n <= 8 * |d|
    ensures RunLen(e, n) == RunLen(d, n)
  {
    hide BitAt;
    SameBit(d, e, n - 1);
    if n > 1 {
      SameBit(d, e, n - 2);
      SameRun(d, e, n - 1);
    }
  }

  lemma {:induction false} SameFinished(d: seq<Octet>, e: seq<Octet>, n: nat, one: bool, i: nat)
    requires d <= e && n <= 8 * |d|
    ensures Finished(e, n, one, i) == Finished(d, n, one, i)
  {
    hide BitAt, RunLen;
    if n > 1 {
      SameBit(d, e, n - 1);
      SameBit(d, e, n - 2);
      SameRun(d, e, n - 1);
      SameFinished(d, e, n - 1, one, i);
    }
  }

  lemma SameLongRun(d: seq<Octet>, e: seq<Octet>, n: nat)
    requires d <= e && n <= 8 * |d|
    ensures NoLongRun(e, n) <==> NoLongRun(d, n)
  {
    hide RunLen;
    forall k: nat | 0 < k <= n
      ensures RunLen(e, k) == RunLen(d, k)
    {
      SameRun(d, e, k);
    }
  }

  lemma {:induction false} SameOnes(d: seq<Octet>, e: seq<Octet>, n: nat)
    requires d <= e && n <= |d|
    ensures Ones(e, n) == Ones(d, n)
  {
    if n > 0 {
      SameOnes(d, e, n - 1);
    }
  }

  lemma {:induction false} SameNibbles(d: seq<Octet>, e: seq<Octet>, n: nat, v: nat)
    requires d <= e && n <= |d|
    ensures Nibbles(e, n, v) == Nibbles(d, n, v)
  {
    if n > 0 {
      SameNibbles(d, e, n - 1, v);
    }
  }
}
