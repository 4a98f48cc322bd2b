// The runs test against section 4.9.1 of FIPS 140-2, which counts every maximal run of equal
// bits; the code counts a run when the next one begins, and so never the last.
module StatRuns {
  import opened Octets
  import opened StatSpec

  // ------------------------------------------------------------- the standard

  // l equal bits from s on, with other bits or none at both ends
  ghost predicate IsRun(d: seq<Octet>, s: nat, l: nat, one: bool) {
    && l > 0 && s + l <= 8 * |d| && (forall k: nat | s <= k < s + l :: BitAt(d, k) == one)
    && (s > 0 ==> BitAt(d, s - 1) != one) && (s + l < 8 * |d| ==> BitAt(d, s + l) != one)
  }

  // The classes are the lengths 1 to 5, and 6 and more.
  predicate OfClass(l: nat, i: nat) { if i < 5 then l == i + 1 else i == 5 && l >= 6 }

  // A run of this kind ends before bit e.
  ghost predicate RunEnds(d: seq<Octet>, e: nat, one: bool, i: nat) {
    exists l: nat :: l <= e && OfClass(l, i) && IsRun(d, e - l, l, one)
  }

  ghost function EndsUpTo(d: seq<Octet>, n: nat, one: bool, i: nat): set<nat> {
    set e: nat | e <= n && RunEnds(d, e, one, i)
  }

  // The required intervals
  predicate Required(count: nat, i: nat) {
    match i
    case 0 => 2315 <= count <= 2685
    case 1 => 1114 <= count <= 1386
    case 2 => 527 <= count <= 723
    case 3 => 240 <= count <= 384
    case _ => 103 <= count <= 209
  }

  ghost predicate RunsWithin(d: TestData) {
    && (forall s: nat, l: nat, one: bool | IsRun(d, s, l, one) :: l < 26)
    && forall one: bool, i: nat | i < 6 :: Required(|EndsUpTo(d, 8 * |d|, one, i)|, i)
  }

  // ------------------------------------------------------------- what is counted

  lemma {:induction false} RunLenIs(d: seq<Octet>, s: nat, n: nat, one: bool)
    requires s < n <= 8 * |d| && (forall k: nat | s <= k < n :: BitAt(d, k) == one)
    requires s > 0 ==> BitAt(d, s - 1) != one
    ensures RunLen(d, n) == n - s
  {
    hide BitAt;
    if n > s + 1 {
      RunLenIs(d, s, n - 1, one);
    }
  }

  lemma ClassIs(l: nat, i: nat)
    requires l > 0 && i < 6
    ensures OfClass(l, i) <==> Class(l) == i
  {
  }

  lemma EndsIff(d: seq<Octet>, e: nat, one: bool, i: nat)
    requires 0 < e <= 8 * |d| && i < 6
    ensures RunEnds(d, e, one, i) <==> BitAt(d, e - 1) == one && (e < 8 * |d| ==> BitAt(d, e) != one) && Class(RunLen(d, e)) == i
  {
    hide BitAt, OfClass, Class;
    RunIsMaximal(d, e);
    var l := RunLen(d, e);
    ClassIs(l, i);
    if BitAt(d, e - 1) == one && (e < 8 * |d| ==> BitAt(d, e) != one) && Class(l) == i {
      assert IsRun(d, e - l, l, one);
    }
    if RunEnds(d, e, one, i) {
      var m: nat :| m <= e && OfClass(m, i) && IsRun(d, e - m, m, one);
      RunLenIs(d, e - m, e, one);
    }
  }

  function One(b: bool): nat { if b then 1 else 0 }

  lemma {:induction false} EndsCounted(d: seq<Octet>, n: nat, one: bool, i: nat)
    requires n < 8 * |d| && i < 6
    ensures |EndsUpTo(d, n, one, i)| == Finished(d, n + 1, one, i)
  {
    hide BitAt, RunLen, RunEnds;
    if n == 0 {
      NoneAtStart(d, one, i);
    } else {
      EndsCounted(d, n - 1, one, i);
      OneMoreEnd(d, n, one, i);
      EndsIff(d, n, one, i);
    }
  }

  lemma NoneAtStart(d: seq<Octet>, one: bool, i: nat)
    ensures EndsUpTo(d, 0, one, i) == {}
  {
  }

  lemma OneMoreEnd(d: seq<Octet>, n: nat, one: bool, i: nat)
    requires n > 0
    ensures |EndsUpTo(d, n, one, i)| == |EndsUpTo(d, n - 1, one, i)| + One(RunEnds(d, n, one, i))
  {
    hide RunEnds;
    if RunEnds(d, n, one, i) {
      assert EndsUpTo(d, n, one, i) == EndsUpTo(d, n - 1, one, i) + {n};
    } else {
      assert EndsUpTo(d, n, one, i) == EndsUpTo(d, n - 1, one, i);
    }
  }

  // The last run is of this kind.
  predicate LastIs(d: TestData, one: bool, i: nat) {
    BitAt(d, 8 * |d| - 1) == one && Class(RunLen(d, 8 * |d|)) == i
  }

  // The standard counts the runs that the code counts, and the last one.
  lemma LastIsLeftOut(d: TestData, one: bool, i: nat)
    requires i < 6
    ensures |EndsUpTo(d, 8 * |d|, one, i)| == Finished(d, 8 * |d|, one, i) + One(LastIs(d, one, i))
  {
    hide BitAt, RunLen, Finished, RunEnds, Class;
    EndsCounted(d, 8 * |d| - 1, one, i);
    OneMoreEnd(d, 8 * |d|, one, i);
    EndsIff(d, 8 * |d|, one, i);
  }

  // ------------------------------------------------------------- long runs

  lemma LongRunIff(d: TestData)
    ensures NoLongRun(d, 8 * |d|) <==> forall s: nat, l: nat, one: bool | IsRun(d, s, l, one) :: l < 26
  {
    hide BitAt;
    if NoLongRun(d, 8 * |d|) {
      forall s: nat, l: nat, one: bool | IsRun(d, s, l, one)
        ensures l < 26
      {
        RunLenIs(d, s, s + l, one);
      }
    } else {
      var k: nat :| 0 < k <= 8 * |d| && RunLen(d, k) > LONGEST;
      var e := RunGoesOn(d, k);
      RunIsMaximal(d, e);
      assert IsRun(d, e - RunLen(d, e), RunLen(d, e), BitAt(d, e - 1));
    }
  }

  // From k on to where its run ends
  lemma RunGoesOn(d: seq<Octet>, k: nat) returns (e: nat)
    requires 0 < k <= 8 * |d|
    ensures k <= e <= 8 * |d| && RunLen(d, e) >= RunLen(d, k) && (e < 8 * |d| ==> BitAt(d, e) != BitAt(d, e - 1))
  {
    hide BitAt;
    e := k;
    while e < 8 * |d| && BitAt(d, e) == BitAt(d, e - 1)
      invariant k <= e <= 8 * |d| && RunLen(d, e) >= RunLen(d, k)
    {
      assert RunLen(d, e + 1) == RunLen(d, e) + 1;
      e := e + 1;
    }
  }

  // ------------------------------------------------------------- agreement

  predicate CountedRight(d: TestData, one: bool, i: nat)
    requires i < 6
  {
    LO_VALUE[i] <= Finished(d, 8 * |d|, one, i) <= HI_VALUE[i]
  }

  ghost predicate OthersRight(d: TestData, one: bool, i: nat) {
    forall o: bool, j: nat | j < 6 && !(o == one && j == i) :: CountedRight(d, o, j)
  }

  // All is well but perhaps for runs of the kind of the last one, whose number is one below
  // the interval or at its upper end.
  ghost predicate LastDecides(d: TestData) {
    && NoLongRun(d, 8 * |d|)
    && exists one: bool, i: nat :: i < 6 && LastIs(d, one, i)
         && OthersRight(d, one, i)
         && (Finished(d, 8 * |d|, one, i) + 1 == LO_VALUE[i] || Finished(d, 8 * |d|, one, i) == HI_VALUE[i])
  }

  lemma RunsPassIs(d: TestData)
    ensures RunsPass(d) <==> NoLongRun(d, 8 * |d|) && forall one: bool, i: nat | i < 6 :: CountedRight(d, one, i)
  {
    hide Finished, NoLongRun;
    if NoLongRun(d, 8 * |d|) && forall one: bool, i: nat | i < 6 :: CountedRight(d, one, i) {
      forall i: nat | i < 6
        ensures InRange(d, i)
      {
        assert CountedRight(d, true, i) && CountedRight(d, false, i);
      }
    } else if RunsPass(d) {
      forall one: bool, i: nat | i < 6
        ensures CountedRight(d, one, i)
      {
        assert InRange(d, i);
      }
    }
  }

  lemma RequiredIs(d: TestData, one: bool, i: nat)
    requires i < 6
    ensures Required(|EndsUpTo(d, 8 * |d|, one, i)|, i)
       <==> LO_VALUE[i] <= Finished(d, 8 * |d|, one, i) + One(LastIs(d, one, i)) <= HI_VALUE[i]
  {
    hide Finished, LastIs;
    LastIsLeftOut(d, one, i);
  }

  lemma OneLast(d: TestData) returns (one: bool, i: nat)
    ensures i < 6 && LastIs(d, one, i) && forall o: bool, j: nat | LastIs(d, o, j) :: o == one && j == i
  {
    one, i := BitAt(d, 8 * |d| - 1), Class(RunLen(d, 8 * |d|));
  }

  lemma WithinIs(d: TestData, one: bool, i: nat)
    requires i < 6 && LastIs(d, one, i)
    ensures RunsWithin(d) <==>
              NoLongRun(d, 8 * |d|) && OthersRight(d, one, i) && LO_VALUE[i] <= Finished(d, 8 * |d|, one, i) + 1 <= HI_VALUE[i]
  {
    hide Finished, NoLongRun, BitAt, RunLen, Class, Required, IsRun, EndsUpTo;
    LongRunIff(d);
    forall o: bool, j: nat | j < 6
      ensures Required(|EndsUpTo(d, 8 * |d|, o, j)|, j) <==>
                if o == one && j == i then LO_VALUE[i] <= Finished(d, 8 * |d|, one, i) + 1 <= HI_VALUE[i] else CountedRight(d, o, j)
    {
      RequiredIs(d, o, j);
    }
    if RunsWithin(d) {
      assert Required(|EndsUpTo(d, 8 * |d|, one, i)|, i);
      forall o: bool, j: nat | j < 6 && !(o == one && j == i)
        ensures CountedRight(d, o, j)
      {
        assert Required(|EndsUpTo(d, 8 * |d|, o, j)|, j);
      }
    }
  }

  lemma PassIs(d: TestData, one: bool, i: nat)
    requires i < 6
    ensures RunsPass(d) <==> NoLongRun(d, 8 * |d|) && OthersRight(d, one, i) && CountedRight(d, one, i)
  {
    hide Finished, NoLongRun, RunsPass, CountedRight;
    RunsPassIs(d);
  }

  // The code and the standard agree, unless the last run decides.
  lemma RunsAgreeIff(d: TestData)
    ensures (RunsPass(d) <==> RunsWithin(d)) <==> !LastDecides(d)
  {
    hide Finished, NoLongRun, LastIs, RunsWithin, RunsPass, OthersRight;
    var one, i := OneLast(d);
    PassIs(d, one, i);
    WithinIs(d, one, i);
  }
}
