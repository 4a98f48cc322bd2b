// The statistical tests on a buffer, and their streaming form on a random source.
module Stat {
  import opened Octets
  import opened BitField
  import opened StatSpec

  datatype Status = Ok | AlgoFail | SourceError(code: int)

  method StatTestMonobit(data: array<Octet>) returns (status: Status)
    requires data.Length == STAT_TEST_DATA_LEN
    ensures status == if MonobitPasses(data[..]) then Ok else AlgoFail
  {
    hide Weight;
    var onesCount: nat := 0;
    for i: nat := 0 to STAT_TEST_DATA_LEN
      invariant onesCount == Ones(data[..], i)
    {
      onesCount := onesCount + Weight(data[i], 8);
    }
    if onesCount < 9725 || onesCount > 10275 {
      return AlgoFail;
    }
    return Ok;
  }

  // f[v] is how many of the first n octets' nibbles are v.
  ghost predicate Counted(f: seq<nat>, d: seq<Octet>, n: nat)
    requires n <= |d|
  {
    |f| == 16 && forall v: nat | v < 16 :: f[v] == Nibbles(d, n, v)
  }

  // Both nibbles of one octet
  method CountNibbles(f: array<nat>, octet: Octet, ghost d: seq<Octet>, ghost n: nat)
    requires n < |d| && d[n] == octet && Counted(f[..], d, n)
    modifies f
    ensures Counted(f[..], d, n + 1)
  {
    assert f.Length == 16;
    f[octet % 16] := f[octet % 16] + 1;
    f[octet / 16] := f[octet / 16] + 1;
  }

  method PokerStatistic(f: array<nat>, ghost d: TestData) returns (poker: real)
    requires Counted(f[..], d, |d|)
    ensures poker == SquareSum(d, 16) as real * (16.0 / 5000.0) - 5000.0
  {
    hide Nibbles;
    poker := 0.0;
    assert f.Length == 16;
    for i: nat := 0 to 16
      invariant poker == SquareSum(d, i) as real
    {
      assert f[i] == f[..][i] == Nibbles(d, |d|, i);
      RealSquare(SquareSum(d, i), f[i]);
      poker := poker + f[i] as real * f[i] as real;
    }
    poker := poker * (16.0 / 5000.0);
    poker := poker - 5000.0;
  }

  lemma RealSquare(s: nat, x: nat)
    ensures s as real + x as real * x as real == (s + x * x) as real
  {
  }

  method StatTestPoker(data: array<Octet>) returns (status: Status)
    requires data.Length == STAT_TEST_DATA_LEN
    ensures status == if PokerPasses(data[..]) then Ok else AlgoFail
  {
    hide SquareSum, Counted;
    var f := new nat[16](i => 0);
    NoNibbles(f[..], data[..]);
    for i: nat := 0 to STAT_TEST_DATA_LEN
      invariant Counted(f[..], data[..], i)
    {
      CountNibbles(f, data[i], data[..], i);
    }
    var poker := PokerStatistic(f, data[..]);
    if poker < 2.16 || poker > 46.17 {
      return AlgoFail;
    }
    return Ok;
  }

  lemma NoNibbles(f: seq<nat>, d: seq<Octet>)
    requires |f| == 16 && forall v | 0 <= v < 16 :: f[v] == 0
    ensures Counted(f, d, 0)
  {
  }

  // ------------------------------------------------------------------------ runs

  // The run-length state machine, which two of the tests step bit by bit.
  class RunCounter {
    var state: int
    const runs: array<nat>
    const gaps: array<nat>

    // state is the length of the run at bit n, or minus the length of the gap there.
    ghost predicate Counts(d: seq<Octet>, n: nat)
      requires n <= 8 * |d|
      reads this, runs, gaps
    {
      && runs.Length == gaps.Length == 6 && runs != gaps
      && state == StateAt(d, n) && NoLongRun(d, n)
      && forall i: nat | i < 6 :: runs[i] == Finished(d, n, true, i) && gaps[i] == Finished(d, n, false, i)
    }

    constructor ()
      ensures forall d: seq<Octet> :: Counts(d, 0)
      ensures fresh(runs) && fresh(gaps)
    {
      state := 0;
      runs := new nat[6](i => 0);
      gaps := new nat[6](i => 0);
    }

    // One more bit; not ok as soon as a run is too long
    method Next(one: bool, ghost d: seq<Octet>, ghost n: nat) returns (ok: bool)
      requires n < 8 * |d| && one == BitAt(d, n) && Counts(d, n)
      modifies this, runs, gaps
      ensures ok <==> NoLongRun(d, n + 1)
      ensures ok ==> Counts(d, n + 1)
    {
      hide BitAt;
      ok := true;
      if one {
        if state > 0 {
          state := state + 1;
          if state > LONGEST {
            ok := false;
          }
        } else if state < 0 {
          if state < -LONGEST {
            ok := false;
          } else {
            if state < -6 {
              state := -6;
            }
            gaps[-1 - state] := gaps[-1 - state] + 1;
            state := 1;
          }
        } else {
          state := 1;
        }
      } else {
        if state > 0 {
          if state > LONGEST {
            ok := false;
          } else {
            if state > 6 {
              state := 6;
            }
            runs[state - 1] := runs[state - 1] + 1;
            state := -1;
          }
        } else if state < 0 {
          state := state - 1;
          if state < -LONGEST {
            ok := false;
          }
        } else {
          state := -1;
        }
      }
    }
  }

  function StateAt(d: seq<Octet>, n: nat): int
    requires n <= 8 * |d|
  {
    if n == 0 then 0 else
      var length: int := RunLen(d, n);
      if BitAt(d, n - 1) then length else -length
  }

  // The loop over the bits of one octet
  method NextOctet(counter: RunCounter, octet: Octet, ghost d: seq<Octet>, ghost n: nat) returns (ok: bool)
    requires n < |d| && d[n] == octet && counter.Counts(d, 8 * n)
    modifies counter, counter.runs, counter.gaps
    ensures ok <==> NoLongRun(d, 8 * n + 8)
    ensures ok ==> counter.Counts(d, 8 * n + 8)
  {
    hide Bit, RunLen, Finished;
    for k: nat := 0 to 8
      invariant counter.Counts(d, 8 * n + k)
    {
      BitOfOctet(d, n, k);
      ok := counter.Next(Bit(octet, k) == 1, d, 8 * n + k);
      if !ok {
        return false;
      }
    }
    ok := true;
  }

  lemma BitOfOctet(d: seq<Octet>, n: nat, k: nat)
    requires n < |d| && k < 8
    ensures BitAt(d, 8 * n + k) == (Bit(d[n], k) == 1)
  {
    assert (8 * n + k) / 8 == n && (8 * n + k) % 8 == k;
  }

  method CheckRuns(counter: RunCounter, ghost d: TestData) returns (status: Status)
    requires counter.Counts(d, 8 * |d|)
    ensures status == if RunsPass(d) then Ok else AlgoFail
  {
    hide Finished, RunLen;
    for i: nat := 0 to 6
      invariant forall k: nat | k < i :: InRange(d, k)
    {
      if counter.runs[i] < LO_VALUE[i] || counter.runs[i] > HI_VALUE[i]
         || counter.gaps[i] < LO_VALUE[i] || counter.gaps[i] > HI_VALUE[i] {
        assert !InRange(d, i);
        return AlgoFail;
      }
    }
    return Ok;
  }

  method StatTestRuns(data: array<Octet>) returns (status: Status)
    requires data.Length == STAT_TEST_DATA_LEN
    ensures status == if RunsPass(data[..]) then Ok else AlgoFail
  {
    hide RunLen, Finished;
    var counter := new RunCounter();
    for i: nat := 0 to STAT_TEST_DATA_LEN
      invariant counter.Counts(data[..], 8 * i) && fresh(counter) && fresh(counter.runs) && fresh(counter.gaps)
    {
      var ok := NextOctet(counter, data[i], data[..], i);
      if !ok {
        return AlgoFail;
      }
    }
    status := CheckRuns(counter, data[..]);
  }

  // ------------------------------------------------------------- the random source

  const RAND_SRC_BUF_OCTETS: nat := 50

  datatype Draw = Octets(data: seq<Octet>) | Failed(code: int)

  // What a source will give, one buffer a call; an error has a code that is not zero.
  ghost predicate Draws(s: seq<Draw>) {
    && |s| == STAT_TEST_DATA_LEN / RAND_SRC_BUF_OCTETS
    && forall i | 0 <= i < |s| :: if s[i].Octets? then |s[i].data| == RAND_SRC_BUF_OCTETS else s[i].code != 0
  }

  // The first n buffers in one string
  function Joined(s: seq<Draw>, n: nat): (d: seq<Octet>)
    requires n <= |s| && forall i | 0 <= i < n :: s[i].Octets? && |s[i].data| == RAND_SRC_BUF_OCTETS
    ensures |d| == RAND_SRC_BUF_OCTETS * n
  {
    if n == 0 then [] else Joined(s, n - 1) + s[n - 1].data
  }

  method GetRandBytes(buffer: array<Octet>, draw: Draw) returns (code: int)
    requires buffer.Length == RAND_SRC_BUF_OCTETS && (if draw.Octets? then |draw.data| == buffer.Length else draw.code != 0)
    modifies buffer
    ensures draw.Octets? ==> code == 0 && buffer[..] == draw.data
    ensures draw.Failed? ==> code == draw.code
  {
    if draw.Failed? {
      return draw.code;
    }
    forall i | 0 <= i < buffer.Length {
      buffer[i] := draw.data[i];
    }
    code := 0;
  }

  // Everything that is counted, over the first n octets of d
  ghost predicate AllCounted(counter: RunCounter, f: array<nat>, onesCount: nat, d: seq<Octet>, n: nat)
    requires n <= |d|
    reads counter, counter.runs, counter.gaps, f
  {
    counter.Counts(d, 8 * n) && Counted(f[..], d, n) && onesCount == Ones(d, n)
  }

  lemma LongerString(counter: RunCounter, f: array<nat>, onesCount: nat, d: seq<Octet>, e: seq<Octet>)
    requires AllCounted(counter, f, onesCount, d, |d|) && d <= e
    ensures AllCounted(counter, f, onesCount, e, |d|)
  {
    hide RunLen, BitAt, Finished, NoLongRun, Nibbles, Ones;
    SameOnes(d, e, |d|);
    SameLongRun(d, e, 8 * |d|);
    if |d| > 0 {
      SameRun(d, e, 8 * |d|);
      SameBit(d, e, 8 * |d| - 1);
    }
    forall i: nat | i < 6
      ensures Finished(e, 8 * |d|, true, i) == Finished(d, 8 * |d|, true, i)
      ensures Finished(e, 8 * |d|, false, i) == Finished(d, 8 * |d|, false, i)
    {
      SameFinished(d, e, 8 * |d|, true, i);
      SameFinished(d, e, 8 * |d|, false, i);
    }
    forall v: nat | v < 16
      ensures Nibbles(e, |d|, v) == Nibbles(d, |d|, v)
    {
      SameNibbles(d, e, |d|, v);
    }
  }

  // The loop over one buffer
  method CountBuffer(counter: RunCounter, f: array<nat>, onesCount0: nat, buffer: array<Octet>, ghost d: seq<Octet>)
    returns (ok: bool, onesCount: nat)
    requires f != counter.runs && f != counter.gaps && AllCounted(counter, f, onesCount0, d, |d|)
    modifies counter, counter.runs, counter.gaps, f
    ensures var e := d + buffer[..];
            && (ok <==> NoLongRun(e, 8 * |e|))
            && (ok ==> AllCounted(counter, f, onesCount, e, |e|))
  {
    hide RunLen, Finished, NoLongRun, Nibbles, Ones, Weight, Counted;
    ghost var e := d + buffer[..];
    LongerString(counter, f, onesCount0, d, e);
    onesCount := onesCount0;
    for i: nat := 0 to buffer.Length
      invariant AllCounted(counter, f, onesCount, e, |d| + i)
    {
      ghost var n := |d| + i;
      assert buffer[i] == e[n];
      OnesMore(e, n);
      onesCount := onesCount + Weight(buffer[i], 8);
      CountNibbles(f, buffer[i], e, n);
      ok := NextOctet(counter, buffer[i], e, n);
      if !ok {
        LongRunStays(e, 8 * n + 8, 8 * |e|);
        return;
      }
    }
    ok := true;
  }

  lemma OnesMore(d: seq<Octet>, n: nat)
    requires n < |d|
    ensures Ones(d, n + 1) == Ones(d, n) + Weight(d[n], 8)
  {
  }

  lemma LongRunStays(d: seq<Octet>, m: nat, n: nat)
    requires m <= n <= 8 * |d| && !NoLongRun(d, m)
    ensures !NoLongRun(d, n)
  {
    hide RunLen;
    var k: nat :| 0 < k <= m && RunLen(d, k) > LONGEST;
  }

  ghost predicate Given(s: seq<Draw>, n: nat)
    requires n <= |s|
  {
    forall i | 0 <= i < n :: s[i].Octets?
  }

  lemma {:induction false} JoinedGrows(s: seq<Draw>, m: nat, n: nat)
    requires Draws(s) && m <= n <= |s| && Given(s, n)
    ensures Joined(s, m) <= Joined(s, n)
  {
    if m < n {
      JoinedGrows(s, m, n - 1);
    }
  }

  lemma LongRunLater(s: seq<Draw>, m: nat, n: nat)
    requires Draws(s) && m <= n <= |s| && Given(s, n) && !NoLongRun(Joined(s, m), 8 * RAND_SRC_BUF_OCTETS * m)
    ensures !NoLongRun(Joined(s, n), 8 * RAND_SRC_BUF_OCTETS * n)
  {
    hide RunLen, NoLongRun, Joined;
    JoinedGrows(s, m, n);
    SameLongRun(Joined(s, m), Joined(s, n), 8 * RAND_SRC_BUF_OCTETS * m);
    LongRunStays(Joined(s, n), 8 * RAND_SRC_BUF_OCTETS * m, 8 * RAND_SRC_BUF_OCTETS * n);
  }

  method CheckCounts(counter: RunCounter, f: array<nat>, onesCount: nat, ghost d: TestData) returns (status: Status)
    requires AllCounted(counter, f, onesCount, d, |d|)
    ensures status == if MonobitPasses(d) && PokerPasses(d) && RunsPass(d) then Ok else AlgoFail
  {
    hide RunLen, NoLongRun, Finished, Nibbles, Ones, SquareSum, Counted;
    if onesCount < 9725 || onesCount > 10275 {
      return AlgoFail;
    }
    var poker := PokerStatistic(f, d);
    if poker < 2.16 || poker > 46.17 {
      return AlgoFail;
    }
    status := CheckRuns(counter, d);
  }

  // The streaming test accepts exactly when the three tests accept the concatenation.
  // An error of the source ends it, unless a run that is too long has done so before.
  ghost predicate Tested(s: seq<Draw>, status: Status)
    requires Draws(s)
  {
    && (Given(s, |s|) ==>
          var d := Joined(s, |s|);
          status == if MonobitPasses(d) && PokerPasses(d) && RunsPass(d) then Ok else AlgoFail)
    && (forall e: nat | e < |s| && Given(s, e) && s[e].Failed? ::
          status == if NoLongRun(Joined(s, e), 8 * RAND_SRC_BUF_OCTETS * e) then SourceError(s[e].code) else AlgoFail)
  }

  lemma StoppedByRun(s: seq<Draw>, m: nat)
    requires Draws(s) && m <= |s| && Given(s, m) && !NoLongRun(Joined(s, m), 8 * RAND_SRC_BUF_OCTETS * m)
    ensures Tested(s, AlgoFail)
  {
    hide RunLen, NoLongRun, Joined, InRange, MonobitPasses, PokerPasses;
    if Given(s, |s|) {
      LongRunLater(s, m, |s|);
    }
    forall e: nat | e < |s| && Given(s, e) && s[e].Failed?
      ensures !NoLongRun(Joined(s, e), 8 * RAND_SRC_BUF_OCTETS * e)
    {
      LongRunLater(s, m, e);
    }
  }

  lemma StoppedByError(s: seq<Draw>, m: nat)
    requires Draws(s) && m < |s| && Given(s, m) && s[m].Failed?
    requires NoLongRun(Joined(s, m), 8 * RAND_SRC_BUF_OCTETS * m)
    ensures Tested(s, SourceError(s[m].code))
  {
    hide RunLen, NoLongRun, Joined, RunsPass, MonobitPasses, PokerPasses;
    forall e: nat | e < |s| && Given(s, e) && s[e].Failed?
      ensures e == m
    {
    }
  }

  lemma JoinedStep(s: seq<Draw>, n: nat)
    requires Draws(s) && n < |s| && Given(s, n + 1)
    ensures Joined(s, n + 1) == Joined(s, n) + s[n].data
  {
  }

  // One more buffer; the test goes on as long as there is no result.
  method TakeBuffer(counter: RunCounter, f: array<nat>, onesCount0: nat, buffer: array<Octet>, draws: seq<Draw>, i: nat)
    returns (stopped: bool, status: Status, onesCount: nat)
    requires Draws(draws) && i < |draws| && Given(draws, i) && buffer.Length == RAND_SRC_BUF_OCTETS
    requires f != counter.runs && f != counter.gaps
    requires AllCounted(counter, f, onesCount0, Joined(draws, i), RAND_SRC_BUF_OCTETS * i)
    modifies counter, counter.runs, counter.gaps, f, buffer
    ensures stopped ==> Tested(draws, status)
    ensures !stopped ==> Given(draws, i + 1) && AllCounted(counter, f, onesCount, Joined(draws, i + 1), RAND_SRC_BUF_OCTETS * (i + 1))
  {
    hide RunLen, NoLongRun, Joined, Tested, Finished, Ones, Nibbles, Counted;
    onesCount := onesCount0;
    var code := GetRandBytes(buffer, draws[i]);
    if code != 0 {
      StoppedByError(draws, i);
      return true, SourceError(code), onesCount;
    }
    assert draws[i].Octets?;
    ghost var d := Joined(draws, i);
    JoinedStep(draws, i);
    var ok;
    ok, onesCount := CountBuffer(counter, f, onesCount, buffer, d);
    if !ok {
      StoppedByRun(draws, i + 1);
      return true, AlgoFail, onesCount;
    }
    stopped, status := false, Ok;
  }

  method StatTestRandSource(draws: seq<Draw>) returns (status: Status)
    requires Draws(draws)
    ensures Tested(draws, status)
  {
    hide RunLen, NoLongRun, Joined, Finished, Ones, Nibbles, Counted, MonobitPasses, PokerPasses, RunsPass;
    var f := new nat[16](i => 0);
    var buffer := new Octet[RAND_SRC_BUF_OCTETS](i => 0);
    var onesCount := 0;
    var counter := new RunCounter();
    NothingCounted(counter, f, draws);
    for i: nat := 0 to |draws|
      invariant fresh(counter) && fresh(counter.runs) && fresh(counter.gaps)
      invariant f != counter.runs && f != counter.gaps && Given(draws, i)
      invariant AllCounted(counter, f, onesCount, Joined(draws, i), RAND_SRC_BUF_OCTETS * i)
    {
      var stopped;
      stopped, status, onesCount := TakeBuffer(counter, f, onesCount, buffer, draws, i);
      if stopped {
        return;
      }
    }
    status := CheckCounts(counter, f, onesCount, Joined(draws, |draws|));
  }

  lemma NothingCounted(counter: RunCounter, f: array<nat>, s: seq<Draw>)
    requires counter.Counts([], 0) && f[..] == seq(16, i => 0)
    ensures AllCounted(counter, f, 0, Joined(s, 0), 0)
  {
    NoNibbles(f[..], []);
  }
}
