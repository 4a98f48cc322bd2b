// Stage planning of the mixed-radix transform: kf_factor and
// kiss_fft_next_fast_size.
module KissFactor {
  import opened NatArith

  const MAXFACTORS := 32
  const INT_LIMIT := 0x8000_0000

  // ------------------------------------------------------------ divisibility

  predicate Divides(d: int, n: int)
    requires d > 0
  {
    n % d == 0
  }

  predicate NoDivisorBelow(n: int, p: int) {
    forall d | 2 <= d < p :: !Divides(d, n)
  }

  predicate IsPrime(p: int) {
    p >= 2 && NoDivisorBelow(p, p)
  }

  lemma Quotient(d: int, n: int)
    requires d > 0 && n > 0 && Divides(d, n)
    ensures 1 <= n / d && d * (n / d) == n && Divides(n / d, n)
  {
    var c := n / d;
    assert n == c * d;
    assert n == d * c + 0;
    DivModUnique(n, d, 0, c);
  }

  lemma MultipleDivides(d: int, k: int)
    requires d > 0
    ensures Divides(d, k * d) && (k * d) / d == k
  {
    DivModUnique(k * d, k, 0, d);
  }

  lemma DividesTransitive(a: int, b: int, c: int)
    requires a > 0 && b > 0 && Divides(a, b) && Divides(b, c)
    ensures Divides(a, c)
  {
    var x, y := b / a, c / b;
    assert b == x * a && c == y * b;
    assert c == (y * x) * a;
    MultipleDivides(a, y * x);
  }

  lemma NoDivisorInQuotient(n: int, q: int, p: int)
    requires n > 0 && q > 0 && Divides(q, n) && NoDivisorBelow(n, p)
    ensures n / q > 0 && NoDivisorBelow(n / q, p)
  {
    Quotient(q, n);
    forall d | 2 <= d < p
      ensures !Divides(d, n / q)
    {
      if Divides(d, n / q) {
        DividesTransitive(d, n / q, n);
      }
    }
  }

  function Square(k: int): int { k * k }

  // A number with no divisor below p, and smaller than p*p, is one or prime.
  lemma PrimeBySearch(n: int, p: int)
    requires n >= 1 && p >= 2 && NoDivisorBelow(n, p) && n < Square(p)
    ensures n == 1 || IsPrime(n)
  {
    forall d | 2 <= d < n
      ensures !Divides(d, n)
    {
      if Divides(d, n) {
        var c := n / d;
        Quotient(d, n);
        assert d >= p;
        if c >= p {
          MulMono(p, c, d);
          MulMono(p, d, p);
        }
      }
    }
  }

  // floor(sqrt(n)), which the C library computes exactly for every int
  ghost predicate IsFloorSqrt(root: int, n: int) {
    root >= 0 && Square(root) <= n && forall k | k > root :: Square(k) > n
  }

  method FloorSqrt(n: nat) returns (root: nat)
    ensures IsFloorSqrt(root, n)
  {
    root := 0;
    while Square(root + 1) <= n
      invariant Square(root) <= n
      decreases n - root
    {
      root := root + 1;
    }
    forall k | k > root
      ensures Square(k) > n
    {
      MulMono(root + 1, k, k);
      MulMono(root + 1, k, root + 1);
    }
  }

  // --------------------------------------------------- what a plan looks like

  // What the recursion of kf_work reads: radix and remaining length, stage by stage.
  predicate StageList(fac: seq<int>, idx: nat, len: int)
    decreases |fac| - idx
  {
    && idx + 1 < |fac|
    && fac[idx] >= 1 && fac[idx + 1] >= 1
    && fac[idx] * fac[idx + 1] == len
    && (fac[idx + 1] == 1 || StageList(fac, idx + 2, fac[idx + 1]))
  }

  function Radix(fac: seq<int>, i: nat): int {
    if 2 * i < |fac| then fac[2 * i] else 0
  }

  // The length still to be split after i stages.
  function Rest(fac: seq<int>, i: nat, total: int): int {
    if i == 0 then total else if 2 * i - 1 < |fac| then fac[2 * i - 1] else 0
  }

  predicate StageOk(fac: seq<int>, i: nat, total: int) {
    && Radix(fac, i) >= 1 && Rest(fac, i + 1, total) >= 1
    && Rest(fac, i, total) == Radix(fac, i) * Rest(fac, i + 1, total)
  }

  // The first count stages split total down to n.
  ghost predicate Chain(fac: seq<int>, count: nat, total: int, n: int) {
    && 2 * count <= |fac|
    && (forall i | 0 <= i < count :: StageOk(fac, i, total))
    && (forall i | 1 <= i < count :: Rest(fac, i, total) > 1)
    && Rest(fac, count, total) == n
  }

  // Every radix is four or prime, and at most one of them is two.
  ghost predicate GoodRadices(fac: seq<int>, count: nat) {
    && (forall i {:trigger Radix(fac, i)} | 0 <= i < count :: Radix(fac, i) == 4 || IsPrime(Radix(fac, i)))
    && (forall i, j {:trigger Radix(fac, i), Radix(fac, j)} | 0 <= i < j < count :: !(Radix(fac, i) == 2 && Radix(fac, j) == 2))
  }

  lemma {:induction false} ChainIsStageList(fac: seq<int>, count: nat, total: int, i: nat)
    requires Chain(fac, count, total, 1) && i < count
    ensures StageList(fac, 2 * i, Rest(fac, i, total))
    decreases count - i
  {
    assert StageOk(fac, i, total);
    if i + 1 < count {
      ChainIsStageList(fac, count, total, i + 1);
    }
  }

  function Record(fac: seq<int>, count: nat, p: int, r: int): seq<int>
    requires 2 * count + 2 <= |fac|
  {
    fac[2 * count := p][2 * count + 1 := r]
  }

  lemma RecordKeeps(fac: seq<int>, count: nat, p: int, r: int, total: int)
    requires 2 * count + 2 <= |fac|
    ensures var fac' := Record(fac, count, p, r);
            && (forall i {:trigger Radix(fac', i)} | 0 <= i < count :: Radix(fac', i) == Radix(fac, i))
            && (forall i {:trigger Rest(fac', i, total)} | 0 <= i <= count :: Rest(fac', i, total) == Rest(fac, i, total))
            && Radix(fac', count) == p && Rest(fac', count + 1, total) == r
  {
  }

  lemma ChainOneMore(fac: seq<int>, count: nat, total: int, n: int, p: int, r: int)
    requires Chain(fac, count, total, n) && p >= 1 && r >= 1 && n == p * r
    requires 2 * count + 2 <= |fac| && (count >= 1 ==> n > 1)
    ensures Chain(Record(fac, count, p, r), count + 1, total, r)
  {
    var fac' := Record(fac, count, p, r);
    RecordKeeps(fac, count, p, r, total);
    forall i | 0 <= i < count + 1
      ensures StageOk(fac', i, total)
    {
      assert i < count ==> StageOk(fac, i, total);
    }
  }

  // The quotient is odd once a two has been split off.
  ghost predicate TwoUsedUp(fac: seq<int>, count: nat, n: int) {
    forall i {:trigger Radix(fac, i)} | 0 <= i < count && Radix(fac, i) == 2 :: !Divides(2, n)
  }

  lemma RadicesOneMore(fac: seq<int>, count: nat, p: int, r: int, n: int)
    requires 2 * count + 2 <= |fac| && GoodRadices(fac, count) && TwoUsedUp(fac, count, n)
    requires p == 4 || IsPrime(p)
    requires p == 2 ==> Divides(2, n) && !Divides(2, r)
    requires !Divides(2, n) ==> !Divides(2, r)
    ensures GoodRadices(Record(fac, count, p, r), count + 1)
    ensures TwoUsedUp(Record(fac, count, p, r), count + 1, r)
  {
    var fac' := Record(fac, count, p, r);
    RecordKeeps(fac, count, p, r, 0);
    forall i {:trigger Radix(fac', i)} | 0 <= i < count + 1
      ensures Radix(fac', i) == 4 || IsPrime(Radix(fac', i))
      ensures Radix(fac', i) == 2 ==> !Divides(2, r)
    {
      assert i < count ==> Radix(fac, i) == Radix(fac', i);
    }
    forall i, j {:trigger Radix(fac', i), Radix(fac', j)} | 0 <= i < j < count + 1
      ensures !(Radix(fac', i) == 2 && Radix(fac', j) == 2)
    {
      assert Radix(fac, i) == Radix(fac', i);
      assert j < count ==> Radix(fac, j) == Radix(fac', j);
    }
  }

  // -------------------------------------------------------- the divisor search

  // The trial divisor: 4, then 2, then the odd numbers, or all that is left.
  ghost predicate Candidate(n: int, p: int, root: int) {
    || p == 4
    || (p == 2 && root >= 2 && !Divides(4, n))
    || (p >= 3 && p % 2 == 1 && p <= root && NoDivisorBelow(n, p))
    || (p == n && (n == 1 || IsPrime(n)))
  }

  function NextTrial(p: int): int {
    match p
    case 4 => 2
    case 2 => 3
    case _ => p + 2
  }

  // Beyond the square root only the number itself is left to try.
  function SkipToEnd(p: int, n: int, root: int): int {
    if p > root then n else p
  }

  // How many trial divisors are still to come.
  function Progress(n: int, p: int, root: int): nat
    requires p > 0 && root >= 0
  {
    if Divides(p, n) then 0
    else if p == 4 then root + 4
    else if p <= root then root + 3 - p
    else 1
  }

  lemma OneMoreNonDivisor(n: int, p: int)
    requires p >= 3 && p % 2 == 1 && NoDivisorBelow(n, p) && !Divides(p, n)
    ensures NoDivisorBelow(n, p + 2)
  {
    if Divides(p + 1, n) {
      DividesTransitive(2, p + 1, n);
    }
  }

  lemma NextCandidate(n: int, p: int, root: int, total: int)
    requires 1 <= n <= total && IsFloorSqrt(root, total)
    requires p >= 1 && Candidate(n, p, root) && !Divides(p, n)
    ensures Candidate(n, SkipToEnd(NextTrial(p), n, root), root)
    ensures Progress(n, SkipToEnd(NextTrial(p), n, root), root) < Progress(n, p, root)
  {
    var p' := NextTrial(p);
    MultipleDivides(n, 1);
    if p != 4 && p != 2 {
      OneMoreNonDivisor(n, p);
    }
    assert NoDivisorBelow(n, p');
    if p' > root {
      assert Square(p') > total;
      PrimeBySearch(n, p');
    }
  }

  // A candidate that divides n is a radix the transform can use, and stays a
  // candidate for the quotient.
  lemma AcceptCandidate(n: int, p: int, root: int)
    requires n > 1 && p >= 1 && Candidate(n, p, root) && Divides(p, n)
    ensures p == 4 || IsPrime(p)
    ensures n / p >= 1 && n == p * (n / p)
    ensures n / p > 1 ==> Candidate(n / p, p, root)
    ensures p == 2 ==> !Divides(2, n / p)
    ensures !Divides(2, n) ==> !Divides(2, n / p)
  {
    Quotient(p, n);
    if Divides(2, n / p) {
      DividesTransitive(2, n / p, n);
    }
    if p == n {
      assert n * (n / n) == n;
      MultipleDivides(n, 1);
    } else if p != 2 && p != 4 {
      NoDivisorInQuotient(n, p, p);
      forall d | 2 <= d < p
        ensures !Divides(d, p)
      {
        if Divides(d, p) {
          DividesTransitive(d, p, n);
        }
      }
    }
  }

  // ------------------------------------------------------- the number of stages

  function Pow2(e: nat): (r: nat)
    ensures r >= 1
  {
    if e == 0 then 1 else 2 * Pow2(e - 1)
  }

  lemma {:induction false} Pow2Large(e: nat)
    requires e >= 31
    ensures Pow2(e) >= INT_LIMIT
  {
    if e > 31 {
      Pow2Large(e - 1);
    } else {
      assert Pow2(8) == 256;
      assert Pow2(16) == 65536;
      assert Pow2(24) == 0x100_0000;
    }
  }

  // Each stage at least halves the length, so the plan fits its buffer.
  lemma CountFits(count: nat, n: int, total: int)
    requires n >= 1 && Pow2(count) * n <= total < INT_LIMIT
    ensures 2 * count + 2 <= 2 * MAXFACTORS
  {
    MulMono(1, n, Pow2(count));
    if count >= 31 {
      Pow2Large(count);
    }
  }

  lemma StageHalves(count: nat, n: int, p: int, r: int, total: int)
    requires r >= 1 && n == p * r && p >= 2 && Pow2(count) * n <= total
    ensures Pow2(count + 1) * r <= total
    ensures r < n
  {
    MulMono(2, p, Pow2(count) * r);
    assert Pow2(count + 1) * r == 2 * (Pow2(count) * r);
    assert p * (Pow2(count) * r) == Pow2(count) * n;
    MulMono(2, p, r);
  }

  // ------------------------------------------------------------------ kf_factor

  // What holds between two stages.
  ghost predicate Planned(fac: seq<int>, count: nat, total: int, n: int) {
    && 1 <= n <= total
    && Chain(fac, count, total, n)
    && (total >= 2 ==> GoodRadices(fac, count) && TwoUsedUp(fac, count, n) && Pow2(count) * n <= total)
  }

  lemma StageStep(fac: seq<int>, count: nat, total: int, n: int, p: int, root: int)
    requires 1 <= total < INT_LIMIT && |fac| >= 2 * MAXFACTORS
    requires Planned(fac, count, total, n) && p >= 1 && Divides(p, n) && Candidate(n, p, root)
    requires if total >= 2 then n > 1 else count == 0
    ensures 2 * count + 2 <= 2 * MAXFACTORS
    ensures Planned(Record(fac, count, p, n / p), count + 1, total, n / p)
    ensures n / p > 1 ==> n / p < n && Candidate(n / p, p, root)
    ensures total == 1 ==> n / p == 1
  {
    if total > 1 {
      CountFits(count, n, total);
      AcceptCandidate(n, p, root);
      StageHalves(count, n, p, n / p, total);
      ChainOneMore(fac, count, total, n, p, n / p);
      RadicesOneMore(fac, count, p, n / p, n);
    } else {
      Quotient(p, 1);
      assert p == 1;
      ChainOneMore(fac, 0, 1, 1, 1, 1);
    }
  }

  lemma StartPlan(fac: seq<int>, total: int, root: int)
    requires total >= 1
    ensures Candidate(total, 4, root) && Planned(fac, 0, total, total)
  {
  }

  method KfFactor(total: int, facbuf: array<int>) returns (count: nat)
    requires 1 <= total < INT_LIMIT && facbuf.Length >= 2 * MAXFACTORS
    modifies facbuf
    ensures 1 <= count && (total >= 2 ==> Pow2(count) <= total)
    ensures StageList(facbuf[..], 0, total)
    ensures Planned(facbuf[..], count, total, 1)
  {
    hide Candidate, Chain, GoodRadices, TwoUsedUp, IsFloorSqrt, Divides, Pow2, StageList;
    var n, p := total, 4;
    var root := FloorSqrt(n);
    StartPlan(facbuf[..], total, root);
    count := 0;
    while true
      invariant p >= 1 && Candidate(n, p, root)
      invariant if total >= 2 then n > 1 else count == 0
      invariant Planned(facbuf[..], count, total, n)
      decreases n
    {
      ghost var recorded := facbuf[..];
      while !Divides(p, n)
        invariant facbuf[..] == recorded
        invariant p >= 1 && Candidate(n, p, root)
        decreases Progress(n, p, root)
      {
        NextCandidate(n, p, root, total);
        p := SkipToEnd(NextTrial(p), n, root);
      }
      StageStep(recorded, count, total, n, p, root);
      facbuf[2 * count] := p;
      facbuf[2 * count + 1] := n / p;
      assert facbuf[..] == Record(recorded, count, p, n / p);
      n := n / p;
      count := count + 1;
      if !(n > 1) {
        break;
      }
    }
    assert Planned(facbuf[..], count, total, 1);
    ChainIsStageList(facbuf[..], count, total, 0);
  }

  // ------------------------------------------------- kiss_fft_next_fast_size

  ghost predicate FiveSmooth(n: int) {
    forall p | p > 5 && IsPrime(p) :: !Divides(p, n)
  }

  // Euclid's lemma for the three small primes.
  lemma CancelSmallPrime(d: int, q: int, x: int)
    requires q in {2, 3, 5} && d > 5 && IsPrime(d) && Divides(d, q * x) && x > 0
    ensures Divides(d, x)
  {
    var k := (q * x) / d;
    assert k * d == q * x;
    assert !Divides(q, d);
    ProductRemainder(k, d, x, q);
    var b := k / q;
    assert k == b * q;
    assert q * (b * d) == q * x;
    assert x == b * d;
    MultipleDivides(d, b);
  }

  lemma ProductRemainder(k: int, d: int, x: int, q: int)
    requires q in {2, 3, 5} && d % q != 0 && k * d == q * x
    ensures k % q == 0
  {
    var a, r, b, s := d / q, d % q, k / q, k % q;
    assert d == q * a + r && k == q * b + s;
    assert k * d == q * (b * d + s * a) + s * r;
    SmallProduct(s, r, q, x - b * d - s * a);
  }

  lemma SmallProduct(s: int, r: int, q: int, t: int)
    requires q in {2, 3, 5} && 0 <= s < q && 1 <= r < q && s * r == q * t
    ensures s == 0
  {
    if r == 1 {
    } else if r == 2 {
    } else if r == 3 {
    } else {
      assert r == 4;
    }
  }

  lemma StripKeepsLargePrimes(m: int, q: int, n: int)
    requires q in {2, 3, 5} && m > 0 && Divides(q, m) && SameLargePrimes(m, n)
    ensures m / q > 0 && m / q < m && SameLargePrimes(m / q, n)
    ensures forall d | d in {2, 3, 5} && !Divides(d, m) :: !Divides(d, m / q)
  {
    Quotient(q, m);
    forall d | d > 5 && IsPrime(d)
      ensures Divides(d, m / q) <==> Divides(d, n)
    {
      if Divides(d, m) {
        CancelSmallPrime(d, q, m / q);
      } else if Divides(d, m / q) {
        DividesTransitive(d, m / q, m);
      }
    }
    forall d | d in {2, 3, 5} && !Divides(d, m)
      ensures !Divides(d, m / q)
    {
      if Divides(d, m / q) {
        DividesTransitive(d, m / q, m);
      }
    }
  }

  ghost predicate SameLargePrimes(m: int, n: int) {
    forall d | d > 5 && IsPrime(d) :: Divides(d, m) <==> Divides(d, n)
  }

  lemma {:induction false} HasPrimeDivisor(n: int, from: int) returns (p: int)
    requires 2 <= from <= n && NoDivisorBelow(n, from)
    ensures IsPrime(p) && Divides(p, n)
    decreases n - from
  {
    if Divides(from, n) {
      p := from;
      forall d | 2 <= d < p
        ensures !Divides(d, p)
      {
        if Divides(d, p) {
          DividesTransitive(d, p, n);
        }
      }
    } else {
      MultipleDivides(n, 1);
      p := HasPrimeDivisor(n, from + 1);
    }
  }

  lemma StrippedIsOne(m: int, n: int)
    requires m > 0 && SameLargePrimes(m, n) && forall d | d in {2, 3, 5} :: !Divides(d, m)
    ensures m <= 1 <==> FiveSmooth(n)
  {
    if m <= 1 {
      forall p | p > 5 && IsPrime(p)
        ensures !Divides(p, n)
      {
        assert !Divides(p, 1);
      }
    } else {
      var p := HasPrimeDivisor(m, 2);
      assert p != 2 && p != 3 && p != 5;
      assert Divides(2, 4);
    }
  }

  lemma {:induction false} PowersOfTwoAreSmooth(e: nat)
    ensures FiveSmooth(Pow2(e))
  {
    if e == 0 {
      assert forall p | p > 5 && IsPrime(p) :: !Divides(p, 1);
    } else {
      PowersOfTwoAreSmooth(e - 1);
      forall p | p > 5 && IsPrime(p)
        ensures !Divides(p, Pow2(e))
      {
        if Divides(p, Pow2(e)) {
          CancelSmallPrime(p, 2, Pow2(e - 1));
        }
      }
    }
  }

  lemma {:induction false} PowerOfTwoAbove(n: int) returns (e: nat)
    requires n >= 1
    ensures n <= Pow2(e) < 2 * n
  {
    if n == 1 {
      e := 0;
    } else {
      e := PowerOfTwoAbove(n - 1);
      if Pow2(e) < n {
        e := e + 1;
      }
    }
  }

  // Divide every factor q out of m.
  method StripFactor(start: int, q: int, ghost n: int) returns (m: int)
    requires start > 0 && q in {2, 3, 5} && SameLargePrimes(start, n)
    ensures 0 < m && SameLargePrimes(m, n) && !Divides(q, m)
    ensures forall d | d in {2, 3, 5} && !Divides(d, start) :: !Divides(d, m)
  {
    m := start;
    while Divides(q, m)
      invariant 0 < m && SameLargePrimes(m, n)
      invariant forall d | d in {2, 3, 5} && !Divides(d, start) :: !Divides(d, m)
      decreases m
    {
      StripKeepsLargePrimes(m, q, n);
      m := m / q;
    }
  }

  // The least 5-smooth number from n on; it is below 2n, so an int holds it
  // whenever n is at most 2^30.
  method KissFftNextFastSize(start: int) returns (n: int)
    requires start >= 1
    ensures start <= n < 2 * start
    ensures FiveSmooth(n) && forall k | start <= k < n :: !FiveSmooth(k)
  {
    n := start;
    ghost var e := PowerOfTwoAbove(start);
    PowersOfTwoAreSmooth(e);
    while true
      invariant start <= n <= Pow2(e)
      invariant forall k | start <= k < n :: !FiveSmooth(k)
      decreases Pow2(e) - n
    {
      var m := StripFactor(n, 2, n);
      m := StripFactor(m, 3, n);
      m := StripFactor(m, 5, n);
      StrippedIsOne(m, n);
      if m <= 1 {
        break;
      }
      n := n + 1;
    }
  }
}
