// The few facts about quotients and remainders that the index arithmetic of the fast
// Fourier transform and the statistical tests use.
module NatArith {

  lemma DivModUnique(x: int, q: int, r: int, n: int)
    requires n > 0 && 0 <= r < n && x == q * n + r
    ensures x / n == q && x % n == r
  {
    var d := q - x / n;
    assert d * n == x % n - r;
  }

  lemma MulSucc(a: int, u: int)
    ensures a * (u + 1) == a * u + a
  {
  }

  lemma StepTwiddle(fstride: int, u: int, j: int)
    ensures fstride * (u + 1) * j == fstride * u * j + fstride * j
  {
    assert fstride * (u + 1) * j == (fstride * u + fstride) * j;
  }

  lemma MulMono(a: nat, b: nat, c: nat)
    requires a <= b
    ensures a * c <= b * c
  {
    assert (b - a) * c >= 0;
  }

  // A position in an array of p rows of length m, by row and column.
  lemma RowColumn(q: nat, u: nat, m: nat, p: nat)
    requires u < m && q < p
    ensures q * m + u < p * m
    ensures (q * m + u) % m == u && (q * m + u) / m == q
  {
    MulMono(q + 1, p, m);
    assert (q + 1) * m == q * m + m;
    DivModUnique(q * m + u, q, u, m);
  }

  lemma PositionSplits(k: nat, m: nat, p: nat)
    requires m > 0 && k < p * m
    ensures k == (k / m) * m + k % m && k / m < p && k % m < m
  {
    if k / m >= p {
      MulMono(p, k / m, m);
    }
  }

  lemma MulAssoc3(a: nat, b: nat, c: nat)
    ensures a * b * c == a * (b * c) && a * b * c == a * c * b
  {
  }

  lemma MulSum(a: nat, b: nat, c: nat)
    ensures (a + b) * c == a * c + b * c && c * (a + b) == c * a + c * b
  {
  }

  // A product that proofs can name without opening it
  function Prod(a: nat, b: nat): nat { a * b }

  lemma ProdSum(a: nat, b: nat, c: nat)
    ensures Prod(a, b + c) == Prod(a, b) + Prod(a, c)
  {
  }

  lemma ProdAssoc(a: nat, b: nat, c: nat)
    ensures Prod(Prod(a, b), c) == Prod(a, Prod(b, c)) == Prod(Prod(a, c), b)
  {
  }

  lemma ProdMono(a: nat, b: nat, c: nat)
    requires b <= c
    ensures Prod(a, b) <= Prod(a, c)
  {
    hide Prod;
    ProdSum(a, b, c - b);
  }

  lemma ProdOne(a: nat)
    ensures Prod(a, 1) == a == Prod(1, a)
  {
  }

  lemma ProdComm(a: nat, b: nat)
    ensures Prod(a, b) == Prod(b, a)
  {
  }

  // ---------------------------------------------------------------------- parity

  lemma {:induction false} SquareParity(x: nat)
    ensures x * x % 2 == x % 2
  {
    if x > 0 {
      SquareParity(x - 1);
      assert x * x == (x - 1) * (x - 1) + 2 * x - 1;
      NextParity((x - 1) * (x - 1), x * x, x);
    }
  }

  lemma NextParity(q: nat, s: nat, x: nat)
    requires x > 0 && s == q + 2 * x - 1 && q % 2 == (x - 1) % 2
    ensures s % 2 == x % 2
  {
  }

  lemma SumParity(a: nat, b: nat, x: nat, y: nat)
    requires a % 2 == b % 2 && x % 2 == y % 2
    ensures (a + x) % 2 == (b + y) % 2
  {
  }
}
