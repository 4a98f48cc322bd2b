// Finite sums over a commutative ring, and the two ways of splitting the sum
// that defines a discrete Fourier transform.  Keeping the ring abstract keeps
// the products of real and imaginary parts out of these proofs.
module RingSums {

  datatype Ring<!T> = Ring(zero: T, add: (T, T) -> T, mul: (T, T) -> T)
  {
    ghost predicate AddAssoc(a: T, b: T, c: T) { add(add(a, b), c) == add(a, add(b, c)) }

    ghost predicate AddComm(a: T, b: T) { add(a, b) == add(b, a) }

    ghost predicate MulAssoc(a: T, b: T, c: T) { mul(mul(a, b), c) == mul(a, mul(b, c)) }

    ghost predicate MulComm(a: T, b: T) { mul(a, b) == mul(b, a) }

    ghost predicate Distributes(a: T, b: T, c: T) { mul(a, add(b, c)) == add(mul(a, b), mul(a, c)) }
  }

  ghost predicate IsRing<T(!new)>(R: Ring<T>) {
    && (forall a, b, c :: R.AddAssoc(a, b, c))
    && (forall a, b :: R.AddComm(a, b))
    && (forall a, b, c :: R.MulAssoc(a, b, c))
    && (forall a, b :: R.MulComm(a, b))
    && (forall a, b, c :: R.Distributes(a, b, c))
    && (forall a :: R.add(a, R.zero) == a)
    && (forall a :: R.mul(a, R.zero) == R.zero)
  }

  // w turns sums of exponents into products, as k -> exp(-2*pi*i*k/n) does.
  ghost predicate ExponentRule<T>(R: Ring<T>, w: nat -> T, a: nat, b: nat) {
    w(a + b) == R.mul(w(a), w(b))
  }

  ghost predicate IsCharacter<T>(R: Ring<T>, w: nat -> T) {
    forall a: nat, b: nat :: ExponentRule(R, w, a, b)
  }

  // Samples outside the buffer never matter; reading them as zero keeps the sums total.
  function At<T>(R: Ring<T>, f: seq<T>, i: nat): T {
    if i < |f| then f[i] else R.zero
  }

  // sum over j < len of f[off + stride*j] * w(e*j)
  function Sum<T>(R: Ring<T>, f: seq<T>, off: nat, stride: nat, w: nat -> T, e: nat, len: nat): T {
    if len == 0 then R.zero
    else
      R.add(Sum(R, f, off, stride, w, e, len - 1),
            R.mul(At(R, f, off + stride * (len - 1)), w(e * (len - 1))))
  }

  // What a stage computes from p sub-transforms: sum over q < count of
  // (the length m sum over samples q, q+p, q+2p, ...) * w(e*q).
  function Combined<T>(R: Ring<T>, f: seq<T>, off: nat, stride: nat, w: nat -> T, e: nat, p: nat, m: nat,
                       count: nat): T {
    if count == 0 then R.zero
    else
      var q := count - 1;
      R.add(Combined(R, f, off, stride, w, e, p, m, q),
            R.mul(Sum(R, f, off + stride * q, stride * p, w, e * p, m), w(e * q)))
  }

  lemma {:induction false} SumSplit<T(!new)>(R: Ring<T>, f: seq<T>, off: nat, stride: nat, w: nat -> T, e: nat,
                                             a: nat, b: nat)
    requires IsRing(R) && IsCharacter(R, w)
    ensures Sum(R, f, off, stride, w, e, a + b)
         == R.add(Sum(R, f, off, stride, w, e, a), R.mul(w(e * a), Sum(R, f, off + stride * a, stride, w, e, b)))
    decreases b
  {
    if b > 0 {
      var j := b - 1;
      SumSplit(R, f, off, stride, w, e, a, j);
      assert off + stride * (a + j) == off + stride * a + stride * j;
      assert e * (a + j) == e * a + e * j;
      assert ExponentRule(R, w, e * a, e * j);
      var x, u, v := At(R, f, off + stride * (a + j)), w(e * a), w(e * j);
      Rotate(R, x, u, v);
      var s, t := Sum(R, f, off, stride, w, e, a), Sum(R, f, off + stride * a, stride, w, e, j);
      assert R.Distributes(u, t, R.mul(x, v));
      assert R.AddAssoc(s, R.mul(u, t), R.mul(u, R.mul(x, v)));
    }
  }

  lemma Rotate<T(!new)>(R: Ring<T>, x: T, u: T, v: T)
    requires IsRing(R)
    ensures R.mul(x, R.mul(u, v)) == R.mul(u, R.mul(x, v))
    ensures R.mul(R.mul(x, u), v) == R.mul(u, R.mul(x, v))
  {
    assert R.MulAssoc(x, u, v) && R.MulComm(x, u) && R.MulAssoc(u, x, v);
  }

  lemma AddExchange<T(!new)>(R: Ring<T>, a: T, b: T, c: T, d: T)
    requires IsRing(R)
    ensures R.add(R.add(a, b), R.add(c, d)) == R.add(R.add(a, c), R.add(b, d))
  {
    assert R.AddAssoc(R.add(a, b), c, d) && R.AddAssoc(a, b, c) && R.AddComm(b, c);
    assert R.AddAssoc(a, c, b) && R.AddAssoc(R.add(a, c), b, d);
  }

  lemma {:induction false} CombinedZero<T(!new)>(R: Ring<T>, f: seq<T>, off: nat, stride: nat, w: nat -> T, e: nat,
                                                 p: nat, count: nat)
    requires IsRing(R)
    ensures Combined(R, f, off, stride, w, e, p, 0, count) == R.zero
  {
    if count > 0 {
      CombinedZero(R, f, off, stride, w, e, p, count - 1);
      var v := w(e * (count - 1));
      assert R.MulComm(R.zero, v);
    }
  }

  // One more sample in each of the sub-transforms adds one block of consecutive samples.
  lemma {:induction false} CombinedGrows<T(!new)>(R: Ring<T>, f: seq<T>, off: nat, stride: nat, w: nat -> T, e: nat,
                                                  p: nat, m: nat, count: nat)
    requires IsRing(R) && IsCharacter(R, w)
    ensures Combined(R, f, off, stride, w, e, p, m + 1, count)
         == R.add(Combined(R, f, off, stride, w, e, p, m, count),
                  R.mul(w(e * (p * m)), Sum(R, f, off + stride * (p * m), stride, w, e, count)))
    decreases count
  {
    var u := w(e * (p * m));
    if count > 0 {
      var q := count - 1;
      CombinedGrows(R, f, off, stride, w, e, p, m, q);
      SampleIndex(off, stride, q, p, m);
      assert e * p * m == e * (p * m);
      var s := Sum(R, f, off + stride * q, stride * p, w, e * p, m);
      var x, v := At(R, f, off + stride * q + stride * p * m), w(e * q);
      var c, t := Combined(R, f, off, stride, w, e, p, m, q), Sum(R, f, off + stride * (p * m), stride, w, e, q);
      Regroup(R, c, u, t, s, x, v);
    }
  }

  lemma SampleIndex(off: nat, stride: nat, q: nat, p: nat, m: nat)
    ensures off + stride * q + stride * p * m == off + stride * (p * m) + stride * q
  {
  }

  lemma Regroup<T(!new)>(R: Ring<T>, c: T, u: T, t: T, s: T, x: T, v: T)
    requires IsRing(R)
    ensures R.add(R.add(c, R.mul(u, t)), R.mul(R.add(s, R.mul(x, u)), v))
         == R.add(R.add(c, R.mul(s, v)), R.mul(u, R.add(t, R.mul(x, v))))
  {
    // (s + x*u) * v == s*v + u*(x*v)
    assert R.MulComm(R.add(s, R.mul(x, u)), v) && R.Distributes(v, s, R.mul(x, u));
    assert R.MulComm(v, s) && R.MulComm(v, R.mul(x, u));
    Rotate(R, x, u, v);
    AddExchange(R, c, R.mul(u, t), R.mul(s, v), R.mul(u, R.mul(x, v)));
    assert R.Distributes(u, t, R.mul(x, v));
  }

  // A sum of p*m samples is the combination of p interleaved sums of m samples.
  lemma {:induction false} Decimation<T(!new)>(R: Ring<T>, f: seq<T>, off: nat, stride: nat, w: nat -> T, e: nat,
                                               p: nat, m: nat)
    requires IsRing(R) && IsCharacter(R, w)
    ensures Combined(R, f, off, stride, w, e, p, m, p) == Sum(R, f, off, stride, w, e, p * m)
    decreases m
  {
    if m == 0 {
      CombinedZero(R, f, off, stride, w, e, p, p);
    } else {
      Decimation(R, f, off, stride, w, e, p, m - 1);
      CombinedGrows(R, f, off, stride, w, e, p, m - 1, p);
      assert p * m == p * (m - 1) + p;
      SumSplit(R, f, off, stride, w, e, p * (m - 1), p);
    }
  }

  ghost predicate SameTurn<T>(w: nat -> T, e: nat, e': nat, j: nat) {
    w(e * j) == w(e' * j)
  }

  // Exponent steps that differ by a period of w give the same sum.
  lemma {:induction false} SumPeriod<T(!new)>(R: Ring<T>, f: seq<T>, off: nat, stride: nat, w: nat -> T, e: nat,
                                              e': nat, len: nat)
    requires forall j: nat :: SameTurn(w, e, e', j)
    ensures Sum(R, f, off, stride, w, e, len) == Sum(R, f, off, stride, w, e', len)
  {
    if len > 0 {
      SumPeriod(R, f, off, stride, w, e, e', len - 1);
      assert SameTurn(w, e, e', len - 1);
    }
  }
}
