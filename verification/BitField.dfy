// Numbers as rows of bits: shifts, masks, or and exclusive or, all seen bit by bit.
module BitField {
  import opened Octets

  function Bit(x: nat, k: nat): (b: nat)
    ensures b < 2
  {
    if k == 0 then x % 2 else Bit(x / 2, k - 1)
  }

  function Shr(x: nat, k: nat): nat {
    if k == 0 then x else Shr(x / 2, k - 1)
  }

  function Shl(x: nat, k: nat): nat {
    if k == 0 then x else 2 * Shl(x, k - 1)
  }

  // The low n bits
  function Low(x: nat, n: nat): (l: nat)
    ensures l < Power2(n)
  {
    if n == 0 then 0 else x % 2 + 2 * Low(x / 2, n - 1)
  }

  function Or(a: nat, b: nat, n: nat): (x: nat)
    ensures x < Power2(n)
  {
    if n == 0 then 0 else OrBit(a % 2, b % 2) + 2 * Or(a / 2, b / 2, n - 1)
  }

  function OrBit(a: nat, b: nat): (c: nat)
    requires a < 2 && b < 2
    ensures c < 2
  {
    if a == 1 then 1 else b
  }

  lemma {:induction false} BitShr(x: nat, j: nat, k: nat)
    ensures Bit(Shr(x, j), k) == Bit(x, j + k)
  {
    if j > 0 {
      BitShr(x / 2, j - 1, k);
    }
  }

  lemma {:induction false} BitShl(x: nat, j: nat, k: nat)
    ensures Bit(Shl(x, j), k) == if k < j then 0 else Bit(x, k - j)
  {
    if j > 0 {
      var y := Shl(x, j - 1);
      assert Shl(x, j) == 2 * y && 2 * y / 2 == y && 2 * y % 2 == 0;
      if k > 0 {
        BitShl(x, j - 1, k - 1);
      }
    }
  }

  lemma {:induction false} BitLow(x: nat, n: nat, k: nat)
    ensures Bit(Low(x, n), k) == if k < n then Bit(x, k) else 0
  {
    if n == 0 {
      BitZero(k);
    } else {
      var y := Low(x / 2, n - 1);
      assert (x % 2 + 2 * y) / 2 == y && (x % 2 + 2 * y) % 2 == x % 2;
      if k > 0 {
        BitLow(x / 2, n - 1, k - 1);
      }
    }
  }

  lemma {:induction false} BitZero(k: nat)
    ensures Bit(0, k) == 0
  {
    if k > 0 {
      BitZero(k - 1);
    }
  }

  lemma {:induction false} BitOr(a: nat, b: nat, n: nat, k: nat)
    requires k < n
    ensures Bit(Or(a, b, n), k) == OrBit(Bit(a, k), Bit(b, k))
  {
    var c, y := OrBit(a % 2, b % 2), Or(a / 2, b / 2, n - 1);
    assert (c + 2 * y) / 2 == y && (c + 2 * y) % 2 == c;
    if k > 0 {
      BitOr(a / 2, b / 2, n - 1, k - 1);
    }
  }

  // The sum of two bits without carry
  function Differ(a: nat, b: nat): nat { if a == b then 0 else 1 }

  lemma {:induction false} BitXor(a: nat, b: nat, n: nat, k: nat)
    requires k < n
    ensures Bit(XorBits(a, b, n), k) == Differ(Bit(a, k), Bit(b, k))
  {
    var c, y := (a + b) % 2, XorBits(a / 2, b / 2, n - 1);
    assert (c + 2 * y) / 2 == y && (c + 2 * y) % 2 == c;
    if k == 0 {
      OneSum(a, b);
    } else {
      BitXor(a / 2, b / 2, n - 1, k - 1);
    }
  }

  lemma OneSum(a: nat, b: nat)
    ensures (a + b) % 2 == Differ(a % 2, b % 2)
  {
  }

  // No bits from the nth on
  lemma {:induction false} BitAbove(x: nat, n: nat, k: nat)
    requires x < Power2(n) && n <= k
    ensures Bit(x, k) == 0
  {
    if n == 0 {
      BitZero(k);
    } else {
      BitAbove(x / 2, n - 1, k - 1);
    }
  }

  // Numbers are the same when their bits are.
  ghost predicate SameBits(a: nat, b: nat, n: nat) { forall k: nat | k < n :: Bit(a, k) == Bit(b, k) }

  lemma {:induction false} BitsDecide(a: nat, b: nat, n: nat)
    requires a < Power2(n) && b < Power2(n) && SameBits(a, b, n)
    ensures a == b
  {
    if n > 0 {
      assert Bit(a, 0) == Bit(b, 0);
      forall k: nat | k < n - 1
        ensures Bit(a / 2, k) == Bit(b / 2, k)
      {
        assert Bit(a, k + 1) == Bit(b, k + 1);
      }
      BitsDecide(a / 2, b / 2, n - 1);
    }
  }

  // ------------------------------------------------------------------ Gray code

  // x ^ (x >> s), on unsigned words of 32 bits
  function XorShift(x: nat, s: nat): (y: nat)
    ensures y < Power2(32)
  {
    XorBits(x, Shr(x, s), 32)
  }

  function Gray(x: nat): nat { XorShift(x, 1) }

  // The shifts of unpack
  function Ungray(f: nat): nat { XorShift(XorShift(XorShift(XorShift(f, 8), 4), 2), 1) }

  lemma XorShiftBit(x: nat, s: nat, k: nat)
    requires x < Power2(32)
    ensures Bit(XorShift(x, s), k) == Differ(Bit(x, k), Bit(x, k + s))
  {
    hide Bit, XorBits, Shr, Power2;
    if k < 32 {
      BitXor(x, Shr(x, s), 32, k);
      BitShr(x, s, k);
    } else {
      BitAbove(XorShift(x, s), 32, k);
      BitAbove(x, 32, k);
      BitAbove(x, 32, k + s);
    }
  }

  // The steps commute, and one step taken twice is the step by twice the distance.
  lemma StepsCommute(x: nat, s: nat, t: nat)
    requires x < Power2(32)
    ensures XorShift(XorShift(x, s), t) == XorShift(XorShift(x, t), s)
  {
    hide Bit, XorShift, Power2, Differ;
    var a, b := XorShift(XorShift(x, s), t), XorShift(XorShift(x, t), s);
    forall k: nat | k < 32
      ensures Bit(a, k) == Bit(b, k)
    {
      XorShiftBit(XorShift(x, s), t, k);
      XorShiftBit(XorShift(x, t), s, k);
      XorShiftBit(x, s, k);
      XorShiftBit(x, s, k + t);
      XorShiftBit(x, t, k);
      XorShiftBit(x, t, k + s);
      assert k + s + t == k + t + s;
      FourBits(Bit(x, k), Bit(x, k + s), Bit(x, k + t), Bit(x, k + s + t));
    }
    BitsDecide(a, b, 32);
  }

  lemma FourBits(a: nat, b: nat, c: nat, d: nat)
    requires a < 2 && b < 2 && c < 2 && d < 2
    ensures Differ(Differ(a, b), Differ(c, d)) == Differ(Differ(a, c), Differ(b, d))
    ensures b == c ==> Differ(Differ(a, b), Differ(c, d)) == Differ(a, d)
  {
  }

  lemma StepTwice(x: nat, s: nat)
    requires x < Power2(32)
    ensures XorShift(XorShift(x, s), s) == XorShift(x, 2 * s)
  {
    hide Bit, XorShift, Power2, Differ;
    var a, b := XorShift(XorShift(x, s), s), XorShift(x, 2 * s);
    forall k: nat | k < 32
      ensures Bit(a, k) == Bit(b, k)
    {
      XorShiftBit(XorShift(x, s), s, k);
      XorShiftBit(x, s, k);
      XorShiftBit(x, s, k + s);
      XorShiftBit(x, 2 * s, k);
      assert k + s + s == k + 2 * s;
      FourBits(Bit(x, k), Bit(x, k + s), Bit(x, k + s), Bit(x, k + s + s));
    }
    BitsDecide(a, b, 32);
  }

  // Decoding leaves one step by sixteen of the encoding.
  lemma UngrayGray(x: nat)
    requires x < Power2(32)
    ensures Ungray(Gray(x)) == XorShift(x, 16)
  {
    hide XorShift, Power2;
    var y := XorShift(x, 8);
    StepsCommute(x, 1, 8);
    var z := XorShift(y, 4);
    StepsCommute(y, 1, 4);
    var w := XorShift(z, 2);
    StepsCommute(z, 1, 2);
    StepTwice(w, 1);
    StepTwice(z, 2);
    StepTwice(y, 4);
    StepTwice(x, 8);
  }

  lemma {:induction false} PowerGrows(m: nat, n: nat)
    requires m <= n
    ensures Power2(m) <= Power2(n)
  {
    if m < n {
      PowerGrows(m, n - 1);
    }
  }

  lemma {:induction false} BitPower(n: nat)
    ensures Bit(Power2(n), n) == 1
  {
    if n > 0 {
      BitPower(n - 1);
    }
  }

  lemma SixteenRight(x: nat)
    requires x < Power2(16)
    ensures XorShift(x, 16) == x
  {
    hide Bit, XorShift, Power2;
    PowerGrows(16, 32);
    forall k: nat | k < 32
      ensures Bit(XorShift(x, 16), k) == Bit(x, k)
    {
      XorShiftBit(x, 16, k);
      BitAbove(x, 16, k + 16);
    }
    BitsDecide(XorShift(x, 16), x, 32);
  }

  // The decoding, whose comment claims 8-bit fields, is right for widths up to 16 and
  // for no others.
  lemma UngrayRightIff(width: nat)
    requires width <= 32
    ensures (forall x: nat | x < Power2(width) :: Ungray(Gray(x)) == x) <==> width <= 16
  {
    hide Bit, XorShift, Power2, Gray, Ungray;
    if width <= 16 {
      PowerGrows(width, 16);
      PowerGrows(16, 32);
      forall x: nat | x < Power2(width)
        ensures Ungray(Gray(x)) == x
      {
        UngrayGray(x);
        SixteenRight(x);
      }
    } else {
      var x := Power2(16);
      SixteenBelow(width);
      UngrayGray(x);
      XorShiftBit(x, 16, 0);
      BitPower(16);
      LowBitOfPower();
    }
  }

  lemma SixteenBelow(width: nat)
    requires 16 < width <= 32
    ensures Power2(16) < Power2(width) <= Power2(32)
  {
    PowerGrows(17, width);
    PowerGrows(width, 32);
  }

  lemma LowBitOfPower()
    ensures Bit(Power2(16), 0) == 0
  {
  }

  // ------------------------------------------------------------- neighbours in Gray code

  function TrailingOnes(x: nat): nat { if x % 2 == 0 then 0 else 1 + TrailingOnes(x / 2) }

  // Adding one changes the trailing ones and the zero above them.
  lemma {:induction false} BitOfNext(x: nat, k: nat)
    ensures Bit(x + 1, k) != Bit(x, k) <==> k <= TrailingOnes(x)
  {
    if x % 2 == 0 {
      assert (x + 1) / 2 == x / 2;
    } else {
      assert (x + 1) / 2 == x / 2 + 1;
      if k > 0 {
        BitOfNext(x / 2, k - 1);
      }
    }
  }

  lemma NeighboursDiffer(x: nat, k: nat)
    requires x + 1 < Power2(32)
    ensures Bit(Gray(x + 1), k) != Bit(Gray(x), k) <==> k == TrailingOnes(x)
  {
    hide Bit, XorShift, Power2, TrailingOnes;
    XorShiftBit(x, 1, k);
    XorShiftBit(x + 1, 1, k);
    BitOfNext(x, k);
    BitOfNext(x, k + 1);
  }

  lemma {:induction false} TrailingOnesFit(x: nat, n: nat)
    requires x + 1 < Power2(n)
    ensures TrailingOnes(x) < n
  {
    if n > 0 && x % 2 == 1 {
      TrailingOnesFit(x / 2, n - 1);
    }
  }

  lemma GrayFits(x: nat, n: nat)
    requires x < Power2(n) && n <= 32
    ensures Gray(x) < Power2(n)
  {
    hide Bit, XorShift, Power2;
    PowerGrows(n, 32);
    forall k: nat | n <= k
      ensures Bit(Gray(x), k) == 0
    {
      XorShiftBit(x, 1, k);
      BitAbove(x, n, k);
      BitAbove(x, n, k + 1);
    }
    FitsIfClear(Gray(x), n, 32);
  }

  lemma {:induction false} FitsIfClear(x: nat, n: nat, m: nat)
    requires x < Power2(m) && forall k: nat | n <= k :: Bit(x, k) == 0
    ensures x < Power2(n)
  {
    if m > 0 {
      forall k: nat | n - 1 <= k
        ensures Bit(x / 2, k) == 0
      {
        assert Bit(x, k + 1) == 0;
      }
      FitsIfClear(x / 2, if n == 0 then 0 else n - 1, m - 1);
      assert n == 0 ==> Bit(x, 0) == 0;
    }
  }
}
