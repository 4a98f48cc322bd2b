// pack and unpack: Gray-coded fields of any width in one string of bits, first bit first.
module Pack {
  import opened Octets
  import opened BitField

  const WORD_SIZE: nat := 8

  // The kth bit of the string: the first bit of an octet is its highest.
  function StringBit(s: seq<Octet>, k: nat): nat
    requires k < WORD_SIZE * |s|
  {
    Bit(s[k / 8], 7 - k % 8)
  }

  // The bits of f, the highest of its w bits first, are or-ed into s from bit i on.
  // Nothing else changes.
  ghost predicate Written(s: seq<Octet>, t: seq<Octet>, i: nat, f: nat, w: nat, done: nat) {
    |t| == |s| && forall k: nat | k < 8 * |s| :: BitWritten(s, t, i, f, w, done, k)
  }

  ghost predicate BitWritten(s: seq<Octet>, t: seq<Octet>, i: nat, f: nat, w: nat, done: nat, k: nat)
    requires |t| == |s| && k < 8 * |s|
  {
    StringBit(t, k) ==
      if i <= k < i + done && k < i + w then OrBit(StringBit(s, k), Bit(f, i + w - 1 - k)) else StringBit(s, k)
  }

  // ------------------------------------------------------------------------ pack

  // One slice: sw of the w bits left, where bl bits are left in the octet.
  function Slice(f: nat, w: nat, sw: nat, bl: nat): nat
    requires sw <= w && sw <= bl
  {
    Low(Shl(Shr(f, w - sw), bl - sw), 8)
  }

  // The cast keeps bits of f that were written before only above the ones that are left
  // in the octet: none, when all eight are left.
  lemma SliceBit(b: nat, f: nat, w: nat, sw: nat, bl: nat, k: nat)
    requires sw <= w && sw <= bl <= 8 && k < 8
    requires bl < 8 ==> f < Power2(w)
    ensures Bit(Or(b, Slice(f, w, sw, bl), 8), k) == if bl - sw <= k < bl then OrBit(Bit(b, k), Bit(f, w + k - bl)) else Bit(b, k)
  {
    hide Bit, Or, Low, Shl, Shr, Power2;
    BitOr(b, Slice(f, w, sw, bl), 8, k);
    BitLow(Shl(Shr(f, w - sw), bl - sw), 8, k);
    BitShl(Shr(f, w - sw), bl - sw, k);
    if bl - sw <= k {
      BitShr(f, w - sw, k - (bl - sw));
      if bl <= k {
        BitAbove(f, w, w + k - bl);
      }
    }
  }

  // What one turn of the loop does to the string
  lemma SliceWritten(s: seq<Octet>, t: seq<Octet>, u: seq<Octet>, i: nat, f: nat, w0: nat, w: nat, sw: nat)
    requires 0 < w <= w0 && i + w0 <= 8 * |s| && Written(s, t, i, f, w0, w0 - w) && f < Power2(w0)
    requires w < w0 ==> (i + w0 - w) % 8 == 0
    requires var bl := 8 - (i + w0 - w) % 8; sw == if bl < w then bl else w
    requires |u| == |t| && forall j | 0 <= j < |t| && j != (i + w0 - w) / 8 :: u[j] == t[j]
    requires var bI := i + w0 - w; u[bI / 8] == Or(t[bI / 8], Slice(f, w, sw, 8 - bI % 8), 8)
    ensures Written(s, u, i, f, w0, w0 - w + sw)
  {
    hide Bit, Or, Slice, Power2, StringBit, OrBit;
    var bI, done := i + w0 - w, w0 - w + sw;
    forall k: nat | k < 8 * |s|
      ensures BitWritten(s, u, i, f, w0, done, k)
    {
      assert BitWritten(s, t, i, f, w0, w0 - w, k);
      StringBitIs(t, k);
      StringBitIs(u, k);
      if k / 8 == bI / 8 {
        SliceBit(t[bI / 8], f, w, sw, 8 - bI % 8, 7 - k % 8);
        assert k - bI == k % 8 - bI % 8;
      }
    }
  }

  lemma StringBitIs(s: seq<Octet>, k: nat)
    requires k < 8 * |s|
    ensures StringBit(s, k) == Bit(s[k / 8], 7 - k % 8)
  {
  }

  method Pack(bitArray: array<Octet>, bitIndex: nat, field: nat, fieldWidth: nat) returns (index: nat)
    requires 1 <= fieldWidth <= 31 && field < Power2(fieldWidth) && bitIndex + fieldWidth <= 8 * bitArray.Length
    modifies bitArray
    ensures index == bitIndex + fieldWidth
    ensures Written(old(bitArray[..]), bitArray[..], bitIndex, Gray(field), fieldWidth, fieldWidth)
  {
    hide Written, Gray, Power2, Bit, Or, Low, Shl, Shr;
    ghost var s, f := bitArray[..], Gray(field);
    GrayFits(field, fieldWidth);
    NothingWritten(s, bitIndex, f, fieldWidth);
    var coded := Gray(field);
    var width: nat := fieldWidth;
    index := bitIndex;
    var more := true;
    while more
      invariant width <= fieldWidth && index == bitIndex + fieldWidth - width && more == (width != 0)
      invariant width < fieldWidth && more ==> index % 8 == 0
      invariant Written(s, bitArray[..], bitIndex, f, fieldWidth, fieldWidth - width)
      decreases width
    {
      ghost var t := bitArray[..];
      var bitsLeft := WORD_SIZE - index % 8;
      var sliceWidth := if bitsLeft < width then bitsLeft else width;
      var wordIndex := index / 8;
      EightBits();
      bitArray[wordIndex] := Or(bitArray[wordIndex], Low(Shl(Shr(coded, width - sliceWidth), bitsLeft - sliceWidth), 8), 8);
      SliceWritten(s, t, bitArray[..], bitIndex, f, fieldWidth, width, sliceWidth);
      index := index + sliceWidth;
      width := width - sliceWidth;
      more := width != 0;
    }
  }

  lemma EightBits()
    ensures Power2(8) == 256
  {
    TwoToTheEighth();
  }

  lemma NothingWritten(s: seq<Octet>, i: nat, f: nat, w: nat)
    ensures Written(s, s, i, f, w, 0)
  {
    hide Bit, OrBit;
  }

  // ---------------------------------------------------------------------- unpack

  // w bits of the string from bit i on, as a number
  function Raw(s: seq<Octet>, i: nat, w: nat): (x: nat)
    requires i + w <= 8 * |s|
    ensures x < Power2(w)
  {
    if w == 0 then 0 else 2 * Raw(s, i, w - 1) + Bit(s[(i + w - 1) / 8], 7 - (i + w - 1) % 8)
  }

  lemma {:induction false} RawBit(s: seq<Octet>, i: nat, w: nat, k: nat)
    requires i + w <= 8 * |s| && k < w
    ensures Bit(Raw(s, i, w), k) == StringBit(s, i + w - 1 - k)
  {
    var b, y := StringBit(s, i + w - 1), Raw(s, i, w - 1);
    assert (2 * y + b) / 2 == y && (2 * y + b) % 2 == b;
    if k > 0 {
      RawBit(s, i, w - 1, k - 1);
    }
  }

  // The top w0 - w of the w0 bits from bit i on are in f.
  ghost predicate ReadPart(s: seq<Octet>, f: nat, i: nat, w0: nat, w: nat)
    requires i + w0 <= 8 * |s|
  {
    forall k: nat | k < 32 :: BitRead(s, f, i, w0, w, k)
  }

  ghost predicate BitRead(s: seq<Octet>, f: nat, i: nat, w0: nat, w: nat, k: nat)
    requires i + w0 <= 8 * |s|
  {
    Bit(f, k) == if w <= k < w0 then StringBit(s, i + w0 - 1 - k) else 0
  }

  function ReadSlice(b: nat, w: nat, sw: nat, bl: nat): nat
    requires sw <= w && sw <= bl
  {
    Shl(Low(Shr(b, bl - sw), sw), w - sw)
  }

  lemma ReadSliceBit(f: nat, b: nat, w: nat, sw: nat, bl: nat, k: nat)
    requires sw <= w && sw <= bl && k < 32
    ensures Bit(Or(f, ReadSlice(b, w, sw, bl), 32), k) == OrBit(Bit(f, k), if w - sw <= k < w then Bit(b, k + bl - w) else 0)
  {
    hide Bit, Or, Low, Shl, Shr;
    BitOr(f, ReadSlice(b, w, sw, bl), 32, k);
    BitShl(Low(Shr(b, bl - sw), sw), w - sw, k);
    if w - sw <= k {
      BitLow(Shr(b, bl - sw), sw, k - (w - sw));
      BitShr(b, bl - sw, k - (w - sw));
    }
  }

  lemma SliceRead(s: seq<Octet>, f: nat, i: nat, w0: nat, w: nat, sw: nat)
    requires 0 < w <= w0 && i + w0 <= 8 * |s| && ReadPart(s, f, i, w0, w)
    requires var bl := 8 - (i + w0 - w) % 8; sw == if bl < w then bl else w
    ensures var bI := i + w0 - w; ReadPart(s, Or(f, ReadSlice(s[bI / 8], w, sw, 8 - bI % 8), 32), i, w0, w - sw)
  {
    hide Bit, Or, ReadSlice, StringBit;
    var bI := i + w0 - w;
    var g, left := Or(f, ReadSlice(s[bI / 8], w, sw, 8 - bI % 8), 32), w - sw;
    forall k: nat | k < 32
      ensures BitRead(s, g, i, w0, left, k)
    {
      assert BitRead(s, f, i, w0, w, k);
      ReadSliceBit(f, s[bI / 8], w, sw, 8 - bI % 8, k);
      if w - sw <= k < w {
        var p := i + w0 - 1 - k;
        StringBitIs(s, p);
        assert p == bI + (w - 1 - k) && p / 8 == bI / 8;
        assert p % 8 == bI % 8 + w - 1 - k;
      }
    }
  }

  method Unpack(bitArray: array<Octet>, bitIndex: nat, fieldWidth: nat) returns (value: nat, index: nat)
    requires 1 <= fieldWidth <= 32 && bitIndex + fieldWidth <= 8 * bitArray.Length
    ensures index == bitIndex + fieldWidth
    ensures value == Ungray(Raw(bitArray[..], bitIndex, fieldWidth))
  {
    hide ReadPart, Ungray, XorShift, Power2, Bit, Or, Low, Shl, Shr, Raw;
    ghost var s := bitArray[..];
    NothingRead(s, bitIndex, fieldWidth);
    var field: nat, width: nat := 0, fieldWidth;
    index := bitIndex;
    var more := true;
    while more
      invariant width <= fieldWidth && index == bitIndex + fieldWidth - width && more == (width != 0)
      invariant field < Power2(32) && ReadPart(s, field, bitIndex, fieldWidth, width)
      decreases width
    {
      var bitsLeft := WORD_SIZE - index % 8;
      var sliceWidth := if bitsLeft < width then bitsLeft else width;
      SliceRead(s, field, bitIndex, fieldWidth, width, sliceWidth);
      field := Or(field, Shl(Low(Shr(bitArray[index / 8], bitsLeft - sliceWidth), sliceWidth), width - sliceWidth), 32);
      index := index + sliceWidth;
      width := width - sliceWidth;
      more := width != 0;
    }
    AllRead(s, field, bitIndex, fieldWidth);
    var t := XorShift(field, 8);
    t := XorShift(t, 4);
    t := XorShift(t, 2);
    t := XorShift(t, 1);
    value := t;
    assert value == Ungray(field) by { UngrayIs(field); }
  }

  lemma UngrayIs(f: nat)
    ensures Ungray(f) == XorShift(XorShift(XorShift(XorShift(f, 8), 4), 2), 1)
  {
    hide XorShift;
  }

  lemma NothingRead(s: seq<Octet>, i: nat, w: nat)
    requires i + w <= 8 * |s|
    ensures ReadPart(s, 0, i, w, w) && 0 < Power2(32)
  {
    hide Bit;
    forall k: nat | k < 32
      ensures BitRead(s, 0, i, w, w, k)
    {
      BitZero(k);
    }
  }

  lemma AllRead(s: seq<Octet>, f: nat, i: nat, w: nat)
    requires w <= 32 && i + w <= 8 * |s| && f < Power2(32) && ReadPart(s, f, i, w, 0)
    ensures f == Raw(s, i, w)
  {
    hide Bit, StringBit, Power2;
    PowerGrows(w, 32);
    forall k: nat | k < 32
      ensures Bit(f, k) == Bit(Raw(s, i, w), k)
    {
      assert BitRead(s, f, i, w, 0, k);
      if k < w {
        RawBit(s, i, w, k);
      } else {
        BitAbove(Raw(s, i, w), w, k);
      }
    }
    BitsDecide(f, Raw(s, i, w), 32);
  }

  // ----------------------------------------------------------------- whole frames

  datatype Field = Field(value: nat, width: nat)

  ghost predicate Fits(fs: seq<Field>) {
    forall j | 0 <= j < |fs| :: 1 <= fs[j].width <= 16 && fs[j].value < Power2(fs[j].width)
  }

  // Where field j starts: after the widths of those before it
  function Offset(fs: seq<Field>, j: nat): nat
    requires j <= |fs|
  {
    if j == 0 then 0 else Offset(fs, j - 1) + fs[j - 1].width
  }

  lemma {:induction false} OffsetGrows(fs: seq<Field>, j: nat, m: nat)
    requires j <= m <= |fs|
    ensures Offset(fs, j) <= Offset(fs, m)
  {
    if j < m {
      OffsetGrows(fs, j, m - 1);
    }
  }

  // Field j can be read back from the string.
  ghost predicate HoldsField(s: seq<Octet>, fs: seq<Field>, j: nat)
    requires j < |fs|
  {
    Offset(fs, j) + fs[j].width <= 8 * |s| && Raw(s, Offset(fs, j), fs[j].width) == Gray(fs[j].value)
  }

  ghost predicate Holds(s: seq<Octet>, fs: seq<Field>, m: nat)
    requires m <= |fs|
  {
    forall j: nat | j < m :: HoldsField(s, fs, j)
  }

  ghost predicate Blank(s: seq<Octet>, i: nat) { forall k: nat | i <= k < 8 * |s| :: StringBit(s, k) == 0 }

  lemma RawIs(s: seq<Octet>, i: nat, w: nat, f: nat)
    requires i + w <= 8 * |s| && f < Power2(w) && forall k: nat | k < w :: StringBit(s, i + w - 1 - k) == Bit(f, k)
    ensures Raw(s, i, w) == f
  {
    hide Bit, StringBit, Power2, Raw;
    forall k: nat | k < w
      ensures Bit(Raw(s, i, w), k) == Bit(f, k)
    {
      RawBit(s, i, w, k);
    }
    BitsDecide(Raw(s, i, w), f, w);
  }

  // An octet of the string is read as itself, and what is read in two goes is one number
  // with the first go on top: the string is one number, the first octet highest.
  lemma RawOctet(s: seq<Octet>, k: nat)
    requires k < |s|
    ensures Raw(s, 8 * k, 8) == s[k]
  {
    hide Bit, StringBit, Power2, Raw;
    EightBits();
    forall j: nat | j < 8
      ensures StringBit(s, 8 * k + 7 - j) == Bit(s[k], j)
    {
      StringBitIs(s, 8 * k + 7 - j);
    }
    RawIs(s, 8 * k, 8, s[k]);
  }

  lemma {:induction false} RawSplits(s: seq<Octet>, i: nat, a: nat, b: nat)
    requires i + a + b <= 8 * |s|
    ensures Raw(s, i, a + b) == Shl(Raw(s, i, a), b) + Raw(s, i + a, b)
  {
    hide StringBit, Raw, Power2;
    if b == 0 {
      RawNothing(s, i + a);
    } else {
      RawSplits(s, i, a, b - 1);
      RawStep(s, i, a + b - 1);
      RawStep(s, i + a, b - 1);
    }
  }

  lemma RawNothing(s: seq<Octet>, i: nat)
    requires i <= 8 * |s|
    ensures Raw(s, i, 0) == 0
  {
  }

  lemma RawStep(s: seq<Octet>, i: nat, w: nat)
    requires i + w < 8 * |s|
    ensures Raw(s, i, w + 1) == 2 * Raw(s, i, w) + StringBit(s, i + w)
  {
    hide Bit;
  }

  lemma RawKept(s: seq<Octet>, t: seq<Octet>, i: nat, f: nat, w: nat, j: nat, v: nat)
    requires Written(s, t, i, f, w, w) && j + v <= i && i <= 8 * |s|
    ensures Raw(t, j, v) == Raw(s, j, v)
  {
    hide Bit, StringBit, Power2, Raw;
    forall k: nat | k < v
      ensures StringBit(t, j + v - 1 - k) == Bit(Raw(s, j, v), k)
    {
      RawBit(s, j, v, k);
      assert BitWritten(s, t, i, f, w, w, j + v - 1 - k);
    }
    RawIs(t, j, v, Raw(s, j, v));
  }

  lemma RawWritten(s: seq<Octet>, t: seq<Octet>, i: nat, f: nat, w: nat)
    requires i + w <= 8 * |s| && f < Power2(w) && Blank(s, i) && Written(s, t, i, f, w, w)
    ensures Raw(t, i, w) == f && Blank(t, i + w)
  {
    hide Bit, StringBit, Power2, Raw;
    forall k: nat | k < w
      ensures StringBit(t, i + w - 1 - k) == Bit(f, k)
    {
      assert BitWritten(s, t, i, f, w, w, i + w - 1 - k);
    }
    RawIs(t, i, w, f);
    forall k: nat | i + w <= k < 8 * |t|
      ensures StringBit(t, k) == 0
    {
      assert BitWritten(s, t, i, f, w, w, k);
    }
  }

  // One more field is in the string, and none of the earlier ones is disturbed.
  lemma OneMoreField(s: seq<Octet>, t: seq<Octet>, fs: seq<Field>, m: nat)
    requires Fits(fs) && m < |fs| && Offset(fs, m + 1) <= 8 * |s| && Holds(s, fs, m) && Blank(s, Offset(fs, m))
    requires Written(s, t, Offset(fs, m), Gray(fs[m].value), fs[m].width, fs[m].width)
    ensures Holds(t, fs, m + 1) && Blank(t, Offset(fs, m + 1))
  {
    hide Written, Blank, Raw, Gray, Power2;
    var i, f, w := Offset(fs, m), Gray(fs[m].value), fs[m].width;
    GrayFits(fs[m].value, w);
    RawWritten(s, t, i, f, w);
    SameLength(s, t, i, f, w);
    forall j: nat | j < m + 1
      ensures HoldsField(t, fs, j)
    {
      if j < m {
        assert HoldsField(s, fs, j);
        OffsetGrows(fs, j + 1, m);
        RawKept(s, t, i, f, w, Offset(fs, j), fs[j].width);
      }
    }
  }

  lemma SameLength(s: seq<Octet>, t: seq<Octet>, i: nat, f: nat, w: nat)
    requires Written(s, t, i, f, w, w)
    ensures |s| == |t|
  {
  }

  // As the encoder does: the string is cleared, and the fields are packed in turn.
  method PackFields(bits: array<Octet>, fs: seq<Field>) returns (nbit: nat)
    requires Fits(fs) && Offset(fs, |fs|) <= 8 * bits.Length
    modifies bits
    ensures nbit == Offset(fs, |fs|) && Holds(bits[..], fs, |fs|)
  {
    hide Holds, Written, Blank, Gray, Power2;
    forall i | 0 <= i < bits.Length {
      bits[i] := 0;
    }
    nbit := 0;
    Cleared(bits[..], fs);
    for j: nat := 0 to |fs|
      invariant nbit == Offset(fs, j) && Holds(bits[..], fs, j) && Blank(bits[..], nbit)
    {
      ghost var s := bits[..];
      OffsetGrows(fs, j + 1, |fs|);
      nbit := Pack(bits, nbit, fs[j].value, fs[j].width);
      OneMoreField(s, bits[..], fs, j);
    }
  }

  lemma Cleared(s: seq<Octet>, fs: seq<Field>)
    requires forall i | 0 <= i < |s| :: s[i] == 0
    ensures Holds(s, fs, 0) && Blank(s, 0)
  {
    hide Bit;
    forall k: nat | k < 8 * |s|
      ensures StringBit(s, k) == 0
    {
      BitZero(7 - k % 8);
    }
  }

  // As the decoder does: whatever was packed in fields of these widths comes back.
  method UnpackFields(bits: array<Octet>, widths: seq<nat>, ghost fs: seq<Field>) returns (values: seq<nat>, nbit: nat)
    requires Fits(fs) && Holds(bits[..], fs, |fs|)
    requires |widths| == |fs| && forall j | 0 <= j < |fs| :: widths[j] == fs[j].width
    ensures |values| == |fs| && forall j | 0 <= j < |fs| :: values[j] == fs[j].value
    ensures nbit == Offset(fs, |fs|)
  {
    hide Raw, Gray, Ungray, Power2;
    values, nbit := [], 0;
    for j: nat := 0 to |widths|
      invariant nbit == Offset(fs, j) && |values| == j && forall k | 0 <= k < j :: values[k] == fs[k].value
    {
      assert HoldsField(bits[..], fs, j);
      var value;
      value, nbit := Unpack(bits, nbit, widths[j]);
      DecodedRight(fs[j].value, fs[j].width);
      values := values + [value];
    }
  }

  lemma DecodedRight(value: nat, width: nat)
    requires width <= 16 && value < Power2(width)
    ensures Ungray(Gray(value)) == value
  {
    hide Gray, Ungray, Power2;
    UngrayRightIff(width);
  }

  // Neighbouring values, packed in the same place, differ in exactly one bit.
  lemma NeighboursOneBit(s: seq<Octet>, t: seq<Octet>, u: seq<Octet>, i: nat, v: nat, w: nat, k: nat)
    requires w <= 31 && v + 1 < Power2(w) && i + w <= 8 * |s| && Blank(s, i) && k < 8 * |s|
    requires Written(s, t, i, Gray(v), w, w) && Written(s, u, i, Gray(v + 1), w, w)
    ensures TrailingOnes(v) < w
    ensures StringBit(t, k) != StringBit(u, k) <==> k == i + w - 1 - TrailingOnes(v)
  {
    hide Bit, StringBit, Power2, Gray, TrailingOnes;
    PowerGrows(w, 32);
    TrailingOnesFit(v, w);
    assert BitWritten(s, t, i, Gray(v), w, w, k) && BitWritten(s, u, i, Gray(v + 1), w, w, k);
    if i <= k < i + w {
      NeighboursDiffer(v, i + w - 1 - k);
    }
  }
}
