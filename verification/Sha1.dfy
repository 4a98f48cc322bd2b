// sha1.c: the compression function and the streaming context, with its padding
// written out by hand, against FIPS 180-1.
module Sha1 {
  import opened Sha1Spec

  // S1, S5 and S30
  function S1(x: bv32): bv32 { (x << 1) | (x >> 31) }

  function S5(x: bv32): bv32 { (x << 5) | (x >> 27) }

  function S30(x: bv32): bv32 { (x << 30) | (x >> 2) }

  lemma Rotations(x: bv32)
    ensures S1(x) == RotL(x, 1) && S5(x) == RotL(x, 5) && S30(x) == RotL(x, 30)
  {
  }

  // W[..n] holds the first n words of the expanded block.
  ghost predicate Scheduled(W: seq<bv32>, w: seq<bv32>, n: nat) {
    |W| == 80 && |w| == 16 && n <= 80 && forall t: nat {:trigger Schedule(w, t)} | t < n :: W[t] == Schedule(w, t)
  }

  lemma ScheduleMore(W: seq<bv32>, w: seq<bv32>, t: nat, v: bv32)
    requires 16 <= t < 80 && Scheduled(W, w, t) && v == S1(Xor4(W[t - 3], W[t - 8], W[t - 14], W[t - 16]))
    ensures Scheduled(W[t := v], w, t + 1)
  {
    Rotations(Xor4(W[t - 3], W[t - 8], W[t - 14], W[t - 16]));
    hide S1, RotL, Xor4;
    var W' := W[t := v];
    assert W[t - 3] == Schedule(w, t - 3) && W[t - 8] == Schedule(w, t - 8);
    assert W[t - 14] == Schedule(w, t - 14) && W[t - 16] == Schedule(w, t - 16);
    forall i: nat {:trigger Schedule(w, i)} | i < t + 1
      ensures W'[i] == Schedule(w, i)
    {
      if i < t {
        assert W[i] == Schedule(w, i);
      }
    }
  }

  // One more word of the schedule, from four words before it
  method ExpandWord(W: array<bv32>, t: nat, ghost w: seq<bv32>)
    requires W.Length == 80 && 16 <= t < 80 && Scheduled(W[..], w, t)
    modifies W
    ensures Scheduled(W[..], w, t + 1)
  {
    hide S1, Scheduled, Xor4;
    ghost var W0 := W[..];
    var temp := Xor4(W[t - 3], W[t - 8], W[t - 14], W[t - 16]);
    ScheduleMore(W0, w, t, S1(temp));
    W[t] := S1(temp);
    assert W[..] == W0[t := S1(temp)];
  }

  method ExpandFrom(W: array<bv32>, start: nat, ghost w: seq<bv32>)
    requires W.Length == 80 && 16 <= start <= 80 && Scheduled(W[..], w, start)
    modifies W
    ensures Scheduled(W[..], w, 80)
  {
    hide Scheduled;
    for t: nat := start to 80
      invariant Scheduled(W[..], w, t)
    {
      ExpandWord(W, t, w);
    }
  }

  function F0(b: bv32, c: bv32, d: bv32): bv32 { (b & c) | (!b & d) }

  function F1(b: bv32, c: bv32, d: bv32): bv32 { b ^ c ^ d }

  function F2(b: bv32, c: bv32, d: bv32): bv32 { (b & c) | (b & d) | (c & d) }

  function F3(b: bv32, c: bv32, d: bv32): bv32 { b ^ c ^ d }

  const SHA_K0: bv32 := 0x5A827999
  const SHA_K1: bv32 := 0x6ED9EBA1
  const SHA_K2: bv32 := 0x8F1BBCDC
  const SHA_K3: bv32 := 0xCA62C1D6

  // One turn of the register loops: the new first register, and the others moved on
  function Turn(h: Hash, f: bv32, w: bv32, k: bv32): Hash {
    Hash(Sum5(S5(h.a), f, h.e, w, k), h.a, S30(h.b), h.c, h.d)
  }

  lemma FunctionOfTurn(t: nat, b: bv32, c: bv32, d: bv32)
    ensures t < 20 ==> F0(b, c, d) == F(t, b, c, d)
    ensures 20 <= t < 40 ==> F1(b, c, d) == F(t, b, c, d)
    ensures 40 <= t < 60 ==> F2(b, c, d) == F(t, b, c, d)
    ensures 60 <= t < 80 ==> F3(b, c, d) == F(t, b, c, d)
  {
  }

  lemma TurnIsStep(h: Hash, t: nat, w: bv32)
    ensures t < 20 ==> Turn(h, F0(h.b, h.c, h.d), w, SHA_K0) == Step(t, h, w)
    ensures 20 <= t < 40 ==> Turn(h, F1(h.b, h.c, h.d), w, SHA_K1) == Step(t, h, w)
    ensures 40 <= t < 60 ==> Turn(h, F2(h.b, h.c, h.d), w, SHA_K2) == Step(t, h, w)
    ensures 60 <= t < 80 ==> Turn(h, F3(h.b, h.c, h.d), w, SHA_K3) == Step(t, h, w)
  {
    hide S5, S30, RotL, Sum5, F, F0, F1, F2, F3;
    Rotations(h.a);
    Rotations(h.b);
    FunctionOfTurn(t, h.b, h.c, h.d);
  }

  // The four loops over the registers, A to E held in one value.
  method Rounds(W: array<bv32>, h0: Hash, ghost w: seq<bv32>) returns (h: Hash)
    requires W.Length == 80 && Scheduled(W[..], w, 80)
    ensures h == Registers(w, h0, 80)
  {
    hide Turn, Step, F0, F1, F2, F3;
    h := h0;
    for t: nat := 0 to 20
      invariant h == Registers(w, h0, t)
    {
      TurnIsStep(h, t, W[t]);
      assert W[t] == Schedule(w, t);
      h := Turn(h, F0(h.b, h.c, h.d), W[t], SHA_K0);
    }
    for t: nat := 20 to 40
      invariant h == Registers(w, h0, t)
    {
      TurnIsStep(h, t, W[t]);
      assert W[t] == Schedule(w, t);
      h := Turn(h, F1(h.b, h.c, h.d), W[t], SHA_K1);
    }
    for t: nat := 40 to 60
      invariant h == Registers(w, h0, t)
    {
      TurnIsStep(h, t, W[t]);
      assert W[t] == Schedule(w, t);
      h := Turn(h, F2(h.b, h.c, h.d), W[t], SHA_K2);
    }
    for t: nat := 60 to 80
      invariant h == Registers(w, h0, t)
    {
      TurnIsStep(h, t, W[t]);
      assert W[t] == Schedule(w, t);
      h := Turn(h, F3(h.b, h.c, h.d), W[t], SHA_K3);
    }
  }

  function HashView(H: array<bv32>): Hash
    requires H.Length == 5
    reads H
  {
    Hash(H[0], H[1], H[2], H[3], H[4])
  }

  method StoreHash(H: array<bv32>, h: Hash)
    requires H.Length == 5
    modifies H
    ensures HashView(H) == h
  {
    H[0], H[1], H[2], H[3], H[4] := h.a, h.b, h.c, h.d, h.e;
  }

  // The part of sha1_core and sha1_final that both spell out: expand, turn, add.
  method CompressWords(W: array<bv32>, expanded: nat, H: array<bv32>, ghost w: seq<bv32>)
    requires W.Length == 80 && H.Length == 5 && W != H && 16 <= expanded <= 80 && Scheduled(W[..], w, expanded)
    modifies W, H
    ensures HashView(H) == Compress(old(HashView(H)), w)
  {
    hide Registers, Schedule, Scheduled, AddHash;
    ExpandFrom(W, expanded, w);
    var h := HashView(H);
    var g := Rounds(W, h, w);
    StoreHash(H, AddHash(h, g));
  }

  lemma ScheduleStart(W: seq<bv32>, w: seq<bv32>)
    requires |W| == 80 && |w| == 16 && W[..16] == w
    ensures Scheduled(W, w, 16)
  {
    forall t: nat {:trigger Schedule(w, t)} | t < 16
      ensures W[t] == Schedule(w, t)
    {
      assert W[t] == W[..16][t];
    }
  }

  // be32_to_cpu of word i of the buffer, on a little-endian machine.
  method ReadWord(M: array<bv8>, i: nat) returns (x: bv32)
    requires M.Length == 64 && i < 16
    ensures x == WordAt(M[..], i)
  {
    x := BeWord(M[4 * i], M[4 * i + 1], M[4 * i + 2], M[4 * i + 3]);
  }

  // sha1_core writes out words 16 to 31 of the schedule one by one and loops over the rest.
  method Sha1Core(M: array<bv8>, H: array<bv32>)
    requires M.Length == 64 && H.Length == 5
    modifies H
    ensures HashView(H) == Compress(old(HashView(H)), Words(M[..]))
  {
    hide WordAt, Compress, Scheduled;
    var W := new bv32[80];
    ghost var w := Words(M[..]);
    for i: nat := 0 to 16
      invariant HashView(H) == old(HashView(H)) && Words(M[..]) == w
      invariant forall j | 0 <= j < i :: W[j] == w[j]
    {
      W[i] := ReadWord(M, i);
    }
    assert W[..16] == w;
    ScheduleStart(W[..], w);
    ExpandWord(W, 16, w);
    ExpandWord(W, 17, w);
    ExpandWord(W, 18, w);
    ExpandWord(W, 19, w);
    ExpandWord(W, 20, w);
    ExpandWord(W, 21, w);
    ExpandWord(W, 22, w);
    ExpandWord(W, 23, w);
    ExpandWord(W, 24, w);
    ExpandWord(W, 25, w);
    ExpandWord(W, 26, w);
    ExpandWord(W, 27, w);
    ExpandWord(W, 28, w);
    ExpandWord(W, 29, w);
    ExpandWord(W, 30, w);
    ExpandWord(W, 31, w);
    CompressWords(W, 32, H, w);
  }

  // ------------------------------------------------------------- the padded tail

  // The last one or two blocks: what is left of the message, the marker, zeros, the length.
  function Tail(rest: seq<bv8>, total: nat): (p: seq<bv8>)
    requires |rest| < 64 && |rest| == total % 64
    ensures |p| == if |rest| < 56 then 64 else 128
  {
    rest + [0x80] + Zeros(ZeroCount(total)) + LengthOctets(total)
  }

  lemma PadIsTail(msg: seq<bv8>, rest: seq<bv8>)
    requires |rest| == |msg| % 64 && rest == msg[|msg| - |rest|..]
    ensures Pad(msg) == msg[..|msg| - |rest|] + Tail(rest, |msg|)
  {
    var q := |msg| - |rest|;
    assert msg == msg[..q] + rest;
  }

  // The word of the length that the context counts.
  function BitCount(n: nat): bv32 {
    (8 * n % 0x1_0000_0000) as bv32
  }

  const LIMIT := 0x2000_0000

  lemma LengthWords(n: nat)
    requires n < LIMIT
    ensures LengthOctets(n) == [0, 0, 0, 0] + BeOctets(BitCount(n))
  {
    var bits := 8 * n;
    assert bits / 0x1_0000_0000 == 0;
    assert BeOctets(0) == [0, 0, 0, 0] by { ZeroOctets(); }
    hide BeOctets;
  }

  lemma ZeroOctets()
    ensures BeOctets(0) == [0, 0, 0, 0]
  {
  }

  lemma WordOfOctets(w: bv32)
    ensures var s := BeOctets(w); BeWord(s[0], s[1], s[2], s[3]) == w
  {
  }

  // Word i of the block that sha1_final assembles first.
  function FirstWord(rest: seq<bv8>, bits: bv32, i: nat): bv32
    requires |rest| < 64 && i < 16
  {
    var n := |rest|;
    if 4 * i + 4 <= n then WordAt(rest, i)
    else if 4 * i <= n then
      BeWord(if 4 * i < n then rest[4 * i] else 0x80,
             if 4 * i + 1 < n then rest[4 * i + 1] else if 4 * i + 1 == n then 0x80 else 0,
             if 4 * i + 2 < n then rest[4 * i + 2] else if 4 * i + 2 == n then 0x80 else 0,
             if 4 * i + 3 == n then 0x80 else 0)
    else if i == 15 && n < 56 then bits
    else 0
  }

  lemma ZeroWord()
    ensures BeWord(0, 0, 0, 0) == 0
  {
  }

  lemma TailOctet(rest: seq<bv8>, total: nat, j: nat)
    requires |rest| < 64 && |rest| == total % 64 && total < LIMIT && j < 64
    ensures Tail(rest, total)[j] == if j < |rest| then rest[j] else if j == |rest| then 0x80
                                   else if |rest| < 56 && j >= 60 then BeOctets(BitCount(total))[j - 60] else 0
  {
    LengthWords(total);
    hide BeOctets, LengthOctets, BitCount;
  }

  lemma FirstBlock(rest: seq<bv8>, total: nat)
    requires |rest| < 64 && |rest| == total % 64 && total < LIMIT
    ensures forall i: nat | i < 16 :: Words(Tail(rest, total)[..64])[i] == FirstWord(rest, BitCount(total), i)
  {
    hide BeOctets, LengthOctets, BitCount, BeWord, Tail;
    var p := Tail(rest, total);
    forall i: nat | i < 16
      ensures Words(p[..64])[i] == FirstWord(rest, BitCount(total), i)
    {
      assert Words(p[..64])[i] == BeWord(p[4 * i], p[4 * i + 1], p[4 * i + 2], p[4 * i + 3]);
      TailOctet(rest, total, 4 * i);
      TailOctet(rest, total, 4 * i + 1);
      TailOctet(rest, total, 4 * i + 2);
      TailOctet(rest, total, 4 * i + 3);
      ZeroWord();
      WordOfOctets(BitCount(total));
    }
  }

  lemma LateOctet(rest: seq<bv8>, total: nat, j: nat)
    requires 56 <= |rest| < 64 && |rest| == total % 64 && total < LIMIT && 64 <= j < 128
    ensures Tail(rest, total)[j] == if j >= 124 then BeOctets(BitCount(total))[j - 124] else 0
  {
    LengthWords(total);
    hide BeOctets, LengthOctets, BitCount;
  }

  lemma SecondBlock(rest: seq<bv8>, total: nat)
    requires 56 <= |rest| < 64 && |rest| == total % 64 && total < LIMIT
    ensures forall i: nat | i < 16 :: Words(Tail(rest, total)[64..])[i] == if i == 15 then BitCount(total) else 0
  {
    hide BeOctets, LengthOctets, BitCount, BeWord, Tail;
    var p := Tail(rest, total);
    forall i: nat | i < 16
      ensures Words(p[64..])[i] == if i == 15 then BitCount(total) else 0
    {
      assert Words(p[64..])[i] == BeWord(p[64 + 4 * i], p[64 + 4 * i + 1], p[64 + 4 * i + 2], p[64 + 4 * i + 3]);
      LateOctet(rest, total, 64 + 4 * i);
      LateOctet(rest, total, 64 + 4 * i + 1);
      LateOctet(rest, total, 64 + 4 * i + 2);
      LateOctet(rest, total, 64 + 4 * i + 3);
      ZeroWord();
      WordOfOctets(BitCount(total));
    }
  }

  // The masks that keep the first octets of a word and set the marker after them.
  function MarkAfterThree(x: bv32): bv32 { (x & 0xffffff00) | 0x80 }

  function MarkAfterTwo(x: bv32): bv32 { (x & 0xffff0000) | 0x8000 }

  function MarkAfterOne(x: bv32): bv32 { (x & 0xff000000) | 0x800000 }

  lemma TailOfThree(a: bv8, b: bv8, c: bv8, d: bv8)
    ensures MarkAfterThree(BeWord(a, b, c, d)) == BeWord(a, b, c, 0x80)
  {
  }

  lemma TailOfTwo(a: bv8, b: bv8, c: bv8, d: bv8)
    ensures MarkAfterTwo(BeWord(a, b, c, d)) == BeWord(a, b, 0x80, 0)
  {
  }

  lemma TailOfOne(a: bv8, b: bv8, c: bv8, d: bv8)
    ensures MarkAfterOne(BeWord(a, b, c, d)) == BeWord(a, 0x80, 0, 0)
  {
  }

  lemma TailOfNone()
    ensures BeWord(0x80, 0, 0, 0) == 0x80000000
  {
  }

  // The digest is the hash after the whole blocks and one or two blocks of tail.
  lemma DigestOfTail(msg: seq<bv8>, rest: seq<bv8>, h: Hash, w1: seq<bv32>, w2: seq<bv32>)
    requires |rest| == |msg| % 64 && rest == msg[|msg| - |rest|..] && |msg| < LIMIT
    requires h == HashBlocks(INITIAL, msg[..|msg| - |rest|])
    requires |w1| == 16 && |w2| == 16
    requires forall i: nat | i < 16 :: w1[i] == FirstWord(rest, BitCount(|msg|), i)
    requires forall i: nat | i < 16 :: w2[i] == if i == 15 then BitCount(|msg|) else 0
    ensures Sha1Spec.Sha1(msg) == HashOctets(if |rest| < 56 then Compress(h, w1) else Compress(Compress(h, w1), w2))
  {
    hide Compress, BitCount, FirstWord, BeOctets, LengthOctets, HashOctets;
    var q := |msg| - |rest|;
    var p := Tail(rest, |msg|);
    PadIsTail(msg, rest);
    FirstBlock(rest, |msg|);
    assert Words(p[..64]) == w1;
    HashOneMore(INITIAL, msg[..q], p[..64]);
    if |rest| < 56 {
      assert p[..64] == p;
    } else {
      SecondBlock(rest, |msg|);
      assert Words(p[64..]) == w2;
      HashOneMore(INITIAL, msg[..q] + p[..64], p[64..]);
      assert msg[..q] + p == msg[..q] + p[..64] + p[64..];
    }
  }

  // ------------------------------------------------- assembling the last blocks

  ghost predicate FirstWords(W: seq<bv32>, rest: seq<bv8>, bits: bv32, from: nat, to: nat)
    requires |rest| < 64
  {
    to <= 16 <= |W| && forall i: nat {:trigger FirstWord(rest, bits, i)} | from <= i < to :: W[i] == FirstWord(rest, bits, i)
  }

  // The word with the marker, in the words of the switch over the tail length.
  lemma MarkerThree(M: seq<bv8>, n: nat, bits: bv32, i: nat)
    requires |M| == 64 && n < 64 && n == 4 * i + 3
    ensures FirstWord(M[..n], bits, i) == MarkAfterThree(WordAt(M, i))
  {
    TailOfThree(M[4 * i], M[4 * i + 1], M[4 * i + 2], M[4 * i + 3]);
    hide BeWord;
  }

  lemma MarkerTwo(M: seq<bv8>, n: nat, bits: bv32, i: nat)
    requires |M| == 64 && n < 64 && n == 4 * i + 2
    ensures FirstWord(M[..n], bits, i) == MarkAfterTwo(WordAt(M, i))
  {
    TailOfTwo(M[4 * i], M[4 * i + 1], M[4 * i + 2], M[4 * i + 3]);
    hide BeWord;
  }

  lemma MarkerOne(M: seq<bv8>, n: nat, bits: bv32, i: nat)
    requires |M| == 64 && n < 64 && n == 4 * i + 1
    ensures FirstWord(M[..n], bits, i) == MarkAfterOne(WordAt(M, i))
  {
    TailOfOne(M[4 * i], M[4 * i + 1], M[4 * i + 2], M[4 * i + 3]);
    hide BeWord;
  }

  lemma MarkerNone(M: seq<bv8>, n: nat, bits: bv32, i: nat)
    requires |M| == 64 && n < 64 && n == 4 * i + 0
    ensures FirstWord(M[..n], bits, i) == 0x80000000
  {
    TailOfNone();
    hide BeWord;
  }

  lemma WholeWord(M: seq<bv8>, n: nat, bits: bv32, i: nat)
    requires |M| == 64 && n < 64 && 4 * i + 4 <= n
    ensures FirstWord(M[..n], bits, i) == WordAt(M, i)
  {
  }

  lemma LaterWord(rest: seq<bv8>, bits: bv32, i: nat)
    requires |rest| < 64 && |rest| / 4 < i < 16
    ensures FirstWord(rest, bits, i) == if i == 15 && |rest| < 56 then bits else 0
  {
  }

  lemma FirstWordsMore(W: seq<bv32>, rest: seq<bv8>, bits: bv32, i: nat, v: bv32)
    requires |rest| < 64 && i < 16 <= |W| && FirstWords(W, rest, bits, 0, i) && v == FirstWord(rest, bits, i)
    ensures FirstWords(W[i := v], rest, bits, 0, i + 1)
  {
    hide FirstWord;
  }

  // The switch over the tail: the marker in the octet after the message.
  method PlaceMarker(M: array<bv8>, octetsInBuffer: nat, W: array<bv32>, i: nat, ghost bits: bv32)
    requires M.Length == 64 && W.Length == 80 && octetsInBuffer < 64 && i == (octetsInBuffer + 3) / 4
    requires FirstWords(W[..], M[..octetsInBuffer], bits, 0, octetsInBuffer / 4)
    modifies W
    ensures FirstWords(W[..], M[..octetsInBuffer], bits, 0, octetsInBuffer / 4 + 1)
    ensures octetsInBuffer % 4 != 0 ==> W[i] == 0
  {
    hide FirstWord, FirstWords, WordAt, MarkAfterThree, MarkAfterTwo, MarkAfterOne;
    var n := octetsInBuffer;
    ghost var m, W0, rest := M[..], W[..], M[..n];
    assert rest == m[..n];
    if n % 4 == 0 {
      MarkerNone(m, n, bits, i);
      W[i] := 0x80000000;
    } else {
      var x := ReadWord(M, i - 1);
      if n % 4 == 3 {
        MarkerThree(m, n, bits, i - 1);
        W[i - 1] := MarkAfterThree(x);
      } else if n % 4 == 2 {
        MarkerTwo(m, n, bits, i - 1);
        W[i - 1] := MarkAfterTwo(x);
      } else {
        MarkerOne(m, n, bits, i - 1);
        W[i - 1] := MarkAfterOne(x);
      }
      W[i] := 0;
    }
    FirstWordsMore(W0, rest, bits, n / 4, W[n / 4]);
    FirstWordsSame(W0[n / 4 := W[n / 4]], W[..], rest, bits, n / 4 + 1);
  }

  lemma FirstWordsSame(W: seq<bv32>, W': seq<bv32>, rest: seq<bv8>, bits: bv32, n: nat)
    requires |rest| < 64 && FirstWords(W, rest, bits, 0, n) && |W| == |W'| && forall i | 0 <= i < n :: W'[i] == W[i]
    ensures FirstWords(W', rest, bits, 0, n)
  {
    hide FirstWord;
  }

  // The first half of sha1_final: the words of the first block of the tail.
  method AssembleTail(M: array<bv8>, octetsInBuffer: nat, numBitsInMsg: bv32, W: array<bv32>)
    requires M.Length == 64 && W.Length == 80 && octetsInBuffer < 64
    modifies W
    ensures FirstWords(W[..], M[..octetsInBuffer], numBitsInMsg, 0, 16)
  {
    hide FirstWord, WordAt;
    var n := octetsInBuffer;
    ghost var m, rest, bits := M[..], M[..n], numBitsInMsg;
    assert rest == m[..n];
    var i := 0;
    while i < (n + 3) / 4
      invariant i <= (n + 3) / 4 && M[..] == m
      invariant FirstWords(W[..], rest, bits, 0, if i <= n / 4 then i else n / 4)
    {
      W[i] := ReadWord(M, i);
      if i < n / 4 {
        WholeWord(m, n, bits, i);
      }
      i := i + 1;
    }
    PlaceMarker(M, n, W, i, bits);
    ghost var start := i;
    i := i + 1;
    while i < 15
      invariant start + 1 <= i && (i <= 15 || i == start + 1)
      invariant FirstWords(W[..], rest, bits, 0, n / 4 + 1)
      invariant forall j: nat | n / 4 < j < i && j < 15 :: W[j] == 0
      invariant start == 15 && n % 4 != 0 ==> W[15] == 0
    {
      W[i] := 0;
      i := i + 1;
    }
    if n < 56 {
      W[15] := numBitsInMsg;
    } else if n < 60 {
      W[15] := 0;
    }
    FirstWordsRest(W[..], rest, bits);
  }

  lemma FirstWordsRest(W: seq<bv32>, rest: seq<bv8>, bits: bv32)
    requires |rest| < 64 && |W| == 80 && FirstWords(W, rest, bits, 0, |rest| / 4 + 1)
    requires forall j: nat | |rest| / 4 < j < 15 :: W[j] == 0
    requires |rest| < 60 ==> W[15] == if |rest| < 56 then bits else 0
    ensures FirstWords(W, rest, bits, 0, 16)
  {
    hide FirstWord;
    forall j: nat {:trigger FirstWord(rest, bits, j)} | j < 16
      ensures W[j] == FirstWord(rest, bits, j)
    {
      if j > |rest| / 4 {
        LaterWord(rest, bits, j);
      }
    }
  }

  // ------------------------------------------------------------------- the context

  lemma HashOfNothing()
    ensures HashBlocks(INITIAL, []) == INITIAL
  {
  }

  // The bits of n octets, counted modulo 2^32
  ghost predicate Counts(count: nat, n: nat) {
    count == 8 * n % 0x1_0000_0000
  }

  // Counting piece by piece.
  lemma CountMore(a: nat, b: nat, count: nat)
    requires Counts(count, a)
    ensures Counts((count + b * 8) % 0x1_0000_0000, a + b)
  {
    var q := 8 * a / 0x1_0000_0000;
    assert 8 * (a + b) == q * 0x1_0000_0000 + (count + b * 8);
  }

  class Sha1Ctx {
    const H: array<bv32>
    const M: array<bv8>
    var octetsInBuffer: nat
    var numBitsInMsg: nat
    // all octets since the context was initialised
    ghost var message: seq<bv8>

    // The whole blocks of the message are in H, the rest of it is in M.
    ghost predicate Buffered()
      reads `octetsInBuffer, `message, H, M
    {
      && H.Length == 5 && M.Length == 64
      && octetsInBuffer == |message| % 64
      && M[..octetsInBuffer] == message[|message| - octetsInBuffer..]
      && HashView(H) == HashBlocks(INITIAL, message[..|message| - octetsInBuffer])
    }

    ghost predicate Valid()
      reads this, H, M
    {
      Buffered() && Counts(numBitsInMsg, |message|)
    }

    constructor ()
      ensures Valid() && message == []
      ensures fresh(H) && fresh(M)
    {
      hide HashBlocks;
      H, M := new bv32[5], new bv8[64];
      octetsInBuffer, numBitsInMsg := 0, 0;
      message := [];
      new;
      HashOfNothing();
      StoreHash(H, INITIAL);
    }

    method Init()
      requires H.Length == 5 && M.Length == 64
      modifies this, H
      ensures Valid() && message == []
    {
      hide HashBlocks;
      HashOfNothing();
      octetsInBuffer, numBitsInMsg := 0, 0;
      message := [];
      StoreHash(H, INITIAL);
    }

    // memcpy of a whole context
    method CopyFrom(that: Sha1Ctx)
      requires that.Valid() && H.Length == 5 && M.Length == 64
      requires H != that.H && M != that.M && this != that
      modifies this, H, M
      ensures Valid() && message == that.message
    {
      hide HashBlocks, HashView, Counts;
      StoreHash(H, HashView(that.H));
      for i: nat := 0 to 64
        invariant M[..i] == that.M[..i]
        invariant HashView(H) == HashView(that.H) && that.Valid()
      {
        M[i] := that.M[i];
      }
      ghost var n := that.octetsInBuffer;
      assert M[..n] == M[..64][..n] && that.M[..n] == that.M[..64][..n];
      octetsInBuffer, numBitsInMsg := that.octetsInBuffer, that.numBitsInMsg;
      message := that.message;
    }

    // The copying loops: msg goes behind the n octets that are buffered.
    method Fill(msg: seq<bv8>, n: nat)
      requires M.Length == 64 && n + |msg| <= 64
      modifies M
      ensures M[..n + |msg|] == old(M[..n]) + msg
    {
      for i: nat := n to n + |msg|
        invariant M[..i] == old(M[..n]) + msg[..i - n]
      {
        M[i] := msg[i - n];
      }
      assert msg[..|msg|] == msg;
    }

    // Octets that do not fill the buffer.
    method Append(msg: seq<bv8>)
      requires Buffered() && octetsInBuffer + |msg| < 64
      modifies this`octetsInBuffer, this`message, M
      ensures Buffered() && message == old(message) + msg
    {
      hide HashBlocks, HashView;
      ghost var rest, q := M[..octetsInBuffer], |message| - octetsInBuffer;
      Fill(msg, octetsInBuffer);
      assert (message + msg)[..q] == message[..q];
      assert (message + msg)[q..] == rest + msg;
      octetsInBuffer := octetsInBuffer + |msg|;
      message := message + msg;
    }

    // Octets that fill the buffer exactly: the block goes into the hash.
    method FillAndHash(msg: seq<bv8>)
      requires Buffered() && octetsInBuffer + |msg| == 64
      modifies this`octetsInBuffer, this`message, M, H
      ensures Buffered() && message == old(message) + msg && octetsInBuffer == 0
    {
      hide HashBlocks, HashView, Words, Compress;
      ghost var rest, q := M[..octetsInBuffer], |message| - octetsInBuffer;
      Fill(msg, octetsInBuffer);
      assert M[..64] == M[..];
      Sha1Core(M, H);
      ghost var full := message + msg;
      assert full == message[..q] + (rest + msg);
      HashOneMore(INITIAL, message[..q], rest + msg);
      assert full[..|full|] == full;
      octetsInBuffer := 0;
      message := full;
    }

    lemma BufferFits()
      requires Buffered()
      ensures octetsInBuffer < 64
    {
      hide HashBlocks;
    }

    // What Valid adds to Buffered
    lemma ValidParts()
      ensures Valid() <==> Buffered() && Counts(numBitsInMsg, |message|)
    {
      hide Buffered, Counts;
    }

    method Update(msg: seq<bv8>)
      requires Valid()
      modifies this, H, M
      ensures Valid() && message == old(message) + msg
    {
      hide Buffered, Valid, Counts;
      ghost var m0 := message;
      ValidParts();
      CountMore(|m0|, |msg|, numBitsInMsg);
      numBitsInMsg := (numBitsInMsg + |msg| * 8) % 0x1_0000_0000;
      ghost var count := numBitsInMsg;
      var p, octetsInMsg := 0, |msg|;
      while octetsInMsg > 0
        invariant 0 <= p && 0 <= octetsInMsg && octetsInMsg + p == |msg|
        invariant Buffered() && message == m0 + msg[..p] && numBitsInMsg == count
        decreases octetsInMsg
      {
        BufferFits();
        if octetsInMsg + octetsInBuffer >= 64 {
          var room := 64 - octetsInBuffer;
          octetsInMsg := octetsInMsg - room;
          FillAndHash(msg[p..p + room]);
          assert msg[..p + room] == msg[..p] + msg[p..p + room];
          p := p + room;
        } else {
          Append(msg[p..]);
          assert msg == msg[..p] + msg[p..];
          p, octetsInMsg := |msg|, 0;
        }
      }
      assert msg[..p] == msg;
      ValidParts();
    }

    // The digest of everything since the context was initialised, in big-endian octets.
    method Final(output: array<bv8>)
      requires Valid() && |message| < LIMIT && output.Length == 20 && output != M
      modifies this, H, output
      ensures output[..] == Sha1Spec.Sha1(old(message))
    {
      hide HashBlocks, Words, Compress, FirstWord, BitCount, BeOctets;
      ghost var m, h := message, HashView(H);
      var n := octetsInBuffer;
      ghost var rest := M[..n];
      var bits := BitCountOf(numBitsInMsg, |message|);
      var W := new bv32[80];
      AssembleTail(M, n, bits, W);
      ghost var w1 := W[..16];
      ScheduleStart(W[..], w1);
      CompressWords(W, 16, H, w1);
      for i: nat := 0 to 15
        invariant forall j: nat | j < i :: W[j] == 0
        invariant HashView(H) == Compress(h, w1)
      {
        W[i] := 0;
      }
      W[15] := bits;
      ghost var w2 := W[..16];
      ScheduleStart(W[..], w2);
      if n >= 56 {
        CompressWords(W, 16, H, w2);
      }
      DigestOfTail(m, rest, h, w1, w2);
      WriteDigest(output, HashView(H));
      octetsInBuffer := 0;
    }

    // The count kept modulo 2^32 is the word that the padding calls for.
    method BitCountOf(count: nat, ghost total: nat) returns (bits: bv32)
      requires Counts(count, total)
      ensures bits == BitCount(total)
    {
      bits := count as bv32;
    }
  }

  method WriteDigest(output: array<bv8>, h: Hash)
    requires output.Length == 20
    modifies output
    ensures output[..] == HashOctets(h)
  {
    hide BeOctets;
    var o := HashOctets(h);
    for i: nat := 0 to 20
      invariant output[..i] == o[..i]
    {
      output[i] := o[i];
    }
  }

  method Sha1(msg: seq<bv8>, hashValue: array<bv8>)
    requires |msg| < LIMIT && hashValue.Length == 20
    modifies hashValue
    ensures hashValue[..] == Sha1Spec.Sha1(msg)
  {
    var ctx := new Sha1Ctx();
    ctx.Update(msg);
    assert [] + msg == msg;
    ctx.Final(hashValue);
  }
}
