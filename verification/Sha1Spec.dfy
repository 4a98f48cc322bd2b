// The secure hash algorithm as FIPS 180-1 defines it: padding (section 4), the
// functions and constants (sections 5 and 6) and the digest computation (section 7).
module Sha1Spec {

  datatype Hash = Hash(a: bv32, b: bv32, c: bv32, d: bv32, e: bv32)

  const INITIAL := Hash(0x67452301, 0xefcdab89, 0x98badcfe, 0x10325476, 0xc3d2e1f0)

  // ------------------------------------------------------ octets, words and blocks

  function BeWord(b0: bv8, b1: bv8, b2: bv8, b3: bv8): bv32 {
    ((b0 as bv32) << 24) | ((b1 as bv32) << 16) | ((b2 as bv32) << 8) | (b3 as bv32)
  }

  function BeOctets(w: bv32): (s: seq<bv8>)
    ensures |s| == 4
  {
    [((w >> 24) & 0xff) as bv8, ((w >> 16) & 0xff) as bv8, ((w >> 8) & 0xff) as bv8, (w & 0xff) as bv8]
  }

  function WordAt(s: seq<bv8>, i: nat): bv32
    requires 4 * i + 4 <= |s|
  {
    BeWord(s[4 * i], s[4 * i + 1], s[4 * i + 2], s[4 * i + 3])
  }

  // The sixteen words of a block.
  function Words(block: seq<bv8>): (w: seq<bv32>)
    requires |block| == 64
    ensures |w| == 16
  {
    seq(16, i requires 0 <= i < 16 => WordAt(block, i))
  }

  // ------------------------------------------------------------------- compression

  function RotL(x: bv32, n: bv6): bv32
    requires n <= 32
  {
    (x << n) | (x >> (32 - n))
  }

  function F(t: nat, b: bv32, c: bv32, d: bv32): bv32 {
    if t < 20 then (b & c) | (!b & d)
    else if t < 40 then b ^ c ^ d
    else if t < 60 then (b & c) | (b & d) | (c & d)
    else b ^ c ^ d
  }

  function K(t: nat): bv32 {
    if t < 20 then 0x5A827999 else if t < 40 then 0x6ED9EBA1 else if t < 60 then 0x8F1BBCDC else 0xCA62C1D6
  }

  function Xor4(a: bv32, b: bv32, c: bv32, d: bv32): bv32 { a ^ b ^ c ^ d }

  // Word t of the expanded block.
  function Schedule(w: seq<bv32>, t: nat): bv32
    requires |w| == 16
  {
    if t < 16 then w[t]
    else RotL(Xor4(Schedule(w, t - 3), Schedule(w, t - 8), Schedule(w, t - 14), Schedule(w, t - 16)), 1)
  }

  function Sum5(a: bv32, b: bv32, c: bv32, d: bv32, e: bv32): bv32 { a + b + c + d + e }

  function Step(t: nat, h: Hash, w: bv32): Hash {
    Hash(Sum5(RotL(h.a, 5), F(t, h.b, h.c, h.d), h.e, w, K(t)), h.a, RotL(h.b, 30), h.c, h.d)
  }

  // The registers after t steps.
  function Registers(w: seq<bv32>, h: Hash, t: nat): Hash
    requires |w| == 16
  {
    if t == 0 then h else Step(t - 1, Registers(w, h, t - 1), Schedule(w, t - 1))
  }

  function AddHash(h: Hash, g: Hash): Hash {
    Hash(h.a + g.a, h.b + g.b, h.c + g.c, h.d + g.d, h.e + g.e)
  }

  function Compress(h: Hash, w: seq<bv32>): Hash
    requires |w| == 16
  {
    AddHash(h, Registers(w, h, 80))
  }

  // The hash after all whole blocks of data.
  function HashBlocks(h: Hash, data: seq<bv8>): Hash
    decreases |data|
  {
    if |data| < 64 then h else HashBlocks(Compress(h, Words(data[..64])), data[64..])
  }

  // ----------------------------------------------------------------------- padding

  function Zeros(n: nat): (s: seq<bv8>)
    ensures |s| == n
  {
    seq(n, i => 0)
  }

  // The bit length of the message, in two words.
  function LengthOctets(n: nat): (s: seq<bv8>)
    ensures |s| == 8
  {
    var bits := 8 * n;
    BeOctets((bits / 0x1_0000_0000 % 0x1_0000_0000) as bv32) + BeOctets((bits % 0x1_0000_0000) as bv32)
  }

  // How many zeros bring n octets, the marker and the length to whole blocks.
  function ZeroCount(n: nat): (z: nat)
    ensures (n + 9 + z) % 64 == 0 && z < 64
  {
    var r := n % 64;
    assert n == 64 * (n / 64) + r;
    if r < 56 then 55 - r else 119 - r
  }

  function Pad(msg: seq<bv8>): (p: seq<bv8>)
    ensures |p| % 64 == 0 && |msg| + 9 <= |p| < |msg| + 73
  {
    assert |msg| + 9 + ZeroCount(|msg|) == |msg| + 1 + ZeroCount(|msg|) + 8;
    msg + [0x80] + Zeros(ZeroCount(|msg|)) + LengthOctets(|msg|)
  }

  function HashOctets(h: Hash): (s: seq<bv8>)
    ensures |s| == 20
  {
    BeOctets(h.a) + BeOctets(h.b) + BeOctets(h.c) + BeOctets(h.d) + BeOctets(h.e)
  }

  // The message digest.
  function Sha1(msg: seq<bv8>): (d: seq<bv8>)
    ensures |d| == 20
  {
    HashOctets(HashBlocks(INITIAL, Pad(msg)))
  }

  // -------------------------------------------------------------- hashing in pieces

  lemma {:induction false} HashBlocksSplit(h: Hash, a: seq<bv8>, b: seq<bv8>)
    requires |a| % 64 == 0
    ensures HashBlocks(h, a + b) == HashBlocks(HashBlocks(h, a), b)
    decreases |a|
  {
    hide Compress;
    if |a| == 0 {
      assert a + b == b;
    } else {
      assert (a + b)[..64] == a[..64] && (a + b)[64..] == a[64..] + b;
      HashBlocksSplit(Compress(h, Words(a[..64])), a[64..], b);
    }
  }

  lemma HashOneMore(h: Hash, a: seq<bv8>, block: seq<bv8>)
    requires |a| % 64 == 0 && |block| == 64
    ensures HashBlocks(h, a + block) == Compress(HashBlocks(h, a), Words(block))
  {
    hide Compress;
    HashBlocksSplit(h, a, block);
    assert block[..64] == block && block[64..] == [];
    assert HashBlocks(Compress(HashBlocks(h, a), Words(block)), []) == Compress(HashBlocks(h, a), Words(block));
  }
}
