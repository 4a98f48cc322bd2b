// aes_icm.c: integer counter mode with a keystream buffer.  The block-wise code is
// proved to be the stream that takes one octet of keystream at a time.
module AesIcm {

  import opened Octets

  // ------------------------------------------------------------ the block counter

  // One more, in eight bits
  function Succ(x: Octet): Octet { if x == 255 then 0 else x + 1 }

  // The last two octets of a counter block, high octet first.
  function Ctr(c: Block): (n: nat)
    ensures n < 0x1_0000
  {
    var high: nat, low: nat := c[14], c[15];
    high * 256 + low
  }

  // A counter block with its last two octets replaced.
  function WithCtr(c: Block, n: nat): (d: Block)
    requires n < 0x1_0000
  {
    c[..14] + [n / 256, n % 256]
  }

  lemma CtrRoundTrip(c: Block, n: nat, m: nat)
    requires n < 0x1_0000 && m < 0x1_0000
    ensures Ctr(WithCtr(c, n)) == n && WithCtr(c, Ctr(c)) == c
    ensures WithCtr(WithCtr(c, n), m) == WithCtr(c, m)
  {
    assert Ctr(c) / 256 == c[14] && Ctr(c) % 256 == c[15];
    assert c == c[..14] + [c[14], c[15]];
  }

  // One more in the last octet; the octet before it takes the carry.
  function Advance(c: Block): (d: Block) {
    var low := Succ(c[15]);
    c[..14] + [if low == 0 then Succ(c[14]) else c[14], low]
  }

  lemma AdvanceCounts(c: Block)
    ensures Advance(c) == WithCtr(c, (Ctr(c) + 1) % 0x1_0000)
  {
    var d := Advance(c);
    assert Ctr(d) == (Ctr(c) + 1) % 0x1_0000;
    CtrRoundTrip(d, 0, 0);
  }

  // ----------------------------------------------------- the stream, octet by octet

  // The block cipher under the key of the context.
  type Cipher = Block -> Block

  datatype IcmState = IcmState(counter: Block, buffer: Block, avail: nat)
  {
    predicate Ok() { avail <= 16 }
  }

  function Refilled(E: Cipher, s: IcmState): (t: IcmState)
    requires s.Ok()
    ensures t.Ok() && t.avail > 0
  {
    if s.avail == 0 then IcmState(Advance(s.counter), E(s.counter), 16) else s
  }

  // The state after n octets of keystream.
  function After(E: Cipher, s: IcmState, n: nat): (t: IcmState)
    requires s.Ok()
    ensures t.Ok()
  {
    if n == 0 then s
    else
      var r := Refilled(E, After(E, s, n - 1));
      r.(avail := r.avail - 1)
  }

  // Octet n of the keystream.
  function KeyOctet(E: Cipher, s: IcmState, n: nat): Octet
    requires s.Ok()
  {
    var r := Refilled(E, After(E, s, n));
    r.buffer[16 - r.avail]
  }

  // Every octet of the data combined with its octet of keystream.
  function Encrypted(E: Cipher, s: IcmState, data: seq<Octet>): (out: seq<Octet>)
    requires s.Ok()
    ensures |out| == |data|
  {
    seq(|data|, i requires 0 <= i < |data| => Xor(data[i], KeyOctet(E, s, i)))
  }

  lemma {:induction false} AfterAdds(E: Cipher, s: IcmState, a: nat, b: nat)
    requires s.Ok()
    ensures After(E, After(E, s, a), b) == After(E, s, a + b)
    decreases b
  {
    if b > 0 {
      AfterAdds(E, s, a, b - 1);
    }
  }

  lemma KeyOctetShift(E: Cipher, s: IcmState, a: nat, b: nat)
    requires s.Ok()
    ensures KeyOctet(E, After(E, s, a), b) == KeyOctet(E, s, a + b)
  {
    AfterAdds(E, s, a, b);
  }

  lemma EncryptedAt(E: Cipher, s: IcmState, data: seq<Octet>, i: nat)
    requires s.Ok() && i < |data|
    ensures Encrypted(E, s, data)[i] == Xor(data[i], KeyOctet(E, s, i))
  {
  }

  lemma SplitAt(E: Cipher, s: IcmState, a: seq<Octet>, b: seq<Octet>, i: nat)
    requires s.Ok() && i < |a| + |b|
    ensures Encrypted(E, s, a + b)[i]
         == if i < |a| then Encrypted(E, s, a)[i] else Encrypted(E, After(E, s, |a|), b)[i - |a|]
  {
    hide After, KeyOctet, Xor, Encrypted;
    EncryptedAt(E, s, a + b, i);
    if i < |a| {
      EncryptedAt(E, s, a, i);
    } else {
      EncryptedAt(E, After(E, s, |a|), b, i - |a|);
      KeyOctetShift(E, s, |a|, i - |a|);
    }
  }

  // Encrypting a + b is encrypting a and then b; the state after it is the same by AfterAdds.
  lemma EncryptedSplits(E: Cipher, s: IcmState, a: seq<Octet>, b: seq<Octet>)
    requires s.Ok()
    ensures Encrypted(E, s, a + b) == Encrypted(E, s, a) + Encrypted(E, After(E, s, |a|), b)
  {
    hide After, Encrypted;
    SplitPieces(E, s, a, b, After(E, s, |a|), Encrypted(E, s, a + b), Encrypted(E, s, a), Encrypted(E, After(E, s, |a|), b));
  }

  lemma SplitPieces(E: Cipher, s: IcmState, a: seq<Octet>, b: seq<Octet>, t: IcmState, left: seq<Octet>,
                    first: seq<Octet>, second: seq<Octet>)
    requires s.Ok() && t.Ok() && t == After(E, s, |a|)
    requires left == Encrypted(E, s, a + b) && first == Encrypted(E, s, a) && second == Encrypted(E, t, b)
    ensures left == first + second
  {
    hide After, KeyOctet, Xor, Encrypted;
    forall i: nat | i < |left|
      ensures left[i] == if i < |first| then first[i] else second[i - |first|]
    {
      SplitAt(E, s, a, b, i);
    }
    Glue(left, first, second);
  }

  lemma Glue<T>(left: seq<T>, a: seq<T>, b: seq<T>)
    requires |left| == |a| + |b|
    requires forall i: nat | i < |left| :: left[i] == if i < |a| then a[i] else b[i - |a|]
    ensures left == a + b
  {
  }

  // Encrypting again from the same start restores the data.
  lemma EncryptedTwice(E: Cipher, s: IcmState, data: seq<Octet>)
    requires s.Ok()
    ensures Encrypted(E, s, Encrypted(E, s, data)) == data
  {
    hide KeyOctet, Xor;
    forall i | 0 <= i < |data|
      ensures Encrypted(E, s, Encrypted(E, s, data))[i] == data[i]
    {
      XorTwice(data[i], KeyOctet(E, s, i));
    }
  }

  // While the buffer lasts, the keystream is read from it.
  lemma {:induction false} FromBuffer(E: Cipher, s: IcmState, n: nat)
    requires s.Ok() && n <= s.avail
    ensures After(E, s, n) == s.(avail := s.avail - n)
    ensures n < s.avail ==> KeyOctet(E, s, n) == s.buffer[16 - s.avail + n]
  {
    if n > 0 {
      FromBuffer(E, s, n - 1);
    }
  }

  // With an empty buffer, the next octets come from the next block.
  lemma {:induction false} FromNextBlock(E: Cipher, s: IcmState, n: nat)
    requires s.Ok() && s.avail == 0 && n <= 16
    ensures n > 0 ==> After(E, s, n) == IcmState(Advance(s.counter), E(s.counter), 16 - n)
    ensures n < 16 ==> KeyOctet(E, s, n) == E(s.counter)[n]
  {
    if n > 1 {
      FromNextBlock(E, s, n - 1);
    } else if n == 1 {
      assert After(E, s, 0) == s;
    }
  }

  // How many blocks n octets of keystream take out of the cipher.
  function Blocks(avail: nat, n: nat): nat {
    if n <= avail then 0 else (n - avail + 15) / 16
  }

  lemma BlocksStep(avail: nat, n: nat)
    requires n > 0 && avail <= 16
    ensures var k := Blocks(avail, n - 1);
            && n - 1 <= avail + 16 * k <= n + 15
            && Blocks(avail, n) == if avail + 16 * k == n - 1 then k + 1 else k
  {
  }

  // Every block steps the counter once, modulo 2^16, and changes nothing else in it.
  lemma {:induction false} CounterAfter(E: Cipher, s: IcmState, n: nat)
    requires s.Ok()
    ensures After(E, s, n).counter == WithCtr(s.counter, (Ctr(s.counter) + Blocks(s.avail, n)) % 0x1_0000)
    ensures After(E, s, n).avail == s.avail + 16 * Blocks(s.avail, n) - n
  {
    hide Advance, WithCtr, Ctr, Blocks;
    if n == 0 {
      CtrRoundTrip(s.counter, 0, 0);
      assert Blocks(s.avail, 0) == 0 by { NoBlocks(s.avail); }
    } else {
      CounterAfter(E, s, n - 1);
      BlocksStep(s.avail, n);
      var t, k := After(E, s, n - 1), Blocks(s.avail, n - 1);
      var c := Ctr(s.counter) + k;
      assert After(E, s, n) == Refilled(E, t).(avail := Refilled(E, t).avail - 1);
      if t.avail == 0 {
        CounterStep(s.counter, c);
      }
    }
  }

  // Octet n of the keystream: what is left in the buffer, and then octet by octet the
  // enciphered blocks of a counter that goes up by one.
  lemma KeyOctetIs(E: Cipher, s: IcmState, n: nat)
    requires s.Ok()
    ensures KeyOctet(E, s, n)
         == if n < s.avail then s.buffer[16 - s.avail + n]
            else E(WithCtr(s.counter, (Ctr(s.counter) + (n - s.avail) / 16) % 0x1_0000))[(n - s.avail) % 16]
  {
    if n < s.avail {
      FromBuffer(E, s, n);
    } else {
      hide Advance, WithCtr, Ctr, KeyOctet, After;
      var k, j := (n - s.avail) / 16, (n - s.avail) % 16;
      var a := s.avail + 16 * k;
      WholeBlocks(s.avail, k);
      CounterAfter(E, s, a);
      KeyOctetShift(E, s, a, j);
      FromNextBlock(E, After(E, s, a), j);
    }
  }

  lemma WholeBlocks(avail: nat, k: nat)
    ensures Blocks(avail, avail + 16 * k) == k
  {
  }

  lemma NoBlocks(avail: nat)
    ensures Blocks(avail, 0) == 0
  {
  }

  lemma CounterStep(c: Block, n: nat)
    ensures Advance(WithCtr(c, n % 0x1_0000)) == WithCtr(c, (n + 1) % 0x1_0000)
  {
    hide Advance, WithCtr, Ctr;
    AdvanceCounts(WithCtr(c, n % 0x1_0000));
    CtrRoundTrip(c, n % 0x1_0000, (n + 1) % 0x1_0000);
    ModSucc(n);
  }

  lemma ModSucc(a: nat)
    ensures (a % 0x1_0000 + 1) % 0x1_0000 == (a + 1) % 0x1_0000
  {
  }

  // ------------------------------------------------------------------ the guard

  datatype Status = Ok | Terminus | CipherFail | AuthFail | BadParam | ReplayFail | KeyExpired

  const UINT_LIMIT := 0x1_0000_0000

  // The test for enough segment left: 32-bit unsigned arithmetic, a number of octets
  // added to a number of blocks.
  predicate GuardPasses(len: nat, ctr: nat) {
    (len + ctr) % UINT_LIMIT <= 0xffff
  }

  // The piece from octet a on passes the guard when the pieces before it are done.
  ghost predicate SplitPasses(len: nat, ctr: nat, avail: nat, a: nat)
    requires a <= len
  {
    GuardPasses(a, ctr) && GuardPasses(len - a, (ctr + Blocks(avail, a)) % 0x1_0000)
  }

  // A request that passes can be cut anywhere and still passes, if and only if the
  // sum in the guard does not wrap; then the block counter does not wrap either.
  lemma GuardSplits(len: nat, ctr: nat, avail: nat)
    requires len < UINT_LIMIT && ctr < 0x1_0000 && avail <= 16 && GuardPasses(len, ctr)
    ensures (forall a: nat | a <= len :: SplitPasses(len, ctr, avail, a)) <==> len + ctr < UINT_LIMIT
    ensures len + ctr < UINT_LIMIT ==> ctr + Blocks(avail, len) <= 0xffff
  {
    if len + ctr < UINT_LIMIT {
      forall a: nat | a <= len
        ensures SplitPasses(len, ctr, avail, a)
      {
        assert Blocks(avail, a) <= a;
      }
    } else {
      var a := 0x1_0000 - ctr;
      assert !GuardPasses(a, ctr);
      assert !SplitPasses(len, ctr, avail, a);
    }
  }

  lemma CounterValue(E: Cipher, s: IcmState, n: nat)
    requires s.Ok()
    ensures Ctr(After(E, s, n).counter) == (Ctr(s.counter) + Blocks(s.avail, n)) % 0x1_0000
  {
    hide After, Blocks, WithCtr, Ctr;
    CounterAfter(E, s, n);
    CtrRoundTrip(s.counter, (Ctr(s.counter) + Blocks(s.avail, n)) % 0x1_0000, 0);
  }

  lemma CutPasses(len: nat, ctr: nat, avail: nat, a: nat)
    requires len + ctr < UINT_LIMIT && ctr < 0x1_0000 && avail <= 16 && GuardPasses(len, ctr) && a <= len
    ensures SplitPasses(len, ctr, avail, a)
  {
    hide GuardPasses, SplitPasses;
    GuardSplits(len, ctr, avail);
  }

  // The guard of the second call sees the counter that the first one leaves.
  lemma CallsPass(E: Cipher, s: IcmState, a: nat, b: nat)
    requires s.Ok() && a + b + Ctr(s.counter) < UINT_LIMIT && GuardPasses(a + b, Ctr(s.counter))
    ensures GuardPasses(a, Ctr(s.counter)) && GuardPasses(b, Ctr(After(E, s, a).counter))
  {
    hide After, Blocks, Ctr, GuardPasses;
    CutPasses(a + b, Ctr(s.counter), s.avail, a);
    CounterValue(E, s, a);
    assert a + b - a == b;
  }

  // What two calls in turn put out, and the context they leave
  ghost predicate SameStream(E: Cipher, s: IcmState, a: seq<Octet>, b: seq<Octet>)
    requires s.Ok()
  {
    var t := After(E, s, |a|);
    Encrypted(E, s, a + b) == Encrypted(E, s, a) + Encrypted(E, t, b) && After(E, t, |b|) == After(E, s, |a + b|)
  }

  lemma StreamsAgree(E: Cipher, s: IcmState, a: seq<Octet>, b: seq<Octet>)
    requires s.Ok()
    ensures SameStream(E, s, a, b)
  {
    hide Encrypted, After;
    EncryptedSplits(E, s, a, b);
    AfterAdds(E, s, |a|, |b|);
  }

  // Streaming: if one call over a and b together passes the guard, which adds octets to
  // blocks in 32 bits without wrapping, then one call over a and another over b pass as
  // well, with the same octets and the same context in the end.
  lemma CallsSplit(E: Cipher, s: IcmState, a: seq<Octet>, b: seq<Octet>)
    requires s.Ok() && |a| + |b| + Ctr(s.counter) < UINT_LIMIT && GuardPasses(|a| + |b|, Ctr(s.counter))
    ensures GuardPasses(|a|, Ctr(s.counter)) && GuardPasses(|b|, Ctr(After(E, s, |a|).counter))
    ensures SameStream(E, s, a, b)
  {
    hide After, Ctr, GuardPasses, SameStream;
    CallsPass(E, s, |a|, |b|);
    StreamsAgree(E, s, a, b);
  }

  // Octets and blocks added in 32 bits: 2^32 - 1 octets pass after one block.
  lemma GuardWraps()
    ensures GuardPasses(0xffff_ffff, 1) && !GuardPasses(0xffff, 1)
  {
  }

  // -------------------------------------------------- encryption in place

  // The octets ks are combined into the data at pos.
  ghost predicate XoredAt(before: seq<Octet>, after: seq<Octet>, pos: nat, ks: seq<Octet>) {
    && |after| == |before| && pos + |ks| <= |before|
    && forall i | 0 <= i < |before| ::
         after[i] == if pos <= i < pos + |ks| then Xor(before[i], ks[i - pos]) else before[i]
  }

  // n octets from start on are combined with the keystream from state s on.
  ghost predicate Ciphered(E: Cipher, s: IcmState, before: seq<Octet>, after: seq<Octet>, start: nat, n: nat)
    requires s.Ok()
  {
    && |after| == |before| && start + n <= |before|
    && forall i | 0 <= i < |before| ::
         after[i] == if start <= i < start + n then Xor(before[i], KeyOctet(E, s, i - start)) else before[i]
  }

  ghost predicate IsKeystream(E: Cipher, s: IcmState, n: nat, ks: seq<Octet>)
    requires s.Ok()
  {
    forall i: nat {:trigger ks[i]} | i < |ks| :: ks[i] == KeyOctet(E, s, n + i)
  }

  lemma CipheredSlices(E: Cipher, s: IcmState, before: seq<Octet>, after: seq<Octet>, start: nat, n: nat)
    requires s.Ok() && Ciphered(E, s, before, after, start, n)
    ensures after == before[..start] + Encrypted(E, s, before[start..start + n]) + before[start + n..]
  {
    hide KeyOctet, Xor;
  }

  lemma CipheredMore(E: Cipher, s: IcmState, before: seq<Octet>, mid: seq<Octet>, after: seq<Octet>, start: nat,
                     n: nat, ks: seq<Octet>)
    requires s.Ok() && Ciphered(E, s, before, mid, start, n)
    requires XoredAt(mid, after, start + n, ks) && IsKeystream(E, s, n, ks)
    ensures Ciphered(E, s, before, after, start, n + |ks|)
  {
    hide KeyOctet, Xor;
    forall i | 0 <= i < |before|
      ensures after[i] == if start <= i < start + n + |ks| then Xor(before[i], KeyOctet(E, s, i - start)) else before[i]
    {
      if start + n <= i < start + n + |ks| {
        var j := i - start - n;
        assert ks[j] == KeyOctet(E, s, n + j);
      }
    }
  }

  // Nothing is read from a buffer that is used up.
  lemma {:induction false} StaleBuffer(E: Cipher, c: Block, b: Block, b': Block, n: nat)
    ensures KeyOctet(E, IcmState(c, b, 0), n) == KeyOctet(E, IcmState(c, b', 0), n)
    ensures n > 0 ==> After(E, IcmState(c, b, 0), n) == After(E, IcmState(c, b', 0), n)
  {
    if n > 0 {
      StaleBuffer(E, c, b, b', n - 1);
    }
  }

  // What is left in the buffer.
  lemma KeysFromBuffer(E: Cipher, s: IcmState, n: nat)
    requires s.Ok() && n <= s.avail
    ensures After(E, s, n) == s.(avail := s.avail - n)
    ensures IsKeystream(E, s, 0, s.buffer[16 - s.avail..16 - s.avail + n])
  {
    hide KeyOctet, After;
    FromBuffer(E, s, n);
    var ks := s.buffer[16 - s.avail..16 - s.avail + n];
    forall i: nat {:trigger ks[i]} | i < |ks|
      ensures ks[i] == KeyOctet(E, s, 0 + i)
    {
      FromBuffer(E, s, i);
    }
  }

  // A new block, once the buffer is used up after p octets.
  lemma KeysFromNextBlock(E: Cipher, s: IcmState, p: nat, n: nat)
    requires s.Ok() && After(E, s, p).avail == 0 && 0 < n <= 16
    ensures var c := After(E, s, p).counter;
            && After(E, s, p + n) == IcmState(Advance(c), E(c), 16 - n)
            && IsKeystream(E, s, p, E(c)[..n])
  {
    hide KeyOctet, After, Advance;
    var t := After(E, s, p);
    AfterAdds(E, s, p, n);
    FromNextBlock(E, t, n);
    var ks := E(t.counter)[..n];
    forall i: nat {:trigger ks[i]} | i < n
      ensures ks[i] == KeyOctet(E, s, p + i)
    {
      FromNextBlock(E, t, i);
      KeyOctetShift(E, s, p, i);
    }
  }

  // The first n counter blocks from c on.
  function CounterRun(c: Block, n: nat): (r: seq<Block>)
    ensures |r| == n
  {
    if n == 0 then [] else CounterRun(c, n - 1) + [WithCtr(c, (Ctr(c) + n - 1) % 0x1_0000)]
  }

  // ---------------------------------------------------------------- the context

  class AesIcmCtx {
    var counter: Block
    var offset: Block
    var keystreamBuffer: Block
    var bytesInBuffer: nat
    // the expanded key, as the block cipher it stands for
    var encipher: Cipher
    // every block that went through the cipher since the key was set
    ghost var trace: seq<Block>

    ghost predicate Valid()
      reads this
    {
      bytesInBuffer <= 16 && offset[14] == 0 && offset[15] == 0
    }

    function State(): IcmState
      reads this
    {
      IcmState(counter, keystreamBuffer, bytesInBuffer)
    }

    // Key and salt; the octets after them are read as well but forced to zero.
    constructor (key: seq<Octet>, aes: Block -> Cipher)
      requires |key| == 30
      ensures Valid() && trace == [] && bytesInBuffer == 0
      ensures offset == key[16..30] + [0, 0] && counter == offset && encipher == aes(key[..16])
    {
      counter := key[16..30] + [0, 0];
      offset := key[16..30] + [0, 0];
      keystreamBuffer := seq(16, i => 0);
      encipher := aes(key[..16]);
      bytesInBuffer := 0;
      trace := [];
    }

    method SetIv(iv: Block)
      requires Valid()
      modifies this`counter, this`bytesInBuffer
      ensures Valid() && bytesInBuffer == 0
      ensures counter == XorBlocks(offset, iv)
    {
      counter := XorBlocks(offset, iv);
      bytesInBuffer := 0;
    }

    method AdvanceIcm()
      requires Valid()
      modifies this`counter, this`keystreamBuffer, this`bytesInBuffer, this`trace
      ensures Valid()
      ensures State() == IcmState(Advance(old(counter)), encipher(old(counter)), 16)
      ensures trace == old(trace) + [old(counter)]
    {
      hide Succ;
      keystreamBuffer := encipher(counter);
      trace := trace + [counter];
      bytesInBuffer := 16;
      var low := Succ(counter[15]);
      counter := counter[15 := low];
      if low == 0 {
        counter := counter[14 := Succ(counter[14])];
      }
    }
  
    // Octets of the keystream buffer from some position on, into the data.
    method XorKeystream(buf: array<Octet>, pos: nat, from: nat, count: nat)
      requires pos + count <= buf.Length && from + count <= 16
      modifies buf
      ensures XoredAt(old(buf[..]), buf[..], pos, keystreamBuffer[from..from + count])
    {
      hide Xor;
      for i: nat := 0 to count
        invariant XoredAt(old(buf[..]), buf[..], pos, keystreamBuffer[from..from + i])
      {
        buf[pos + i] := Xor(buf[pos + i], keystreamBuffer[from + i]);
      }
    }

    // Encryption in place of len octets of buf from start on.
    method AesIcmEncrypt(buf: array<Octet>, start: nat, encLen: nat) returns (status: Status)
      requires Valid() && encLen < UINT_LIMIT
      requires GuardPasses(encLen, Ctr(counter)) ==> start + encLen <= buf.Length
      modifies this`counter, this`keystreamBuffer, this`bytesInBuffer, this`trace, buf
      ensures Valid()
      ensures status == if GuardPasses(encLen, Ctr(old(counter))) then Ok else Terminus
      ensures status == Ok ==>
                && State() == After(encipher, old(State()), encLen)
                && Ciphered(encipher, old(State()), old(buf[..]), buf[..], start, encLen)
                && trace == old(trace) + CounterRun(old(counter), Blocks(old(bytesInBuffer), encLen))
      ensures status != Ok ==> State() == old(State()) && buf[..] == old(buf[..]) && trace == old(trace)
    {
      if !GuardPasses(encLen, Ctr(counter)) {
        return Terminus;
      }
      hide Xor, After, Ciphered, XoredAt, Ctr, WithCtr, CounterRun, GuardPasses;
      ghost var s, F, c, tr := State(), buf[..], counter, trace;
      status := Ok;
      NoRun(c, tr);
      if encLen <= bytesInBuffer {
        DrainBuffer(buf, start, encLen);
      } else {
        var n := bytesInBuffer;
        DrainBuffer(buf, start, n);
        EncryptBlocks(buf, start, start + n, encLen - n, s, F, c, tr);
      }
    }

    // The first octets, from what is left in the buffer.
    method DrainBuffer(buf: array<Octet>, start: nat, n: nat)
      requires Valid() && n <= bytesInBuffer && start + n <= buf.Length
      modifies this`bytesInBuffer, buf
      ensures Valid() && bytesInBuffer == old(bytesInBuffer) - n
      ensures State() == After(encipher, old(State()), n)
      ensures Ciphered(encipher, old(State()), old(buf[..]), buf[..], start, n)
    {
      hide Xor, After, Ciphered, XoredAt, IsKeystream;
      ghost var s, F := State(), buf[..];
      NothingCiphered(encipher, s, F, start);
      KeysFromBuffer(encipher, s, n);
      XorKeystream(buf, start, 16 - bytesInBuffer, n);
      CipheredMore(encipher, s, F, F, buf[..], start, 0, keystreamBuffer[16 - bytesInBuffer..16 - bytesInBuffer + n]);
      bytesInBuffer := bytesInBuffer - n;
    }

    // The rest of the data once the buffer is used up: whole blocks, then the tail.
    method EncryptBlocks(buf: array<Octet>, start: nat, pos0: nat, bytesToEncr: nat, ghost s: IcmState,
                         ghost F: seq<Octet>, ghost c: Block, ghost tr: seq<Block>)
      requires Valid() && start <= pos0 && pos0 + bytesToEncr <= buf.Length && s.Ok()
      requires State() == After(encipher, s, pos0 - start) && bytesInBuffer == 0
      requires Ciphered(encipher, s, F, buf[..], start, pos0 - start)
      requires counter == WithCtr(c, Ctr(c)) && trace == tr
      modifies this`counter, this`keystreamBuffer, this`bytesInBuffer, this`trace, buf
      ensures Valid()
      ensures State() == After(encipher, s, pos0 + bytesToEncr - start)
      ensures Ciphered(encipher, s, F, buf[..], start, pos0 + bytesToEncr - start)
      ensures trace == tr + CounterRun(c, (bytesToEncr + 15) / 16)
    {
      hide Xor, After, Ciphered, XoredAt, IsKeystream, Advance, Ctr, WithCtr, CounterRun;
      var pos := pos0;
      NoRun(c, tr);
      for i: nat := 0 to bytesToEncr / 16
        invariant Valid() && pos == pos0 + 16 * i
        invariant State().(avail := 0) == After(encipher, s, pos - start)
        invariant Ciphered(encipher, s, F, buf[..], start, pos - start)
        invariant RunSoFar(c, counter, tr, trace, i)
      {
        ghost var mid := buf[..];
        KeysFromNextBlock(encipher, s, pos - start, 16);
        RunMore(c, counter, tr, trace, i);
        AdvanceIcm();
        XorKeystream(buf, pos, 0, 16);
        CipheredMore(encipher, s, F, mid, buf[..], start, pos - start, keystreamBuffer[0..16]);
        pos := pos + 16;
      }
      var tail := bytesToEncr % 16;
      if tail != 0 {
        ghost var mid := buf[..];
        KeysFromNextBlock(encipher, s, pos - start, tail);
        RunMore(c, counter, tr, trace, bytesToEncr / 16);
        AdvanceIcm();
        XorKeystream(buf, pos, 0, tail);
        CipheredMore(encipher, s, F, mid, buf[..], start, pos - start, keystreamBuffer[0..tail]);
        bytesInBuffer := 16 - tail;
      } else {
        bytesInBuffer := 0;
      }
    }
  }

  // n blocks were enciphered and the counter stands at the next.
  ghost predicate RunSoFar(c: Block, counter: Block, tr: seq<Block>, trace: seq<Block>, n: nat) {
    counter == WithCtr(c, (Ctr(c) + n) % 0x1_0000) && trace == tr + CounterRun(c, n)
  }

  lemma NoRun(c: Block, tr: seq<Block>)
    ensures RunSoFar(c, c, tr, tr, 0) && c == WithCtr(c, Ctr(c)) && tr + CounterRun(c, 0) == tr
  {
    CtrRoundTrip(c, 0, 0);
    hide Ctr, WithCtr;
    assert (Ctr(c) + 0) % 0x1_0000 == Ctr(c);
    assert CounterRun(c, 0) == [];
  }

  lemma RunMore(c: Block, counter: Block, tr: seq<Block>, trace: seq<Block>, n: nat)
    requires RunSoFar(c, counter, tr, trace, n)
    ensures RunSoFar(c, Advance(counter), tr, trace + [counter], n + 1)
  {
    hide Advance, Ctr, WithCtr;
    CounterStep(c, Ctr(c) + n);
  }

  lemma NothingCiphered(E: Cipher, s: IcmState, F: seq<Octet>, start: nat)
    requires s.Ok() && start <= |F|
    ensures Ciphered(E, s, F, F, start, 0)
  {
  }
}
