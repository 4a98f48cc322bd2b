// aes_cbc.c: cipher block chaining in place, with marker padding.
module AesCbc {
  import opened Octets

  // Overrun is no value of the original: it stands for a read outside the buffer, after
  // which nothing is defined.
  datatype Status = Ok | BadParam | AuthFail | Fail | Overrun

  // What the two key schedules of one key stand for.
  ghost predicate Inverts(D: Block -> Block, E: Block -> Block) {
    forall x: Block :: D(E(x)) == x
  }

  // ------------------------------------------------------------------ the chaining

  // The block that the next one is combined with.
  function Chain(iv: Block, c: seq<Octet>): Block {
    if |c| < 16 then iv else c[|c| - 16..]
  }

  // k blocks of data
  ghost predicate IsBlocks(data: seq<Octet>, k: nat) { |data| == 16 * k }

  ghost function CbcEncrypted(E: Block -> Block, iv: Block, data: seq<Octet>, k: nat): (c: seq<Octet>)
    requires IsBlocks(data, k)
    ensures |c| == |data|
  {
    if k == 0 then []
    else
      var m := |data| - 16;
      var c := CbcEncrypted(E, iv, data[..m], k - 1);
      c + E(XorBlocks(Chain(iv, c), data[m..]))
  }

  ghost function CbcDecrypted(D: Block -> Block, iv: Block, c: seq<Octet>, k: nat): (data: seq<Octet>)
    requires IsBlocks(c, k)
    ensures |data| == |c|
  {
    if k == 0 then []
    else
      var m := |c| - 16;
      CbcDecrypted(D, iv, c[..m], k - 1) + XorBlocks(D(c[m..]), Chain(iv, c[..m]))
  }

  lemma EncryptStep(E: Block -> Block, iv: Block, data: seq<Octet>, k: nat, m: nat, c: seq<Octet>, y: Block)
    requires IsBlocks(data, k) && k > 0 && m == 16 * (k - 1) && c == CbcEncrypted(E, iv, data[..m], k - 1)
    requires y == E(XorBlocks(Chain(iv, c), data[m..]))
    ensures CbcEncrypted(E, iv, data, k) == c + y
  {
  }

  lemma DecryptStep(D: Block -> Block, iv: Block, c: seq<Octet>, y: Block, k: nat, data: seq<Octet>)
    requires k > 0 && |c| == 16 * (k - 1) && data == CbcDecrypted(D, iv, c, k - 1)
    ensures CbcDecrypted(D, iv, c + y, k) == data + XorBlocks(D(y), Chain(iv, c))
  {
    assert (c + y)[..|c|] == c && (c + y)[|c|..] == y;
  }

  // One block through the chain and back.
  lemma BlockInverts(D: Block -> Block, E: Block -> Block, prev: Block, p: Block)
    requires Inverts(D, E)
    ensures XorBlocks(D(E(XorBlocks(prev, p))), prev) == p
  {
    hide XorBlocks;
    XorBlocksComm(prev, p);
    XorBlocksTwice(p, prev);
  }

  lemma {:induction false} CbcInverts(D: Block -> Block, E: Block -> Block, iv: Block, data: seq<Octet>, k: nat)
    requires Inverts(D, E) && IsBlocks(data, k)
    ensures CbcDecrypted(D, iv, CbcEncrypted(E, iv, data, k), k) == data
    decreases k
  {
    hide CbcEncrypted, CbcDecrypted, XorBlocks, Inverts, Chain;
    if k == 0 {
      NoBlocks(D, E, iv, data);
    } else {
      var m := 16 * (k - 1);
      CbcInverts(D, E, iv, data[..m], k - 1);
      OneMoreInverts(D, E, iv, data, k, data[..m], data[m..], CbcEncrypted(E, iv, data[..m], k - 1));
    }
  }

  lemma NoBlocks(D: Block -> Block, E: Block -> Block, iv: Block, data: seq<Octet>)
    requires IsBlocks(data, 0)
    ensures CbcDecrypted(D, iv, CbcEncrypted(E, iv, data, 0), 0) == data
  {
  }

  lemma OneMoreInverts(D: Block -> Block, E: Block -> Block, iv: Block, data: seq<Octet>, k: nat, first: seq<Octet>,
                       p: Block, c: seq<Octet>)
    requires Inverts(D, E) && IsBlocks(data, k) && k > 0
    requires first == data[..16 * (k - 1)] && p == data[16 * (k - 1)..] && c == CbcEncrypted(E, iv, first, k - 1)
    requires CbcDecrypted(D, iv, c, k - 1) == first
    ensures CbcDecrypted(D, iv, CbcEncrypted(E, iv, data, k), k) == data
  {
    hide CbcEncrypted, CbcDecrypted, XorBlocks, Inverts, Chain;
    var y := E(XorBlocks(Chain(iv, c), p));
    EncryptStep(E, iv, data, k, 16 * (k - 1), c, y);
    DecryptStep(D, iv, c, y, k, first);
    BlockInverts(D, E, Chain(iv, c), p);
  }

  // Block i is combined with the ciphertext block before it, the first one with the IV, and
  // then enciphered (section 6.2 of NIST SP 800-38A).
  ghost predicate ChainedAt(E: Block -> Block, iv: Block, data: seq<Octet>, c: seq<Octet>, i: nat)
    requires |c| == |data| && 16 * i + 16 <= |c|
  {
    c[16 * i..16 * i + 16] == E(XorBlocks(if i == 0 then iv else c[16 * i - 16..16 * i], data[16 * i..16 * i + 16]))
  }

  lemma {:induction false} CbcIsChained(E: Block -> Block, iv: Block, data: seq<Octet>, k: nat, i: nat)
    requires IsBlocks(data, k) && i < k
    ensures ChainedAt(E, iv, data, CbcEncrypted(E, iv, data, k), i)
    decreases k
  {
    hide XorBlocks, CbcEncrypted, ChainedAt;
    var m := 16 * (k - 1);
    var b := CbcEncrypted(E, iv, data[..m], k - 1);
    var y := E(XorBlocks(Chain(iv, b), data[m..]));
    EncryptStep(E, iv, data, k, m, b, y);
    if i == k - 1 {
      LastIsChained(E, iv, data, b, y, i);
    } else {
      CbcIsChained(E, iv, data[..m], k - 1, i);
      ChainedStays(E, iv, data, b, y, i);
    }
  }

  lemma LastIsChained(E: Block -> Block, iv: Block, data: seq<Octet>, b: seq<Octet>, y: Block, i: nat)
    requires |b| == 16 * i && |data| == |b| + 16 && y == E(XorBlocks(Chain(iv, b), data[|b|..]))
    ensures ChainedAt(E, iv, data, b + y, i)
  {
    hide XorBlocks;
    var m := |b|;
    assert (b + y)[m..m + 16] == y && data[m..m + 16] == data[m..];
    if i > 0 {
      assert (b + y)[m - 16..m] == b[m - 16..];
    }
  }

  lemma ChainedStays(E: Block -> Block, iv: Block, data: seq<Octet>, b: seq<Octet>, y: Block, i: nat)
    requires |data| == |b| + 16 && 16 * i + 16 <= |b| && ChainedAt(E, iv, data[..|b|], b, i)
    ensures ChainedAt(E, iv, data, b + y, i)
  {
    hide XorBlocks;
    var n := 16 * i;
    assert (b + y)[n..n + 16] == b[n..n + 16] && data[..|b|][n..n + 16] == data[n..n + 16];
    if i > 0 {
      assert (b + y)[n - 16..n] == b[n - 16..n];
    }
  }

  lemma XorBlocksComm(a: Block, b: Block)
    ensures XorBlocks(a, b) == XorBlocks(b, a)
  {
    hide Xor;
    forall i | 0 <= i < 16
      ensures XorBlocks(a, b)[i] == XorBlocks(b, a)[i]
    {
      XorComm(a[i], b[i]);
    }
  }

  // ------------------------------------------------------------------- the padding

  const MARKER: Octet := 0xa0

  function Zeros(n: nat): (s: seq<Octet>)
    ensures |s| == n
  {
    seq(n, i => 0)
  }

  // The marker and zeros up to a whole block: one to sixteen octets.
  function Padded(data: seq<Octet>): (p: seq<Octet>)
    ensures IsBlocks(p, |data| / 16 + 1) && |data| < |p| <= |data| + 16
  {
    data + [MARKER] + Zeros(15 - |data| % 16)
  }

  // One octet 160 and then the fewest zeros that make whole blocks.
  lemma PaddedIs(data: seq<Octet>)
    ensures var p := Padded(data);
            && |p| % 16 == 0 && |p| <= |data| + 16 && data < p && p[|data|] == 160
            && forall i | |data| < i < |p| :: p[i] == 0
  {
  }

  // The marker behind n octets, and i zeros behind the marker.
  ghost function PaddedSoFar(F: seq<Octet>, n: nat, i: nat): seq<Octet>
    requires n + 1 + i <= |F|
  {
    F[..n] + [MARKER] + Zeros(i) + F[n + 1 + i..]
  }

  lemma PadNone(F: seq<Octet>, n: nat)
    requires n < |F|
    ensures F[n := MARKER] == PaddedSoFar(F, n, 0)
  {
  }

  lemma PadMore(F: seq<Octet>, n: nat, i: nat)
    requires n + 2 + i <= |F|
    ensures |PaddedSoFar(F, n, i)| == |F|
    ensures PaddedSoFar(F, n, i)[n + 1 + i := 0] == PaddedSoFar(F, n, i + 1)
  {
  }

  // The loop writes one zero more than the padding has.
  lemma PadAll(F: seq<Octet>, d: seq<Octet>, k: nat)
    requires |d| <= |F| && d == F[..|d|] && k == 16 - |d| % 16 && |d| + 1 + k <= |F|
    ensures var p := PaddedSoFar(F, |d|, k);
            && |p| == |F| && |d| + k == |Padded(d)|
            && p[..|d| + k] == Padded(d) && p[|d| + k..] == [0] + F[|d| + k + 1..]
  {
  }

  // How many octets from the last marker on.
  function MarkerLength(p: seq<Octet>): (n: nat)
    requires MARKER in p
    ensures 1 <= n <= |p|
    ensures p[|p| - n] == MARKER && forall i | |p| - n < i < |p| :: p[i] != MARKER
  {
    if p[|p| - 1] == MARKER then 1
    else
      assert p == p[..|p| - 1] + [p[|p| - 1]];
      1 + MarkerLength(p[..|p| - 1])
  }

  function Unpadded(p: seq<Octet>): seq<Octet>
    requires MARKER in p
  {
    p[..|p| - MarkerLength(p)]
  }

  // Where the search backwards over the first n octets stops; -1 if it leaves the data.
  function Scan(p: seq<Octet>, n: nat): (at: int)
    requires n <= |p|
    ensures -1 <= at < n
  {
    if n == 0 then -1 else if p[n - 1] == MARKER then n - 1 else Scan(p, n - 1)
  }

  lemma {:induction false} ScanAt(p: seq<Octet>, n: nat)
    requires n <= |p|
    ensures var at := Scan(p, n);
            (at >= 0 ==> p[at] == MARKER) && forall i | at < i < n :: p[i] != MARKER
  {
    if n > 0 {
      ScanAt(p, n - 1);
    }
  }

  // It stops inside exactly when there is a marker, and then right behind the data.
  lemma ScanStopsIff(p: seq<Octet>)
    ensures Scan(p, |p|) >= 0 <==> MARKER in p
    ensures MARKER in p ==> Scan(p, |p|) == |Unpadded(p)|
  {
    ScanAt(p, |p|);
    if MARKER in p {
      MarkerFound(p, Scan(p, |p|));
    }
  }

  // Nothing to decrypt, and nothing to find
  lemma EmptyOverruns(D: Block -> Block, iv: Block)
    ensures var p := CbcDecrypted(D, iv, [], 0); MARKER !in p && Scan(p, |p|) == -1
  {
  }

  // Whatever the data, markers in it included, the padding comes off again.
  lemma PaddingInverts(data: seq<Octet>)
    ensures MARKER in Padded(data) && Unpadded(Padded(data)) == data
  {
    var p := Padded(data);
    assert p[|data|] == MARKER;
    var n := MarkerLength(p);
    assert |p| - n == |data|;
  }

  // The first n octets of b put over those of F from pos on.
  ghost function Spliced(F: seq<Octet>, b: Block, pos: nat, n: nat): seq<Octet>
    requires n <= 16 && pos + 16 <= |F|
  {
    F[..pos] + b[..n] + F[pos + n..]
  }

  lemma SpliceMore(F: seq<Octet>, b: Block, pos: nat, n: nat)
    requires n < 16 && pos + 16 <= |F|
    ensures Spliced(F, b, pos, n)[pos + n := b[n]] == Spliced(F, b, pos, n + 1)
    ensures Spliced(F, b, pos, n)[pos + n] == F[pos + n]
    ensures F[pos..pos + 16][n := F[pos + n]] == F[pos..pos + 16]
  {
  }

  // ------------------------------------------------------------------- the context

  class AesCbcCtx {
    var state: Block
    var previous: Block
    // the expanded key for one direction, as the function on blocks it stands for
    const cipher: Block -> Block

    constructor (cipher: Block -> Block)
      ensures this.cipher == cipher
    {
      this.cipher := cipher;
      state, previous := seq(16, i => 0), seq(16, i => 0);
    }

    method SetIv(iv: Block)
      modifies this
      ensures state == iv && previous == iv
    {
      state, previous := iv, iv;
    }

    method AesCbcEncrypt(data: array<Octet>, bytesInData: nat) returns (status: Status)
      requires bytesInData <= data.Length
      modifies this`state, data
      ensures status == if bytesInData % 16 != 0 then BadParam else Ok
      ensures status == BadParam ==> data[..] == old(data[..]) && state == old(state)
      ensures status == Ok ==>
                && data[..] == CbcEncrypted(cipher, old(state), old(data[..bytesInData]), bytesInData / 16) + old(data[bytesInData..])
                && state == Chain(old(state), data[..bytesInData])
    {
      if bytesInData % 16 != 0 {
        return BadParam;
      }
      hide EncryptedSoFar;
      ghost var iv, F := state, data[..];
      EncryptBlocks(data, bytesInData, bytesInData / 16);
      EncryptAll(cipher, iv, F, data[..], bytesInData / 16, state);
      status := Ok;
    }

    method EncryptBlocks(data: array<Octet>, bytesInData: nat, ghost blocks: nat)
      requires bytesInData == 16 * blocks && bytesInData <= data.Length
      modifies this`state, data
      ensures EncryptedSoFar(cipher, old(state), old(data[..]), data[..], blocks, state)
    {
      hide EncryptedSoFar, XorBlocks;
      ghost var iv, F, k := state, data[..], 0;
      var pos, bytesToEncr := 0, bytesInData;
      EncryptNone(cipher, iv, F);
      while bytesToEncr > 0
        invariant pos + bytesToEncr == bytesInData && pos == 16 * k && k <= blocks
        invariant EncryptedSoFar(cipher, iv, F, data[..], k, state)
      {
        ghost var before, st := data[..], state;
        state := XorBlocks(state, data[pos..pos + 16]);
        state := cipher(state);
        CopyBlock(data, pos, state);
        EncryptMore(cipher, iv, F, before, data[..], k, st, state);
        pos := pos + 16;
        bytesToEncr := bytesToEncr - 16;
        k := k + 1;
      }
    }

    method CopyBlock(data: array<Octet>, pos: nat, b: Block)
      requires pos + 16 <= data.Length
      modifies data
      ensures data[..] == old(data[..pos]) + b + old(data[pos + 16..])
    {
      ghost var F := data[..];
      for i: nat := 0 to 16
        invariant data[..] == Spliced(F, b, pos, i)
      {
        SpliceMore(F, b, pos, i);
        data[pos + i] := b[i];
      }
      assert b[..16] == b;
    }

    method AesCbcDecrypt(data: array<Octet>, bytesInData: nat) returns (status: Status)
      requires bytesInData <= data.Length
      modifies data
      ensures status == if bytesInData % 16 != 0 then BadParam else Ok
      ensures status == BadParam ==> data[..] == old(data[..])
      ensures status == Ok ==>
                data[..] == CbcDecrypted(cipher, previous, old(data[..bytesInData]), bytesInData / 16) + old(data[bytesInData..])
    {
      if bytesInData % 16 != 0 {
        return BadParam;
      }
      hide DecryptedSoFar;
      ghost var F := data[..];
      var last := DecryptBlocks(data, bytesInData, bytesInData / 16);
      DecryptAll(cipher, previous, F, data[..], bytesInData / 16, last);
      status := Ok;
    }

    method DecryptBlocks(data: array<Octet>, bytesInData: nat, ghost blocks: nat) returns (prev: Block)
      requires bytesInData == 16 * blocks && bytesInData <= data.Length
      modifies data
      ensures DecryptedSoFar(cipher, previous, old(data[..]), data[..], blocks, prev)
    {
      hide DecryptedSoFar, XorBlocks;
      ghost var iv, F, k := previous, data[..], 0;
      prev := previous;
      var pos, bytesToEncr := 0, bytesInData;
      DecryptNone(cipher, iv, F);
      while bytesToEncr > 0
        invariant pos + bytesToEncr == bytesInData && pos == 16 * k && k <= blocks
        invariant DecryptedSoFar(cipher, iv, F, data[..], k, prev)
      {
        ghost var before, last := data[..], prev;
        var st := cipher(data[pos..pos + 16]);
        prev := ExchangeBlock(data, pos, st, prev);
        DecryptMore(cipher, iv, F, before, data[..], k, last);
        pos := pos + 16;
        bytesToEncr := bytesToEncr - 16;
        k := k + 1;
      }
    }

    // The last loop of a block: the plaintext replaces the ciphertext, which is kept as
    // the previous block.
    method ExchangeBlock(data: array<Octet>, pos: nat, st: Block, previous: Block) returns (next: Block)
      requires pos + 16 <= data.Length
      modifies data
      ensures data[..] == old(data[..pos]) + XorBlocks(st, previous) + old(data[pos + 16..])
      ensures next == old(data[pos..pos + 16])
    {
      hide Xor;
      ghost var F, x := data[..], XorBlocks(st, previous);
      var tmps: seq<Octet> := data[pos..pos + 16];
      for i: nat := 0 to 16
        invariant data[..] == Spliced(F, x, pos, i)
        invariant tmps == F[pos..pos + 16]
      {
        SpliceMore(F, x, pos, i);
        var tmp := data[pos + i];
        data[pos + i] := Xor(st[i], previous[i]);
        tmps := tmps[i := tmp];
      }
      assert x[..16] == x;
      next := tmps;
    }

    // Marker padding and encryption in place.  The loop writes one zero more than the
    // padding has, right behind it.
    method AesCbcNistEncrypt(data: array<Octet>, bytesInData: nat) returns (status: Status, newBytes: nat)
      requires bytesInData + 17 - bytesInData % 16 <= data.Length
      modifies this`state, data
      ensures status == Ok && newBytes == |Padded(old(data[..bytesInData]))| < data.Length
      ensures data[..newBytes] == CbcEncrypted(cipher, old(state), Padded(old(data[..bytesInData])), newBytes / 16)
      ensures data[newBytes] == 0 && data[newBytes + 1..] == old(data[newBytes + 1..])
    {
      hide CbcEncrypted, Chain;
      ghost var d, F := data[..bytesInData], data[..];
      newBytes := AddPadding(data, bytesInData);
      ghost var before := data[..];
      status := AesCbcEncrypt(data, newBytes);
      assert data[..newBytes] == CbcEncrypted(cipher, old(state), before[..newBytes], newBytes / 16);
      assert data[newBytes..] == before[newBytes..];
      assert data[newBytes] == data[newBytes..][0] && data[newBytes + 1..] == data[newBytes..][1..];
    }

    method AddPadding(data: array<Octet>, bytesInData: nat) returns (newBytes: nat)
      requires bytesInData + 17 - bytesInData % 16 <= data.Length
      modifies data
      ensures newBytes == |Padded(old(data[..bytesInData]))| < data.Length
      ensures data[..newBytes] == Padded(old(data[..bytesInData]))
      ensures data[newBytes..] == [0] + old(data[newBytes + 1..])
    {
      hide Zeros, PaddedSoFar, Padded;
      var numPadBytes := 16 - bytesInData % 16;
      ghost var d, F := data[..bytesInData], data[..];
      PadNone(F, bytesInData);
      data[bytesInData] := MARKER;
      for i: nat := 0 to numPadBytes
        invariant data[..] == PaddedSoFar(F, bytesInData, i)
      {
        PadMore(F, bytesInData, i);
        data[bytesInData + 1 + i] := 0;
      }
      newBytes := bytesInData + numPadBytes;
      PadAll(F, d, numPadBytes);
    }

    // Decryption in place and the search for the marker, from the end backwards.
    method AesCbcNistDecrypt(data: array<Octet>, bytesInData: nat) returns (status: Status, newBytes: nat)
      requires bytesInData <= data.Length
      modifies data
      ensures bytesInData % 16 != 0 ==> status == BadParam && data[..] == old(data[..]) && newBytes == bytesInData
      ensures bytesInData % 16 == 0 ==>
                var p := CbcDecrypted(cipher, previous, old(data[..bytesInData]), bytesInData / 16);
                && status == (if MARKER in p then Ok else Overrun)
                && data[..] == p + old(data[bytesInData..])
                && newBytes == (if MARKER in p then |Unpadded(p)| else bytesInData)
    {
      hide CbcDecrypted, Chain;
      newBytes := bytesInData;
      ghost var F := data[..];
      status := AesCbcDecrypt(data, bytesInData);
      if status == Ok {
        ghost var p := CbcDecrypted(cipher, previous, F[..bytesInData], bytesInData / 16);
        assert data[..bytesInData] == p;
        ScanStopsIff(p);
        var found, numPadBytes := CountPadding(data, bytesInData);
        if !found {
          return Overrun, newBytes;
        }
        newBytes := newBytes - numPadBytes;
      }
    }

    // From the end backwards to the last marker
    method CountPadding(data: array<Octet>, bytesInData: nat) returns (found: bool, numPadBytes: int)
      requires bytesInData <= data.Length
      ensures var at := Scan(data[..bytesInData], bytesInData);
              found == (at >= 0) && numPadBytes == bytesInData - at
    {
      ghost var p := data[..bytesInData];
      numPadBytes := 1;
      var padEnd := bytesInData - 1;
      while padEnd >= 0 && data[padEnd] != MARKER
        invariant -1 <= padEnd < bytesInData && numPadBytes == bytesInData - padEnd
        invariant Scan(p, padEnd + 1) == Scan(p, bytesInData)
        decreases padEnd
      {
        assert p[padEnd] == data[padEnd];
        padEnd := padEnd - 1;
        numPadBytes := numPadBytes + 1;
      }
      found := padEnd >= 0;
      assert found ==> p[padEnd] == data[padEnd];
    }
  }

  lemma MarkerFound(p: seq<Octet>, at: nat)
    requires at < |p| && p[at] == MARKER && forall i | at < i < |p| :: p[i] != MARKER
    ensures MARKER in p && |p| - MarkerLength(p) == at && Unpadded(p) == p[..at]
  {
    var n := MarkerLength(p);
  }

  // The first k blocks are encrypted, and st is chained to the next.
  ghost predicate EncryptedSoFar(E: Block -> Block, iv: Block, F: seq<Octet>, d: seq<Octet>, k: nat, st: Block) {
    && 16 * k <= |F|
    && d == CbcEncrypted(E, iv, F[..16 * k], k) + F[16 * k..]
    && st == Chain(iv, d[..16 * k])
  }

  lemma EncryptNone(E: Block -> Block, iv: Block, F: seq<Octet>)
    ensures EncryptedSoFar(E, iv, F, F, 0, iv)
  {
  }

  lemma EncryptMore(E: Block -> Block, iv: Block, F: seq<Octet>, before: seq<Octet>, after: seq<Octet>, k: nat,
                    st: Block, st': Block)
    requires EncryptedSoFar(E, iv, F, before, k, st) && 16 * k + 16 <= |F| == |before|
    requires st' == E(XorBlocks(st, before[16 * k..16 * k + 16]))
    requires after == before[..16 * k] + st' + before[16 * k + 16..]
    ensures EncryptedSoFar(E, iv, F, after, k + 1, st')
  {
    hide XorBlocks;
    var pos := 16 * k;
    var G := F[..pos + 16];
    assert G[..pos] == F[..pos] && G[pos..] == F[pos..pos + 16];
    var c := CbcEncrypted(E, iv, F[..pos], k);
    assert before[..pos] == c && before[pos..pos + 16] == F[pos..pos + 16] && before[pos + 16..] == F[pos + 16..];
    assert CbcEncrypted(E, iv, G, k + 1) == c + st';
    assert after[..pos + 16] == c + st';
    assert (c + st')[pos..] == st';
  }

  lemma EncryptAll(E: Block -> Block, iv: Block, F: seq<Octet>, d: seq<Octet>, k: nat, st: Block)
    requires EncryptedSoFar(E, iv, F, d, k, st)
    ensures 16 * k <= |F| == |d|
    ensures d == CbcEncrypted(E, iv, F[..16 * k], k) + F[16 * k..] && st == Chain(iv, d[..16 * k])
  {
  }

  // The first k blocks are decrypted, and last is the ciphertext block before the next.
  ghost predicate DecryptedSoFar(D: Block -> Block, iv: Block, F: seq<Octet>, d: seq<Octet>, k: nat, last: Block) {
    && 16 * k <= |F|
    && d == CbcDecrypted(D, iv, F[..16 * k], k) + F[16 * k..]
    && last == Chain(iv, F[..16 * k])
  }

  lemma DecryptNone(D: Block -> Block, iv: Block, F: seq<Octet>)
    ensures DecryptedSoFar(D, iv, F, F, 0, iv)
  {
  }

  lemma DecryptMore(D: Block -> Block, iv: Block, F: seq<Octet>, before: seq<Octet>, after: seq<Octet>, k: nat,
                    last: Block)
    requires DecryptedSoFar(D, iv, F, before, k, last) && 16 * k + 16 <= |F| == |before|
    requires after == before[..16 * k] + XorBlocks(D(before[16 * k..16 * k + 16]), last) + before[16 * k + 16..]
    ensures DecryptedSoFar(D, iv, F, after, k + 1, before[16 * k..16 * k + 16])
  {
    hide XorBlocks;
    var pos := 16 * k;
    var G := F[..pos + 16];
    assert G[..pos] == F[..pos] && G[pos..] == F[pos..pos + 16];
    var p := CbcDecrypted(D, iv, F[..pos], k);
    assert before[..pos] == p && before[pos..pos + 16] == F[pos..pos + 16] && before[pos + 16..] == F[pos + 16..];
    assert CbcDecrypted(D, iv, G, k + 1) == p + XorBlocks(D(F[pos..pos + 16]), last);
  }

  lemma DecryptAll(D: Block -> Block, iv: Block, F: seq<Octet>, d: seq<Octet>, k: nat, last: Block)
    requires DecryptedSoFar(D, iv, F, d, k, last)
    ensures 16 * k <= |F| == |d| && d == CbcDecrypted(D, iv, F[..16 * k], k) + F[16 * k..]
  {
  }

  // Padding, chaining, unchaining and unpadding give back the data.
  lemma NistInverts(D: Block -> Block, E: Block -> Block, iv: Block, data: seq<Octet>)
    requires Inverts(D, E)
    ensures var k := |data| / 16 + 1;
            var p := CbcDecrypted(D, iv, CbcEncrypted(E, iv, Padded(data), k), k);
            MARKER in p && Unpadded(p) == data
  {
    hide CbcEncrypted, CbcDecrypted, Inverts, MarkerLength, Padded;
    CbcInverts(D, E, iv, Padded(data), |data| / 16 + 1);
    PaddingInverts(data);
  }
}
