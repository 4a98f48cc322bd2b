// srtp.c: protection of RTP packets, its inverse, and the counter blocks it uses
// (RFC 3711, sections 3.3 and 4.1.1).
module Srtp {
  import opened Octets
  import opened AesIcm

  // ------------------------------------------------------------ big-endian octets

  function Power256(k: nat): (p: nat)
    ensures p > 0
  {
    if k == 0 then 1 else 256 * Power256(k - 1)
  }

  // The last k octets of n, high octet first.
  function BigEndian(n: nat, k: nat): (s: seq<Octet>)
    ensures |s| == k
  {
    if k == 0 then [] else BigEndian(n / 256, k - 1) + [n % 256]
  }

  lemma {:induction false} BigEndianInjective(m: nat, n: nat, k: nat)
    requires m < Power256(k) && n < Power256(k) && BigEndian(m, k) == BigEndian(n, k)
    ensures m == n
  {
    if k > 0 {
      var a, b := BigEndian(m, k), BigEndian(n, k);
      assert a[k - 1] == m % 256 && b[k - 1] == n % 256;
      assert a[..k - 1] == BigEndian(m / 256, k - 1) && b[..k - 1] == BigEndian(n / 256, k - 1);
      BigEndianInjective(m / 256, n / 256, k - 1);
    }
  }

  const TWO_64 := 0x1_0000_0000_0000_0000
  const TWO_48 := 0x1_0000_0000_0000

  // est << 16 in 64 bits, in network byte order
  function ShiftedIndex(est: nat): (s: seq<Octet>)
    ensures |s| == 8
  {
    BigEndian(est * 0x1_0000 % TWO_64, 8)
  }

  lemma ShiftTruncates(est: nat)
    ensures est * 0x1_0000 % TWO_64 == est % TWO_48 * 0x1_0000
  {
    var q, r := est / TWO_48, est % TWO_48;
    assert est * 0x1_0000 == q * TWO_64 + r * 0x1_0000;
  }

  // The low 48 bits of the index, and two zero octets.
  lemma ShiftedIndexIs(est: nat)
    ensures ShiftedIndex(est) == BigEndian(est % TWO_48, 6) + [0, 0]
  {
    var e := est % TWO_48;
    var n, m := e * 0x1_0000, e * 256;
    ShiftTruncates(est);
    assert n == m * 256 && n / 256 == m && n % 256 == 0;
    assert m / 256 == e && m % 256 == 0;
    assert BigEndian(m, 7) == BigEndian(e, 6) + [0];
    assert BigEndian(n, 8) == BigEndian(m, 7) + [0];
  }

  // ---------------------------------------------------------------- counter blocks

  // 0000 | ssrc | packet index | 00
  function IcmIv(ssrc: seq<Octet>, est: nat): Block
    requires |ssrc| == 4
  {
    [0, 0, 0, 0] + ssrc + ShiftedIndex(est)
  }

  // The counter block for block j of a packet.
  function CounterBlock(offset: Block, ssrc: seq<Octet>, est: nat, j: nat): Block
    requires |ssrc| == 4 && j < 0x1_0000
  {
    WithCtr(XorBlocks(offset, IcmIv(ssrc, est)), j)
  }

  lemma IvParts(ssrc: seq<Octet>, est: nat)
    requires |ssrc| == 4 && est < TWO_48
    ensures var iv := IcmIv(ssrc, est);
            iv[4..8] == ssrc && iv[8..14] == BigEndian(est, 6) && iv[14] == 0 && iv[15] == 0
  {
    hide BigEndian, ShiftedIndex;
    ShiftedIndexIs(est);
    SmallIndex(est);
  }

  lemma SmallIndex(est: nat)
    requires est < TWO_48
    ensures est % TWO_48 == est
  {
  }

  // (SSRC, packet index, block counter) maps injectively to the counter block.
  lemma CounterBlockInjective(offset: Block, s: seq<Octet>, e: nat, j: nat, s': seq<Octet>, e': nat, j': nat)
    requires |s| == 4 && |s'| == 4 && e < TWO_48 && e' < TWO_48 && j < 0x1_0000 && j' < 0x1_0000
    requires CounterBlock(offset, s, e, j) == CounterBlock(offset, s', e', j')
    ensures s == s' && e == e' && j == j'
  {
    hide Xor, BigEndian, ShiftedIndex;
    var iv, iv' := IcmIv(s, e), IcmIv(s', e');
    var c, c' := XorBlocks(offset, iv), XorBlocks(offset, iv');
    CtrRoundTrip(c, j, 0);
    CtrRoundTrip(c', j', 0);
    IvParts(s, e);
    IvParts(s', e');
    forall i | 0 <= i < 14
      ensures iv[i] == iv'[i]
    {
      assert WithCtr(c, j)[i] == c[i] && WithCtr(c', j')[i] == c'[i];
      XorInjective(offset[i], iv[i], iv'[i]);
    }
    assert iv[4..8] == iv'[4..8] && iv[8..14] == iv'[8..14];
    assert Power256(6) == TWO_48 by { PowerOfSix(); }
    BigEndianInjective(e, e', 6);
  }

  lemma PowerOfSix()
    ensures Power256(6) == TWO_48
  {
    assert Power256(3) == 0x100_0000;
  }

  // A packet as the cipher sees it: what goes into the IV, and how many blocks it takes.
  datatype Use = Use(ssrc: seq<Octet>, est: nat, blocks: nat)

  predicate IsUse(u: Use) { |u.ssrc| == 4 && u.blocks <= 0x1_0000 }

  predicate GoodUse(u: Use) { IsUse(u) && u.est < TWO_48 }

  // The counter blocks of one packet, in order.
  function UseRun(offset: Block, u: Use): (r: seq<Block>)
    requires IsUse(u)
    ensures |r| == u.blocks
  {
    seq(u.blocks, j requires 0 <= j < u.blocks => CounterBlock(offset, u.ssrc, u.est, j))
  }

  predicate GoodRun(run: seq<Use>) { forall i | 0 <= i < |run| :: GoodUse(run[i]) }

  // The counter blocks of a run of packets under one key.
  function RunTrace(offset: Block, run: seq<Use>): seq<Block>
    requires GoodRun(run)
  {
    if run == [] then []
    else
      RunTrace(offset, run[..|run| - 1]) + UseRun(offset, run[|run| - 1])
  }

  ghost predicate NoDuplicates<T(!new)>(s: seq<T>) {
    forall i, j | 0 <= i < j < |s| :: s[i] != s[j]
  }

  ghost predicate FreshIndexes(run: seq<Use>) {
    forall i, j | 0 <= i < j < |run| :: !(run[i].ssrc == run[j].ssrc && run[i].est == run[j].est)
  }

  // Every block of a run belongs to one of its packets.
  lemma {:induction false} TraceMember(offset: Block, run: seq<Use>, x: Block) returns (i: nat, j: nat)
    requires GoodRun(run) && x in RunTrace(offset, run)
    ensures i < |run| && j < 0x1_0000 && x == CounterBlock(offset, run[i].ssrc, run[i].est, j)
    decreases |run|
  {
    hide CounterBlock;
    var last := |run| - 1;
    if x in UseRun(offset, run[last]) {
      j :| 0 <= j < run[last].blocks && UseRun(offset, run[last])[j] == x;
      i := last;
    } else {
      i, j := TraceMember(offset, run[..last], x);
    }
  }

  // No counter block is used twice in a run that never repeats an index under one SSRC.
  lemma {:induction false} NoBlockTwice(offset: Block, run: seq<Use>)
    requires GoodRun(run) && FreshIndexes(run)
    ensures NoDuplicates(RunTrace(offset, run))
    decreases |run|
  {
    hide CounterBlock;
    if run != [] {
      var last := |run| - 1;
      var u := run[last];
      NoBlockTwice(offset, run[..last]);
      var a, b := RunTrace(offset, run[..last]), UseRun(offset, u);
      forall k, l | 0 <= k < l < |b|
        ensures b[k] != b[l]
      {
        if b[k] == b[l] {
          CounterBlockInjective(offset, u.ssrc, u.est, k, u.ssrc, u.est, l);
        }
      }
      forall x | x in a
        ensures x !in b
      {
        if x in b {
          var l :| 0 <= l < |b| && b[l] == x;
          var i, j := TraceMember(offset, run[..last], x);
          CounterBlockInjective(offset, run[i].ssrc, run[i].est, j, u.ssrc, u.est, l);
        }
      }
      Distinct(a, b);
    }
  }

  lemma Distinct<T(!new)>(a: seq<T>, b: seq<T>)
    requires NoDuplicates(a) && NoDuplicates(b) && forall x | x in a :: x !in b
    ensures NoDuplicates(a + b)
  {
    forall i, j | 0 <= i < j < |a + b|
      ensures (a + b)[i] != (a + b)[j]
    {
      if i < |a| <= j {
        assert a[i] in a && b[j - |a|] in b;
      }
    }
  }

  // -------------------------------------------------------------------- policies

  datatype Policy = Policy(icm: bool, authTagLen: nat, conf: bool, auth: bool)

  function RtpDefault(): Policy { Policy(true, 10, true, true) }

  function AesCm128HmacSha1_32(): Policy { Policy(true, 4, true, true) }

  function AesCm128NullAuth(): Policy { Policy(true, 0, true, false) }

  function NullCipherHmacSha1_80(): Policy { Policy(false, 10, false, true) }

  // --------------------------------------------------------------------- packets

  const OCTETS_IN_RTP_HEADER := 12
  const SRTP_MAX_TAG_LEN := 12

  // The field cc, the flag x and the SSRC of a header.
  function Cc(p: seq<Octet>): nat
    requires |p| >= OCTETS_IN_RTP_HEADER
  {
    p[0] % 16
  }

  predicate X(p: seq<Octet>)
    requires |p| >= OCTETS_IN_RTP_HEADER
  {
    p[0] / 16 % 2 == 1
  }

  function Ssrc(p: seq<Octet>): (s: seq<Octet>)
    requires |p| >= OCTETS_IN_RTP_HEADER
    ensures |s| == 4
  {
    p[8..12]
  }

  function AfterCsrcs(p: seq<Octet>): nat
    requires |p| >= OCTETS_IN_RTP_HEADER
  {
    OCTETS_IN_RTP_HEADER + 4 * Cc(p)
  }

  // The header of the extension can be read, if there is one.
  predicate Readable(p: seq<Octet>) {
    |p| >= OCTETS_IN_RTP_HEADER && (X(p) ==> AfterCsrcs(p) + 4 <= |p|)
  }

  // Where the encrypted portion starts: after the CSRCs and the extension.
  function EncStart(p: seq<Octet>): (n: nat)
    requires Readable(p)
    ensures OCTETS_IN_RTP_HEADER <= n <= 0x5_0000
  {
    var a := AfterCsrcs(p);
    if X(p) then
      var high: nat, low: nat := p[a + 2], p[a + 3];
      a + 4 * (256 * high + low + 1)
    else a
  }

  // The length of the encrypted portion as an unsigned int.
  function EncLength(p: seq<Octet>, len: nat): nat
    requires Readable(p)
  {
    (len - EncStart(p)) % UINT_LIMIT
  }

  // What both ends of a stream agree on.
  type Digest = s: seq<Octet> | |s| == 20 witness seq(20, i => 0)

  datatype Stream = Stream(policy: Policy, E: Cipher, offset: Block, mac: seq<Octet> -> Digest)

  // The cipher after the IV of a packet is set.
  function IvState(st: Stream, p: seq<Octet>, est: nat): (s: IcmState)
    requires |p| >= OCTETS_IN_RTP_HEADER
    ensures s.Ok()
  {
    IcmState(XorBlocks(st.offset, IcmIv(Ssrc(p), est)), seq(16, i => 0), 0)
  }

  predicate Enciphers(st: Stream) { st.policy.conf && st.policy.icm }

  // The packet with its payload encrypted.
  function Body(st: Stream, p: seq<Octet>, est: nat): (b: seq<Octet>)
    requires |p| >= OCTETS_IN_RTP_HEADER && (Enciphers(st) ==> Readable(p) && EncStart(p) <= |p|)
    ensures |b| == |p|
  {
    if Enciphers(st) then p[..EncStart(p)] + Encrypted(st.E, IvState(st, p, est), p[EncStart(p)..]) else p
  }

  // The tag over the packet and the rollover counter.
  function Tag(st: Stream, b: seq<Octet>, est: nat): (t: seq<Octet>)
    requires st.policy.authTagLen <= 20
    ensures |t| == st.policy.authTagLen
  {
    st.mac(b + ShiftedIndex(est)[..4])[..st.policy.authTagLen]
  }

  function Protected(st: Stream, p: seq<Octet>, est: nat): (q: seq<Octet>)
    requires |p| >= OCTETS_IN_RTP_HEADER && (Enciphers(st) ==> Readable(p) && EncStart(p) <= |p|)
    requires st.policy.authTagLen <= 20
    ensures |q| == |p| + if st.policy.auth then st.policy.authTagLen else 0
  {
    var b := Body(st, p, est);
    if st.policy.auth then b + Tag(st, b, est) else b
  }

  // The header decides where the payload starts, so the encrypted packet has the same header.
  lemma SameHeader(p: seq<Octet>, q: seq<Octet>)
    requires Readable(p) && EncStart(p) <= |p| && |q| >= |p| && q[..EncStart(p)] == p[..EncStart(p)]
    ensures Readable(q) && EncStart(q) == EncStart(p) && Ssrc(q) == Ssrc(p)
  {
    var n := EncStart(p);
    forall i: nat | i < n
      ensures p[i] == q[i]
    {
      assert p[..n][i] == q[..n][i];
    }
    assert Ssrc(p) == Ssrc(q);
  }

  // The first len - tagLen octets of a protected packet give back the packet.
  lemma BodyTwice(st: Stream, p: seq<Octet>, est: nat)
    requires |p| >= OCTETS_IN_RTP_HEADER && (Enciphers(st) ==> Readable(p) && EncStart(p) <= |p|)
    ensures var b := Body(st, p, est);
            (Enciphers(st) ==> Readable(b) && EncStart(b) <= |b|) && Body(st, b, est) == p
  {
    hide Encrypted, IcmIv, XorBlocks;
    if Enciphers(st) {
      var b, n := Body(st, p, est), EncStart(p);
      var s, payload := IvState(st, p, est), p[n..];
      assert b[..n] == p[..n];
      SameHeader(p, b);
      assert b[n..] == Encrypted(st.E, s, payload);
      EncryptedTwice(st.E, s, payload);
      assert p == p[..n] + payload;
    }
  }

  // What srtp_unprotect makes of a packet, given that the key and the index are good.
  datatype Outcome = Fails(status: Status) | Succeeds(packet: seq<Octet>)

  function Unprotected(st: Stream, q: seq<Octet>, len: nat, est: nat): Outcome
    requires OCTETS_IN_RTP_HEADER <= len <= |q| && st.policy.authTagLen <= SRTP_MAX_TAG_LEN
    requires st.policy.conf ==> Readable(q)
  {
    var n := len - st.policy.authTagLen;
    if st.policy.auth && Tag(st, q[..n], est) != q[n..len] then Fails(AuthFail)
    else if Enciphers(st) && !GuardPasses(EncLength(q, n), 0) then Fails(CipherFail)
    else
      // with the guard passed, the header is inside the packet
      GuardBounds(q, n);
      Succeeds(if Enciphers(st) then Opened(st, q, n, est) else q[..n])
  }

  function Opened(st: Stream, q: seq<Octet>, n: nat, est: nat): seq<Octet>
    requires Readable(q) && EncStart(q) <= n <= |q|
  {
    q[..EncStart(q)] + Encrypted(st.E, IvState(st, q, est), q[EncStart(q)..n])
  }

  lemma GuardBounds(q: seq<Octet>, n: int)
    requires 0 <= n <= |q|
    ensures Readable(q) && GuardPasses(EncLength(q, n), 0) ==> EncStart(q) <= n
  {
    if Readable(q) && n < EncStart(q) {
      assert EncLength(q, n) == n - EncStart(q) + UINT_LIMIT;
    }
  }

  // Protected packets have the header of the packet, whatever follows them.
  lemma ProtectedHeader(st: Stream, p: seq<Octet>, rest: seq<Octet>, est: nat)
    requires Readable(p) && EncStart(p) <= |p| && st.policy.authTagLen <= 20
    ensures var q := Protected(st, p, est) + rest;
            Readable(q) && EncStart(q) == EncStart(p) && Ssrc(q) == Ssrc(p)
  {
    hide Encrypted;
    var q := Protected(st, p, est) + rest;
    assert q[..EncStart(p)] == p[..EncStart(p)];
    SameHeader(p, q);
  }

  // Unprotecting takes a packet from the front of a buffer; what lies behind it is not read.
  lemma UnprotectRestores(st: Stream, p: seq<Octet>, rest: seq<Octet>, est: nat)
    requires |p| >= OCTETS_IN_RTP_HEADER && st.policy.authTagLen <= SRTP_MAX_TAG_LEN
    requires st.policy.auth || st.policy.authTagLen == 0
    requires st.policy.conf ==> Readable(p) && EncStart(p) <= |p|
    requires Enciphers(st) ==> |p| - EncStart(p) <= 0xffff
    ensures st.policy.conf ==> Readable(Protected(st, p, est) + rest)
    ensures Unprotected(st, Protected(st, p, est) + rest, |Protected(st, p, est)|, est) == Succeeds(p)
  {
    hide Encrypted, IcmIv, XorBlocks, ShiftedIndex, Tag, Opened;
    var b, q, len := Body(st, p, est), Protected(st, p, est) + rest, |Protected(st, p, est)|;
    if st.policy.conf {
      ProtectedHeader(st, p, rest, est);
    }
    var n := len - st.policy.authTagLen;
    assert q[..n] == b;
    if st.policy.auth {
      assert q[n..len] == Tag(st, b, est);
    }
    if Enciphers(st) {
      BodyTwice(st, p, est);
      OpenedIsBody(st, b, q, n, est);
    }
  }

  lemma OpenedIsBody(st: Stream, b: seq<Octet>, q: seq<Octet>, n: nat, est: nat)
    requires Enciphers(st) && OCTETS_IN_RTP_HEADER <= n <= |q| && q[..n] == b && Readable(b) && EncStart(b) <= |b|
    ensures Readable(q) && EncStart(q) == EncStart(b) && Opened(st, q, n, est) == Body(st, b, est)
  {
    hide Encrypted, IcmIv, XorBlocks;
    var k := EncStart(b);
    assert q[..k] == b[..k] && q[k..n] == b[k..];
    SameHeader(b, q);
  }

  // Unprotecting a protected packet restores it, if and only if the stream
  // authenticates or has no tag: a tag that is announced but not written is cut off the packet.
  lemma UnprotectInverts(st: Stream, p: seq<Octet>, rest: seq<Octet>, est: nat)
    requires |p| >= OCTETS_IN_RTP_HEADER && st.policy.authTagLen <= SRTP_MAX_TAG_LEN
    requires st.policy.conf ==> Readable(p) && EncStart(p) <= |p|
    requires Enciphers(st) ==> |p| - EncStart(p) <= 0xffff
    ensures st.policy.conf ==> Readable(Protected(st, p, est) + rest)
    ensures Unprotected(st, Protected(st, p, est) + rest, |Protected(st, p, est)|, est) == Succeeds(p)
        <==> (st.policy.auth || st.policy.authTagLen == 0)
  {
    if st.policy.auth || st.policy.authTagLen == 0 {
      UnprotectRestores(st, p, rest, est);
    } else {
      hide Encrypted, Body;
      var q, len := Protected(st, p, est) + rest, |Protected(st, p, est)|;
      if st.policy.conf {
        ProtectedHeader(st, p, rest, est);
      }
      if Unprotected(st, q, len, est).Succeeds? {
        GuardBounds(q, len - st.policy.authTagLen);
        assert |Unprotected(st, q, len, est).packet| < |p|;
      }
    }
  }

  // The four policies of the setters are all of the kind that is restored.
  lemma SettersRestore(st: Stream, p: seq<Octet>, rest: seq<Octet>, est: nat)
    requires st.policy in {RtpDefault(), AesCm128HmacSha1_32(), AesCm128NullAuth(), NullCipherHmacSha1_80()}
    requires Readable(p) && EncStart(p) <= |p| && |p| - EncStart(p) <= 0xffff
    ensures Readable(Protected(st, p, est) + rest)
    ensures Unprotected(st, Protected(st, p, est) + rest, |Protected(st, p, est)|, est) == Succeeds(p)
  {
    UnprotectRestores(st, p, rest, est);
    ProtectedHeader(st, p, rest, est);
  }

  // ---------------------------------------------------------------------- streams

  datatype Direction = Unknown | Sender | Receiver

  class SrtpStream {
    const policy: Policy
    const cipher: AesIcmCtx
    const mac: seq<Octet> -> Digest
    var direction: Direction

    // The stream as both ends know it.
    function Agreed(): Stream
      reads cipher
    {
      Stream(policy, cipher.encipher, cipher.offset, mac)
    }

    ghost predicate Valid()
      reads cipher
    {
      cipher.Valid() && policy.authTagLen <= SRTP_MAX_TAG_LEN
    }

    constructor (policy: Policy, cipher: AesIcmCtx, mac: seq<Octet> -> Digest)
      requires cipher.Valid() && policy.authTagLen <= SRTP_MAX_TAG_LEN
      ensures Valid() && this.policy == policy && this.cipher == cipher && this.mac == mac && direction == Unknown
    {
      this.policy, this.cipher, this.mac := policy, cipher, mac;
      direction := Unknown;
    }

    // The IV of a packet: SSRC and shifted index for counter mode.
    method SetPacketIv(pkt: array<Octet>, est: nat)
      requires Valid() && pkt.Length >= OCTETS_IN_RTP_HEADER
      modifies cipher
      ensures Valid() && Agreed() == old(Agreed()) && cipher.trace == old(cipher.trace)
      ensures policy.icm ==> cipher.bytesInBuffer == 0
                             && cipher.counter == XorBlocks(cipher.offset, IcmIv(Ssrc(pkt[..]), est))
      ensures !policy.icm ==> cipher.State() == old(cipher.State())
    {
      if policy.icm {
        cipher.SetIv([0, 0, 0, 0] + pkt[8..12] + ShiftedIndex(est));
      }
    }

    // cipher_encrypt of the payload, which changes nothing when the cipher is null.
    method EncryptPayload(pkt: array<Octet>, len: nat, est: nat) returns (ok: bool)
      requires Valid() && len <= pkt.Length && len < UINT_LIMIT && Readable(pkt[..])
      requires policy.icm ==> cipher.bytesInBuffer == 0
                              && cipher.counter == XorBlocks(cipher.offset, IcmIv(Ssrc(pkt[..]), est))
      modifies cipher, pkt
      ensures Valid() && Agreed() == old(Agreed())
      ensures ok <==> (policy.icm ==> GuardPasses(EncLength(old(pkt[..]), len), 0))
      ensures !ok || !policy.icm ==> pkt[..] == old(pkt[..]) && cipher.trace == old(cipher.trace)
      ensures ok && policy.icm ==> PayloadDone(Agreed(), old(pkt[..]), pkt[..], len, est, old(cipher.trace), cipher.trace)
    {
      hide Xor, XorBlocks, IcmIv, WithCtr, Ctr, Encrypted, GuardPasses, EncStart;
      var start, encLen := EncStart(pkt[..]), EncLength(pkt[..], len);
      if !policy.icm {
        return true;
      }
      ghost var p, s, tr, o, ssrc := pkt[..], cipher.State(), cipher.trace, cipher.offset, Ssrc(pkt[..]);
      IvCounter(o, ssrc, est);
      if GuardPasses(encLen, 0) {
        GuardLength(p, len);
      }
      var status := cipher.AesIcmEncrypt(pkt, start, encLen);
      ok := status == Status.Ok;
      if ok {
        CipheredSlices(cipher.encipher, s, p, pkt[..], start, encLen);
        FreshStart(cipher.encipher, s.counter, s.buffer, seq(16, i => 0), p[start..len]);
        RunIsPacket(o, PacketUse(ssrc, est, encLen), (encLen + 15) / 16);
        assert start + encLen == len;
      }
    }

    // What stops srtp_protect, in the order of its tests.
    function ProtectStatus(p: seq<Octet>, len: nat, keyOk: bool, indexOk: bool): Status
      requires |p| >= OCTETS_IN_RTP_HEADER && (policy.conf ==> Readable(p))
    {
      if len < OCTETS_IN_RTP_HEADER then BadParam
      else if !keyOk then KeyExpired
      else if !indexOk then ReplayFail
      else if policy.conf && policy.icm && !GuardPasses(EncLength(p, len), 0) then CipherFail
      else Status.Ok
    }

    // keyOk and indexOk stand for the key limit and the replay database.
    method SrtpProtect(pkt: array<Octet>, pktOctetLen: nat, est: nat, keyOk: bool,
                       indexOk: bool) returns (status: Status, newLen: nat)
      requires Valid() && pktOctetLen < 0x8000_0000 && OCTETS_IN_RTP_HEADER <= pkt.Length
      requires pktOctetLen + (if policy.auth then policy.authTagLen else 0) <= pkt.Length
      requires policy.conf ==> Readable(pkt[..])
      modifies this`direction, cipher, pkt
      ensures Valid() && Agreed() == old(Agreed())
      ensures status == ProtectStatus(old(pkt[..]), pktOctetLen, keyOk, indexOk)
      ensures status != Status.Ok ==> pkt[..] == old(pkt[..]) && newLen == pktOctetLen && cipher.trace == old(cipher.trace)
      ensures status == Status.Ok ==> ProtectDone(Agreed(), old(pkt[..]), pkt[..], pktOctetLen, newLen, est, old(cipher.trace), cipher.trace)
      ensures direction == if status == BadParam || old(direction) != Unknown then old(direction) else Sender
    {
      hide Encrypted, IcmIv, XorBlocks, EncLength, GuardPasses, EncStart, ProtectDone, Tag, Body, Readable, UseRun;
      newLen := pktOctetLen;
      if pktOctetLen < OCTETS_IN_RTP_HEADER {
        return BadParam, newLen;
      }
      if direction == Unknown {
        direction := Sender;
      }
      if !keyOk {
        return KeyExpired, newLen;
      }
      if !indexOk {
        return ReplayFail, newLen;
      }
      ghost var p, tr := pkt[..], cipher.trace;
      SetPacketIv(pkt, est);
      if policy.conf {
        var ok := EncryptPayload(pkt, pktOctetLen, est);
        if !ok {
          return CipherFail, newLen;
        }
      }
      ghost var mid := pkt[..];
      BodyInPlace(Agreed(), p, mid, pktOctetLen, est, tr, cipher.trace);
      if policy.auth {
        WriteTag(pkt, pktOctetLen, est);
        newLen := pktOctetLen + policy.authTagLen;
      }
      FinishProtect(Agreed(), p, mid, pkt[..], pktOctetLen, newLen, est, tr, cipher.trace);
      status := Status.Ok;
    }

    // The tag over the packet, written behind it.
    method WriteTag(pkt: array<Octet>, len: nat, est: nat)
      requires policy.authTagLen <= SRTP_MAX_TAG_LEN && len + policy.authTagLen <= pkt.Length
      modifies pkt
      ensures pkt[..len] == old(pkt[..len])
      ensures pkt[len..len + policy.authTagLen] == Tag(Agreed(), old(pkt[..len]), est)
      ensures pkt[len + policy.authTagLen..] == old(pkt[len + policy.authTagLen..])
    {
      ghost var b := pkt[..len];
      var tag := mac(pkt[..len] + ShiftedIndex(est)[..4]);
      for i: nat := 0 to policy.authTagLen
        invariant pkt[..len] == b
        invariant pkt[len..len + i] == tag[..i]
        invariant pkt[len + policy.authTagLen..] == old(pkt[len + policy.authTagLen..])
      {
        pkt[len + i] := tag[i];
      }
    }

    // octet_string_is_eq, which is true when the octets differ.
    method TagsDiffer(tag: seq<Octet>, pkt: array<Octet>, pos: nat) returns (differ: bool)
      requires pos + |tag| <= pkt.Length
      ensures differ <==> tag != pkt[pos..pos + |tag|]
    {
      for i: nat := 0 to |tag|
        invariant tag[..i] == pkt[pos..pos + i]
      {
        if tag[i] != pkt[pos + i] {
          assert tag[i] != pkt[pos..pos + |tag|][i];
          return true;
        }
      }
      assert tag[..|tag|] == tag;
      differ := false;
    }

    method SrtpUnprotect(pkt: array<Octet>, pktOctetLen: nat, est: nat, keyOk: bool,
                         indexOk: bool) returns (status: Status, newLen: nat)
      requires Valid() && pktOctetLen < 0x8000_0000 && OCTETS_IN_RTP_HEADER <= pkt.Length && pktOctetLen <= pkt.Length
      requires policy.conf ==> Readable(pkt[..])
      modifies this`direction, cipher, pkt
      ensures Valid() && Agreed() == old(Agreed())
      ensures pktOctetLen < OCTETS_IN_RTP_HEADER ==> status == BadParam
      ensures pktOctetLen >= OCTETS_IN_RTP_HEADER && !indexOk ==> status == ReplayFail
      ensures status != Status.Ok ==> pkt[..] == old(pkt[..]) && newLen == pktOctetLen
      ensures pktOctetLen >= OCTETS_IN_RTP_HEADER && indexOk ==>
                UnprotectDone(Unprotected(Agreed(), old(pkt[..]), pktOctetLen, est), old(pkt[..]), pkt[..], newLen, status, keyOk)
      ensures direction == if status != Status.Ok || old(direction) != Unknown then old(direction) else Receiver
    {
      hide Encrypted, IcmIv, XorBlocks, EncLength, GuardPasses, EncStart;
      newLen := pktOctetLen;
      if pktOctetLen < OCTETS_IN_RTP_HEADER {
        return BadParam, newLen;
      }
      if !indexOk {
        return ReplayFail, newLen;
      }
      var tagLen := policy.authTagLen;
      var n := pktOctetLen - tagLen;
      ghost var p, tr := pkt[..], cipher.trace;
      SetPacketIv(pkt, est);
      if policy.auth {
        var tmpTag := mac(pkt[..n] + ShiftedIndex(est)[..4]);
        assert tmpTag[..tagLen] == Tag(Agreed(), p[..n], est);
        var differ := TagsDiffer(tmpTag[..tagLen], pkt, n);
        if differ {
          return AuthFail, newLen;
        }
      }
      if !keyOk {
        return KeyExpired, newLen;
      }
      if policy.conf {
        var ok := EncryptPayload(pkt, n, est);
        if !ok {
          return CipherFail, newLen;
        }
      }
      if direction == Unknown {
        direction := Receiver;
      }
      newLen := n;
      status := Status.Ok;
    }
  }

  // The packet is opened in place, as far as the tag and the key allow.
  ghost predicate UnprotectDone(o: Outcome, p: seq<Octet>, q: seq<Octet>, newLen: nat, status: Status, keyOk: bool) {
    match o
    case Fails(s) => status == if s == AuthFail || keyOk then s else KeyExpired
    case Succeeds(out) =>
      if keyOk then status == Status.Ok && newLen == |out| <= |p| && q == out + p[newLen..]
      else status == KeyExpired
  }

  // The packet is protected in place; what lies behind it stays.
  ghost predicate ProtectDone(st: Stream, p: seq<Octet>, q: seq<Octet>, len: nat, newLen: nat, est: nat,
                              tr: seq<Block>, tr': seq<Block>)
    requires OCTETS_IN_RTP_HEADER <= len <= |p| && st.policy.authTagLen <= SRTP_MAX_TAG_LEN && (st.policy.conf ==> Readable(p))
  {
    && (Enciphers(st) ==> Readable(p[..len]) && EncStart(p[..len]) <= len && len - EncStart(p[..len]) <= 0xffff)
    && newLen == len + (if st.policy.auth then st.policy.authTagLen else 0)
    && newLen <= |q| == |p|
    && q == Protected(st, p[..len], est) + p[newLen..]
    && tr' == tr + if Enciphers(st) then UseRun(st.offset, PacketUse(Ssrc(p), est, len - EncStart(p[..len]))) else []
  }

  // A header that ends inside the first len octets is read from them alone.
  lemma PrefixHeader(p: seq<Octet>, len: nat)
    requires OCTETS_IN_RTP_HEADER <= len <= |p| && Readable(p) && EncStart(p) <= len
    ensures Readable(p[..len]) && EncStart(p[..len]) == EncStart(p) && Ssrc(p[..len]) == Ssrc(p)
  {
    var q := p[..len];
    assert q[0] == p[0] && AfterCsrcs(q) == AfterCsrcs(p);
    if X(p) {
      var a := AfterCsrcs(p);
      assert q[a + 2] == p[a + 2] && q[a + 3] == p[a + 3];
    }
    assert q[8..12] == p[8..12];
  }

  // After the payload is done, before a tag is written.
  lemma BodyInPlace(st: Stream, p: seq<Octet>, q: seq<Octet>, len: nat, est: nat, tr: seq<Block>, tr': seq<Block>)
    requires OCTETS_IN_RTP_HEADER <= len <= |p| && (st.policy.conf ==> Readable(p))
    requires if Enciphers(st) then PayloadDone(st, p, q, len, est, tr, tr') else q == p && tr' == tr
    ensures Enciphers(st) ==> Readable(p[..len]) && EncStart(p[..len]) <= len && len - EncStart(p[..len]) <= 0xffff
    ensures q == Body(st, p[..len], est) + p[len..]
    ensures tr' == tr + if Enciphers(st) then UseRun(st.offset, PacketUse(Ssrc(p), est, len - EncStart(p[..len]))) else []
  {
    hide Encrypted, XorBlocks, IcmIv, UseRun;
    if Enciphers(st) {
      PrefixHeader(p, len);
      var n := EncStart(p);
      assert p[..len][..n] == p[..n] && p[..len][n..] == p[n..len];
    }
  }

  // The payload is encrypted in place, and the blocks of the packet went through the cipher.
  ghost predicate PayloadDone(st: Stream, p: seq<Octet>, q: seq<Octet>, len: nat, est: nat, tr: seq<Block>,
                              tr': seq<Block>)
    requires Readable(p)
  {
    var start := EncStart(p);
    && start <= len <= |p| && len - start <= 0xffff
    && q == Opened(st, p, len, est) + p[len..]
    && tr' == tr + UseRun(st.offset, PacketUse(Ssrc(p), est, len - start))
  }

  // What a payload of n octets uses: a block for every sixteen.
  function PacketUse(ssrc: seq<Octet>, est: nat, n: nat): (u: Use)
    requires |ssrc| == 4 && n <= 0xffff
    ensures IsUse(u)
  {
    Use(ssrc, est, (n + 15) / 16)
  }

  lemma GuardLength(q: seq<Octet>, n: nat)
    requires Readable(q) && n <= |q| && GuardPasses(EncLength(q, n), 0) && n < UINT_LIMIT
    ensures EncStart(q) <= n && EncLength(q, n) == n - EncStart(q) <= 0xffff
  {
    GuardBounds(q, n);
  }

  // The IV leaves the block counter at zero.
  lemma IvCounter(offset: Block, ssrc: seq<Octet>, est: nat)
    requires |ssrc| == 4 && offset[14] == 0 && offset[15] == 0
    ensures Ctr(XorBlocks(offset, IcmIv(ssrc, est))) == 0
  {
    hide Xor, BigEndian;
    ShiftedIndexIs(est);
    XorZero(0);
  }

  // The blocks that the counter runs through are those of the packet.
  lemma {:induction false} RunIsPacket(offset: Block, u: Use, n: nat)
    requires IsUse(u) && n <= u.blocks && Ctr(XorBlocks(offset, IcmIv(u.ssrc, u.est))) == 0
    ensures CounterRun(XorBlocks(offset, IcmIv(u.ssrc, u.est)), n) == UseRun(offset, u)[..n]
  {
    hide XorBlocks, IcmIv, WithCtr, Ctr;
    if n > 0 {
      RunIsPacket(offset, u, n - 1);
      assert UseRun(offset, u)[..n] == UseRun(offset, u)[..n - 1] + [UseRun(offset, u)[n - 1]];
    }
  }

  // What was left in the keystream buffer does not matter once the IV is set.
  lemma FreshStart(E: Cipher, c: Block, b: Block, b': Block, data: seq<Octet>)
    ensures Encrypted(E, IcmState(c, b, 0), data) == Encrypted(E, IcmState(c, b', 0), data)
  {
    hide KeyOctet, Xor;
    forall i: nat | i < |data|
      ensures KeyOctet(E, IcmState(c, b, 0), i) == KeyOctet(E, IcmState(c, b', 0), i)
    {
      StaleBuffer(E, c, b, b', i);
    }
  }

  // With the tag written behind the body, if there is one.
  lemma FinishProtect(st: Stream, p: seq<Octet>, mid: seq<Octet>, q: seq<Octet>, len: nat, newLen: nat, est: nat,
                      tr: seq<Block>, tr': seq<Block>)
    requires OCTETS_IN_RTP_HEADER <= len <= |p| && |mid| == |q| == |p| && st.policy.authTagLen <= SRTP_MAX_TAG_LEN
    requires st.policy.conf ==> Readable(p)
    requires Enciphers(st) ==> Readable(p[..len]) && EncStart(p[..len]) <= len && len - EncStart(p[..len]) <= 0xffff
    requires mid == Body(st, p[..len], est) + p[len..]
    requires newLen == len + (if st.policy.auth then st.policy.authTagLen else 0) && newLen <= |p|
    requires if st.policy.auth then q[..len] == mid[..len] && q[len..newLen] == Tag(st, mid[..len], est) && q[newLen..] == mid[newLen..]
             else q == mid
    requires tr' == tr + if Enciphers(st) then UseRun(st.offset, PacketUse(Ssrc(p), est, len - EncStart(p[..len]))) else []
    ensures ProtectDone(st, p, q, len, newLen, est, tr, tr')
  {
    hide Encrypted, UseRun, Tag;
    var b := Body(st, p[..len], est);
    assert mid[..len] == b && mid[newLen..] == p[newLen..];
    if st.policy.auth {
      assert q == q[..len] + q[len..newLen] + q[newLen..];
    }
  }

  // ------------------------------------------------------------- runs of packets

  // One successful call: what the buffer held before and after it
  datatype Protection = Protection(p: seq<Octet>, q: seq<Octet>, len: nat, newLen: nat, est: nat)

  ghost predicate GoodCall(st: Stream, c: Protection) {
    && OCTETS_IN_RTP_HEADER <= c.len <= |c.p| && st.policy.authTagLen <= SRTP_MAX_TAG_LEN
    && Enciphers(st) && Readable(c.p) && c.est < TWO_48
  }

  // The cipher's trace after the calls in turn, each one as srtp_protect ends it
  ghost predicate Traced(st: Stream, calls: seq<Protection>, tr: seq<Block>)
    decreases |calls|
  {
    if calls == [] then tr == [] else
      var c := calls[|calls| - 1];
      GoodCall(st, c) && exists before: seq<Block> ::
        Traced(st, calls[..|calls| - 1], before) && ProtectDone(st, c.p, c.q, c.len, c.newLen, c.est, before, tr)
  }

  // What a call takes out of the cipher
  function CallUse(c: Protection): (u: Use)
    requires OCTETS_IN_RTP_HEADER <= c.len <= |c.p| && Readable(c.p[..c.len]) && EncStart(c.p[..c.len]) <= c.len
    requires c.len - EncStart(c.p[..c.len]) <= 0xffff
  {
    PacketUse(Ssrc(c.p), c.est, c.len - EncStart(c.p[..c.len]))
  }

  // A call extends the run by one packet.
  lemma TraceGrows(st: Stream, c: Protection, run: seq<Use>, tr: seq<Block>)
    requires GoodCall(st, c) && GoodRun(run)
    requires ProtectDone(st, c.p, c.q, c.len, c.newLen, c.est, RunTrace(st.offset, run), tr)
    ensures Readable(c.p[..c.len]) && EncStart(c.p[..c.len]) <= c.len && c.len - EncStart(c.p[..c.len]) <= 0xffff
    ensures GoodRun(run + [CallUse(c)]) && tr == RunTrace(st.offset, run + [CallUse(c)])
  {
    hide UseRun, Protected, EncStart, Ssrc;
    assert (run + [CallUse(c)])[..|run|] == run;
  }

  lemma {:induction false} TraceIsRun(st: Stream, calls: seq<Protection>, tr: seq<Block>) returns (run: seq<Use>)
    requires Traced(st, calls, tr)
    ensures GoodRun(run) && |run| == |calls| && tr == RunTrace(st.offset, run)
    ensures forall i | 0 <= i < |calls| :: |calls[i].p| >= OCTETS_IN_RTP_HEADER
              && run[i].ssrc == Ssrc(calls[i].p) && run[i].est == calls[i].est
    decreases |calls|
  {
    hide ProtectDone, Ssrc, EncStart;
    if calls == [] {
      run := [];
    } else {
      var c := calls[|calls| - 1];
      var before: seq<Block> :| Traced(st, calls[..|calls| - 1], before)
        && ProtectDone(st, c.p, c.q, c.len, c.newLen, c.est, before, tr);
      run := TraceIsRun(st, calls[..|calls| - 1], before);
      TraceGrows(st, c, run, tr);
      run := run + [CallUse(c)];
    }
  }

  // After any sequence of calls that never repeats an index under one SSRC, no block has
  // gone through the cipher twice.
  lemma NoBlockTwiceInCalls(st: Stream, calls: seq<Protection>, tr: seq<Block>)
    requires Traced(st, calls, tr)
    requires forall i | 0 <= i < |calls| :: |calls[i].p| >= OCTETS_IN_RTP_HEADER
    requires forall i, j | 0 <= i < j < |calls| :: !(Ssrc(calls[i].p) == Ssrc(calls[j].p) && calls[i].est == calls[j].est)
    ensures NoDuplicates(tr)
  {
    hide Traced, RunTrace, Ssrc;
    var run := TraceIsRun(st, calls, tr);
    NoBlockTwice(st.offset, run);
  }

  // srtp_protect at one end and srtp_unprotect at the other, on one buffer
  method ProtectThenUnprotect(sender: SrtpStream, receiver: SrtpStream, pkt: array<Octet>, len: nat, est: nat)
    returns (sent: Status, received: Status, newLen: nat)
    requires sender.Valid() && receiver.Valid() && sender != receiver && sender.cipher != receiver.cipher
    requires sender.Agreed() == receiver.Agreed() && (sender.policy.auth || sender.policy.authTagLen == 0)
    requires OCTETS_IN_RTP_HEADER <= len < 0x7fff_fff0 && len + sender.policy.authTagLen <= pkt.Length
    requires Readable(pkt[..]) && EncStart(pkt[..]) <= len
    modifies sender, sender.cipher, receiver, receiver.cipher, pkt
    ensures sent == sender.ProtectStatus(old(pkt[..]), len, true, true)
    ensures sent == Status.Ok ==> received == Status.Ok && newLen == len && pkt[..len] == old(pkt[..len])
    ensures sent != Status.Ok ==> pkt[..] == old(pkt[..])
  {
    hide Encrypted, IcmIv, XorBlocks, EncStart, Body, Tag, Unprotected, Protected, GuardPasses, EncLength, UseRun, Readable;
    ghost var p, st := pkt[..], sender.Agreed();
    PrefixHeader(p, len);
    newLen := len;
    received := Status.Ok;
    sent, newLen := sender.SrtpProtect(pkt, len, est, true, true);
    if sent == Status.Ok {
      UnprotectRestores(st, p[..len], p[newLen..], est);
      ProtectedHeader(st, p[..len], p[newLen..], est);
      received, newLen := receiver.SrtpUnprotect(pkt, newLen, est, true, true);
    }
  }
}
