// A protected packet as it stands on the wire (RFC 3711, sections 3.1, 4.1.1 and 4.2), in
// numbers and octets: what is encrypted with which block, and what the tag covers.
module SrtpWire {
  import opened Octets
  import opened AesIcm
  import opened Srtp

  // ------------------------------------------------------------------- numbers

  // A string of octets as a number, high octet first
  function Number(s: seq<Octet>): nat {
    if s == [] then 0 else 256 * Number(s[..|s| - 1]) + s[|s| - 1]
  }

  lemma NumberOfLast(s: seq<Octet>, x: Octet)
    ensures Number(s + [x]) == 256 * Number(s) + x
  {
    assert (s + [x])[..|s|] == s;
  }

  lemma {:induction false} NumberOfBigEndian(n: nat, k: nat)
    requires n < Power256(k)
    ensures Number(BigEndian(n, k)) == n
  {
    if k > 0 {
      assert n / 256 < Power256(k - 1);
      NumberOfBigEndian(n / 256, k - 1);
      NumberOfLast(BigEndian(n / 256, k - 1), n % 256);
    }
  }

  lemma {:induction false} NumberOfBoth(s: seq<Octet>, t: seq<Octet>)
    ensures Number(s + t) == Number(s) * Power256(|t|) + Number(t)
    decreases |t|
  {
    if t == [] {
      assert s + t == s;
    } else {
      var u, x := t[..|t| - 1], t[|t| - 1];
      NumberOfBoth(s, u);
      assert t == u + [x] && s + t == (s + u) + [x];
      NumberOfLast(s + u, x);
      NumberOfLast(u, x);
      assert Number(s) * Power256(|t|) == 256 * (Number(s) * Power256(|u|));
    }
  }

  // The IV is SSRC * 2^64 + index * 2^16 (section 4.1.1).
  lemma IvIs(ssrc: seq<Octet>, est: nat)
    requires |ssrc| == 4
    ensures Number(IcmIv(ssrc, est)) == Number(ssrc) * TWO_64 + est % TWO_48 * 0x1_0000
  {
    hide BigEndian, IcmIv;
    var n := est * 0x1_0000 % TWO_64;
    PowerOfEight();
    NumberOfBigEndian(n, 8);
    ShiftTruncates(est);
    assert IcmIv(ssrc, est) == [0, 0, 0, 0] + ssrc + ShiftedIndex(est) by { IvOctets(ssrc, est); }
    NumberOfBoth([0, 0, 0, 0] + ssrc, ShiftedIndex(est));
    NumberOfBoth([0, 0, 0, 0], ssrc);
    assert Number([0, 0, 0, 0]) == 0 by { FourZeros(); }
  }

  lemma IvOctets(ssrc: seq<Octet>, est: nat)
    requires |ssrc| == 4
    ensures IcmIv(ssrc, est) == [0, 0, 0, 0] + ssrc + ShiftedIndex(est)
  {
  }

  lemma FourZeros()
    ensures Number([0, 0, 0, 0]) == 0
  {
    NumberOfLast([], 0);
    NumberOfLast([0], 0);
    NumberOfLast([0, 0], 0);
    NumberOfLast([0, 0, 0], 0);
    assert [] + [0] == [0] && [0] + [0] == [0, 0] && [0, 0] + [0] == [0, 0, 0] && [0, 0, 0] + [0] == [0, 0, 0, 0];
  }

  lemma PowerOfEight()
    ensures Power256(8) == TWO_64 && Power256(4) == 0x1_0000_0000
  {
    assert Power256(4) == 0x1_0000_0000;
  }

  // The rollover counter, bits 16 to 47 of the index, in four octets
  function Rollover(est: nat): (s: seq<Octet>)
    ensures |s| == 4
  {
    BigEndian(est / 0x1_0000 % 0x1_0000_0000, 4)
  }

  lemma RolloverIs(est: nat)
    ensures Number(Rollover(est)) == est / 0x1_0000 % 0x1_0000_0000
    ensures ShiftedIndex(est)[..4] == Rollover(est)
  {
    hide ShiftedIndex, BigEndian, Number;
    var e := est % TWO_48;
    ShiftedIndexIs(est);
    LastTwo(e, 4);
    TwoOctetsUp(est);
    PowerOfEight();
    NumberOfBigEndian(est / 0x1_0000 % 0x1_0000_0000, 4);
  }

  lemma LastTwo(n: nat, k: nat)
    ensures BigEndian(n, k + 2) == BigEndian(n / 256 / 256, k) + [n / 256 % 256, n % 256]
  {
  }

  lemma TwoOctetsUp(est: nat)
    ensures est % TWO_48 / 256 / 256 == est / 0x1_0000 % 0x1_0000_0000
  {
    var q, e := est / TWO_48, est % TWO_48;
    assert e / 256 / 256 == e / 0x1_0000;
    assert est / 0x1_0000 == q * 0x1_0000_0000 + e / 0x1_0000;
  }

  // ------------------------------------------------------------------- the tag

  // The first octets of the keyed digest over n octets and the rollover counter
  function WireTag(st: Stream, octets: seq<Octet>, est: nat): seq<Octet>
    requires st.policy.authTagLen <= SRTP_MAX_TAG_LEN
  {
    st.mac(octets + Rollover(est))[..st.policy.authTagLen]
  }

  // A packet fails authentication exactly when its last octets are not the tag of all that
  // stands before them and of the rollover counter.
  lemma RefusedIff(st: Stream, q: seq<Octet>, len: nat, est: nat)
    requires OCTETS_IN_RTP_HEADER <= len <= |q| && st.policy.authTagLen <= SRTP_MAX_TAG_LEN
    requires st.policy.conf ==> Readable(q)
    ensures var n := len - st.policy.authTagLen;
            Unprotected(st, q, len, est) == Fails(AuthFail) <==> st.policy.auth && q[n..len] != WireTag(st, q[..n], est)
  {
    hide ShiftedIndex, Rollover, EncStart, Encrypted, Opened;
    RolloverIs(est);
    GuardBounds(q, len - st.policy.authTagLen);
  }

  // Two packets that are accepted with one tag have one digest: whoever changes an octet
  // before the tag, or the rollover counter, has to find two inputs with one truncated digest.
  lemma SameTagSameDigest(st: Stream, q: seq<Octet>, q': seq<Octet>, len: nat, len': nat, est: nat, est': nat)
    requires OCTETS_IN_RTP_HEADER <= len <= |q| && OCTETS_IN_RTP_HEADER <= len' <= |q'|
    requires st.policy.auth && st.policy.authTagLen <= SRTP_MAX_TAG_LEN && (st.policy.conf ==> Readable(q) && Readable(q'))
    requires Unprotected(st, q, len, est).Succeeds? && Unprotected(st, q', len', est').Succeeds?
    requires q[len - st.policy.authTagLen..len] == q'[len' - st.policy.authTagLen..len']
    ensures WireTag(st, q[..len - st.policy.authTagLen], est) == WireTag(st, q'[..len' - st.policy.authTagLen], est')
    ensures q[..len - st.policy.authTagLen] + Rollover(est) == q'[..len' - st.policy.authTagLen] + Rollover(est') ==>
              q[..len] == q'[..len'] && Rollover(est) == Rollover(est')
  {
    hide Rollover, Unprotected, WireTag;
    RefusedIff(st, q, len, est);
    RefusedIff(st, q', len', est');
    var n, n' := len - st.policy.authTagLen, len' - st.policy.authTagLen;
    assert q[..len] == q[..n] + q[n..len] && q'[..len'] == q'[..n'] + q'[n'..len'];
    var a, b := q[..n] + Rollover(est), q'[..n'] + Rollover(est');
    if a == b {
      assert a[..n] == q[..n] && b[..n'] == q'[..n'] && a[n..] == Rollover(est) && b[n'..] == Rollover(est');
    }
  }

  // What srtp_protect writes behind the packet
  lemma SentTag(st: Stream, p: seq<Octet>, q: seq<Octet>, len: nat, newLen: nat, est: nat, tr: seq<Block>, tr': seq<Block>)
    requires OCTETS_IN_RTP_HEADER <= len <= |p| && st.policy.authTagLen <= SRTP_MAX_TAG_LEN && (st.policy.conf ==> Readable(p))
    requires ProtectDone(st, p, q, len, newLen, est, tr, tr') && st.policy.auth
    ensures newLen == len + st.policy.authTagLen <= |q| && q[len..newLen] == WireTag(st, q[..len], est)
  {
    hide ShiftedIndex, Rollover, EncStart, Encrypted, UseRun, Body;
    RolloverIs(est);
    var b := Body(st, p[..len], est);
    assert q == b + (Tag(st, b, est) + p[newLen..]);
    assert q[..len] == b && q[len..newLen] == Tag(st, b, est);
  }

  // --------------------------------------------------------------- the payload

  // Octet i of a protected packet: the header as it was, and every octet of the payload
  // combined with one octet of the enciphered blocks of the packet, in order.
  lemma ProtectedOctet(st: Stream, p: seq<Octet>, est: nat, i: nat)
    requires Enciphers(st) && Readable(p) && EncStart(p) <= |p| && |p| - EncStart(p) <= 0xffff
    requires st.policy.authTagLen <= SRTP_MAX_TAG_LEN && st.offset[14] == 0 && st.offset[15] == 0 && i < |p|
    ensures var q, n := Protected(st, p, est), EncStart(p);
            q[i] == if i < n then p[i] else Xor(p[i], st.E(CounterBlock(st.offset, Ssrc(p), est, (i - n) / 16))[(i - n) % 16])
  {
    hide Xor, XorBlocks, IcmIv, WithCtr, Ctr, KeyOctet, EncStart, Tag;
    var n, s := EncStart(p), IvState(st, p, est);
    if i >= n {
      EncryptedAt(st.E, s, p[n..], i - n);
      KeyOctetIs(st.E, s, i - n);
      IvCounter(st.offset, Ssrc(p), est);
    }
  }

  // A counter block: the salt combined with the IV, and the number of the block at its end
  lemma CounterBlockIs(offset: Block, ssrc: seq<Octet>, est: nat, j: nat, i: nat)
    requires |ssrc| == 4 && j < 0x1_0000 && i < 16
    ensures var b, low := CounterBlock(offset, ssrc, est, j), if i == 14 then j / 256 else j % 256;
            b[i] == if i < 4 then offset[i] else if i < 14 then Xor(offset[i], IcmIv(ssrc, est)[i]) else low
  {
    hide Xor, ShiftedIndex;
    if i < 4 {
      XorZero(offset[i]);
    }
  }

  // --------------------------------------------------------------- the header

  // The fixed part of a header: version, padding, extension and count in the first octet
  datatype Header = Header(version: nat, padding: bool, extension: bool, fixed: seq<Octet>, csrcs: seq<Octet>,
                           profile: seq<Octet>, words: seq<Octet>)

  ghost predicate IsHeader(h: Header) {
    && h.version < 4 && |h.fixed| == 11 && |h.csrcs| % 4 == 0 && |h.csrcs| / 4 < 16
    && |h.profile| == 2 && |h.words| % 4 == 0 && |h.words| / 4 < 0x1_0000
  }

  // Figure 1 of RFC 3711: the header with its sources, and the extension with its length
  function HeaderOctets(h: Header): seq<Octet>
    requires IsHeader(h)
  {
    var first := 64 * h.version + (if h.padding then 32 else 0) + (if h.extension then 16 else 0) + |h.csrcs| / 4;
    var count := |h.words| / 4;
    [first] + h.fixed + h.csrcs + if h.extension then h.profile + [count / 256, count % 256] + h.words else []
  }

  // The payload starts right behind the header, whatever it is made of.
  lemma PayloadFollowsHeader(h: Header, payload: seq<Octet>)
    requires IsHeader(h)
    ensures var p := HeaderOctets(h) + payload;
            Readable(p) && EncStart(p) == |HeaderOctets(h)| && p[EncStart(p)..] == payload && Ssrc(p) == h.fixed[7..]
  {
    var o := HeaderOctets(h);
    var p := o + payload;
    var count, a := |h.words| / 4, 12 + |h.csrcs|;
    assert p[0] == 64 * h.version + (if h.padding then 32 else 0) + (if h.extension then 16 else 0) + |h.csrcs| / 4;
    FirstOctet(h, p[0]);
    assert p[8..12] == h.fixed[7..];
    if h.extension {
      assert p[a + 2] == count / 256 && p[a + 3] == count % 256;
    }
  }

  lemma FirstOctet(h: Header, x: nat)
    requires IsHeader(h)
    requires x == 64 * h.version + (if h.padding then 32 else 0) + (if h.extension then 16 else 0) + |h.csrcs| / 4
    ensures x % 16 == |h.csrcs| / 4 && (x / 16 % 2 == 1 <==> h.extension)
  {
    var y := 4 * h.version + (if h.padding then 2 else 0) + (if h.extension then 1 else 0);
    assert x == 16 * y + |h.csrcs| / 4;
    assert x / 16 == y;
  }
}
