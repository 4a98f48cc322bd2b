// xfm.c: authenticated encryption by chaining and HMAC, and its inverse.
module AeXfm {
  import opened Octets
  import opened AesCbc

  const TAG_LEN := 12

  // What a key gives: the cipher in both directions, and the tag under the derived key.
  // The encryption key that is derived as well is never used: the cipher is set up with
  // the key itself.
  datatype AeKey = AeKey(E: Block -> Block, D: Block -> Block, mac: seq<Octet> -> AeTag)

  type AeTag = s: seq<Octet> | |s| == 12 witness seq(12, i => 0)

  // Ciphertext and tag, for cleartext and data.
  ghost function Sealed(key: AeKey, clear: seq<Octet>, iv: Block, data: seq<Octet>): (o: seq<Octet>)
    ensures |o| == |Padded(data)| + TAG_LEN
  {
    var c := CbcEncrypted(key.E, iv, Padded(data), |data| / 16 + 1);
    c + key.mac(clear + c)
  }

  ghost predicate Authentic(key: AeKey, clear: seq<Octet>, o: seq<Octet>)
    requires |o| >= TAG_LEN
  {
    key.mac(clear + o[..|o| - TAG_LEN]) == o[|o| - TAG_LEN..]
  }

  // What decryption makes of octets that are authentic.
  ghost function Plain(key: AeKey, iv: Block, o: seq<Octet>): seq<Octet>
    requires |o| >= TAG_LEN && (|o| - TAG_LEN) % 16 == 0
  {
    CbcDecrypted(key.D, iv, o[..|o| - TAG_LEN], (|o| - TAG_LEN) / 16)
  }

  // What decryption answers.  It does not look at the length before it takes off the tag.
  ghost function Verdict(key: AeKey, clear: seq<Octet>, iv: Block, o: seq<Octet>): Status {
    if |o| < TAG_LEN then Overrun
    else if !Authentic(key, clear, o) then AuthFail
    else if (|o| - TAG_LEN) % 16 != 0 then BadParam
    else if MARKER in Plain(key, iv, o) then Ok
    else Overrun
  }

  // The last twelve octets are the tag of the clear part and all that stands before them.
  lemma AuthenticIff(key: AeKey, clear: seq<Octet>, c: seq<Octet>, tag: AeTag)
    ensures Authentic(key, clear, c + tag) <==> tag == key.mac(clear + c)
  {
    var o := c + tag;
    assert o[..|o| - TAG_LEN] == c && o[|o| - TAG_LEN..] == tag;
  }

  // Data under the tag of other data is refused, if and only if the tags differ: all of the
  // clear part and of what stands before the tag goes into it.
  lemma RefusedIff(key: AeKey, clear: seq<Octet>, clear': seq<Octet>, c: seq<Octet>, c': seq<Octet>, iv: Block)
    ensures Verdict(key, clear', iv, c' + key.mac(clear + c)) == AuthFail <==> key.mac(clear + c) != key.mac(clear' + c')
  {
    hide Authentic, CbcDecrypted, MarkerLength;
    AuthenticIff(key, clear', c', key.mac(clear + c));
  }

  // What sealing puts out: the padded data in chained blocks, and the tag of the clear part
  // and of those blocks behind them.
  lemma SealedIs(key: AeKey, clear: seq<Octet>, iv: Block, data: seq<Octet>)
    ensures var o := Sealed(key, clear, iv, data);
            && |o| == |Padded(data)| + 12 && o[|o| - 12..] == key.mac(clear + o[..|o| - 12])
            && forall i: nat | 16 * i + 16 <= |Padded(data)| :: ChainedAt(key.E, iv, Padded(data), o[..|o| - 12], i)
  {
    hide CbcEncrypted, Padded, ChainedAt;
    var o, p, k := Sealed(key, clear, iv, data), Padded(data), |data| / 16 + 1;
    var c := CbcEncrypted(key.E, iv, p, k);
    assert o[..|o| - 12] == c;
    forall i: nat | 16 * i + 16 <= |p|
      ensures ChainedAt(key.E, iv, p, c, i)
    {
      CbcIsChained(key.E, iv, p, k, i);
    }
  }

  // A bare tag is authentic and holds no padding.
  lemma BareTagOverruns(key: AeKey, clear: seq<Octet>, iv: Block)
    ensures Authentic(key, clear, key.mac(clear)) && Verdict(key, clear, iv, key.mac(clear)) == Overrun
  {
    hide CbcDecrypted, MarkerLength;
    var o := key.mac(clear);
    assert o[..0] == [] && clear + [] == clear && o[0..] == o;
    EmptyOverruns(key.D, iv);
  }

  // The tag of sealed data is accepted, and opening it gives back the data.
  lemma OpenInverts(key: AeKey, clear: seq<Octet>, iv: Block, data: seq<Octet>)
    requires Inverts(key.D, key.E)
    ensures var o := Sealed(key, clear, iv, data);
            && (|o| - TAG_LEN) % 16 == 0 && Authentic(key, clear, o)
            && MARKER in Plain(key, iv, o) && Unpadded(Plain(key, iv, o)) == data
  {
    hide CbcEncrypted, CbcDecrypted, MarkerLength, Padded, Inverts;
    var o, k := Sealed(key, clear, iv, data), |data| / 16 + 1;
    var c := CbcEncrypted(key.E, iv, Padded(data), k);
    assert o[..|o| - TAG_LEN] == c && |c| == 16 * k;
    NistInverts(key.D, key.E, iv, data);
  }

  // Which of the three pointers were given.
  datatype Given = Given(iv: bool, data: bool, len: bool)
  {
    predicate None() { !iv && !data && !len }

    predicate All() { iv && data && len }
  }

  // aes_128_cbc_hmac_sha1_96_enc; iv is what the random source put out.
  method Enc(given: Given, key: AeKey, clear: seq<Octet>, iv: Block, opaq: array<Octet>,
             len: nat) returns (status: Status, newLen: nat)
    requires given.All() ==> len + 16 - len % 16 + TAG_LEN <= opaq.Length
    modifies opaq
    ensures status == if given.None() || given.All() then Ok else Fail
    ensures !given.All() ==> opaq[..] == old(opaq[..]) && newLen == len
    ensures given.All() ==>
              && newLen == len + 16 - len % 16 + TAG_LEN
              && opaq[..newLen] == Sealed(key, clear, iv, old(opaq[..len]))
              && opaq[newLen..] == old(opaq[newLen..])
  {
    hide CbcEncrypted, Padded;
    newLen := len;
    if given.None() {
      return Ok, newLen;
    } else if !given.iv || !given.data || !given.len {
      return Fail, newLen;
    }
    ghost var d, F := opaq[..len], opaq[..];
    var ctx := new AesCbcCtx(key.E);
    ctx.SetIv(iv);
    PaddedLength(d);
    status, newLen := ctx.AesCbcNistEncrypt(opaq, len);
    ghost var c := opaq[..newLen];
    assert newLen / 16 == len / 16 + 1;
    assert opaq[newLen + TAG_LEN..] == opaq[newLen + 1..][TAG_LEN - 1..] == F[newLen + TAG_LEN..];
    var tag := key.mac(clear + opaq[..newLen]);
    for i: nat := 0 to TAG_LEN
      invariant opaq[..newLen] == c && opaq[newLen..newLen + i] == tag[..i]
      invariant opaq[newLen + TAG_LEN..] == F[newLen + TAG_LEN..]
    {
      opaq[newLen + i] := tag[i];
    }
    assert opaq[..newLen + TAG_LEN] == c + tag;
    newLen := newLen + TAG_LEN;
  }

  lemma PaddedLength(d: seq<Octet>)
    ensures |Padded(d)| == |d| + 16 - |d| % 16
  {
  }

  method TagMatches(tag: AeTag, opaq: array<Octet>, pos: nat) returns (same: bool)
    requires pos + TAG_LEN <= opaq.Length
    ensures same <==> tag == opaq[pos..pos + TAG_LEN]
  {
    for i: nat := 0 to TAG_LEN
      invariant tag[..i] == opaq[pos..pos + i]
    {
      if tag[i] != opaq[pos + i] {
        assert opaq[pos..pos + TAG_LEN][i] == opaq[pos + i];
        return false;
      }
    }
    assert tag[..TAG_LEN] == tag;
    same := true;
  }

  // aes_128_cbc_hmac_sha1_96_dec
  method Dec(given: Given, key: AeKey, clear: seq<Octet>, iv: Block, opaq: array<Octet>,
             len: nat) returns (status: Status, newLen: nat)
    requires given.All() ==> len <= opaq.Length
    modifies opaq
    ensures !given.All() ==> status == (if given.None() then Ok else Fail) && newLen == len && opaq[..] == old(opaq[..])
    ensures given.All() ==> status == Verdict(key, clear, iv, old(opaq[..len]))
    ensures given.All() ==> (newLen == if status == Ok then |Unpadded(Plain(key, iv, old(opaq[..len])))|
                                       else if status == AuthFail || len < TAG_LEN then len
                                       else len - TAG_LEN)
    ensures given.All() ==> (opaq[..] == if status in {Ok, Overrun} && len >= TAG_LEN
                                         then Plain(key, iv, old(opaq[..len])) + old(opaq[len - TAG_LEN..])
                                         else old(opaq[..]))
  {
    hide CbcDecrypted, MarkerLength;
    newLen := len;
    if given.None() {
      return Ok, newLen;
    } else if !given.iv || !given.data || !given.len {
      return Fail, newLen;
    } else if len < TAG_LEN {
      return Overrun, newLen;
    }
    ghost var o := opaq[..len];
    var ciphertextLen := len - TAG_LEN;
    assert o[..ciphertextLen] == opaq[..ciphertextLen] && o[ciphertextLen..] == opaq[ciphertextLen..len];
    var tmpTag := key.mac(clear + opaq[..ciphertextLen]);
    var same := TagMatches(tmpTag, opaq, ciphertextLen);
    if !same {
      return AuthFail, newLen;
    }
    var ctx := new AesCbcCtx(key.D);
    ctx.SetIv(iv);
    status, newLen := ctx.AesCbcNistDecrypt(opaq, ciphertextLen);
  }
}
