// hmac.c: keyed hashing on one context that is started again for every tag,
// against RFC 2104.
module Hmac {
  import opened Sha1Spec
  import opened Sha1

  // The key padded with zeros to a block, every octet combined with the pad octet.
  function XorPad(key: seq<bv8>, pad: bv8): (s: seq<bv8>)
    requires |key| <= 64
    ensures |s| == 64
  {
    seq(64, i requires 0 <= i < 64 => (if i < |key| then key[i] else 0) ^ pad)
  }

  // Section 2 of RFC 2104: H(K XOR opad, H(K XOR ipad, text)).
  function HmacSha1(key: seq<bv8>, text: seq<bv8>): (tag: seq<bv8>)
    requires |key| <= 64
    ensures |tag| == 20
  {
    Sha1Spec.Sha1(XorPad(key, 0x5c) + Sha1Spec.Sha1(XorPad(key, 0x36) + text))
  }

  lemma PadOctet(x: bv8, pad: bv8)
    ensures 0 ^ pad == pad
  {
  }

  // p is the key, with zeros behind it up to 64 octets, and every octet combined with x.
  ghost predicate CombinedWith(key: seq<bv8>, x: bv8, p: seq<bv8>) {
    |key| <= |p| == 64 && forall i | 0 <= i < 64 :: p[i] == (if i < |key| then key[i] else 0) ^ x
  }

  // The definition of RFC 2104 with B = 64 and L = 20, whatever strings have the pads'
  // octets.
  lemma HmacIs(key: seq<bv8>, text: seq<bv8>, o: seq<bv8>, i: seq<bv8>)
    requires CombinedWith(key, 0x5c, o) && CombinedWith(key, 0x36, i)
    ensures HmacSha1(key, text) == Sha1Spec.Sha1(o + Sha1Spec.Sha1(i + text))
  {
    hide Sha1Spec.Sha1;
    assert o == XorPad(key, 0x5c) && i == XorPad(key, 0x36);
  }

  // Two keys are padded alike if and only if they differ by zeros at the end alone.
  lemma PaddedAlikeIff(key: seq<bv8>, key': seq<bv8>, x: bv8)
    requires |key| <= 64 && |key'| <= 64
    ensures XorPad(key, x) == XorPad(key', x) <==> key + Zeros(64 - |key|) == key' + Zeros(64 - |key'|)
  {
    hide XorPad, Zeros;
    var k, k' := key + Zeros(64 - |key|), key' + Zeros(64 - |key'|);
    forall i | 0 <= i < 64
      ensures XorPad(key, x)[i] == XorPad(key', x)[i] <==> k[i] == k'[i]
    {
      SameAt(key, key', x, i);
    }
    SameTogether(XorPad(key, x), XorPad(key', x), k, k');
  }

  lemma PadAt(key: seq<bv8>, x: bv8, i: nat)
    requires |key| <= 64 && i < 64
    ensures XorPad(key, x)[i] == Combined((key + Zeros(64 - |key|))[i], x)
  {
  }

  lemma SameTogether(p: seq<bv8>, p': seq<bv8>, k: seq<bv8>, k': seq<bv8>)
    requires |p| == |p'| == |k| == |k'| && forall i | 0 <= i < |p| :: p[i] == p'[i] <==> k[i] == k'[i]
    ensures p == p' <==> k == k'
  {
    if i :| 0 <= i < |p| && p[i] != p'[i] {
      assert k[i] != k'[i];
    }
  }

  lemma SameAt(key: seq<bv8>, key': seq<bv8>, x: bv8, i: nat)
    requires |key| <= 64 && |key'| <= 64 && i < 64
    ensures XorPad(key, x)[i] == XorPad(key', x)[i] <==> (key + Zeros(64 - |key|))[i] == (key' + Zeros(64 - |key'|))[i]
  {
    hide XorPad, Zeros, Combined;
    PadAt(key, x, i);
    PadAt(key', x, i);
    XorKeepsApart((key + Zeros(64 - |key|))[i], (key' + Zeros(64 - |key'|))[i], x);
  }

  function Combined(a: bv8, x: bv8): bv8 { a ^ x }

  lemma XorKeepsApart(a: bv8, b: bv8, x: bv8)
    ensures Combined(a, x) == Combined(b, x) <==> a == b
  {
    assert (a ^ x) ^ x == a && (b ^ x) ^ x == b;
  }

  class HmacCtx {
    const opad: array<bv8>
    const ctx: Sha1Ctx
    const initCtx: Sha1Ctx

    ghost predicate Allocated() {
      && opad.Length == 64
      && ctx.H.Length == 5 && ctx.M.Length == 64 && initCtx.H.Length == 5 && initCtx.M.Length == 64
      && ctx != initCtx && ctx.H != initCtx.H && ctx.M != initCtx.M
      && opad != ctx.M && opad != initCtx.M
    }

    // The context holds this key, whatever was hashed with it before.
    ghost predicate Keyed(key: seq<bv8>)
      reads opad, initCtx, initCtx.H, initCtx.M
    {
      && Allocated() && |key| <= 20
      && opad[..] == XorPad(key, 0x5c)
      && initCtx.Valid() && initCtx.message == XorPad(key, 0x36)
    }

    // A round is under way: data has been hashed since it started.
    ghost predicate InRound(key: seq<bv8>, data: seq<bv8>)
      reads opad, initCtx, initCtx.H, initCtx.M, ctx, ctx.H, ctx.M
    {
      Keyed(key) && ctx.Valid() && ctx.message == XorPad(key, 0x36) + data
    }

    constructor ()
      ensures Allocated() && fresh(opad)
      ensures fresh(ctx) && fresh(ctx.H) && fresh(ctx.M) && fresh(initCtx) && fresh(initCtx.H) && fresh(initCtx.M)
    {
      opad := new bv8[64];
      ctx := new Sha1Ctx();
      initCtx := new Sha1Ctx();
    }

    method Init(key: seq<bv8>) returns (ok: bool)
      requires Allocated()
      modifies opad, ctx, ctx.H, ctx.M, initCtx, initCtx.H, initCtx.M
      ensures ok <==> |key| <= 20
      ensures ok ==> InRound(key, [])
      ensures !ok ==> opad[..] == old(opad[..]) && ctx.message == old(ctx.message)
    {
      if |key| > 20 {
        return false;
      }
      var ipad := PadKey(key);
      initCtx.Init();
      initCtx.Update(ipad);
      assert [] + ipad == ipad;
      ctx.CopyFrom(initCtx);
      assert ipad + [] == ipad;
      ok := true;
    }

    // The loops that fill ipad and opad.
    method PadKey(key: seq<bv8>) returns (ipad: seq<bv8>)
      requires Allocated() && |key| <= 20
      modifies opad
      ensures ipad == XorPad(key, 0x36) && opad[..] == XorPad(key, 0x5c)
    {
      var pad := new bv8[64];
      for i: nat := 0 to |key|
        invariant forall j | 0 <= j < i :: pad[j] == key[j] ^ 0x36 && opad[j] == key[j] ^ 0x5c
      {
        pad[i] := key[i] ^ 0x36;
        opad[i] := key[i] ^ 0x5c;
      }
      for i: nat := |key| to 64
        invariant forall j | 0 <= j < |key| :: pad[j] == key[j] ^ 0x36 && opad[j] == key[j] ^ 0x5c
        invariant forall j | |key| <= j < i :: pad[j] == 0x36 && opad[j] == 0x5c
      {
        pad[i] := 0x36;
        opad[i] := 0x5c;
      }
      PadOctet(0, 0x36);
      PadOctet(0, 0x5c);
      ipad := pad[..];
    }

    method Start(ghost key: seq<bv8>)
      requires Keyed(key)
      modifies ctx, ctx.H, ctx.M
      ensures InRound(key, [])
    {
      hide XorPad;
      ctx.CopyFrom(initCtx);
      assert XorPad(key, 0x36) + [] == XorPad(key, 0x36);
    }

    method Update(message: seq<bv8>, ghost key: seq<bv8>, ghost data: seq<bv8>)
      requires InRound(key, data)
      modifies ctx, ctx.H, ctx.M
      ensures InRound(key, data + message)
    {
      hide XorPad;
      ctx.Update(message);
      assert XorPad(key, 0x36) + data + message == XorPad(key, 0x36) + (data + message);
    }

    // The digest of ipad and the data.
    method Inner(H: array<bv8>, ghost key: seq<bv8>, ghost data: seq<bv8>)
      requires InRound(key, data) && |data| + 64 < LIMIT
      requires H.Length == 20 && H != opad && H != ctx.M && H != initCtx.M
      modifies ctx, ctx.H, ctx.M, H
      ensures Keyed(key)
      ensures H[..] == Sha1Spec.Sha1(XorPad(key, 0x36) + data)
    {
      hide XorPad, Sha1Spec.Sha1;
      ctx.Final(H);
    }

    // The digest of opad and the inner digest.
    method Outer(H: seq<bv8>, hashValue: array<bv8>, ghost key: seq<bv8>)
      requires Keyed(key) && |H| == 20
      requires hashValue.Length == 20 && hashValue != opad && hashValue != ctx.M && hashValue != initCtx.M
      modifies ctx, ctx.H, ctx.M, hashValue
      ensures Keyed(key)
      ensures hashValue[..] == Sha1Spec.Sha1(XorPad(key, 0x5c) + H)
    {
      hide XorPad, Sha1Spec.Sha1;
      ctx.Init();
      ctx.Update(opad[..]);
      assert [] + opad[..] == XorPad(key, 0x5c);
      ctx.Update(H);
      ctx.Final(hashValue);
    }

    lemma RoundIsKeyed(key: seq<bv8>, data: seq<bv8>)
      requires InRound(key, data)
      ensures Keyed(key)
    {
    }

    method Compute(message: seq<bv8>, tagLen: nat, result: array<bv8>, ghost key: seq<bv8>,
                   ghost data: seq<bv8>) returns (ok: bool)
      requires InRound(key, data) && |data| + |message| + 64 < LIMIT
      requires tagLen <= 20 ==> tagLen <= result.Length
      requires result != opad && result != ctx.M && result != initCtx.M
      modifies ctx, ctx.H, ctx.M, result
      ensures Keyed(key)
      ensures ok <==> tagLen <= 20
      ensures ok ==> result[..tagLen] == HmacSha1(key, data + message)[..tagLen] && result[tagLen..] == old(result[tagLen..])
      ensures !ok ==> result[..] == old(result[..]) && InRound(key, data)
    {
      hide XorPad, Sha1Spec.Sha1, InRound, Keyed;
      if tagLen > 20 {
        RoundIsKeyed(key, data);
        return false;
      }
      Update(message, key, data);
      var H := new bv8[20];
      Inner(H, key, data + message);
      var hashValue := new bv8[20];
      Outer(H[..], hashValue, key);
      CopyTag(hashValue[..], tagLen, result, key);
      ok := true;
    }

    method CopyTag(hashValue: seq<bv8>, tagLen: nat, result: array<bv8>, ghost key: seq<bv8>)
      requires Keyed(key) && |hashValue| == 20 && tagLen <= 20 && tagLen <= result.Length
      requires result != opad && result != ctx.M && result != initCtx.M
      modifies result
      ensures Keyed(key)
      ensures result[..tagLen] == hashValue[..tagLen] && result[tagLen..] == old(result[tagLen..])
    {
      for i: nat := 0 to tagLen
        invariant result[..i] == hashValue[..i] && result[tagLen..] == old(result[tagLen..])
      {
        result[i] := hashValue[i];
      }
    }
  }
}
