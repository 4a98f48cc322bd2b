// The block cipher of the modes: AES-128 on blocks of octets.
module AesModes {
  import opened OctetNumbers
  import Octets
  import AesColumns
  import AesSpec
  import AesExample
  import AesCbc
  import AeXfm

  function ToByte(o: Octets.Octet): bv8 { o as bv8 }

  function ToOctet(b: bv8): (o: Octets.Octet) {
    OctetRoundTrip(b);
    b as int
  }

  lemma ByteRoundTrip(b: bv8)
    ensures ToByte(ToOctet(b)) == b
  {
    OctetRoundTrip(b);
  }

  lemma OctetBack(o: Octets.Octet)
    ensures ToOctet(ToByte(o)) == o
  {
    NumberRoundTrip(o);
  }

  function ToWord(b: Octets.Block, i: nat): AesColumns.Word
    requires i < 4
  {
    AesColumns.Word(ToByte(b[4 * i]), ToByte(b[4 * i + 1]), ToByte(b[4 * i + 2]), ToByte(b[4 * i + 3]))
  }

  function ToState(b: Octets.Block): AesSpec.Block {
    AesSpec.Block(ToWord(b, 0), ToWord(b, 1), ToWord(b, 2), ToWord(b, 3))
  }

  function FromState(s: AesSpec.Block): Octets.Block {
    [ToOctet(s.w0.b0), ToOctet(s.w0.b1), ToOctet(s.w0.b2), ToOctet(s.w0.b3),
     ToOctet(s.w1.b0), ToOctet(s.w1.b1), ToOctet(s.w1.b2), ToOctet(s.w1.b3),
     ToOctet(s.w2.b0), ToOctet(s.w2.b1), ToOctet(s.w2.b2), ToOctet(s.w2.b3),
     ToOctet(s.w3.b0), ToOctet(s.w3.b1), ToOctet(s.w3.b2), ToOctet(s.w3.b3)]
  }

  lemma WordRoundTrip(w: AesColumns.Word)
    ensures AesColumns.Word(ToByte(ToOctet(w.b0)), ToByte(ToOctet(w.b1)), ToByte(ToOctet(w.b2)), ToByte(ToOctet(w.b3))) == w
  {
    hide ToByte, ToOctet;
    ByteRoundTrip(w.b0);
    ByteRoundTrip(w.b1);
    ByteRoundTrip(w.b2);
    ByteRoundTrip(w.b3);
  }

  lemma StateRoundTrip(s: AesSpec.Block)
    ensures ToState(FromState(s)) == s
  {
    hide ToByte, ToOctet;
    WordRoundTrip(s.w0);
    WordRoundTrip(s.w1);
    WordRoundTrip(s.w2);
    WordRoundTrip(s.w3);
  }

  lemma SixteenOctets(b: Octets.Block)
    ensures b == [b[0], b[1], b[2], b[3], b[4], b[5], b[6], b[7], b[8], b[9], b[10], b[11], b[12], b[13], b[14], b[15]]
  {
  }

  lemma WordBack(b: Octets.Block, i: nat)
    requires i < 4
    ensures var w := ToWord(b, i);
            ToOctet(w.b0) == b[4 * i] && ToOctet(w.b1) == b[4 * i + 1] && ToOctet(w.b2) == b[4 * i + 2] && ToOctet(w.b3) == b[4 * i + 3]
  {
    hide ToByte, ToOctet;
    OctetBack(b[4 * i]);
    OctetBack(b[4 * i + 1]);
    OctetBack(b[4 * i + 2]);
    OctetBack(b[4 * i + 3]);
  }

  lemma BlockRoundTrip(b: Octets.Block)
    ensures FromState(ToState(b)) == b
  {
    hide ToByte, ToOctet, ToWord;
    WordBack(b, 0);
    WordBack(b, 1);
    WordBack(b, 2);
    WordBack(b, 3);
    SixteenOctets(b);
  }

  // Encryption and decryption of blocks under one key, by FIPS 197
  ghost function Encrypt(key: Octets.Block): Octets.Block -> Octets.Block {
    b => FromState(AesSpec.Cipher(ToState(key), ToState(b)))
  }

  ghost function Decrypt(key: Octets.Block): Octets.Block -> Octets.Block {
    b => FromState(AesSpec.EqInvCipher(ToState(key), ToState(b)))
  }

  // AES-128 is what cipher block chaining asks of its block cipher.
  lemma AesInverts(key: Octets.Block)
    ensures AesCbc.Inverts(Decrypt(key), Encrypt(key))
  {
    hide ToState, FromState, AesSpec.Cipher, AesSpec.EqInvCipher;
    forall b: Octets.Block
      ensures Decrypt(key)(Encrypt(key)(b)) == b
    {
      var k, s := ToState(key), ToState(b);
      StateRoundTrip(AesSpec.Cipher(k, s));
      AesSpec.EqInvCipherInverts(k, s);
      BlockRoundTrip(b);
    }
  }

  // Padding, chaining, unchaining and unpadding give back the data.
  ghost predicate ChainRestores(D: Octets.Block -> Octets.Block, E: Octets.Block -> Octets.Block, iv: Octets.Block,
                                data: seq<Octets.Octet>) {
    var k := |data| / 16 + 1;
    var p := AesCbc.CbcDecrypted(D, iv, AesCbc.CbcEncrypted(E, iv, AesCbc.Padded(data), k), k);
    AesCbc.MARKER in p && AesCbc.Unpadded(p) == data
  }

  lemma AesChainRestores(key: Octets.Block, iv: Octets.Block, data: seq<Octets.Octet>)
    ensures ChainRestores(Decrypt(key), Encrypt(key), iv, data)
  {
    hide Encrypt, Decrypt;
    AesInverts(key);
    AesCbc.NistInverts(Decrypt(key), Encrypt(key), iv, data);
  }

  // Sealed data is accepted and opens to the data.
  ghost predicate SealRestores(k: AeXfm.AeKey, clear: seq<Octets.Octet>, iv: Octets.Block, data: seq<Octets.Octet>) {
    var o := AeXfm.Sealed(k, clear, iv, data);
    && (|o| - AeXfm.TAG_LEN) % 16 == 0 && AeXfm.Authentic(k, clear, o)
    && AesCbc.MARKER in AeXfm.Plain(k, iv, o) && AesCbc.Unpadded(AeXfm.Plain(k, iv, o)) == data
  }

  // Whatever the tag is computed with
  lemma AesSealRestores(key: Octets.Block, mac: seq<Octets.Octet> -> AeXfm.AeTag, clear: seq<Octets.Octet>,
                        iv: Octets.Block, data: seq<Octets.Octet>)
    ensures SealRestores(AeXfm.AeKey(Encrypt(key), Decrypt(key), mac), clear, iv, data)
  {
    hide Encrypt, Decrypt;
    AesInverts(key);
    AeXfm.OpenInverts(AeXfm.AeKey(Encrypt(key), Decrypt(key), mac), clear, iv, data);
  }

  // ------------------------------------------------------------- a worked example

  lemma KeyState(key: Octets.Block)
    requires key == [0x2b, 0x7e, 0x15, 0x16, 0x28, 0xae, 0xd2, 0xa6, 0xab, 0xf7, 0x15, 0x88, 0x09, 0xcf, 0x4f, 0x3c]
    ensures ToState(key) == AesExample.FromHex(AesExample.K0)
  {
    assert ToWord(key, 0) == AesColumns.Word(0x2b, 0x7e, 0x15, 0x16);
    assert ToWord(key, 1) == AesColumns.Word(0x28, 0xae, 0xd2, 0xa6);
    assert ToWord(key, 2) == AesColumns.Word(0xab, 0xf7, 0x15, 0x88);
    assert ToWord(key, 3) == AesColumns.Word(0x09, 0xcf, 0x4f, 0x3c);
    hide ToWord, ToByte;
  }

  lemma InputState(input: Octets.Block)
    requires input == [0x32, 0x43, 0xf6, 0xa8, 0x88, 0x5a, 0x30, 0x8d, 0x31, 0x31, 0x98, 0xa2, 0xe0, 0x37, 0x07, 0x34]
    ensures ToState(input) == AesExample.FromHex(AesExample.INPUT)
  {
    assert ToWord(input, 0) == AesColumns.Word(0x32, 0x43, 0xf6, 0xa8);
    assert ToWord(input, 1) == AesColumns.Word(0x88, 0x5a, 0x30, 0x8d);
    assert ToWord(input, 2) == AesColumns.Word(0x31, 0x31, 0x98, 0xa2);
    assert ToWord(input, 3) == AesColumns.Word(0xe0, 0x37, 0x07, 0x34);
    hide ToWord, ToByte;
  }

  lemma OutputState()
    ensures FromState(AesExample.FromHex(AesExample.OUTPUT))
         == [0x39, 0x25, 0x84, 0x1d, 0x02, 0xdc, 0x09, 0xfb, 0xdc, 0x11, 0x85, 0x97, 0x19, 0x6a, 0x0b, 0x32]
  {
  }

  // Appendix B of FIPS 197, octet by octet
  lemma EncryptExample(key: Octets.Block, input: Octets.Block)
    requires key == [0x2b, 0x7e, 0x15, 0x16, 0x28, 0xae, 0xd2, 0xa6, 0xab, 0xf7, 0x15, 0x88, 0x09, 0xcf, 0x4f, 0x3c]
    requires input == [0x32, 0x43, 0xf6, 0xa8, 0x88, 0x5a, 0x30, 0x8d, 0x31, 0x31, 0x98, 0xa2, 0xe0, 0x37, 0x07, 0x34]
    ensures Encrypt(key)(input)
         == [0x39, 0x25, 0x84, 0x1d, 0x02, 0xdc, 0x09, 0xfb, 0xdc, 0x11, 0x85, 0x97, 0x19, 0x6a, 0x0b, 0x32]
  {
    hide ToState, FromState, AesSpec.Cipher, AesExample.FromHex;
    AesExample.CipherExample();
    KeyState(key);
    InputState(input);
    OutputState();
  }
}
