// Framing on the call's byte streams: whole messages, and messages with their size first.
module ProtocolUtils {
  import opened Octets

  datatype Option<T> = None | Some(value: T)

  const TWO_32: int := 0x1_0000_0000
  const MAX_ARRAY: int := 0x8000_0000

  type Int32 = x: int | -MAX_ARRAY <= x < MAX_ARRAY

  // The contents of an array, whose length is an int.
  type Bytes = s: seq<Octet> | |s| < MAX_ARRAY

  // A text message, one octet a character.
  function Text(s: string): (b: Bytes)
    requires |s| < 256 && forall i | 0 <= i < |s| :: s[i] < 128 as char
    ensures |b| == |s| && forall i | 0 <= i < |s| :: b[i] == s[i] as int
  {
    seq(|s|, i requires 0 <= i < |s| => s[i] as int)
  }

  // DataOutputStream.writeInt: big-endian, two's complement
  function WriteInt(v: Int32): (b: seq<Octet>)
    ensures |b| == 4
  {
    var u := if v < 0 then v + TWO_32 else v;
    [u / 0x100_0000, u / 0x1_0000 % 256, u / 256 % 256, u % 256]
  }

  function Big(b0: int, b1: int, b2: int, b3: int): int { 0x100_0000 * b0 + 0x1_0000 * b1 + 256 * b2 + b3 }

  // DataInputStream.readInt
  function ReadInt(b: seq<Octet>): Int32
    requires |b| == 4
  {
    var u := Big(b[0], b[1], b[2], b[3]);
    if u < MAX_ARRAY then u else u - TWO_32
  }

  // The four octets are the digits of the number modulo 2^32, the highest first.
  lemma WriteIntIs(v: Int32)
    ensures var b := WriteInt(v);
            0x100_0000 * b[0] as int + 0x1_0000 * b[1] as int + 256 * b[2] as int + b[3] as int == if v < 0 then v + 0x1_0000_0000 else v
  {
    hide WriteInt, ReadInt;
    IntRoundTrip(v);
    ReadsDigits(WriteInt(v));
  }

  lemma ReadsDigits(b: seq<Octet>)
    requires |b| == 4
    ensures var u, v := 0x100_0000 * b[0] as int + 0x1_0000 * b[1] as int + 256 * b[2] as int + b[3] as int, ReadInt(b);
            u == if v < 0 then v + 0x1_0000_0000 else v
  {
  }

  lemma IntRoundTrip(v: Int32)
    ensures ReadInt(WriteInt(v)) == v
  {
    var u := if v < 0 then v + TWO_32 else v;
    assert u == 256 * (u / 256) + u % 256;
    assert u / 256 == 256 * (u / 256 / 256) + u / 256 % 256;
    assert u / 256 / 256 == u / 0x1_0000;
    assert u / 0x1_0000 == 256 * (u / 0x1_0000 / 256) + u / 0x1_0000 % 256;
    assert u / 0x1_0000 / 256 == u / 0x100_0000;
  }

  method CompareIfIdentical(arr1: array<Octet>, arr2: array<Octet>) returns (same: bool)
    ensures same <==> arr1[..] == arr2[..]
  {
    if arr1.Length != arr2.Length {
      assert |arr1[..]| != |arr2[..]|;
      return false;
    }
    for i := 0 to arr1.Length
      invariant arr1[..i] == arr2[..i]
    {
      if arr1[i] != arr2[i] {
        assert arr1[..][i] != arr2[..][i];
        return false;
      }
    }
    assert arr1[..] == arr1[..arr1.Length] && arr2[..] == arr2[..arr2.Length];
    return true;
  }

  // One direction of a connection.
  class ByteStream {
    var octets: seq<Octet>

    constructor ()
      ensures octets == []
    {
      octets := [];
    }

    method SendMessage(msg: Bytes)
      modifies this
      ensures octets == old(octets) + msg
    {
      octets := octets + msg;
    }

    method SendMessageWithSizeFirst(msg: Bytes)
      modifies this
      ensures octets == old(octets) + WriteInt(|msg|) + msg
    {
      octets := octets + WriteInt(|msg|);
      SendMessage(msg);
    }

    // readFully: None when the stream ends before the array is full
    method ReceiveMessageInto(size: nat) returns (msg: Option<seq<Octet>>)
      modifies this
      ensures |old(octets)| < size ==> msg == None && octets == []
      ensures size <= |old(octets)| ==> msg == Some(old(octets)[..size]) && octets == old(octets)[size..]
    {
      if |octets| < size {
        octets := [];
        return None;
      }
      msg := Some(octets[..size]);
      octets := octets[size..];
    }

    method ReceiveSpecificMessage(expected: Bytes) returns (right: bool)
      modifies this
      ensures right <==> expected <= old(octets)
      ensures right ==> old(octets) == expected + octets
    {
      var received := ReceiveMessageInto(|expected|);
      right := received.Some? && received.value == expected;
    }

    // None for a stream that ends too early and for a negative size
    method ReceiveMessageWithSizeFirst() returns (msg: Option<seq<Octet>>)
      modifies this
      ensures forall m: Bytes, rest: seq<Octet> | old(octets) == WriteInt(|m|) + m + rest ::
                msg.Some? && msg.value == m && octets == rest
      ensures msg.Some? ==> |msg.value| < MAX_ARRAY && old(octets) == WriteInt(|msg.value|) + msg.value + octets
    {
      hide WriteInt, ReadInt;
      ghost var before := octets;
      forall m: Bytes, rest: seq<Octet> | before == WriteInt(|m|) + m + rest
        ensures |before| >= 4 + |m| && before[..4] == WriteInt(|m|) && before[4..] == m + rest
        ensures ReadInt(before[..4]) == |m|
      {
        assert before == WriteInt(|m|) + (m + rest);
        IntRoundTrip(|m|);
      }
      var header := ReceiveMessageInto(4);
      if header == None {
        return None;
      }
      var size := ReadInt(header.value);
      if size < 0 {
        return None;
      }
      msg := ReceiveMessageInto(size);
      if msg.Some? {
        WriteOfRead(header.value);
      }
    }
  }

  lemma WriteOfRead(b: seq<Octet>)
    requires |b| == 4
    ensures WriteInt(ReadInt(b)) == b
  {
    var b0: int, b1: int, b2: int, b3: int := b[0], b[1], b[2], b[3];
    var u := Big(b0, b1, b2, b3);
    assert u / 256 == 0x1_0000 * b0 + 256 * b1 + b2;
    assert u / 0x1_0000 == 256 * b0 + b1;
    assert u / 0x100_0000 == b0;
  }
}
