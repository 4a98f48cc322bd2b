// The scripts of the two ends of a call: what each one sends and reads, and in what
// order, as the statements of the outgoing and of the incoming session.
module Handshake {
  import opened Octets
  import opened ProtocolUtils

  // ------------------------------------------------------------------- messages

  // What a message on the wire is meant as. Octets carry it with them, so that a read
  // that takes something else, or part of something, can be told from a right one; the
  // scripts get to see the octets alone.
  datatype Kind =
    | Hello | HelloAck | Version | Introduction | IntroductionRequest | Status
    | SizeOf(kind: Kind) | RsaKey | Challenge | Signature | DhKey | Ssrc | Salt

  datatype Tagged = Tagged(octet: Octet, kind: Kind, index: nat, size: nat)

  function Frame(kind: Kind, msg: seq<Octet>): (f: seq<Tagged>)
    ensures |f| == |msg|
  {
    seq(|msg|, i requires 0 <= i < |msg| => Tagged(msg[i], kind, i, |msg|))
  }

  function Plain(f: seq<Tagged>): (msg: seq<Octet>)
    ensures |msg| == |f|
  {
    seq(|f|, i requires 0 <= i < |f| => f[i].octet)
  }

  lemma PlainFrame(kind: Kind, msg: seq<Octet>)
    ensures Plain(Frame(kind, msg)) == msg
  {
  }

  function HelloMsg(): Bytes { Text("Hello   ") }
  function HelloAckMsg(): Bytes { Text("HelloACK") }
  function VersionMsg(): Bytes { Text("Ver01.00") }
  function IntroductionMsg(): Bytes { Text("Introduce  ") }
  function NoIntroductionMsg(): Bytes { Text("NoIntroduce") }
  function IntroductionReqMsg(): Bytes { Text("ReqIntrod  ") }
  function NoIntroductionReqMsg(): Bytes { Text("NoReqIntrod") }
  function AcceptMsg(): Bytes { Text("Accept") }
  function RejectMsg(): Bytes { Text("Reject") }
  function WaitForAcceptanceMsg(): Bytes { Text("Wait  ") }

  const INTRODUCTION_MSG_SIZE: nat := 80
  const FINAL_KEY_SIZE: nat := 16
  const SALT_SIZE: nat := 14

  // --------------------------------------------------------------- cryptography

  type Secret = nat
  type Digest = d: seq<Octet> | |d| == 32 witness seq(32, i => 0)
  type Nonce = m: Bytes | |m| == INTRODUCTION_MSG_SIZE witness seq(INTRODUCTION_MSG_SIZE, i => 0)
  type SaltOctets = s: Bytes | |s| == SALT_SIZE witness seq(SALT_SIZE, i => 0)

  // Public keys are their encodings.
  datatype Crypto = Crypto(
    rsaPublic: Secret -> Bytes, rsaValid: seq<Octet> -> bool,
    sign: (Secret, seq<Octet>) -> Bytes, verify: (seq<Octet>, seq<Octet>, seq<Octet>) -> bool,
    dhPublic: Secret -> Bytes, dhValid: seq<Octet> -> bool,
    agree: (Secret, seq<Octet>) -> seq<Octet>, sha256: seq<Octet> -> Digest)

  ghost predicate Lawful(c: Crypto) {
    && (forall k: Secret :: c.rsaValid(c.rsaPublic(k)))
    && (forall k: Secret, m: seq<Octet> :: c.verify(c.rsaPublic(k), m, c.sign(k, m)))
    && (forall k: Secret :: c.dhValid(c.dhPublic(k)))
    && (forall k: Secret, l: Secret :: c.agree(k, c.dhPublic(l)) == c.agree(l, c.dhPublic(k)))
  }

  function FirstKey(finalKeys: Digest): seq<Octet> { finalKeys[..FINAL_KEY_SIZE] }
  function SecondKey(finalKeys: Digest): seq<Octet> { finalKeys[FINAL_KEY_SIZE..] }

  method GetFirstKey(finalKeys: array<Octet>) returns (firstKey: array<Octet>)
    requires finalKeys.Length == 32
    ensures fresh(firstKey) && firstKey[..] == FirstKey(finalKeys[..])
    ensures firstKey.Length == 16 && forall i | 0 <= i < 16 :: firstKey[i] == finalKeys[i]
  {
    firstKey := new Octet[FINAL_KEY_SIZE](i => 0);
    for i := 0 to FINAL_KEY_SIZE
      invariant forall j | 0 <= j < i :: firstKey[j] == finalKeys[j]
    {
      firstKey[i] := finalKeys[i];
    }
    assert firstKey[..] == finalKeys[..][..FINAL_KEY_SIZE];
  }

  method GetSecondKey(finalKeys: array<Octet>) returns (secondKey: array<Octet>)
    requires finalKeys.Length == 32
    ensures fresh(secondKey) && secondKey[..] == SecondKey(finalKeys[..])
    ensures secondKey.Length == 16 && forall i | 0 <= i < 16 :: secondKey[i] == finalKeys[16 + i]
  {
    secondKey := new Octet[FINAL_KEY_SIZE](i => 0);
    for i := FINAL_KEY_SIZE to finalKeys.Length
      invariant forall j | 0 <= j < i - FINAL_KEY_SIZE :: secondKey[j] == finalKeys[FINAL_KEY_SIZE + j]
    {
      secondKey[i - FINAL_KEY_SIZE] := finalKeys[i];
    }
    assert secondKey[..] == finalKeys[..][FINAL_KEY_SIZE..];
  }

  // The payload is padded to whole 32-bit words.
  method RoundUpToMultipleOf4(size0: nat) returns (size: nat)
    ensures size0 <= size < size0 + 4 && size % 4 == 0
  {
    size := size0;
    while size % 4 != 0
      invariant size0 <= size <= (size0 + 3) / 4 * 4
      decreases size0 + 4 - size
    {
      size := size + 1;
    }
  }

  // -------------------------------------------------------------------- scripts

  datatype Reason = WrongMessage | EndOfStream | NegativeSize | InvalidKey | NotVerified | UnexpectedKey | CallRejected

  // What an end holds when it has set up its sender and its receiver.
  datatype Session = Session(
    peer: Option<seq<Octet>>,
    txKey: seq<Octet>, senderSsrc: Int32, senderSalt: seq<Octet>,
    rxKey: seq<Octet>, receiverSsrc: Int32, receiverSalt: seq<Octet>)

  // What remains to be done at one end.
  datatype Script =
    | Send(kind: Kind, msg: Bytes, next: Script)
    | Receive(kind: Kind, size: nat, then_: seq<Octet> -> Script)
    | WaitForAccept(next: Script)
    | Ringing(answer: Bytes, next: Script)
    | Done(session: Session)
    | Ended
    | Failed(reason: Reason)

  function ReceiveSpecific(kind: Kind, msg: Bytes, next: Script): Script {
    Receive(kind, |msg|, m => if m == msg then next else Failed(WrongMessage))
  }

  function SendWithSizeFirst(kind: Kind, msg: Bytes, next: Script): Script {
    Send(SizeOf(kind), WriteInt(|msg|), Send(kind, msg, next))
  }

  function ReceiveWithSizeFirst(kind: Kind, next: seq<Octet> -> Script): Script {
    Receive(SizeOf(kind), 4, b =>
      if |b| != 4 then Failed(EndOfStream)
      else if ReadInt(b) < 0 then Failed(NegativeSize)
      else Receive(kind, ReadInt(b), next))
  }

  // What an end brings to a call.
  datatype Party = Party(rsa: Secret, dh: Secret, nonce: Nonce, ssrc: Int32, salt: SaltOctets)

  function ProveIdentity(c: Crypto, me: Party, next: Script): Script {
    SendWithSizeFirst(RsaKey, c.rsaPublic(me.rsa), Receive(Challenge, INTRODUCTION_MSG_SIZE, OnChallenge(c, me, next)))
  }

  function OnChallenge(c: Crypto, me: Party, next: Script): seq<Octet> -> Script {
    m => SendWithSizeFirst(Signature, c.sign(me.rsa, m), next)
  }

  function ReceiveAndVerifyPublicKey(c: Crypto, me: Party, next: seq<Octet> -> Script): Script {
    ReceiveWithSizeFirst(RsaKey, OnPublicKey(c, me, next))
  }

  function OnPublicKey(c: Crypto, me: Party, next: seq<Octet> -> Script): seq<Octet> -> Script {
    key => if c.rsaValid(key) then Send(Challenge, me.nonce, ReceiveWithSizeFirst(Signature, OnSignature(c, me, key, next)))
           else Failed(InvalidKey)
  }

  function OnSignature(c: Crypto, me: Party, key: seq<Octet>, next: seq<Octet> -> Script): seq<Octet> -> Script {
    signature => if c.verify(key, me.nonce, signature) then next(key) else Failed(NotVerified)
  }

  // Both ends of the key exchange send first, and then read.
  function KeyExchange(c: Crypto, me: Party, next: Digest -> Script): Script {
    SendWithSizeFirst(DhKey, c.dhPublic(me.dh), ReceiveWithSizeFirst(DhKey, OnOtherKey(c, me, next)))
  }

  function OnOtherKey(c: Crypto, me: Party, next: Digest -> Script): seq<Octet> -> Script {
    key => if c.dhValid(key) then next(c.sha256(c.agree(me.dh, key))) else Failed(InvalidKey)
  }

  function SendSsrcAndSalt(me: Party, next: Script): Script {
    Send(Ssrc, WriteInt(me.ssrc), Send(Salt, me.salt, next))
  }

  function ReceiveSsrcAndSalt(next: (Int32, seq<Octet>) -> Script): Script {
    Receive(Ssrc, 4, OnSsrc(next))
  }

  function OnSsrc(next: (Int32, seq<Octet>) -> Script): seq<Octet> -> Script {
    b => if |b| == 4 then Receive(Salt, SALT_SIZE, OnSalt(ReadInt(b), next)) else Failed(EndOfStream)
  }

  function OnSalt(ssrc: Int32, next: (Int32, seq<Octet>) -> Script): seq<Octet> -> Script {
    salt => next(ssrc, salt)
  }

  // ------------------------------------------------------------------ the caller

  datatype Caller = Caller(party: Party, shouldIntroduce: bool, requiresIntroduction: bool, expected: Option<seq<Octet>>)

  function SendAndReceiveHello(next: Script): Script {
    Send(Hello, HelloMsg(), ReceiveSpecific(HelloAck, HelloAckMsg(),
      ReceiveSpecific(Hello, HelloMsg(), Send(HelloAck, HelloAckMsg(), next))))
  }

  function SendAndReceiveVersion(next: Script): Script {
    Send(Version, VersionMsg(), Receive(Version, |VersionMsg()|, v => next))
  }

  function HandleOutgoingIntroduction(c: Crypto, me: Caller, next: Script): Script {
    if me.shouldIntroduce then
      Send(Introduction, IntroductionMsg(), ProveIdentity(c, me.party, next))
    else
      Send(Introduction, NoIntroductionMsg(), next)
  }

  function HandleOutgoingRequest(me: Caller, next: Script): Script {
    Send(IntroductionRequest, if me.requiresIntroduction then IntroductionReqMsg() else NoIntroductionReqMsg(), next)
  }

  function IsExpected(me: Caller, key: seq<Octet>): bool {
    me.expected == None || me.expected == Some(key)
  }

  function HandleIncomingIntroductionIfRequested(c: Crypto, me: Caller, next: Option<seq<Octet>> -> Script): Script {
    if me.requiresIntroduction then ReceiveAndVerifyPublicKey(c, me.party, OnVerified(me, next)) else next(me.expected)
  }

  // validateKeyAgainstExpected
  function OnVerified(me: Caller, next: Option<seq<Octet>> -> Script): seq<Octet> -> Script {
    key => if IsExpected(me, key) then next(Some(key)) else Failed(UnexpectedKey)
  }

  // The caller takes the first half of the digest to send with, the callee the second.
  function OutgoingSrtp(me: Party, peer: Option<seq<Octet>>): Digest -> Script {
    (finalKeys: Digest) => SendSsrcAndSalt(me, ReceiveSsrcAndSalt(CallerDone(me, peer, finalKeys)))
  }

  function CallerDone(me: Party, peer: Option<seq<Octet>>, finalKeys: Digest): (Int32, seq<Octet>) -> Script {
    (ssrc: Int32, salt: seq<Octet>) =>
      Done(Session(peer, FirstKey(finalKeys), me.ssrc, me.salt, SecondKey(finalKeys), ssrc, salt))
  }

  function OutgoingKeyExchange(c: Crypto, me: Party): Option<seq<Octet>> -> Script {
    peer => KeyExchange(c, me, OutgoingSrtp(me, peer))
  }

  // Once the call is accepted
  function OutgoingAccepted(c: Crypto, me: Caller): Script {
    HandleIncomingIntroductionIfRequested(c, me, OutgoingKeyExchange(c, me.party))
  }

  function InitiateOutgoingSession(c: Crypto, me: Caller): Script {
    SendAndReceiveHello(SendAndReceiveVersion(HandleOutgoingIntroduction(c, me, HandleOutgoingRequest(me,
      WaitForAccept(OutgoingAccepted(c, me))))))
  }

  // ------------------------------------------------------------------ the callee

  function ReceiveAndSendHello(next: Script): Script {
    ReceiveSpecific(Hello, HelloMsg(), Send(HelloAck, HelloAckMsg(),
      Send(Hello, HelloMsg(), ReceiveSpecific(HelloAck, HelloAckMsg(), next))))
  }

  function ReceiveAndSendVersion(next: Script): Script {
    Receive(Version, |VersionMsg()|, v => Send(Version, VersionMsg(), next))
  }

  function HandleIncomingIntroduction(c: Crypto, me: Party, next: Option<seq<Octet>> -> Script): Script {
    Receive(Introduction, |IntroductionMsg()|, OnIntroduction(c, me, next))
  }

  function OnIntroduction(c: Crypto, me: Party, next: Option<seq<Octet>> -> Script): seq<Octet> -> Script {
    m => if m == IntroductionMsg() then ReceiveAndVerifyPublicKey(c, me, OnIntroduced(next))
         else if m == NoIntroductionMsg() then next(None)
         else Failed(WrongMessage)
  }

  function OnIntroduced(next: Option<seq<Octet>> -> Script): seq<Octet> -> Script {
    key => next(Some(key))
  }

  function HandleIncomingRequest(next: bool -> Script): Script {
    Receive(IntroductionRequest, |IntroductionReqMsg()|, OnRequest(next))
  }

  function OnRequest(next: bool -> Script): seq<Octet> -> Script {
    m => if m == IntroductionReqMsg() then next(true)
         else if m == NoIntroductionReqMsg() then next(false)
         else Failed(WrongMessage)
  }

  function IncomingSrtp(me: Party, peer: Option<seq<Octet>>): Digest -> Script {
    (finalKeys: Digest) => ReceiveSsrcAndSalt(CalleeDone(me, peer, finalKeys))
  }

  function CalleeDone(me: Party, peer: Option<seq<Octet>>, finalKeys: Digest): (Int32, seq<Octet>) -> Script {
    (ssrc: Int32, salt: seq<Octet>) => SendSsrcAndSalt(me,
      Done(Session(peer, SecondKey(finalKeys), me.ssrc, me.salt, FirstKey(finalKeys), ssrc, salt)))
  }

  function HandleOutgoingIntroductionIfRequested(c: Crypto, me: Party, requested: bool, next: Script): Script {
    if requested then ProveIdentity(c, me, next) else next
  }

  function IncomingAccepted(c: Crypto, me: Party, peer: Option<seq<Octet>>, requested: bool): Script {
    HandleOutgoingIntroductionIfRequested(c, me, requested, KeyExchange(c, me, IncomingSrtp(me, peer)))
  }

  // The user takes the call, or does not: acceptCall and rejectCall.
  function Ring(c: Crypto, me: Party, accept: bool, peer: Option<seq<Octet>>): bool -> Script {
    requested =>
      if accept then Ringing(AcceptMsg(), IncomingAccepted(c, me, peer, requested)) else Ringing(RejectMsg(), Ended)
  }

  function RequestThenRing(c: Crypto, me: Party, accept: bool): Option<seq<Octet>> -> Script {
    peer => HandleIncomingRequest(Ring(c, me, accept, peer))
  }

  function InitiateIncomingSession(c: Crypto, me: Party, accept: bool): Script {
    ReceiveAndSendHello(ReceiveAndSendVersion(HandleIncomingIntroduction(c, me, RequestThenRing(c, me, accept))))
  }
}
