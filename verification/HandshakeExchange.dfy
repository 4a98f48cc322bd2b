// The canonical exchange, phase by phase, and where it ends.
module HandshakeExchange {
  import opened Octets
  import opened ProtocolUtils
  import opened Handshake
  import opened HandshakeNet

  ghost predicate Leads(s: Fated, t: Fated) { exists n: nat :: Reaches(s, t, n) }

  lemma LeadsTrans(s: Fated, t: Fated, u: Fated)
    requires Leads(s, t) && Leads(t, u)
    ensures Leads(s, u)
  {
    hide Reaches;
    var m: nat :| Reaches(s, t, m);
    var n: nat :| Reaches(t, u, n);
    ReachesTrans(s, t, u, m, n);
  }

  lemma LeadsSelf(s: Fated)
    ensures Leads(s, s)
  {
    assert Reaches(s, s, 0);
  }

  lemma LeadsMove(s: Fated, t: Fated, caller: bool)
    requires Move(s, caller) == Some(t)
    ensures Leads(s, t)
  {
    hide Move;
    assert Reaches(t, t, 0);
    assert Reaches(s, t, 1);
  }

  // ------------------------------------------------------------ single messages

  lemma Down(kind: Kind, m: Bytes, a: Script, f: seq<Octet> -> Script, w: nat)
    ensures Leads(At(Send(kind, m, a), Receive(kind, |m|, f), w), At(a, f(m), w))
  {
    hide Reaches, At;
    ToCallee(kind, m, a, f, w);
  }

  lemma Up(kind: Kind, m: Bytes, b: Script, f: seq<Octet> -> Script, w: nat)
    ensures Leads(At(Receive(kind, |m|, f), Send(kind, m, b), w), At(f(m), b, w))
  {
    hide Reaches, At;
    ToCaller(kind, m, b, f, w);
  }

  lemma DownSpecific(kind: Kind, m: Bytes, a: Script, b: Script, w: nat)
    ensures Leads(At(Send(kind, m, a), ReceiveSpecific(kind, m, b), w), At(a, b, w))
  {
    hide Leads, At;
    Down(kind, m, a, ReceiveSpecific(kind, m, b).then_, w);
  }

  lemma UpSpecific(kind: Kind, m: Bytes, a: Script, b: Script, w: nat)
    ensures Leads(At(ReceiveSpecific(kind, m, a), Send(kind, m, b), w), At(a, b, w))
  {
    hide Leads, At;
    Up(kind, m, b, ReceiveSpecific(kind, m, a).then_, w);
  }

  lemma SizeRead(kind: Kind, m: Bytes, f: seq<Octet> -> Script)
    ensures ReceiveWithSizeFirst(kind, f).then_(WriteInt(|m|)) == Receive(kind, |m|, f)
  {
    hide WriteInt, ReadInt;
    IntRoundTrip(|m|);
  }

  lemma DownSized(kind: Kind, m: Bytes, a: Script, f: seq<Octet> -> Script, w: nat)
    ensures Leads(At(SendWithSizeFirst(kind, m, a), ReceiveWithSizeFirst(kind, f), w), At(a, f(m), w))
  {
    hide Leads, At, WriteInt, ReadInt;
    var r, s := ReceiveWithSizeFirst(kind, f), SendWithSizeFirst(kind, m, a);
    Down(SizeOf(kind), WriteInt(|m|), s.next, r.then_, w);
    SizeRead(kind, m, f);
    Down(kind, m, a, f, w);
    LeadsTrans(At(s, r, w), At(s.next, Receive(kind, |m|, f), w), At(a, f(m), w));
  }

  lemma UpSized(kind: Kind, m: Bytes, b: Script, f: seq<Octet> -> Script, w: nat)
    ensures Leads(At(ReceiveWithSizeFirst(kind, f), SendWithSizeFirst(kind, m, b), w), At(f(m), b, w))
  {
    hide Leads, At, WriteInt, ReadInt;
    var r, s := ReceiveWithSizeFirst(kind, f), SendWithSizeFirst(kind, m, b);
    Up(SizeOf(kind), WriteInt(|m|), s.next, r.then_, w);
    SizeRead(kind, m, f);
    Up(kind, m, b, f, w);
    LeadsTrans(At(r, s, w), At(Receive(kind, |m|, f), s.next, w), At(f(m), b, w));
  }

  // --------------------------------------------------------------------- phases

  lemma HelloPhase(a: Script, b: Script, w: nat)
    ensures Leads(At(SendAndReceiveHello(a), ReceiveAndSendHello(b), w), At(a, b, w))
  {
    hide Leads, At, ReceiveSpecific, HelloMsg, HelloAckMsg;
    var a3 := Send(HelloAck, HelloAckMsg(), a);
    var a2 := ReceiveSpecific(Hello, HelloMsg(), a3);
    var a1 := ReceiveSpecific(HelloAck, HelloAckMsg(), a2);
    var b3 := ReceiveSpecific(HelloAck, HelloAckMsg(), b);
    var b2 := Send(Hello, HelloMsg(), b3);
    var b1 := Send(HelloAck, HelloAckMsg(), b2);
    var s := At(SendAndReceiveHello(a), ReceiveAndSendHello(b), w);
    DownSpecific(Hello, HelloMsg(), a1, b1, w);
    UpSpecific(HelloAck, HelloAckMsg(), a2, b2, w);
    UpSpecific(Hello, HelloMsg(), a3, b3, w);
    DownSpecific(HelloAck, HelloAckMsg(), a, b, w);
    LeadsTrans(s, At(a1, b1, w), At(a2, b2, w));
    LeadsTrans(s, At(a2, b2, w), At(a3, b3, w));
    LeadsTrans(s, At(a3, b3, w), At(a, b, w));
  }

  lemma VersionPhase(a: Script, b: Script, w: nat)
    ensures Leads(At(SendAndReceiveVersion(a), ReceiveAndSendVersion(b), w), At(a, b, w))
  {
    hide Leads, At, VersionMsg;
    var r, s := SendAndReceiveVersion(a), ReceiveAndSendVersion(b);
    Down(Version, VersionMsg(), r.next, s.then_, w);
    var t := s.then_(VersionMsg());
    assert t == Send(Version, VersionMsg(), b);
    Up(Version, VersionMsg(), b, r.next.then_, w);
    LeadsTrans(At(r, s, w), At(r.next, t, w), At(a, b, w));
  }

  lemma CallerProves(c: Crypto, me: Party, other: Party, a: Script, f: seq<Octet> -> Script, w: nat)
    requires Lawful(c)
    ensures Leads(At(ProveIdentity(c, me, a), ReceiveAndVerifyPublicKey(c, other, f), w), At(a, f(c.rsaPublic(me.rsa)), w))
  {
    hide Leads, At, SendWithSizeFirst, ReceiveWithSizeFirst;
    var key, sig := c.rsaPublic(me.rsa), c.sign(me.rsa, other.nonce);
    var s := At(ProveIdentity(c, me, a), ReceiveAndVerifyPublicKey(c, other, f), w);
    var p1 := Receive(Challenge, INTRODUCTION_MSG_SIZE, OnChallenge(c, me, a));
    var p2 := SendWithSizeFirst(Signature, sig, a);
    var v2 := ReceiveWithSizeFirst(Signature, OnSignature(c, other, key, f));
    var v1 := Send(Challenge, other.nonce, v2);
    DownSized(RsaKey, key, p1, OnPublicKey(c, other, f), w);
    Up(Challenge, other.nonce, v2, OnChallenge(c, me, a), w);
    DownSized(Signature, sig, a, OnSignature(c, other, key, f), w);
    LeadsTrans(s, At(p1, v1, w), At(p2, v2, w));
    LeadsTrans(s, At(p2, v2, w), At(a, f(key), w));
  }

  lemma CalleeProves(c: Crypto, me: Party, other: Party, b: Script, f: seq<Octet> -> Script, w: nat)
    requires Lawful(c)
    ensures Leads(At(ReceiveAndVerifyPublicKey(c, other, f), ProveIdentity(c, me, b), w), At(f(c.rsaPublic(me.rsa)), b, w))
  {
    hide Leads, At, SendWithSizeFirst, ReceiveWithSizeFirst;
    var key, sig := c.rsaPublic(me.rsa), c.sign(me.rsa, other.nonce);
    var s := At(ReceiveAndVerifyPublicKey(c, other, f), ProveIdentity(c, me, b), w);
    var p1 := Receive(Challenge, INTRODUCTION_MSG_SIZE, OnChallenge(c, me, b));
    var p2 := SendWithSizeFirst(Signature, sig, b);
    var v2 := ReceiveWithSizeFirst(Signature, OnSignature(c, other, key, f));
    var v1 := Send(Challenge, other.nonce, v2);
    UpSized(RsaKey, key, p1, OnPublicKey(c, other, f), w);
    Down(Challenge, other.nonce, v2, OnChallenge(c, me, b), w);
    UpSized(Signature, sig, b, OnSignature(c, other, key, f), w);
    LeadsTrans(s, At(v1, p1, w), At(v2, p2, w));
    LeadsTrans(s, At(v2, p2, w), At(f(key), b, w));
  }

  // ------------------------------------------------------------------ whole calls

  // One call: who is on it, and whether the callee's user takes it.
  datatype Setup = Setup(crypto: Crypto, caller: Caller, callee: Party, accept: bool)

  function Start(cfg: Setup, w: nat): Fated {
    At(InitiateOutgoingSession(cfg.crypto, cfg.caller), InitiateIncomingSession(cfg.crypto, cfg.callee, cfg.accept), w)
  }

  function CallerKey(cfg: Setup): Bytes { cfg.crypto.rsaPublic(cfg.caller.party.rsa) }
  function CalleeKey(cfg: Setup): Bytes { cfg.crypto.rsaPublic(cfg.callee.rsa) }

  function Introduced(cfg: Setup): Option<seq<Octet>> {
    if cfg.caller.shouldIntroduce then Some(CallerKey(cfg)) else None
  }

  // Both ends are at the point where it rings.
  function Rings(cfg: Setup, w: nat): Fated {
    At(WaitForAccept(OutgoingAccepted(cfg.crypto, cfg.caller)),
       Ring(cfg.crypto, cfg.callee, cfg.accept, Introduced(cfg))(cfg.caller.requiresIntroduction), w)
  }

  lemma IntroductionPhase(cfg: Setup, a: Script, f: Option<seq<Octet>> -> Script, w: nat)
    requires Lawful(cfg.crypto)
    ensures Leads(At(HandleOutgoingIntroduction(cfg.crypto, cfg.caller, a), HandleIncomingIntroduction(cfg.crypto, cfg.callee, f), w),
                  At(a, f(Introduced(cfg)), w))
  {
    hide Leads, At, ProveIdentity, ReceiveAndVerifyPublicKey, IntroductionMsg, NoIntroductionMsg, Lawful;
    MessagesDiffer();
    var c, me := cfg.crypto, cfg.caller;
    var r := HandleOutgoingIntroduction(c, me, a);
    var t := HandleIncomingIntroduction(c, cfg.callee, f);
    Down(Introduction, r.msg, r.next, OnIntroduction(c, cfg.callee, f), w);
    if me.shouldIntroduce {
      var g := OnIntroduced(f);
      CallerProves(c, me.party, cfg.callee, a, g, w);
      LeadsTrans(At(r, t, w), At(r.next, ReceiveAndVerifyPublicKey(c, cfg.callee, g), w), At(a, f(Introduced(cfg)), w));
    }
  }

  lemma MessagesDiffer()
    ensures |IntroductionMsg()| == |NoIntroductionMsg()| && IntroductionMsg() != NoIntroductionMsg()
    ensures |IntroductionReqMsg()| == |NoIntroductionReqMsg()| && IntroductionReqMsg() != NoIntroductionReqMsg()
    ensures |AcceptMsg()| == |RejectMsg()| == |WaitForAcceptanceMsg()| == 6
    ensures AcceptMsg() != RejectMsg() && AcceptMsg() != WaitForAcceptanceMsg() && RejectMsg() != WaitForAcceptanceMsg()
  {
    assert IntroductionMsg()[0] != NoIntroductionMsg()[0];
    assert IntroductionReqMsg()[0] != NoIntroductionReqMsg()[0];
    assert AcceptMsg()[0] == 65 && RejectMsg()[0] == 82 && WaitForAcceptanceMsg()[0] == 87;
  }

  lemma RequestPhase(me: Caller, a: Script, f: bool -> Script, w: nat)
    ensures Leads(At(HandleOutgoingRequest(me, a), HandleIncomingRequest(f), w), At(a, f(me.requiresIntroduction), w))
  {
    hide Leads, At, IntroductionReqMsg, NoIntroductionReqMsg;
    MessagesDiffer();
    Down(IntroductionRequest, HandleOutgoingRequest(me, a).msg, a, OnRequest(f), w);
  }

  // Up to the point where it rings
  lemma Opening(cfg: Setup, w: nat)
    requires Lawful(cfg.crypto)
    ensures Leads(Start(cfg, w), Rings(cfg, w))
  {
    hide Leads, At, Lawful, SendAndReceiveHello, ReceiveAndSendHello, SendAndReceiveVersion, ReceiveAndSendVersion,
      HandleOutgoingIntroduction, HandleIncomingIntroduction, HandleOutgoingRequest, HandleIncomingRequest, OutgoingAccepted, Ring;
    var c, me, you := cfg.crypto, cfg.caller, cfg.callee;
    var a3 := WaitForAccept(OutgoingAccepted(c, me));
    var a2 := HandleOutgoingRequest(me, a3);
    var a1 := HandleOutgoingIntroduction(c, me, a2);
    var a0 := SendAndReceiveVersion(a1);
    var b1 := HandleIncomingIntroduction(c, you, RequestThenRing(c, you, cfg.accept));
    var b0 := ReceiveAndSendVersion(b1);
    var ring := Ring(c, you, cfg.accept, Introduced(cfg));
    var b2 := HandleIncomingRequest(ring);
    HelloPhase(a0, b0, w);
    VersionPhase(a1, b1, w);
    IntroductionPhase(cfg, a2, RequestThenRing(c, you, cfg.accept), w);
    RequestPhase(me, a3, ring, w);
    LeadsTrans(Start(cfg, w), At(a0, b0, w), At(a1, b1, w));
    LeadsTrans(Start(cfg, w), At(a1, b1, w), At(a2, b2, w));
    LeadsTrans(Start(cfg, w), At(a2, b2, w), Rings(cfg, w));
  }

  // The waiting messages are read and skipped, and then the answer is.
  lemma {:induction false} RingPhase(a: Script, answer: Bytes, b: Script, w: nat)
    requires |answer| == |AcceptMsg()| && answer != WaitForAcceptanceMsg()
    ensures Leads(At(WaitForAccept(a), Ringing(answer, b), w), At(AfterStatus(WaitForAccept(a), a, answer), b, 0))
  {
    hide Reaches, Frame, Plain, AcceptMsg, WaitForAcceptanceMsg, RejectMsg;
    MessagesDiffer();
    var msg := if w == 0 then answer else WaitForAcceptanceMsg();
    var s := At(WaitForAccept(a), Ringing(answer, b), w);
    var t := Move(s, false).value;
    var u := At(AfterStatus(WaitForAccept(a), a, msg), if w == 0 then b else s.net.callee, if w == 0 then 0 else w - 1);
    assert t.net.toCaller == Frame(Status, msg) == Frame(Status, msg)[..|msg|] && Frame(Status, msg)[|msg|..] == [];
    PlainFrame(Status, msg);
    assert Move(t, true) == Some(u);
    LeadsMove(s, t, false);
    LeadsMove(t, u, true);
    LeadsTrans(s, t, u);
    if w > 0 {
      RingPhase(a, answer, b, w - 1);
      LeadsTrans(s, u, At(AfterStatus(WaitForAccept(a), a, answer), b, 0));
    }
  }

  // ------------------------------------------------------- both send, then both read

  // Reading a whole message off a stream that holds more
  lemma TakeFrame(kind: Kind, m: Bytes, rest: seq<Tagged>, f: seq<Octet> -> Script)
    ensures Take(Receive(kind, |m|, f), Frame(kind, m) + rest) == Some((f(m), true))
    ensures (Frame(kind, m) + rest)[|m|..] == rest
  {
    hide Frame, Plain;
    PlainFrame(kind, m);
    assert (Frame(kind, m) + rest)[..|m|] == Frame(kind, m);
  }

  function Sized(kind: Kind, m: Bytes): seq<Tagged> { Frame(SizeOf(kind), WriteInt(|m|)) + Frame(kind, m) }

  lemma CallerSendsSized(n: Net, kind: Kind, m: Bytes, a: Script, w: nat)
    requires n.caller == SendWithSizeFirst(kind, m, a)
    ensures Leads(Fated(n, w), Fated(n.(caller := a, toCallee := n.toCallee + Sized(kind, m)), w))
  {
    hide Reaches, Frame, WriteInt;
    var s := Fated(n, w);
    var t := Move(s, true).value;
    var u := Fated(n.(caller := a, toCallee := n.toCallee + Sized(kind, m)), w);
    assert n.toCallee + Sized(kind, m) == n.toCallee + Frame(SizeOf(kind), WriteInt(|m|)) + Frame(kind, m);
    assert Move(t, true) == Some(u);
    LeadsMove(s, t, true);
    LeadsMove(t, u, true);
    LeadsTrans(s, t, u);
  }

  lemma CalleeSendsSized(n: Net, kind: Kind, m: Bytes, b: Script, w: nat)
    requires n.callee == SendWithSizeFirst(kind, m, b)
    ensures Leads(Fated(n, w), Fated(n.(callee := b, toCaller := n.toCaller + Sized(kind, m)), w))
  {
    hide Reaches, Frame, WriteInt;
    var s := Fated(n, w);
    var t := Move(s, false).value;
    var u := Fated(n.(callee := b, toCaller := n.toCaller + Sized(kind, m)), w);
    assert n.toCaller + Sized(kind, m) == n.toCaller + Frame(SizeOf(kind), WriteInt(|m|)) + Frame(kind, m);
    assert Move(t, false) == Some(u);
    LeadsMove(s, t, false);
    LeadsMove(t, u, false);
    LeadsTrans(s, t, u);
  }

  lemma CallerReadsSized(n: Net, kind: Kind, m: Bytes, f: seq<Octet> -> Script, w: nat)
    requires n.caller == ReceiveWithSizeFirst(kind, f) && n.toCaller == Sized(kind, m) && n.framed
    ensures Leads(Fated(n, w), Fated(n.(caller := f(m), toCaller := []), w))
  {
    hide Reaches, Frame, WriteInt, ReadInt, Take;
    var s := Fated(n, w);
    SizeRead(kind, m, f);
    TakeFrame(SizeOf(kind), WriteInt(|m|), Frame(kind, m), n.caller.then_);
    var t := Fated(n.(caller := Receive(kind, |m|, f), toCaller := Frame(kind, m)), w);
    TakeFrame(kind, m, [], f);
    assert Frame(kind, m) + [] == Frame(kind, m);
    var u := Fated(n.(caller := f(m), toCaller := []), w);
    assert Move(s, true) == Some(t);
    assert Move(t, true) == Some(u);
    LeadsMove(s, t, true);
    LeadsMove(t, u, true);
    LeadsTrans(s, t, u);
  }

  lemma CalleeReadsSized(n: Net, kind: Kind, m: Bytes, f: seq<Octet> -> Script, w: nat)
    requires n.callee == ReceiveWithSizeFirst(kind, f) && n.toCallee == Sized(kind, m) && n.framed
    ensures Leads(Fated(n, w), Fated(n.(callee := f(m), toCallee := []), w))
  {
    hide Reaches, Frame, WriteInt, ReadInt, Take;
    var s := Fated(n, w);
    SizeRead(kind, m, f);
    TakeFrame(SizeOf(kind), WriteInt(|m|), Frame(kind, m), n.callee.then_);
    var t := Fated(n.(callee := Receive(kind, |m|, f), toCallee := Frame(kind, m)), w);
    TakeFrame(kind, m, [], f);
    assert Frame(kind, m) + [] == Frame(kind, m);
    var u := Fated(n.(callee := f(m), toCallee := []), w);
    assert Move(s, false) == Some(t);
    assert Move(t, false) == Some(u);
    LeadsMove(s, t, false);
    LeadsMove(t, u, false);
    LeadsTrans(s, t, u);
  }

  lemma Crossing(kind: Kind, x: Bytes, y: Bytes, f: seq<Octet> -> Script, g: seq<Octet> -> Script, w: nat)
    ensures Leads(At(SendWithSizeFirst(kind, x, ReceiveWithSizeFirst(kind, f)),
                     SendWithSizeFirst(kind, y, ReceiveWithSizeFirst(kind, g)), w),
                  At(f(y), g(x), w))
  {
    hide Leads, SendWithSizeFirst, ReceiveWithSizeFirst, Sized;
    var a, b := ReceiveWithSizeFirst(kind, f), ReceiveWithSizeFirst(kind, g);
    var s := At(SendWithSizeFirst(kind, x, a), SendWithSizeFirst(kind, y, b), w);
    assert [] + Sized(kind, x) == Sized(kind, x) && [] + Sized(kind, y) == Sized(kind, y);
    var n1 := s.net.(caller := a, toCallee := Sized(kind, x));
    var n2 := n1.(callee := b, toCaller := Sized(kind, y));
    var n3 := n2.(caller := f(y), toCaller := []);
    CallerSendsSized(s.net, kind, x, a, w);
    CalleeSendsSized(n1, kind, y, b, w);
    CallerReadsSized(n2, kind, y, f, w);
    CalleeReadsSized(n3, kind, x, g, w);
    LeadsTrans(s, Fated(n1, w), Fated(n2, w));
    LeadsTrans(s, Fated(n2, w), Fated(n3, w));
    LeadsTrans(s, Fated(n3, w), At(f(y), g(x), w));
  }

  // -------------------------------------------------------------- after the answer

  function Secrets(cfg: Setup): Digest {
    cfg.crypto.sha256(cfg.crypto.agree(cfg.caller.party.dh, cfg.crypto.dhPublic(cfg.callee.dh)))
  }

  lemma KeysPhase(cfg: Setup, f: Digest -> Script, g: Digest -> Script, w: nat)
    requires Lawful(cfg.crypto)
    ensures Leads(At(KeyExchange(cfg.crypto, cfg.caller.party, f), KeyExchange(cfg.crypto, cfg.callee, g), w),
                  At(f(Secrets(cfg)), g(Secrets(cfg)), w))
  {
    hide Leads, At, SendWithSizeFirst, ReceiveWithSizeFirst;
    var c, me, you := cfg.crypto, cfg.caller.party, cfg.callee;
    Crossing(DhKey, c.dhPublic(me.dh), c.dhPublic(you.dh), OnOtherKey(c, me, f), OnOtherKey(c, you, g), w);
  }

  function CallerSession(cfg: Setup): Session {
    Session(if cfg.caller.requiresIntroduction then Some(CalleeKey(cfg)) else cfg.caller.expected,
      FirstKey(Secrets(cfg)), cfg.caller.party.ssrc, cfg.caller.party.salt,
      SecondKey(Secrets(cfg)), cfg.callee.ssrc, cfg.callee.salt)
  }

  function CalleeSession(cfg: Setup): Session {
    Session(Introduced(cfg),
      SecondKey(Secrets(cfg)), cfg.callee.ssrc, cfg.callee.salt,
      FirstKey(Secrets(cfg)), cfg.caller.party.ssrc, cfg.caller.party.salt)
  }

  lemma SrtpPhase(me: Party, you: Party, p: Option<seq<Octet>>, q: Option<seq<Octet>>, keys: Digest, w: nat)
    ensures Leads(At(OutgoingSrtp(me, p)(keys), IncomingSrtp(you, q)(keys), w),
                  At(Done(Session(p, FirstKey(keys), me.ssrc, me.salt, SecondKey(keys), you.ssrc, you.salt)),
                     Done(Session(q, SecondKey(keys), you.ssrc, you.salt, FirstKey(keys), me.ssrc, me.salt)), w))
  {
    hide Leads, At, WriteInt, ReadInt, FirstKey, SecondKey;
    IntRoundTrip(me.ssrc);
    IntRoundTrip(you.ssrc);
    var f, g := CallerDone(me, p, keys), CalleeDone(you, q, keys);
    var r := ReceiveSsrcAndSalt(f);
    var s0 := At(SendSsrcAndSalt(me, r), ReceiveSsrcAndSalt(g), w);
    var s1 := At(Send(Salt, me.salt, r), Receive(Salt, SALT_SIZE, OnSalt(me.ssrc, g)), w);
    var b := g(me.ssrc, me.salt);
    var done := Done(Session(q, SecondKey(keys), you.ssrc, you.salt, FirstKey(keys), me.ssrc, me.salt));
    assert b == SendSsrcAndSalt(you, done);
    var s3 := At(Receive(Salt, SALT_SIZE, OnSalt(you.ssrc, f)), Send(Salt, you.salt, done), w);
    Down(Ssrc, WriteInt(me.ssrc), Send(Salt, me.salt, r), OnSsrc(g), w);
    Down(Salt, me.salt, r, OnSalt(me.ssrc, g), w);
    Up(Ssrc, WriteInt(you.ssrc), Send(Salt, you.salt, done), OnSsrc(f), w);
    Up(Salt, you.salt, done, OnSalt(you.ssrc, f), w);
    LeadsTrans(s0, s1, At(r, b, w));
    LeadsTrans(s0, At(r, b, w), s3);
    LeadsTrans(s0, s3, At(f(you.ssrc, you.salt), done, w));
  }

  // The callee proves an identity that the caller did not expect.
  predicate WrongPeer(cfg: Setup) {
    cfg.caller.requiresIntroduction && !IsExpected(cfg.caller, CalleeKey(cfg))
  }

  // Where every call ends: both ends have set up their sessions; or the call was
  // rejected; or the caller broke off, and the callee waits for its key.
  ghost predicate Outcome(cfg: Setup, n: Net) {
    if !cfg.accept then
      n == Net(Failed(CallRejected), Ended, [], [], true)
    else if WrongPeer(cfg) then
      n.framed && n.caller == Failed(UnexpectedKey) && n.callee.Receive? && n.callee.kind == SizeOf(DhKey)
      && n.callee.size == 4 && n.toCallee == []
    else
      n == Net(Done(CallerSession(cfg)), Done(CalleeSession(cfg)), [], [], true)
  }

  lemma OutcomeIsFinal(cfg: Setup, n: Net)
    requires Outcome(cfg, n)
    ensures Final(Fated(n, 0))
  {
  }

  lemma AcceptedRight(cfg: Setup)
    requires Lawful(cfg.crypto) && !WrongPeer(cfg)
    ensures Leads(At(OutgoingAccepted(cfg.crypto, cfg.caller),
                     IncomingAccepted(cfg.crypto, cfg.callee, Introduced(cfg), cfg.caller.requiresIntroduction), 0),
                  At(Done(CallerSession(cfg)), Done(CalleeSession(cfg)), 0))
  {
    hide Leads, At, KeyExchange, ProveIdentity, ReceiveAndVerifyPublicKey, OutgoingSrtp, IncomingSrtp, Secrets, Lawful, FirstKey, SecondKey;
    var c, me, you, q := cfg.crypto, cfg.caller, cfg.callee, Introduced(cfg);
    var p := CallerSession(cfg).peer;
    var s := At(OutgoingAccepted(c, me), IncomingAccepted(c, you, q, me.requiresIntroduction), 0);
    var keys := Secrets(cfg);
    var t := At(KeyExchange(c, me.party, OutgoingSrtp(me.party, p)), KeyExchange(c, you, IncomingSrtp(you, q)), 0);
    var u := At(OutgoingSrtp(me.party, p)(keys), IncomingSrtp(you, q)(keys), 0);
    if me.requiresIntroduction {
      CalleeProves(c, you, me.party, KeyExchange(c, you, IncomingSrtp(you, q)), OnVerified(me, OutgoingKeyExchange(c, me.party)), 0);
    } else {
      LeadsSelf(s);
    }
    assert Leads(s, t);
    KeysPhase(cfg, OutgoingSrtp(me.party, p), IncomingSrtp(you, q), 0);
    SrtpPhase(me.party, you, p, q, keys, 0);
    LeadsTrans(s, t, u);
    LeadsTrans(s, u, At(Done(CallerSession(cfg)), Done(CalleeSession(cfg)), 0));
  }

  lemma AcceptedWrong(cfg: Setup) returns (n: Net)
    requires Lawful(cfg.crypto) && WrongPeer(cfg) && cfg.accept
    ensures Leads(At(OutgoingAccepted(cfg.crypto, cfg.caller),
                     IncomingAccepted(cfg.crypto, cfg.callee, Introduced(cfg), cfg.caller.requiresIntroduction), 0), Fated(n, 0))
    ensures Outcome(cfg, n)
  {
    hide Leads, ProveIdentity, ReceiveAndVerifyPublicKey, IncomingSrtp, Lawful, Sized, SendWithSizeFirst;
    var c, me, you, q := cfg.crypto, cfg.caller, cfg.callee, Introduced(cfg);
    var next := KeyExchange(c, you, IncomingSrtp(you, q));
    CalleeProves(c, you, me.party, next, OnVerified(me, OutgoingKeyExchange(c, me.party)), 0);
    var t := At(Failed(UnexpectedKey), next, 0);
    var b := ReceiveWithSizeFirst(DhKey, OnOtherKey(c, you, IncomingSrtp(you, q)));
    CalleeSendsSized(t.net, DhKey, c.dhPublic(you.dh), b, 0);
    n := t.net.(callee := b, toCaller := t.net.toCaller + Sized(DhKey, c.dhPublic(you.dh)));
    LeadsTrans(At(OutgoingAccepted(c, me), IncomingAccepted(c, you, q, me.requiresIntroduction), 0), t, Fated(n, 0));
  }

  // The canonical exchange, with any number of waiting messages.
  lemma Canonical(cfg: Setup, w: nat) returns (n: Net)
    requires Lawful(cfg.crypto)
    ensures Outcome(cfg, n) && Leads(Start(cfg, w), Fated(n, 0))
  {
    hide Leads, Lawful, OutgoingAccepted, IncomingAccepted, Start, AcceptMsg, RejectMsg, WaitForAcceptanceMsg, WrongPeer;
    MessagesDiffer();
    var c, me, you := cfg.crypto, cfg.caller, cfg.callee;
    Opening(cfg, w);
    var r := Rings(cfg, w).net;
    RingPhase(OutgoingAccepted(c, me), r.callee.answer, r.callee.next, w);
    var t := At(AfterStatus(r.caller, r.caller.next, r.callee.answer), r.callee.next, 0);
    LeadsTrans(Start(cfg, w), Rings(cfg, w), t);
    if !cfg.accept {
      n := t.net;
    } else if WrongPeer(cfg) {
      n := AcceptedWrong(cfg);
      LeadsTrans(Start(cfg, w), t, Fated(n, 0));
    } else {
      AcceptedRight(cfg);
      n := At(Done(CallerSession(cfg)), Done(CalleeSession(cfg)), 0).net;
      LeadsTrans(Start(cfg, w), t, Fated(n, 0));
    }
  }
}
