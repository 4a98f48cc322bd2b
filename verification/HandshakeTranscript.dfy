// What each end of an accepted call sends and reads, message by message, for all flags.
module HandshakeTranscript {
  import opened Octets
  import opened ProtocolUtils
  import opened Handshake
  import opened HandshakeNet
  import opened HandshakeExchange
  import opened HandshakeCalls

  datatype Item = Sent(octets: seq<Octet>) | Got(octets: seq<Octet>)

  // Alone, the end goes from s to end by sending and reading just this.
  ghost predicate Speaks(s: Script, log: seq<Item>, end: Script)
    decreases |log|
  {
    if log == [] then s == end else
    match s
    case Send(kind, msg, next) => log[0] == Sent(msg) && Speaks(next, log[1..], end)
    case Ringing(answer, next) => log[0] == Sent(answer) && Speaks(next, log[1..], end)
    case Receive(kind, size, then_) =>
      log[0].Got? && |log[0].octets| == size && Speaks(then_(log[0].octets), log[1..], end)
    case WaitForAccept(next) =>
      log[0].Got? && |log[0].octets| == 6 && Speaks(AfterStatus(s, next, log[0].octets), log[1..], end)
    case _ => false
  }

  lemma {:induction false} SpeaksOn(s: Script, a: seq<Item>, t: Script, b: seq<Item>, u: Script)
    requires Speaks(s, a, t) && Speaks(t, b, u)
    ensures Speaks(s, a + b, u)
    decreases |a|
  {
    if a == [] {
      assert a + b == b;
    } else {
      assert (a + b)[0] == a[0] && (a + b)[1..] == a[1..] + b;
      match s
      case Send(kind, msg, next) => SpeaksOn(next, a[1..], t, b, u);
      case Ringing(answer, next) => SpeaksOn(next, a[1..], t, b, u);
      case Receive(kind, size, then_) => SpeaksOn(then_(a[0].octets), a[1..], t, b, u);
      case WaitForAccept(next) => SpeaksOn(AfterStatus(s, next, a[0].octets), a[1..], t, b, u);
    }
  }

  // ------------------------------------------------------------- the messages

  const HELLO: seq<Octet> := [72, 101, 108, 108, 111, 32, 32, 32]
  const HELLO_ACK: seq<Octet> := [72, 101, 108, 108, 111, 65, 67, 75]
  const VERSION: seq<Octet> := [86, 101, 114, 48, 49, 46, 48, 48]
  const INTRODUCE: seq<Octet> := [73, 110, 116, 114, 111, 100, 117, 99, 101, 32, 32]
  const NO_INTRODUCE: seq<Octet> := [78, 111, 73, 110, 116, 114, 111, 100, 117, 99, 101]
  const REQUEST: seq<Octet> := [82, 101, 113, 73, 110, 116, 114, 111, 100, 32, 32]
  const NO_REQUEST: seq<Octet> := [78, 111, 82, 101, 113, 73, 110, 116, 114, 111, 100]
  const ACCEPT: seq<Octet> := [65, 99, 99, 101, 112, 116]
  const WAIT: seq<Octet> := [87, 97, 105, 116, 32, 32]

  lemma Texts()
    ensures HelloMsg() == HELLO && HelloAckMsg() == HELLO_ACK && VersionMsg() == VERSION
    ensures IntroductionMsg() == INTRODUCE && NoIntroductionMsg() == NO_INTRODUCE
    ensures IntroductionReqMsg() == REQUEST && NoIntroductionReqMsg() == NO_REQUEST
    ensures AcceptMsg() == ACCEPT && WaitForAcceptanceMsg() == WAIT
  {
  }

  // ------------------------------------------------------------- the transcripts

  // A message behind its length in four octets
  function SentSized(m: Bytes): seq<Item> { [Sent(WriteInt(|m|)), Sent(m)] }

  function GotSized(m: Bytes): seq<Item> { [Got(WriteInt(|m|)), Got(m)] }

  // One end proves its identity by signing what the other one sends.
  function Proving(c: Crypto, me: Party, you: Party): seq<Item> {
    SentSized(c.rsaPublic(me.rsa)) + [Got(you.nonce)] + SentSized(c.sign(me.rsa, you.nonce))
  }

  function Checking(c: Crypto, me: Party, you: Party): seq<Item> {
    GotSized(c.rsaPublic(you.rsa)) + [Sent(me.nonce)] + GotSized(c.sign(you.rsa, me.nonce))
  }

  function Times(n: nat, x: Item): seq<Item> { seq(n, i => x) }

  // The caller, with n waiting messages before the call is accepted
  function CallerSays(cfg: Setup, n: nat): seq<Item> {
    var c, me, you := cfg.crypto, cfg.caller.party, cfg.callee;
    [Sent(HELLO), Got(HELLO_ACK), Got(HELLO), Sent(HELLO_ACK), Sent(VERSION), Got(VERSION)]
    + (if cfg.caller.shouldIntroduce then [Sent(INTRODUCE)] + Proving(c, me, you) else [Sent(NO_INTRODUCE)])
    + [Sent(if cfg.caller.requiresIntroduction then REQUEST else NO_REQUEST)]
    + Times(n, Got(WAIT)) + [Got(ACCEPT)]
    + (if cfg.caller.requiresIntroduction then Checking(c, me, you) else [])
    + SentSized(c.dhPublic(me.dh)) + GotSized(c.dhPublic(you.dh))
    + [Sent(WriteInt(me.ssrc)), Sent(me.salt), Got(WriteInt(you.ssrc)), Got(you.salt)]
  }

  // The callee's end; its worker sends the waiting messages.
  function CalleeSays(cfg: Setup): seq<Item> {
    var c, me, you := cfg.crypto, cfg.callee, cfg.caller.party;
    [Got(HELLO), Sent(HELLO_ACK), Sent(HELLO), Got(HELLO_ACK), Got(VERSION), Sent(VERSION)]
    + (if cfg.caller.shouldIntroduce then [Got(INTRODUCE)] + Checking(c, me, you) else [Got(NO_INTRODUCE)])
    + [Got(if cfg.caller.requiresIntroduction then REQUEST else NO_REQUEST)]
    + [Sent(ACCEPT)]
    + (if cfg.caller.requiresIntroduction then Proving(c, me, you) else [])
    + SentSized(c.dhPublic(me.dh)) + GotSized(c.dhPublic(you.dh))
    + [Got(WriteInt(you.ssrc)), Got(you.salt), Sent(WriteInt(me.ssrc)), Sent(me.salt)]
  }

  // ------------------------------------------------------------- single steps

  lemma Says(kind: Kind, m: Bytes, next: Script)
    ensures Speaks(Send(kind, m, next), [Sent(m)], next)
  {
    assert [Sent(m)][1..] == [];
  }

  lemma Hears(kind: Kind, m: seq<Octet>, f: seq<Octet> -> Script)
    ensures Speaks(Receive(kind, |m|, f), [Got(m)], f(m))
  {
    assert [Got(m)][1..] == [];
  }

  lemma SaysSized(kind: Kind, m: Bytes, next: Script)
    ensures Speaks(SendWithSizeFirst(kind, m, next), SentSized(m), next)
  {
    hide Speaks, WriteInt;
    Says(SizeOf(kind), WriteInt(|m|), Send(kind, m, next));
    Says(kind, m, next);
    SpeaksOn(SendWithSizeFirst(kind, m, next), [Sent(WriteInt(|m|))], Send(kind, m, next), [Sent(m)], next);
    assert SentSized(m) == [Sent(WriteInt(|m|))] + [Sent(m)];
  }

  lemma HearsSized(kind: Kind, m: Bytes, f: seq<Octet> -> Script)
    ensures Speaks(ReceiveWithSizeFirst(kind, f), GotSized(m), f(m))
  {
    hide Speaks, WriteInt, ReadInt;
    SizeRead(kind, m, f);
    Hears(SizeOf(kind), WriteInt(|m|), ReceiveWithSizeFirst(kind, f).then_);
    Hears(kind, m, f);
    SpeaksOn(ReceiveWithSizeFirst(kind, f), [Got(WriteInt(|m|))], Receive(kind, |m|, f), [Got(m)], f(m));
    assert GotSized(m) == [Got(WriteInt(|m|))] + [Got(m)];
  }

  lemma Proves(c: Crypto, me: Party, you: Party, next: Script)
    ensures Speaks(ProveIdentity(c, me, next), Proving(c, me, you), next)
  {
    hide Speaks, SendWithSizeFirst, SentSized;
    var s := ProveIdentity(c, me, next);
    var t := Receive(Challenge, INTRODUCTION_MSG_SIZE, OnChallenge(c, me, next));
    var u := SendWithSizeFirst(Signature, c.sign(me.rsa, you.nonce), next);
    SaysSized(RsaKey, c.rsaPublic(me.rsa), t);
    Hears(Challenge, you.nonce, OnChallenge(c, me, next));
    SaysSized(Signature, c.sign(me.rsa, you.nonce), next);
    SpeaksOn(s, SentSized(c.rsaPublic(me.rsa)), t, [Got(you.nonce)], u);
    SpeaksOn(s, SentSized(c.rsaPublic(me.rsa)) + [Got(you.nonce)], u, SentSized(c.sign(me.rsa, you.nonce)), next);
  }

  lemma Checks(c: Crypto, me: Party, you: Party, f: seq<Octet> -> Script)
    requires Lawful(c)
    ensures Speaks(ReceiveAndVerifyPublicKey(c, me, f), Checking(c, me, you), f(c.rsaPublic(you.rsa)))
  {
    hide Speaks, ReceiveWithSizeFirst, GotSized;
    var key := c.rsaPublic(you.rsa);
    var s := ReceiveAndVerifyPublicKey(c, me, f);
    var u := ReceiveWithSizeFirst(Signature, OnSignature(c, me, key, f));
    var t := Send(Challenge, me.nonce, u);
    HearsSized(RsaKey, key, OnPublicKey(c, me, f));
    assert OnPublicKey(c, me, f)(key) == t;
    Says(Challenge, me.nonce, u);
    HearsSized(Signature, c.sign(you.rsa, me.nonce), OnSignature(c, me, key, f));
    assert OnSignature(c, me, key, f)(c.sign(you.rsa, me.nonce)) == f(key);
    SpeaksOn(s, GotSized(key), t, [Sent(me.nonce)], u);
    SpeaksOn(s, GotSized(key) + [Sent(me.nonce)], u, GotSized(c.sign(you.rsa, me.nonce)), f(key));
  }

  lemma Exchanges(c: Crypto, me: Party, you: Party, f: Digest -> Script)
    requires Lawful(c)
    ensures Speaks(KeyExchange(c, me, f), SentSized(c.dhPublic(me.dh)) + GotSized(c.dhPublic(you.dh)),
                   f(c.sha256(c.agree(me.dh, c.dhPublic(you.dh)))))
  {
    hide Speaks, ReceiveWithSizeFirst, SendWithSizeFirst, GotSized, SentSized;
    var t := ReceiveWithSizeFirst(DhKey, OnOtherKey(c, me, f));
    var u := f(c.sha256(c.agree(me.dh, c.dhPublic(you.dh))));
    SaysSized(DhKey, c.dhPublic(me.dh), t);
    HearsSized(DhKey, c.dhPublic(you.dh), OnOtherKey(c, me, f));
    assert OnOtherKey(c, me, f)(c.dhPublic(you.dh)) == u;
    SpeaksOn(KeyExchange(c, me, f), SentSized(c.dhPublic(me.dh)), t, GotSized(c.dhPublic(you.dh)), u);
  }

  lemma HearsSpecific(kind: Kind, m: Bytes, next: Script)
    ensures Speaks(ReceiveSpecific(kind, m, next), [Got(m)], next)
  {
    hide Speaks;
    Hears(kind, m, ReceiveSpecific(kind, m, next).then_);
  }

  // ------------------------------------------------------------- the openings

  // Four items in turn
  lemma Four(s: Script, i: Item, t: Script, j: Item, u: Script, k: Item, v: Script, l: Item, w: Script)
    requires Speaks(s, [i], t) && Speaks(t, [j], u) && Speaks(u, [k], v) && Speaks(v, [l], w)
    ensures Speaks(s, [i, j, k, l], w)
  {
    hide Speaks;
    SpeaksOn(s, [i], t, [j], u);
    SpeaksOn(s, [i] + [j], u, [k], v);
    SpeaksOn(s, [i] + [j] + [k], v, [l], w);
    assert [i] + [j] + [k] + [l] == [i, j, k, l];
  }

  lemma CallerOpens(next: Script)
    ensures Speaks(SendAndReceiveHello(SendAndReceiveVersion(next)),
                   [Sent(HELLO), Got(HELLO_ACK), Got(HELLO), Sent(HELLO_ACK), Sent(VERSION), Got(VERSION)], next)
  {
    hide Speaks, HelloMsg, HelloAckMsg, VersionMsg, ReceiveSpecific;
    Texts();
    var x := SendAndReceiveVersion(next);
    var w := Send(HelloAck, HelloAckMsg(), x);
    var v := ReceiveSpecific(Hello, HelloMsg(), w);
    var u := ReceiveSpecific(HelloAck, HelloAckMsg(), v);
    var s := SendAndReceiveHello(x);
    Says(Hello, HelloMsg(), u);
    HearsSpecific(HelloAck, HelloAckMsg(), v);
    HearsSpecific(Hello, HelloMsg(), w);
    Says(HelloAck, HelloAckMsg(), x);
    Four(s, Sent(HELLO), u, Got(HELLO_ACK), v, Got(HELLO), w, Sent(HELLO_ACK), x);
    Says(Version, VersionMsg(), x.next);
    Hears(Version, VersionMsg(), x.next.then_);
    SpeaksOn(s, [Sent(HELLO), Got(HELLO_ACK), Got(HELLO), Sent(HELLO_ACK)], x, [Sent(VERSION)], x.next);
    SpeaksOn(s, [Sent(HELLO), Got(HELLO_ACK), Got(HELLO), Sent(HELLO_ACK)] + [Sent(VERSION)], x.next, [Got(VERSION)], next);
    assert [Sent(HELLO), Got(HELLO_ACK), Got(HELLO), Sent(HELLO_ACK)] + [Sent(VERSION)] + [Got(VERSION)]
        == [Sent(HELLO), Got(HELLO_ACK), Got(HELLO), Sent(HELLO_ACK), Sent(VERSION), Got(VERSION)];
  }

  lemma CalleeOpens(next: Script)
    ensures Speaks(ReceiveAndSendHello(ReceiveAndSendVersion(next)),
                   [Got(HELLO), Sent(HELLO_ACK), Sent(HELLO), Got(HELLO_ACK), Got(VERSION), Sent(VERSION)], next)
  {
    hide Speaks, HelloMsg, HelloAckMsg, VersionMsg, ReceiveSpecific;
    Texts();
    var x := ReceiveAndSendVersion(next);
    var w := ReceiveSpecific(HelloAck, HelloAckMsg(), x);
    var v := Send(Hello, HelloMsg(), w);
    var u := Send(HelloAck, HelloAckMsg(), v);
    var s := ReceiveAndSendHello(x);
    HearsSpecific(Hello, HelloMsg(), u);
    Says(HelloAck, HelloAckMsg(), v);
    Says(Hello, HelloMsg(), w);
    HearsSpecific(HelloAck, HelloAckMsg(), x);
    Four(s, Got(HELLO), u, Sent(HELLO_ACK), v, Sent(HELLO), w, Got(HELLO_ACK), x);
    var z := Send(Version, VersionMsg(), next);
    Hears(Version, VersionMsg(), x.then_);
    Says(Version, VersionMsg(), next);
    SpeaksOn(s, [Got(HELLO), Sent(HELLO_ACK), Sent(HELLO), Got(HELLO_ACK)], x, [Got(VERSION)], z);
    SpeaksOn(s, [Got(HELLO), Sent(HELLO_ACK), Sent(HELLO), Got(HELLO_ACK)] + [Got(VERSION)], z, [Sent(VERSION)], next);
    assert [Got(HELLO), Sent(HELLO_ACK), Sent(HELLO), Got(HELLO_ACK)] + [Got(VERSION)] + [Sent(VERSION)]
        == [Got(HELLO), Sent(HELLO_ACK), Sent(HELLO), Got(HELLO_ACK), Got(VERSION), Sent(VERSION)];
  }

  lemma {:induction false} CallerWaits(next: Script, n: nat)
    ensures Speaks(WaitForAccept(next), Times(n, Got(WAIT)) + [Got(ACCEPT)], next)
  {
    Texts();
    if n == 0 {
      assert Times(0, Got(WAIT)) + [Got(ACCEPT)] == [Got(ACCEPT)] && [Got(ACCEPT)][1..] == [];
    } else {
      CallerWaits(next, n - 1);
      var l := Times(n, Got(WAIT)) + [Got(ACCEPT)];
      assert l[0] == Got(WAIT) && l[1..] == Times(n - 1, Got(WAIT)) + [Got(ACCEPT)];
    }
  }

  lemma CallerIntroduces(c: Crypto, me: Caller, you: Party, next: Script)
    ensures Speaks(HandleOutgoingIntroduction(c, me, next),
                   if me.shouldIntroduce then [Sent(INTRODUCE)] + Proving(c, me.party, you) else [Sent(NO_INTRODUCE)], next)
  {
    hide Speaks, Proving, ProveIdentity, IntroductionMsg, NoIntroductionMsg;
    Texts();
    if me.shouldIntroduce {
      var t := ProveIdentity(c, me.party, next);
      Says(Introduction, IntroductionMsg(), t);
      Proves(c, me.party, you, next);
      SpeaksOn(HandleOutgoingIntroduction(c, me, next), [Sent(INTRODUCE)], t, Proving(c, me.party, you), next);
    } else {
      Says(Introduction, NoIntroductionMsg(), next);
    }
  }

  lemma CalleeIsIntroduced(cfg: Setup, next: Option<seq<Octet>> -> Script)
    requires Lawful(cfg.crypto)
    ensures Speaks(HandleIncomingIntroduction(cfg.crypto, cfg.callee, next),
                   if cfg.caller.shouldIntroduce then [Got(INTRODUCE)] + Checking(cfg.crypto, cfg.callee, cfg.caller.party)
                   else [Got(NO_INTRODUCE)], next(Introduced(cfg)))
  {
    hide Speaks, Checking, ReceiveAndVerifyPublicKey, IntroductionMsg, NoIntroductionMsg, Lawful;
    Texts();
    var c, me := cfg.crypto, cfg.callee;
    var s, f := HandleIncomingIntroduction(c, me, next), OnIntroduction(c, me, next);
    if cfg.caller.shouldIntroduce {
      var t := ReceiveAndVerifyPublicKey(c, me, OnIntroduced(next));
      Hears(Introduction, INTRODUCE, f);
      assert f(INTRODUCE) == t;
      Checks(c, me, cfg.caller.party, OnIntroduced(next));
      SpeaksOn(s, [Got(INTRODUCE)], t, Checking(c, me, cfg.caller.party), next(Introduced(cfg)));
    } else {
      Hears(Introduction, NO_INTRODUCE, f);
      assert f(NO_INTRODUCE) == next(None);
    }
  }

  lemma CallerRequests(me: Caller, next: Script)
    ensures Speaks(HandleOutgoingRequest(me, next), [Sent(if me.requiresIntroduction then REQUEST else NO_REQUEST)], next)
  {
    hide Speaks, IntroductionReqMsg, NoIntroductionReqMsg;
    Texts();
    Says(IntroductionRequest, if me.requiresIntroduction then IntroductionReqMsg() else NoIntroductionReqMsg(), next);
  }

  lemma CalleeIsAsked(requested: bool, next: bool -> Script)
    ensures Speaks(HandleIncomingRequest(next), [Got(if requested then REQUEST else NO_REQUEST)], next(requested))
  {
    hide Speaks, IntroductionReqMsg, NoIntroductionReqMsg;
    Texts();
    Hears(IntroductionRequest, if requested then REQUEST else NO_REQUEST, OnRequest(next));
    assert OnRequest(next)(if requested then REQUEST else NO_REQUEST) == next(requested);
  }

  // ------------------------------------------------------------- after the answer

  lemma CallerFinishes(me: Party, you: Party, peer: Option<seq<Octet>>, keys: Digest)
    ensures Speaks(OutgoingSrtp(me, peer)(keys), [Sent(WriteInt(me.ssrc)), Sent(me.salt), Got(WriteInt(you.ssrc)), Got(you.salt)],
                   CallerDone(me, peer, keys)(you.ssrc, you.salt))
  {
    hide Speaks, WriteInt, ReadInt;
    IntRoundTrip(you.ssrc);
    var f := CallerDone(me, peer, keys);
    var w := f(you.ssrc, you.salt);
    var v := Receive(Salt, SALT_SIZE, OnSalt(you.ssrc, f));
    var u := ReceiveSsrcAndSalt(f);
    var t := Send(Salt, me.salt, u);
    Says(Ssrc, WriteInt(me.ssrc), t);
    Says(Salt, me.salt, u);
    Hears(Ssrc, WriteInt(you.ssrc), OnSsrc(f));
    assert OnSsrc(f)(WriteInt(you.ssrc)) == v;
    Hears(Salt, you.salt, OnSalt(you.ssrc, f));
    Four(OutgoingSrtp(me, peer)(keys), Sent(WriteInt(me.ssrc)), t, Sent(me.salt), u, Got(WriteInt(you.ssrc)), v, Got(you.salt), w);
  }

  lemma CalleeFinishes(me: Party, you: Party, peer: Option<seq<Octet>>, keys: Digest, session: Session)
    requires CalleeDone(me, peer, keys)(you.ssrc, you.salt) == SendSsrcAndSalt(me, Done(session))
    ensures Speaks(IncomingSrtp(me, peer)(keys), [Got(WriteInt(you.ssrc)), Got(you.salt), Sent(WriteInt(me.ssrc)), Sent(me.salt)],
                   Done(session))
  {
    hide Speaks, WriteInt, ReadInt, CalleeDone;
    IntRoundTrip(you.ssrc);
    var f := CalleeDone(me, peer, keys);
    var t := Receive(Salt, SALT_SIZE, OnSalt(you.ssrc, f));
    var u := SendSsrcAndSalt(me, Done(session));
    var v := Send(Salt, me.salt, Done(session));
    Hears(Ssrc, WriteInt(you.ssrc), OnSsrc(f));
    assert OnSsrc(f)(WriteInt(you.ssrc)) == t;
    Hears(Salt, you.salt, OnSalt(you.ssrc, f));
    Says(Ssrc, WriteInt(me.ssrc), v);
    Says(Salt, me.salt, Done(session));
    Four(IncomingSrtp(me, peer)(keys), Got(WriteInt(you.ssrc)), t, Got(you.salt), u, Sent(WriteInt(me.ssrc)), v, Sent(me.salt), Done(session));
  }

  lemma CallerAccepted(cfg: Setup)
    requires Lawful(cfg.crypto) && !WrongPeer(cfg)
    ensures var c, me, you := cfg.crypto, cfg.caller.party, cfg.callee;
            Speaks(OutgoingAccepted(c, cfg.caller),
                   (if cfg.caller.requiresIntroduction then Checking(c, me, you) else [])
                   + SentSized(c.dhPublic(me.dh)) + GotSized(c.dhPublic(you.dh))
                   + [Sent(WriteInt(me.ssrc)), Sent(me.salt), Got(WriteInt(you.ssrc)), Got(you.salt)],
                   Done(CallerSession(cfg)))
  {
    hide Speaks, Checking, SentSized, GotSized, WriteInt, KeyExchange, OutgoingSrtp, ReceiveAndVerifyPublicKey, Lawful;
    var c, me, you := cfg.crypto, cfg.caller.party, cfg.callee;
    var peer := CallerSession(cfg).peer;
    var s := OutgoingAccepted(c, cfg.caller);
    var t := KeyExchange(c, me, OutgoingSrtp(me, peer));
    var a := if cfg.caller.requiresIntroduction then Checking(c, me, you) else [];
    if cfg.caller.requiresIntroduction {
      Checks(c, me, you, OnVerified(cfg.caller, OutgoingKeyExchange(c, me)));
    } else {
      Silent(s);
    }
    assert Speaks(s, a, t);
    Exchanges(c, me, you, OutgoingSrtp(me, peer));
    CallerFinishes(me, you, peer, Secrets(cfg));
    var b := SentSized(c.dhPublic(me.dh)) + GotSized(c.dhPublic(you.dh));
    SpeaksOn(s, a, t, b, OutgoingSrtp(me, peer)(Secrets(cfg)));
    assert a + SentSized(c.dhPublic(me.dh)) + GotSized(c.dhPublic(you.dh)) == a + b;
    SpeaksOn(s, a + b, OutgoingSrtp(me, peer)(Secrets(cfg)),
             [Sent(WriteInt(me.ssrc)), Sent(me.salt), Got(WriteInt(you.ssrc)), Got(you.salt)], Done(CallerSession(cfg)));
  }

  lemma Silent(s: Script)
    ensures Speaks(s, [], s)
  {
  }

  lemma CalleeAccepted(cfg: Setup)
    requires Lawful(cfg.crypto)
    ensures var c, me, you := cfg.crypto, cfg.callee, cfg.caller.party;
            Speaks(IncomingAccepted(c, me, Introduced(cfg), cfg.caller.requiresIntroduction),
                   (if cfg.caller.requiresIntroduction then Proving(c, me, you) else [])
                   + SentSized(c.dhPublic(me.dh)) + GotSized(c.dhPublic(you.dh))
                   + [Got(WriteInt(you.ssrc)), Got(you.salt), Sent(WriteInt(me.ssrc)), Sent(me.salt)],
                   Done(CalleeSession(cfg)))
  {
    var c, me, you, peer := cfg.crypto, cfg.callee, cfg.caller.party, Introduced(cfg);
    assert c.agree(me.dh, c.dhPublic(you.dh)) == c.agree(you.dh, c.dhPublic(me.dh));
    hide Speaks, Proving, SentSized, GotSized, WriteInt, KeyExchange, IncomingSrtp, ProveIdentity, Lawful, FirstKey, SecondKey;
    var s := IncomingAccepted(c, me, peer, cfg.caller.requiresIntroduction);
    var t := KeyExchange(c, me, IncomingSrtp(me, peer));
    var u := IncomingSrtp(me, peer)(Secrets(cfg));
    var a := if cfg.caller.requiresIntroduction then Proving(c, me, you) else [];
    if cfg.caller.requiresIntroduction {
      Proves(c, me, you, t);
    } else {
      Silent(s);
    }
    assert Speaks(s, a, t);
    Exchanges(c, me, you, IncomingSrtp(me, peer));
    CalleeFinishes(me, you, peer, Secrets(cfg), CalleeSession(cfg));
    var b := SentSized(c.dhPublic(me.dh)) + GotSized(c.dhPublic(you.dh));
    SpeaksOn(s, a, t, b, u);
    assert a + SentSized(c.dhPublic(me.dh)) + GotSized(c.dhPublic(you.dh)) == a + b;
    SpeaksOn(s, a + b, u, [Got(WriteInt(you.ssrc)), Got(you.salt), Sent(WriteInt(me.ssrc)), Sent(me.salt)], Done(CalleeSession(cfg)));
  }

  // ------------------------------------------------------------- whole calls

  // Alone with the messages of the callee, the caller says this and then holds its session.
  lemma CallerTranscript(cfg: Setup, n: nat)
    requires Lawful(cfg.crypto) && !WrongPeer(cfg)
    ensures Speaks(InitiateOutgoingSession(cfg.crypto, cfg.caller), CallerSays(cfg, n), Done(CallerSession(cfg)))
  {
    hide Speaks, Proving, Checking, SentSized, GotSized, WriteInt, Lawful, WrongPeer, CallerSession, Times;
    hide SendAndReceiveHello, SendAndReceiveVersion, HandleOutgoingIntroduction, HandleOutgoingRequest, OutgoingAccepted;
    var c, me, you := cfg.crypto, cfg.caller, cfg.callee;
    var w := OutgoingAccepted(c, me);
    var v := WaitForAccept(w);
    var u := HandleOutgoingRequest(me, v);
    var t := HandleOutgoingIntroduction(c, me, u);
    var s := InitiateOutgoingSession(c, me);
    CallerOpens(t);
    CallerIntroduces(c, me, you, u);
    CallerRequests(me, v);
    CallerWaits(w, n);
    CallerAccepted(cfg);
    var k := [Sent(HELLO), Got(HELLO_ACK), Got(HELLO), Sent(HELLO_ACK), Sent(VERSION), Got(VERSION)];
    var l := if me.shouldIntroduce then [Sent(INTRODUCE)] + Proving(c, me.party, you) else [Sent(NO_INTRODUCE)];
    var m := [Sent(if me.requiresIntroduction then REQUEST else NO_REQUEST)];
    var o := Times(n, Got(WAIT)) + [Got(ACCEPT)];
    var p := (if me.requiresIntroduction then Checking(c, me.party, you) else [])
      + SentSized(c.dhPublic(me.party.dh)) + GotSized(c.dhPublic(you.dh))
      + [Sent(WriteInt(me.party.ssrc)), Sent(me.party.salt), Got(WriteInt(you.ssrc)), Got(you.salt)];
    SpeaksOn(s, k, t, l, u);
    SpeaksOn(s, k + l, u, m, v);
    SpeaksOn(s, k + l + m, v, o, w);
    SpeaksOn(s, k + l + m + o, w, p, Done(CallerSession(cfg)));
    assert CallerSays(cfg, n) == k + l + m + o + p;
  }

  lemma CalleeTranscript(cfg: Setup)
    requires Lawful(cfg.crypto)
    ensures Speaks(InitiateIncomingSession(cfg.crypto, cfg.callee, true), CalleeSays(cfg), Done(CalleeSession(cfg)))
  {
    hide Speaks, Proving, Checking, SentSized, GotSized, WriteInt, Lawful, CalleeSession, AcceptMsg;
    hide ReceiveAndSendHello, ReceiveAndSendVersion, HandleIncomingIntroduction, HandleIncomingRequest, IncomingAccepted;
    var c, me, you, requested := cfg.crypto, cfg.callee, cfg.caller.party, cfg.caller.requiresIntroduction;
    var w := IncomingAccepted(c, me, Introduced(cfg), requested);
    var v := Ringing(AcceptMsg(), w);
    var u := HandleIncomingRequest(Ring(c, me, true, Introduced(cfg)));
    var t := HandleIncomingIntroduction(c, me, RequestThenRing(c, me, true));
    var s := InitiateIncomingSession(c, me, true);
    CalleeOpens(t);
    CalleeIsIntroduced(cfg, RequestThenRing(c, me, true));
    CalleeIsAsked(requested, Ring(c, me, true, Introduced(cfg)));
    Answers(AcceptMsg(), w);
    Texts();
    CalleeAccepted(cfg);
    var k := [Got(HELLO), Sent(HELLO_ACK), Sent(HELLO), Got(HELLO_ACK), Got(VERSION), Sent(VERSION)];
    var l := if cfg.caller.shouldIntroduce then [Got(INTRODUCE)] + Checking(c, me, you) else [Got(NO_INTRODUCE)];
    var m := [Got(if requested then REQUEST else NO_REQUEST)];
    var p := (if requested then Proving(c, me, you) else [])
      + SentSized(c.dhPublic(me.dh)) + GotSized(c.dhPublic(you.dh))
      + [Got(WriteInt(you.ssrc)), Got(you.salt), Sent(WriteInt(me.ssrc)), Sent(me.salt)];
    SpeaksOn(s, k, t, l, u);
    SpeaksOn(s, k + l, u, m, v);
    SpeaksOn(s, k + l + m, v, [Sent(ACCEPT)], w);
    SpeaksOn(s, k + l + m + [Sent(ACCEPT)], w, p, Done(CalleeSession(cfg)));
    assert CalleeSays(cfg) == k + l + m + [Sent(ACCEPT)] + p;
  }

  lemma Answers(answer: Bytes, next: Script)
    ensures Speaks(Ringing(answer, next), [Sent(answer)], next)
  {
    assert [Sent(answer)][1..] == [];
  }
}
