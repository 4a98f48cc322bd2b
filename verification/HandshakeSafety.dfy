// Exactly which calls are safe in every interleaving.
module HandshakeSafety {
  import opened Octets
  import opened ProtocolUtils
  import opened Handshake
  import opened HandshakeNet
  import opened HandshakeExchange
  import opened HandshakeCalls

  // The answer, if there is one, is the last thing that this end does; n bounds what
  // comes before it.
  ghost predicate EndsRinging(s: Script, n: nat)
    decreases n
  {
    match s
    case Send(_, _, next) => n > 0 && EndsRinging(next, n - 1)
    case Receive(_, _, then_) => n > 0 && forall m: seq<Octet> :: EndsRinging(then_(m), n - 1)
    case WaitForAccept(_) => false
    case Ringing(_, next) => next == Ended
    case _ => true
  }

  ghost predicate AllEndRinging(f: seq<Octet> -> Script, n: nat) { forall m: seq<Octet> :: EndsRinging(f(m), n) }

  lemma {:induction false} LaterEnds(s: Script, n: nat)
    requires EndsRinging(s, n)
    ensures EndsRinging(s, n + 1)
    decreases n
  {
    match s
    case Send(_, _, next) => LaterEnds(next, n - 1);
    case Receive(_, _, then_) =>
      forall m: seq<Octet>
        ensures EndsRinging(then_(m), n)
      {
        LaterEnds(then_(m), n - 1);
      }
    case _ =>
  }

  lemma SizedEnds(kind: Kind, f: seq<Octet> -> Script, n: nat)
    requires AllEndRinging(f, n)
    ensures EndsRinging(ReceiveWithSizeFirst(kind, f), n + 2)
  {
    var r := ReceiveWithSizeFirst(kind, f);
    forall b: seq<Octet>
      ensures EndsRinging(r.then_(b), n + 1)
    {
    }
  }

  lemma VerifyEnds(c: Crypto, me: Party, f: seq<Octet> -> Script, n: nat)
    requires AllEndRinging(f, n)
    ensures EndsRinging(ReceiveAndVerifyPublicKey(c, me, f), n + 5)
  {
    hide ReceiveWithSizeFirst;
    forall key: seq<Octet>
      ensures EndsRinging(OnPublicKey(c, me, f)(key), n + 3)
    {
      var g := OnSignature(c, me, key, f);
      forall s: seq<Octet>
        ensures EndsRinging(g(s), n)
      {
      }
      SizedEnds(Signature, g, n);
    }
    SizedEnds(RsaKey, OnPublicKey(c, me, f), n + 3);
  }

  lemma RequestEnds(c: Crypto, me: Party, peer: Option<seq<Octet>>)
    ensures EndsRinging(RequestThenRing(c, me, false)(peer), 1)
  {
    var f := OnRequest(Ring(c, me, false, peer));
    forall m: seq<Octet>
      ensures EndsRinging(f(m), 0)
    {
    }
  }

  lemma IntroductionEnds(c: Crypto, me: Party)
    ensures EndsRinging(HandleIncomingIntroduction(c, me, RequestThenRing(c, me, false)), 7)
  {
    hide ReceiveAndVerifyPublicKey, RequestThenRing, EndsRinging;
    var next := RequestThenRing(c, me, false);
    forall key: seq<Octet>
      ensures EndsRinging(OnIntroduced(next)(key), 1)
    {
      RequestEnds(c, me, Some(key));
    }
    VerifyEnds(c, me, OnIntroduced(next), 1);
    RequestEnds(c, me, None);
    var f := OnIntroduction(c, me, next);
    forall m: seq<Octet>
      ensures EndsRinging(f(m), 6)
    {
      UpToSix(next(None));
      FailedEnds();
    }
    ReceiveEnds(Introduction, |IntroductionMsg()|, f, 6);
  }

  lemma UpToSix(s: Script)
    ensures EndsRinging(s, 1) ==> EndsRinging(s, 6)
  {
    hide EndsRinging;
    if EndsRinging(s, 1) {
      LaterEnds(s, 1);
      LaterEnds(s, 2);
      LaterEnds(s, 3);
      LaterEnds(s, 4);
      LaterEnds(s, 5);
    }
  }

  lemma FailedEnds()
    ensures EndsRinging(Failed(WrongMessage), 6)
  {
  }

  lemma ReceiveEnds(kind: Kind, size: nat, f: seq<Octet> -> Script, n: nat)
    requires AllEndRinging(f, n)
    ensures EndsRinging(Receive(kind, size, f), n + 1)
  {
  }

  lemma SpecificEnds(kind: Kind, msg: Bytes, next: Script, n: nat)
    requires EndsRinging(next, n)
    ensures EndsRinging(ReceiveSpecific(kind, msg, next), n + 1)
  {
    var r := ReceiveSpecific(kind, msg, next);
    forall m: seq<Octet>
      ensures EndsRinging(r.then_(m), n)
    {
    }
  }

  lemma IncomingEnds(c: Crypto, me: Party)
    ensures EndsRinging(InitiateIncomingSession(c, me, false), 13)
  {
    hide HandleIncomingIntroduction, ReceiveSpecific, HelloMsg, HelloAckMsg, VersionMsg;
    var s0 := HandleIncomingIntroduction(c, me, RequestThenRing(c, me, false));
    IntroductionEnds(c, me);
    var s1 := ReceiveAndSendVersion(s0);
    assert EndsRinging(s1, 9) by {
      forall m: seq<Octet>
        ensures EndsRinging(s1.then_(m), 8)
      {
      }
    }
    SpecificEnds(HelloAck, HelloAckMsg(), s1, 9);
    SpecificEnds(Hello, HelloMsg(), Send(HelloAck, HelloAckMsg(), Send(Hello, HelloMsg(), ReceiveSpecific(HelloAck, HelloAckMsg(), s1))), 12);
  }

  // ------------------------------------------------------------------ rejected calls

  // The call without the late messages
  function Trimmed(s: Call, m: seq<Tagged>): Call {
    s.(net := s.net.(toCaller := m), worker := if s.answered then Stopped else s.worker)
  }

  // Late waiting messages lie behind everything that the caller still reads.
  ghost predicate RejectInv(cfg: Setup, s: Call, m: seq<Tagged>) {
    && m <= s.net.toCaller && (!s.answered ==> m == s.net.toCaller)
    && Inv(cfg, Trimmed(s, m))
    && (exists n: nat :: EndsRinging(s.net.callee, n))
    && (s.answered ==> s.net.callee == Ended)
  }

  lemma EndedStays(n: Net)
    requires n.callee == Ended
    ensures CalleeMove(n) == None
  {
  }

  lemma CalleeStaysRinging(n: Net, k: nat)
    requires CalleeMove(n).Some? && EndsRinging(n.callee, k)
    ensures EndsRinging(CalleeMove(n).value.callee, if k > 0 then k - 1 else 0)
  {
    hide Frame, AcceptMsg, RejectMsg, WaitForAcceptanceMsg;
  }

  lemma UntilTheAnswer(cfg: Setup, s: Call, e: Event, t: Call, m: seq<Tagged>)
    requires RejectInv(cfg, s, m) && Step(s, e, t, false) && !s.answered && e != CalleeAnswers
    ensures RejectInv(cfg, t, t.net.toCaller)
  {
    hide Inv, CallerMove, CalleeMove, SendWait;
    assert Trimmed(s, m) == s && Trimmed(t, t.net.toCaller) == t;
    StepKeeps(cfg, s, e, t);
    OneEndMoves(s.net);
    var n: nat :| EndsRinging(s.net.callee, n);
    if e == CalleeSteps {
      CalleeStaysRinging(s.net, n);
    }
  }

  lemma AtTheAnswer(cfg: Setup, s: Call, t: Call, m: seq<Tagged>)
    requires RejectInv(cfg, s, m) && Step(s, CalleeAnswers, t, false) && !s.answered
    ensures RejectInv(cfg, t, t.net.toCaller)
  {
    hide OnCourse, Frame;
    assert Trimmed(s, m) == s;
    var s' := s.(worker := Stopped);
    StepKeeps(cfg, s', CalleeAnswers, t.(worker := Stopped));
    assert EndsRinging(t.net.callee, 0);
  }

  lemma AfterTheAnswer(cfg: Setup, s: Call, e: Event, t: Call, m: seq<Tagged>) returns (m': seq<Tagged>)
    requires RejectInv(cfg, s, m) && Step(s, e, t, false) && s.answered && !cfg.accept
    ensures RejectInv(cfg, t, m')
  {
    hide OnCourse, Frame, Take, Wanted;
    EndedStays(s.net);
    var z := Trimmed(s, m);
    m' := m;
    if e == CallerSteps {
      var more := s.net.toCaller[|m|..];
      assert s.net.toCaller == m + more;
      CallerCanMove(cfg, z, s, more);
      if !s.net.caller.Send? {
        TakeMore(s.net.caller, m, more);
      }
      var u := z.(net := CallerMove(z.net).value);
      StepKeeps(cfg, z, CallerSteps, u);
      m' := u.net.toCaller;
      assert Trimmed(t, m') == u;
    } else {
      assert Trimmed(t, m) == z;
    }
  }

  // What the caller can do, it can do without the late messages.
  lemma CallerCanMove(cfg: Setup, z: Call, s: Call, more: seq<Tagged>)
    requires Inv(cfg, z) && !cfg.accept && z.net.callee == Ended && s.net == z.net.(toCaller := z.net.toCaller + more)
    requires CallerMove(s.net).Some?
    ensures CallerMove(z.net).Some?
  {
    hide CallerMove, CalleeMove;
    EndedStays(z.net);
    assert OnCourse(cfg, z.net, 0);
    var end: Net :| Outcome(cfg, end) && Leads(Fated(z.net, 0), Fated(end, 0));
    var k: nat :| Reaches(Fated(z.net, 0), Fated(end, 0), k);
    if k == 0 {
      RejectedIsStuck(s.net);
    }
  }

  lemma RejectedIsStuck(n: Net)
    requires n.caller == Failed(CallRejected)
    ensures CallerMove(n) == None
  {
  }

  lemma {:induction false} RejectedInv(cfg: Setup, s: Call, n: nat) returns (m: seq<Tagged>)
    requires Lawful(cfg.crypto) && !cfg.accept && Reachable(cfg, false, s, n)
    ensures RejectInv(cfg, s, m)
    decreases n
  {
    hide Inv, Step, Lawful, RejectInv;
    if n == 0 {
      m := s.net.toCaller;
      StartsRejected(cfg);
    } else {
      var p: Call, e: Event :| Reachable(cfg, false, p, n - 1) && Step(p, e, s, false);
      m := RejectedInv(cfg, p, n - 1);
      if p.answered {
        m := AfterTheAnswer(cfg, p, e, s, m);
      } else if e == CalleeAnswers {
        AtTheAnswer(cfg, p, s, m);
        m := s.net.toCaller;
      } else {
        UntilTheAnswer(cfg, p, e, s, m);
        m := s.net.toCaller;
      }
    }
  }

  lemma StartsRejected(cfg: Setup)
    requires Lawful(cfg.crypto) && !cfg.accept
    ensures RejectInv(cfg, Initial(cfg), Initial(cfg).net.toCaller)
  {
    hide Inv, Lawful, EndsRinging, InitiateOutgoingSession, InitiateIncomingSession;
    InitialInv(cfg);
    IncomingEnds(cfg.crypto, cfg.callee);
    assert Trimmed(Initial(cfg), []) == Initial(cfg);
  }

  lemma RejectedFramed(cfg: Setup, s: Call, n: nat)
    requires Lawful(cfg.crypto) && !cfg.accept && Reachable(cfg, false, s, n)
    ensures s.net.framed
  {
    hide Lawful, Reachable, Reaches;
    var m := RejectedInv(cfg, s, n);
    var z := Trimmed(s, m);
    assert OnCourse(cfg, z.net, 0);
    var end: Net :| Outcome(cfg, end) && Leads(Fated(z.net, 0), Fated(end, 0));
    var k: nat :| Reaches(Fated(z.net, 0), Fated(end, 0), k);
    ReachesKeeps(Fated(z.net, 0), Fated(end, 0), k);
  }

  // Every interleaving of a call is framed exactly when the answer cannot fall between the
  // worker's test of its flag and its sending, or the call is rejected.
  lemma SafeIff(cfg: Setup, joined: bool)
    requires Lawful(cfg.crypto)
    ensures (forall s: Call, n: nat | Reachable(cfg, joined, s, n) :: s.net.framed) <==> joined || !cfg.accept
  {
    hide Lawful, Reachable;
    if joined || !cfg.accept {
      forall s: Call, n: nat | Reachable(cfg, joined, s, n)
        ensures s.net.framed
      {
        if joined {
          NoWrongMessage(cfg, s, n);
        } else {
          RejectedFramed(cfg, s, n);
        }
      }
    } else {
      var s, n := WrongRead(cfg);
    }
  }
}
