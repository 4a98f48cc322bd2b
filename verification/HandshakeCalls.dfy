// Whole calls: the two ends and the keep-alive worker, in every interleaving.
module HandshakeCalls {
  import opened Octets
  import opened ProtocolUtils
  import opened Handshake
  import opened HandshakeNet
  import opened HandshakeExchange

  // The worker's loop tests running and then sends: Checked is between the two.
  datatype Worker = Off | Ready | Checked | Stopped

  // running is the worker's flag; answered, that the callee's end is past the answer.
  datatype Call = Call(net: Net, worker: Worker, running: bool, answered: bool)

  datatype Event = CallerSteps | CalleeSteps | WorkerStarts | WorkerChecks | WorkerSends | WorkerStopped | CalleeAnswers

  function Initial(cfg: Setup): Call { Call(Start(cfg, 0).net, Off, true, false) }

  // joined: the answer waits until the worker is not between its test and its sending,
  // as it does when the two of them make one atomic step.
  ghost predicate Step(s: Call, e: Event, t: Call, joined: bool) {
    match e
    case CallerSteps => CallerMove(s.net) == Some(t.net) && t == s.(net := t.net)
    case CalleeSteps => CalleeMove(s.net) == Some(t.net) && t == s.(net := t.net)
    case WorkerStarts => s.net.callee.Ringing? && s.worker == Off && t == s.(worker := Ready)
    case WorkerChecks => s.worker == Ready && t == s.(worker := if s.running then Checked else Stopped)
    case WorkerSends => s.worker == Checked && t == s.(worker := Ready, net := SendWait(s.net))
    case WorkerStopped => s.net.callee.Ringing? && s.worker != Off && s.running && t == s.(running := false)
    case CalleeAnswers =>
      && s.net.callee.Ringing? && !s.running && (joined ==> s.worker != Checked)
      && t == s.(net := Answer(s.net), answered := true)
  }

  // s is reached by some run of n steps.
  ghost predicate Reachable(cfg: Setup, joined: bool, s: Call, n: nat)
    decreases n
  {
    if n == 0 then s == Initial(cfg) else
      exists p: Call, e: Event :: Reachable(cfg, joined, p, n - 1) && Step(p, e, s, joined)
  }

  // The one way this can still end
  ghost predicate OnCourse(cfg: Setup, n: Net, rings: nat) {
    exists end: Net :: Outcome(cfg, end) && Leads(Fated(n, rings), Fated(end, 0))
  }

  // The worker is about to send only while it rings, and until the call is answered any
  // number of waiting messages may follow.
  ghost predicate Inv(cfg: Setup, s: Call) {
    && (s.worker == Checked || (s.worker == Ready && s.running) ==> s.net.callee.Ringing? && !s.answered)
    && (s.answered ==> !s.running) && (!s.running ==> s.worker != Off)
    && (forall w: nat | w == 0 || !s.answered :: OnCourse(cfg, s.net, w))
  }

  lemma InitialInv(cfg: Setup)
    requires Lawful(cfg.crypto)
    ensures Inv(cfg, Initial(cfg))
  {
    hide Leads, Outcome, Lawful, InitiateOutgoingSession, InitiateIncomingSession;
    forall w: nat
      ensures OnCourse(cfg, Initial(cfg).net, w)
    {
      var n := Canonical(cfg, w);
    }
  }

  // One move of either end keeps the course.
  lemma MoveKeeps(cfg: Setup, s: Fated, caller: bool)
    requires OnCourse(cfg, s.net, s.rings) && Move(s, caller).Some?
    ensures var t := Move(s, caller).value; OnCourse(cfg, t.net, t.rings)
  {
    hide Move, Reaches, Final, Outcome;
    var end: Net :| Outcome(cfg, end) && Leads(s, Fated(end, 0));
    OutcomeIsFinal(cfg, end);
    var n: nat :| Reaches(s, Fated(end, 0), n);
    AnyMove(s, Fated(end, 0), n, caller);
    assert Leads(Move(s, caller).value, Fated(end, 0));
  }

  lemma OneEndMoves(n: Net)
    ensures CallerMove(n).Some? ==> CallerMove(n).value.callee == n.callee
    ensures CalleeMove(n).Some? ==> CalleeMove(n).value.caller == n.caller && !n.callee.Ringing?
    ensures SendWait(n).callee == n.callee && SendWait(n).caller == n.caller
  {
    hide Frame, Plain, AfterStatus, WaitForAcceptanceMsg, AcceptMsg;
  }

  lemma StepKeeps(cfg: Setup, s: Call, e: Event, t: Call)
    requires Inv(cfg, s) && Step(s, e, t, true)
    ensures Inv(cfg, t)
  {
    hide OnCourse, CallerMove, CalleeMove, SendWait, Answer;
    OneEndMoves(s.net);
    match e
    case CallerSteps =>
      forall w: nat | w == 0 || !t.answered
        ensures OnCourse(cfg, t.net, w)
      {
        MoveKeeps(cfg, Fated(s.net, w), true);
      }
    case CalleeSteps =>
      forall w: nat | w == 0 || !t.answered
        ensures OnCourse(cfg, t.net, w)
      {
        MoveKeeps(cfg, Fated(s.net, w), false);
      }
    case WorkerSends =>
      forall w: nat
        ensures OnCourse(cfg, t.net, w)
      {
        MoveKeeps(cfg, Fated(s.net, w + 1), false);
      }
    case CalleeAnswers =>
      MoveKeeps(cfg, Fated(s.net, 0), false);
    case _ =>
  }

  lemma {:induction false} ReachableInv(cfg: Setup, s: Call, n: nat)
    requires Lawful(cfg.crypto) && Reachable(cfg, true, s, n)
    ensures Inv(cfg, s)
    decreases n
  {
    hide Inv, Step, Lawful, Initial;
    if n == 0 {
      InitialInv(cfg);
    } else {
      var p: Call, e: Event :| Reachable(cfg, true, p, n - 1) && Step(p, e, s, true);
      ReachableInv(cfg, p, n - 1);
      StepKeeps(cfg, p, e, s);
    }
  }

  // ------------------------------------------------------------- what every run keeps

  // In every state of every run, nothing has been read that was not one whole message
  // of the kind the reader meant to read; and an end gives up only because the call is
  // rejected, or because the callee proved an identity that was not expected.
  lemma NoWrongMessage(cfg: Setup, s: Call, n: nat)
    requires Lawful(cfg.crypto) && Reachable(cfg, true, s, n)
    ensures s.net.framed && !s.net.callee.Failed?
    ensures s.net.caller.Failed? ==>
              if cfg.accept then WrongPeer(cfg) && s.net.caller.reason == UnexpectedKey else s.net.caller.reason == CallRejected
  {
    hide Reachable, Reaches, Lawful, CallerSession, CalleeSession, WrongPeer;
    ReachableInv(cfg, s, n);
    assert OnCourse(cfg, s.net, 0);
    var end: Net :| Outcome(cfg, end) && Leads(Fated(s.net, 0), Fated(end, 0));
    var k: nat :| Reaches(Fated(s.net, 0), Fated(end, 0), k);
    ReachesKeeps(Fated(s.net, 0), Fated(end, 0), k);
  }

  // What the caller has agreed on with the callee: the digest of the shared secret, its
  // first 16 octets to send with and the other 16 to receive with.
  ghost predicate CallerHolds(cfg: Setup, s: Session) {
    var c, me, you := cfg.crypto, cfg.caller, cfg.callee;
    && |s.txKey| == 16 == |s.rxKey| && s.txKey + s.rxKey == c.sha256(c.agree(me.party.dh, c.dhPublic(you.dh)))
    && s.senderSsrc == me.party.ssrc && s.senderSalt == me.party.salt
    && s.receiverSsrc == you.ssrc && s.receiverSalt == you.salt
    && if me.requiresIntroduction then Knows(s, c.rsaPublic(you.rsa)) else s.peer == me.expected
  }

  // The callee holds the two keys the other way round.
  ghost predicate CalleeHolds(cfg: Setup, s: Session) {
    var c, me, you := cfg.crypto, cfg.caller, cfg.callee;
    && |s.txKey| == 16 == |s.rxKey| && s.rxKey + s.txKey == c.sha256(c.agree(you.dh, c.dhPublic(me.party.dh)))
    && s.senderSsrc == you.ssrc && s.senderSalt == you.salt
    && s.receiverSsrc == me.party.ssrc && s.receiverSalt == me.party.salt
    && if me.shouldIntroduce then Knows(s, c.rsaPublic(me.party.rsa)) else s.peer == None
  }

  lemma SessionsHold(cfg: Setup)
    requires Lawful(cfg.crypto)
    ensures CallerHolds(cfg, CallerSession(cfg)) && CalleeHolds(cfg, CalleeSession(cfg))
  {
    var keys := Secrets(cfg);
    assert FirstKey(keys) + SecondKey(keys) == keys;
  }

  // An end that has finished holds the one session that belongs to the call.
  lemma FinishedRight(cfg: Setup, s: Call, n: nat)
    requires Lawful(cfg.crypto) && Reachable(cfg, true, s, n)
    ensures s.net.caller.Done? ==> cfg.accept && !WrongPeer(cfg) && s.net.caller.session == CallerSession(cfg)
    ensures s.net.callee.Done? ==> cfg.accept && !WrongPeer(cfg) && s.net.callee.session == CalleeSession(cfg)
    ensures s.net.caller.Done? ==> CallerHolds(cfg, s.net.caller.session)
    ensures s.net.callee.Done? ==> CalleeHolds(cfg, s.net.callee.session)
  {
    SessionsHold(cfg);
    hide CallerHolds, CalleeHolds, Reachable, Reaches, Lawful, CallerSession, CalleeSession, WrongPeer;
    ReachableInv(cfg, s, n);
    assert OnCourse(cfg, s.net, 0);
    var end: Net :| Outcome(cfg, end) && Leads(Fated(s.net, 0), Fated(end, 0));
    var k: nat :| Reaches(Fated(s.net, 0), Fated(end, 0), k);
    ReachesKeeps(Fated(s.net, 0), Fated(end, 0), k);
  }

  // What one end sends with is what the other one receives with.
  predicate Mirrored(a: Session, b: Session) {
    && a.txKey == b.rxKey && a.senderSsrc == b.receiverSsrc && a.senderSalt == b.receiverSalt
    && a.rxKey == b.txKey && a.receiverSsrc == b.senderSsrc && a.receiverSalt == b.senderSalt
  }

  predicate Knows(s: Session, key: seq<Octet>) { s.peer == Some(key) }

  lemma Agreement(cfg: Setup, s: Call, n: nat)
    requires Lawful(cfg.crypto) && Reachable(cfg, true, s, n)
    requires s.net.caller.Done? && s.net.callee.Done?
    ensures Mirrored(s.net.caller.session, s.net.callee.session)
    ensures cfg.caller.requiresIntroduction ==> Knows(s.net.caller.session, CalleeKey(cfg))
    ensures cfg.caller.shouldIntroduce ==> Knows(s.net.callee.session, CallerKey(cfg))
    ensures s.net.toCaller == [] && s.net.toCallee == []
  {
    hide Reachable, Lawful, Secrets, Reaches, WrongPeer, FirstKey, SecondKey, CallerHolds, CalleeHolds;
    FinishedRight(cfg, s, n);
    ReachableInv(cfg, s, n);
    assert OnCourse(cfg, s.net, 0);
    var end: Net :| Outcome(cfg, end) && Leads(Fated(s.net, 0), Fated(end, 0));
    var k: nat :| Reaches(Fated(s.net, 0), Fated(end, 0), k);
    DoneIsStuck(Fated(s.net, 0), Fated(end, 0), k);
  }

  lemma DoneIsStuck(s: Fated, t: Fated, k: nat)
    requires Reaches(s, t, k) && s.net.caller.Done? && s.net.callee.Done?
    ensures s == t
  {
  }

  // As long as a call is not at its end, something can happen.
  lemma Progress(cfg: Setup, s: Call, n: nat) returns (e: Event, t: Call)
    requires Lawful(cfg.crypto) && Reachable(cfg, true, s, n)
    ensures Outcome(cfg, s.net) || Step(s, e, t, true)
  {
    hide Reachable, Lawful, Outcome, CallerMove, CalleeMove;
    e, t := CallerSteps, s;
    ReachableInv(cfg, s, n);
    assert OnCourse(cfg, s.net, 0);
    var end: Net :| Outcome(cfg, end) && Leads(Fated(s.net, 0), Fated(end, 0));
    var k: nat :| Reaches(Fated(s.net, 0), Fated(end, 0), k);
    if k > 0 {
      if CallerMove(s.net).Some? {
        t := s.(net := CallerMove(s.net).value);
      } else if !s.net.callee.Ringing? {
        e, t := CalleeSteps, s.(net := CalleeMove(s.net).value);
      } else if s.worker == Off {
        e, t := WorkerStarts, s.(worker := Ready);
      } else if s.running {
        e, t := WorkerStopped, s.(running := false);
      } else if s.worker == Checked {
        e, t := WorkerSends, s.(worker := Ready, net := SendWait(s.net));
      } else {
        e, t := CalleeAnswers, s.(net := Answer(s.net), answered := true);
      }
    }
  }

  // k steps of the two ends, in whatever order, lead to the end of the call.
  ghost predicate Within(cfg: Setup, n: Net, k: nat) {
    exists end: Net :: Outcome(cfg, end) && Reaches(Fated(n, 0), Fated(end, 0), k)
  }

  // The number of steps that the two ends still have to take is bounded, and every one of
  // them brings it down by one: only waiting messages can hold up the end of a call.
  lemma StepsLeft(cfg: Setup, s: Call, n: nat) returns (k: nat)
    requires Lawful(cfg.crypto) && Reachable(cfg, true, s, n)
    ensures Within(cfg, s.net, k)
    ensures forall e: Event, t: Call | e in {CallerSteps, CalleeSteps, CalleeAnswers} && Step(s, e, t, true) ::
              k > 0 && Within(cfg, t.net, k - 1)
  {
    hide Reachable, Lawful, Outcome, Reaches;
    ReachableInv(cfg, s, n);
    assert OnCourse(cfg, s.net, 0);
    var end: Net :| Outcome(cfg, end) && Leads(Fated(s.net, 0), Fated(end, 0));
    k :| Reaches(Fated(s.net, 0), Fated(end, 0), k);
    forall e: Event, t: Call | e in {CallerSteps, CalleeSteps, CalleeAnswers} && Step(s, e, t, true)
      ensures k > 0 && Within(cfg, t.net, k - 1)
    {
      Nearer(cfg, s, e, t, end, k);
    }
  }

  lemma Nearer(cfg: Setup, s: Call, e: Event, t: Call, end: Net, k: nat)
    requires Outcome(cfg, end) && Reaches(Fated(s.net, 0), Fated(end, 0), k)
    requires e in {CallerSteps, CalleeSteps, CalleeAnswers} && Step(s, e, t, true)
    ensures k > 0 && Reaches(Fated(t.net, 0), Fated(end, 0), k - 1)
  {
    hide Reaches, Outcome, CallerMove, CalleeMove, Answer;
    OneEndMoves(s.net);
    OutcomeIsFinal(cfg, end);
    AnyMove(Fated(s.net, 0), Fated(end, 0), k, e == CallerSteps);
  }

  // --------------------------------------------------- the worker and the answer

  lemma OneStep(cfg: Setup, joined: bool, s: Call, n: nat, e: Event, t: Call)
    requires Reachable(cfg, joined, s, n) && Step(s, e, t, joined)
    ensures Reachable(cfg, joined, t, n + 1)
  {
    hide Step;
  }

  // A path on which no waiting message is sent is one of the two ends alone.
  lemma {:induction false} EndsAlone(cfg: Setup, joined: bool, s: Fated, t: Fated, k: nat, n: nat)
    requires Reaches(s, t, k) && s.rings == 1 && t.rings == 1
    requires Reachable(cfg, joined, Call(s.net, Off, true, false), n)
    ensures Reachable(cfg, joined, Call(t.net, Off, true, false), n + k)
    decreases k
  {
    hide CallerMove, CalleeMove, SendWait, Answer, Reachable;
    if k > 0 {
      var caller := Move(s, true).Some? && Reaches(Move(s, true).value, t, k - 1);
      var u := Move(s, caller).value;
      NoMoreRings(u, t, k - 1);
      OneStep(cfg, joined, Call(s.net, Off, true, false), n, if caller then CallerSteps else CalleeSteps, Call(u.net, Off, true, false));
      EndsAlone(cfg, joined, u, t, k - 1, n + 1);
    }
  }

  lemma {:induction false} NoMoreRings(s: Fated, t: Fated, k: nat)
    requires Reaches(s, t, k)
    ensures t.rings <= s.rings
    decreases k
  {
    hide CallerMove, CalleeMove, SendWait, Answer;
    if k > 0 {
      var caller := Move(s, true).Some? && Reaches(Move(s, true).value, t, k - 1);
      NoMoreRings(Move(s, caller).value, t, k - 1);
    }
  }

  // The state in which the callee has taken the call while the worker was about to send
  // one more waiting message, and the worker has sent it.
  function LateWait(cfg: Setup): Call {
    var n := Rings(cfg, 0).net;
    Call(n.(callee := n.callee.next, toCaller := Frame(Status, AcceptMsg()) + Frame(Status, WaitForAcceptanceMsg())),
      Ready, false, true)
  }

  lemma LateWaitReachable(cfg: Setup) returns (n: nat)
    requires Lawful(cfg.crypto) && cfg.accept
    ensures Reachable(cfg, false, LateWait(cfg), n)
  {
    hide Lawful, OutgoingAccepted, IncomingAccepted, Start, Reachable, Reaches, AcceptMsg, WaitForAcceptanceMsg, Frame;
    Opening(cfg, 1);
    var k: nat :| Reaches(Start(cfg, 1), Rings(cfg, 1), k);
    StartReachable(cfg);
    EndsAlone(cfg, false, Start(cfg, 1), Rings(cfg, 1), k, 0);
    var s0 := Call(Rings(cfg, 1).net, Off, true, false);
    var s1 := s0.(worker := Ready);
    var s2 := s1.(worker := Checked);
    var s3 := s2.(running := false);
    var s4 := s3.(net := Answer(s3.net), answered := true);
    OneStep(cfg, false, s0, k, WorkerStarts, s1);
    OneStep(cfg, false, s1, k + 1, WorkerChecks, s2);
    OneStep(cfg, false, s2, k + 2, WorkerStopped, s3);
    OneStep(cfg, false, s3, k + 3, CalleeAnswers, s4);
    assert s4.net.toCaller == Frame(Status, AcceptMsg());
    OneStep(cfg, false, s4, k + 4, WorkerSends, LateWait(cfg));
    n := k + 5;
  }

  lemma StartReachable(cfg: Setup)
    ensures Reachable(cfg, false, Call(Start(cfg, 1).net, Off, true, false), 0) && Start(cfg, 1).rings == 1
  {
  }

  // The first four letters of the waiting message, taken for a size
  const WAIT_AS_SIZE: Int32 := 0x57616974

  lemma WaitAsSize(kind: Kind, f: seq<Octet> -> Script)
    ensures var w := Frame(Status, WaitForAcceptanceMsg());
            Take(ReceiveWithSizeFirst(kind, f), w) == Some((Receive(kind, WAIT_AS_SIZE, f), false))
  {
    var m := WaitForAcceptanceMsg();
    var w := Frame(Status, m);
    assert Plain(w[..4]) == [87, 97, 105, 116];
    assert w[..4][0].kind != Frame(SizeOf(kind), Plain(w[..4]))[0].kind;
  }

  // Then the caller reads the start of that message where a key should begin.
  lemma WrongRead(cfg: Setup) returns (s: Call, n: nat)
    requires Lawful(cfg.crypto) && cfg.accept
    ensures Reachable(cfg, false, s, n) && !s.net.framed
    ensures s.net.caller.Receive? && s.net.caller.kind in {RsaKey, DhKey} && s.net.caller.size == WAIT_AS_SIZE
  {
    hide Lawful, Reachable, ReceiveWithSizeFirst, Frame, Plain, AcceptMsg, WaitForAcceptanceMsg, Rings;
    n := LateWaitReachable(cfg);
    var c, me := cfg.crypto, cfg.caller;
    var w := Frame(Status, WaitForAcceptanceMsg());
    var s1 := AcceptRead(cfg, n);
    var s2;
    if me.requiresIntroduction {
      WaitAsSize(RsaKey, OnPublicKey(c, me.party, OnVerified(me, OutgoingKeyExchange(c, me.party))));
      s2, n := s1, n + 1;
    } else {
      WaitAsSize(DhKey, OnOtherKey(c, me.party, OutgoingSrtp(me.party, me.expected)));
      var t := s1.(net := CallerMove(s1.net).value);
      s2 := t.(net := CallerMove(t.net).value);
      OneStep(cfg, false, s1, n + 1, CallerSteps, t);
      OneStep(cfg, false, t, n + 2, CallerSteps, s2);
      n := n + 3;
    }
    s := s2.(net := CallerMove(s2.net).value);
    OneStep(cfg, false, s2, n, CallerSteps, s);
    n := n + 1;
  }

  lemma AcceptRead(cfg: Setup, n: nat) returns (s: Call)
    requires Reachable(cfg, false, LateWait(cfg), n)
    ensures Reachable(cfg, false, s, n + 1)
    ensures s.net.caller == OutgoingAccepted(cfg.crypto, cfg.caller) && s.net.toCaller == Frame(Status, WaitForAcceptanceMsg())
    ensures s.net.framed
  {
    hide Reachable, Frame, Plain, AcceptMsg, WaitForAcceptanceMsg, OutgoingAccepted, Ring;
    MessagesDiffer();
    var a, w := Frame(Status, AcceptMsg()), Frame(Status, WaitForAcceptanceMsg());
    PlainFrame(Status, AcceptMsg());
    assert (a + w)[..|AcceptMsg()|] == a && (a + w)[|AcceptMsg()|..] == w;
    s := LateWait(cfg).(net := CallerMove(LateWait(cfg).net).value);
    OneStep(cfg, false, LateWait(cfg), n, CallerSteps, s);
  }
}
