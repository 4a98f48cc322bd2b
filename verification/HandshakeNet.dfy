// The two ends joined by two FIFO byte streams. Every end is deterministic, so that all
// interleavings are as good as any one of them: one canonical exchange decides for all.
module HandshakeNet {
  import opened Octets
  import opened ProtocolUtils
  import opened Handshake

  // framed: every read so far took one whole message of the kind it was meant to take.
  datatype Net = Net(caller: Script, callee: Script, toCallee: seq<Tagged>, toCaller: seq<Tagged>, framed: bool)

  // An end that reads: the script that follows and whether it reads what it should.
  // None as long as the stream does not hold enough.
  function Take(s: Script, stream: seq<Tagged>): (r: Option<(Script, bool)>)
    ensures r.Some? ==> Wanted(s) <= |stream|
  {
    if |stream| < Wanted(s) then None else
    match s
    case Receive(kind, size, then_) =>
      Some((then_(Plain(stream[..size])), stream[..size] == Frame(kind, Plain(stream[..size]))))
    case WaitForAccept(next) =>
      var m := Plain(stream[..|AcceptMsg()|]);
      Some((AfterStatus(s, next, m), stream[..|AcceptMsg()|] == Frame(Status, m)))
    case _ => None
  }

  function Wanted(s: Script): nat {
    match s
    case Receive(kind, size, then_) => size
    case WaitForAccept(next) => |AcceptMsg()|
    case _ => 0
  }

  // One turn of the loop in waitForAccept
  function AfterStatus(s: Script, next: Script, m: seq<Octet>): Script {
    if m == WaitForAcceptanceMsg() then s
    else if m == AcceptMsg() then next
    else if m == RejectMsg() then Failed(CallRejected)
    else Failed(WrongMessage)
  }

  function CallerMove(n: Net): Option<Net> {
    if n.caller.Send? then
      Some(n.(caller := n.caller.next, toCallee := n.toCallee + Frame(n.caller.kind, n.caller.msg)))
    else match Take(n.caller, n.toCaller)
      case None => None
      case Some((s, right)) => Some(n.(caller := s, toCaller := n.toCaller[Wanted(n.caller)..], framed := n.framed && right))
  }

  function CalleeMove(n: Net): Option<Net> {
    if n.callee.Send? then
      Some(n.(callee := n.callee.next, toCaller := n.toCaller + Frame(n.callee.kind, n.callee.msg)))
    else match Take(n.callee, n.toCallee)
      case None => None
      case Some((s, right)) => Some(n.(callee := s, toCallee := n.toCallee[Wanted(n.callee)..], framed := n.framed && right))
  }

  function SendWait(n: Net): Net { n.(toCaller := n.toCaller + Frame(Status, WaitForAcceptanceMsg())) }

  function Answer(n: Net): Net
    requires n.callee.Ringing?
  {
    n.(callee := n.callee.next, toCaller := n.toCaller + Frame(Status, n.callee.answer))
  }

  // While it rings, the callee's end is not determined. With the number of waiting
  // messages that will still be sent before the answer, it is.
  datatype Fated = Fated(net: Net, rings: nat)

  function Move(s: Fated, caller: bool): Option<Fated> {
    if caller then
      match CallerMove(s.net) case None => None case Some(n) => Some(Fated(n, s.rings))
    else if s.net.callee.Ringing? then
      if s.rings > 0 then Some(Fated(SendWait(s.net), s.rings - 1)) else Some(Fated(Answer(s.net), 0))
    else
      match CalleeMove(s.net) case None => None case Some(n) => Some(Fated(n, s.rings))
  }

  ghost predicate Final(s: Fated) { Move(s, true) == None && Move(s, false) == None }

  ghost predicate Reaches(s: Fated, t: Fated, n: nat)
    decreases n
  {
    if n == 0 then s == t else
      || (Move(s, true).Some? && Reaches(Move(s, true).value, t, n - 1))
      || (Move(s, false).Some? && Reaches(Move(s, false).value, t, n - 1))
  }

  // More on the stream does not change what is read next.
  lemma TakeMore(s: Script, stream: seq<Tagged>, more: seq<Tagged>)
    requires Take(s, stream).Some?
    ensures Take(s, stream + more) == Take(s, stream)
    ensures (stream + more)[Wanted(s)..] == stream[Wanted(s)..] + more
  {
    assert (stream + more)[..Wanted(s)] == stream[..Wanted(s)];
  }

  // A move of one end neither hinders nor changes a move of the other.
  lemma Diamond(s: Fated)
    requires Move(s, true).Some? && Move(s, false).Some?
    ensures var a, b := Move(s, true).value, Move(s, false).value;
            Move(a, false).Some? && Move(a, false) == Move(b, true)
  {
    hide Take, Wanted, Frame, WaitForAcceptanceMsg;
    var n := s.net;
    if n.caller.Send? {
      if !n.callee.Send? && !n.callee.Ringing? {
        TakeMore(n.callee, n.toCallee, Frame(n.caller.kind, n.caller.msg));
      }
    } else {
      if n.callee.Send? {
        TakeMore(n.caller, n.toCaller, Frame(n.callee.kind, n.callee.msg));
      } else if n.callee.Ringing? {
        TakeMore(n.caller, n.toCaller, Frame(Status, if s.rings > 0 then WaitForAcceptanceMsg() else n.callee.answer));
      }
    }
  }

  // Whoever moves first, the end that can be reached stays in reach, and comes nearer.
  lemma {:induction false} AnyMove(s: Fated, t: Fated, n: nat, caller: bool)
    requires Reaches(s, t, n) && Final(t) && Move(s, caller).Some?
    ensures n > 0 && Reaches(Move(s, caller).value, t, n - 1)
    decreases n
  {
    hide Move;
    if !(Move(s, caller).Some? && Reaches(Move(s, caller).value, t, n - 1)) {
      var u := Move(s, !caller).value;
      Diamond(s);
      AnyMove(u, t, n - 1, caller);
      assert Move(Move(s, caller).value, !caller) == Move(u, caller);
    }
  }

  lemma {:induction false} ReachesTrans(s: Fated, t: Fated, u: Fated, m: nat, n: nat)
    requires Reaches(s, t, m) && Reaches(t, u, n)
    ensures Reaches(s, u, m + n)
    decreases m
  {
    hide Move;
    if m > 0 {
      if Move(s, true).Some? && Reaches(Move(s, true).value, t, m - 1) {
        ReachesTrans(Move(s, true).value, t, u, m - 1, n);
      } else {
        ReachesTrans(Move(s, false).value, t, u, m - 1, n);
      }
    }
  }

  // What was read wrongly once stays on record, and who has finished stays so.
  lemma {:induction false} ReachesKeeps(s: Fated, t: Fated, n: nat)
    requires Reaches(s, t, n)
    ensures t.net.framed ==> s.net.framed
    ensures s.net.caller.Failed? || s.net.caller.Done? || s.net.caller.Ended? ==> t.net.caller == s.net.caller
    ensures s.net.callee.Failed? || s.net.callee.Done? || s.net.callee.Ended? ==> t.net.callee == s.net.callee
    decreases n
  {
    hide Frame, Plain, WaitForAcceptanceMsg, AcceptMsg, RejectMsg, AfterStatus;
    if n > 0 {
      if Move(s, true).Some? && Reaches(Move(s, true).value, t, n - 1) {
        ReachesKeeps(Move(s, true).value, t, n - 1);
      } else {
        ReachesKeeps(Move(s, false).value, t, n - 1);
      }
    }
  }

  // ------------------------------------------------------- the canonical exchange

  function At(a: Script, b: Script, rings: nat): Fated { Fated(Net(a, b, [], [], true), rings) }

  lemma ToCallee(kind: Kind, m: Bytes, a: Script, f: seq<Octet> -> Script, w: nat)
    ensures Reaches(At(Send(kind, m, a), Receive(kind, |m|, f), w), At(a, f(m), w), 2)
  {
    hide Frame, Plain;
    var s := At(Send(kind, m, a), Receive(kind, |m|, f), w);
    var t := Move(s, true).value;
    assert t.net.toCallee == Frame(kind, m) == Frame(kind, m)[..|m|] && Frame(kind, m)[|m|..] == [];
    PlainFrame(kind, m);
    assert Move(t, false) == Some(At(a, f(m), w));
    assert Reaches(At(a, f(m), w), At(a, f(m), w), 0);
    assert Reaches(t, At(a, f(m), w), 1);
  }

  lemma ToCaller(kind: Kind, m: Bytes, b: Script, f: seq<Octet> -> Script, w: nat)
    ensures Reaches(At(Receive(kind, |m|, f), Send(kind, m, b), w), At(f(m), b, w), 2)
  {
    hide Frame, Plain;
    var s := At(Receive(kind, |m|, f), Send(kind, m, b), w);
    var t := Move(s, false).value;
    assert t.net.toCaller == Frame(kind, m) == Frame(kind, m)[..|m|] && Frame(kind, m)[|m|..] == [];
    PlainFrame(kind, m);
    assert Move(t, true) == Some(At(f(m), b, w));
    assert Reaches(At(f(m), b, w), At(f(m), b, w), 0);
    assert Reaches(t, At(f(m), b, w), 1);
  }
}
