/** Which replies fit the 256-byte buffer, over every run of the handler. */
module Limits {
  import opened Bytes
  import opened Numerals
  import opened Codec
  import opened Rpc
  import opened Firmware
  import opened Arbitration
  import Races
  import Session

  // ---- Lengths of what the handler and the FSM say ----

  lemma AcquiredTextLength(procedure: string, user: User)
    ensures |AcquiredText(procedure, user)| == 39 + |procedure| + |user.name| + |Decimal(user.pid)|
  {
    assert |"Can't do " + procedure + ": Port is acquired by "| == 31 + |procedure|;
  }

  lemma RejectedTextLength(r: Routine, got: FWState)
    ensures |RejectedText(Name(r), got, Expected(r))| <= 108
  {
    assert |Name(r)| <= 17;
    assert |StateToStr(got)| <= 10;
    JoinLength(r);
    assert |"Inappropriate state for operation \"" + Name(r) + "\": "| == 38 + |Name(r)|;
    assert |"Got " + StateToStr(got) + ","| == 5 + |StateToStr(got)|;
    assert |" Expected one of: "| == 18;
  }

  lemma JoinLength(r: Routine)
    ensures |Join(Expected(r))| <= 20
  {
    if r == ChipReset {
      var x := Expected(r);
      assert x[1..] == [Running, Fault];
      assert x[1..][1..] == [Fault];
      assert Join([Fault]) == "Fault";
      assert |Join(x[1..])| == 14;
    }
  }

  lemma ScriptTextLength(s: Script)
    ensures |ScriptText(s)| <= 62
  {
    match s
    case Killed =>
    case Exited(code) =>
      DecimalLength(code);
      assert |"Execute: Flashing script exited with non-zero code "| == 51;
  }

  lemma DescriptionLength(f: Fsm)
    ensures |Description(f)| <= 17
  {
  }

  // ---- Stored names ----

  /** Every user name sent in a Connect has at most n bytes. */
  ghost predicate NamesAtMost(h: seq<Event>, n: nat) {
    forall k :: 0 <= k < |h| && h[k].BeginConnect? ==> |h[k].user.name| <= n
  }

  /** Stored or about to be stored names have at most n bytes. */
  ghost predicate Small(s: State, n: nat) {
    && |s.user.name| <= n
    && (forall t :: t in s.threads ==>
          match s.threads[t]
          case ConnectLocked(user, _) => |user.name| <= n
          case ConnectChecked(user, _, _) => |user.name| <= n
          case _ => true)
  }

  lemma StepKeepsSmall(s: State, e: Event, n: nat)
    requires Small(s, n) && Step(s, e).Some? && (e.BeginConnect? ==> |e.user.name| <= n)
    ensures Small(Step(s, e).value, n)
  {
  }

  lemma {:induction false} RunsStaySmall(h: seq<Event>, n: nat)
    requires Run(h).Some? && NamesAtMost(h, n)
    ensures Small(Run(h).value, n)
  {
    if h != [] {
      var g, e := h[..|h| - 1], h[|h| - 1];
      RunsStaySmall(g, n);
      StepKeepsSmall(Run(g).value, e, n);
    }
  }

  // ---- Replies ----

  predicate ReplyFits(r: Reply) {
    match r
    case Error(text) => |text| <= 254
    case Status(m) => |Encode(m)| <= 254
    case _ => true
  }

  lemma StatusFits(f: Fsm, acquired: bool, user: User)
    requires |user.name| <= 197
    ensures |Encode(ChipStatus(OneByteText(Description(f)), acquired, user))| <= 254
  {
    DescriptionLength(f);
    var m := ChipStatus(OneByteText(Description(f)), acquired, user);
    assert |Encode(m)| == |m.description| + |m.user.name| + 7;
  }

  lemma SmallRepliesFit(s: State, e: Event)
    requires Small(s, 197) && Output(s, e).Some?
    ensures ReplyFits(Output(s, e).value)
  {
    DecimalLength(s.user.pid);
    match e
    case BeginReset(t) => AcquiredTextLength("Reset", s.user);
    case BeginFlash(t) => AcquiredTextLength("Flash", s.user);
    case BeginConnect(t, _) => AcquiredTextLength("Connect", s.user);
    case ReportRejected(t) => RejectedTextLength(At(s, t).value.routine, s.fsm.state);
    case Complete(t) =>
      if At(s, t).value.action.Ran? {
        ScriptTextLength(At(s, t).value.action.script);
      }
    case ReplyStatus(t) =>
      StatusFits(At(s, t).value.seen, s.acquired, s.user);
    case _ =>
  }

  /** A description always fits the one-byte size field, so a status reply carries all of it. */
  lemma DescriptionIsWhole(f: Fsm)
    ensures OneByteText(Description(f)) == Ascii(Description(f))
  {
    DescriptionLength(f);
    var d := Description(f);
    assert Ascii(d)[..|d|] == Ascii(d);
  }

  /**
   If every Connect sends a name of at most 197 bytes, then in every reachable state every status reply
   and every error text of the handler or the FSM fits the buffer, and the client gets it unchanged.
   */
  lemma RepliesArriveIntact(h: seq<Event>, e: Event, procId: Byte, rest: seq<Byte>)
    requires Run(h).Some? && NamesAtMost(h, 197) && Output(Run(h).value, e).Some?
    ensures match Output(Run(h).value, e).value
      case Error(text) =>
        && |text| <= 254
        && Parse(FrameBytes(Frame(ERR_CODE, text)) + rest) == Some((Frame(ERR_CODE, text), rest))
        && HeaderOf(Frame(ERR_CODE, text)) == Header(false, text, Frame(ERR_CODE, text))
      case Status(m) =>
        && |Encode(m)| <= 254
        && Parse(FrameBytes(Frame(procId, Encode(m))) + rest) == Some((Frame(procId, Encode(m)), rest))
        && Decode(KindOf(m), Encode(m) + rest) == Some(m)
      case _ => true
  {
    RunsStaySmall(h, 197);
    SmallRepliesFit(Run(h).value, e);
    match Output(Run(h).value, e).value
    case Error(text) => ParseFrame(Frame(ERR_CODE, text), rest);
    case Status(m) =>
      ParseFrame(Frame(procId, Encode(m)), rest);
      RoundTrip(m, rest);
    case _ =>
  }

  /** 197 is exact: it is the longest name for which the refusal of a Connect fits whatever the PID. */
  lemma NameBoundIsExact(name: Text)
    ensures (forall pid: Pid :: |AcquiredText("Connect", User(name, pid))| <= 254) <==> |name| <= 197
  {
    forall pid: Pid
      ensures |AcquiredText("Connect", User(name, pid))| == 46 + |name| + |Decimal(pid)| <= 57 + |name|
    {
      AcquiredTextLength("Connect", User(name, pid));
      DecimalLength(pid);
    }
    var least: Pid := -0x8000_0000;
    DecimalLength(least);
    assert |AcquiredText("Connect", User(name, least))| == 57 + |name|;
  }

  /** What a refused Connect costs, for a holder with a given name and PID. */
  function RefusalLength(holder: User): nat {
    46 + |holder.name| + |Decimal(holder.pid)|
  }

  /**
   The exact fate of a Connect that is refused because the port is held: with n bytes of refusal it is
   delivered iff n <= 254, overruns the buffer iff n == 255, and ends the daemon iff n >= 256.
   */
  lemma RefusedConnectFate(s: State, t: Tid, user: User)
    requires s.acquired
    ensures Output(s, BeginConnect(t, user)) == Some(Error(AcquiredText("Connect", s.user)))
    ensures var n, fate := RefusalLength(s.user), Session.FateOf(Session.Threw(AcquiredText("Connect", s.user)));
      && (fate == Session.Delivered <==> n <= 254)
      && (fate == Session.Overruns <==> n == 255)
      && (fate == Session.Ends <==> n >= 256)
  {
    AcquiredTextLength("Connect", s.user);
  }

  /**
   Every fate is met: holders whose own requests fit the wire can make the refusal of another Connect
   arrive, overrun the buffer or end the daemon.
   */
  lemma EveryFateIsMet(fate: Session.Fate)
    ensures exists h, s, t, user ::
      && Run(h) == Some(s) && |Encode(UserData(s.user))| <= 254 && s.acquired
      && Output(s, BeginConnect(t, user)) == Some(Error(AcquiredText("Connect", s.user)))
      && Session.FateOf(Session.Threw(AcquiredText("Connect", s.user))) == fate
  {
    var n := match fate case Delivered => 197 case Overruns => 198 case Ends => 199;
    var user := User(seq(n, _ => 65), -0x8000_0000);
    assert |Encode(UserData(user))| == n + 5;
    var h, s := Races.ConnectedAs(user);
    DecimalLength(user.pid);
    RefusedConnectFate(s, 2, user);
  }
}
