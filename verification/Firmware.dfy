/**
 The firmware state machine and the port arbiter: their critical sections as functions on values,
 and the two classes, whose methods are proved against these functions for calls made one at a time.
 `Arbitration` interleaves the same critical sections.
 */
module Firmware {
  import opened Bytes
  import opened Codec
  import opened Numerals

  datatype FWState = Boot | Running | Transition | Fault

  datatype Routine = ChipReset | FWFlashing | FWStarting

  const NOTHING := "Nothing"

  function Name(r: Routine): string {
    match r
    case ChipReset => "Chip reset"
    case FWFlashing => "Firmware flashing"
    case FWStarting => "Firmware starting"
  }

  function Expected(r: Routine): seq<FWState> {
    match r
    case ChipReset => [Boot, Running, Fault]
    case FWFlashing => [Boot]
    case FWStarting => [Boot]
  }

  function Final(r: Routine): FWState {
    match r
    case ChipReset => Boot
    case FWFlashing => Boot
    case FWStarting => Running
  }

  function StateToStr(s: FWState): string {
    match s
    case Boot => "Boot"
    case Running => "Running"
    case Transition => "Transition"
    case Fault => "Fault"
  }

  // ---- Critical sections of the FSM ----

  /** `State` and `RoutineName`; the name is only ever that of a routine or "Nothing". */
  datatype Fsm = Fsm(state: FWState, routine: Option<Routine>)

  function RoutineName(r: Option<Routine>): string {
    match r
    case None => NOTHING
    case Some(x) => Name(x)
  }

  predicate Admits(f: Fsm, r: Routine) {
    f.state in Expected(r)
  }

  /** The locked part of `DoTransition`. */
  function Enter(f: Fsm, r: Routine): Fsm {
    if Admits(f, r) then Fsm(Transition, Some(r)) else f
  }

  /** `SetState`. */
  function Settle(s: FWState): Fsm {
    Fsm(s, None)
  }

  function Description(f: Fsm): string {
    if f.state == Transition then RoutineName(f.routine) else StateToStr(f.state)
  }

  /** A routine is named exactly while it runs. `Transitions.TransitionIsExclusive` shows it of every reachable FSM. */
  predicate WellFormed(f: Fsm) {
    f.state == Transition <==> f.routine.Some?
  }

  lemma NamesDiffer(r: Routine)
    ensures Name(r) != NOTHING && Name(r) != "Transition"
  {
    assert Name(r)[0] == 'C' || Name(r)[0] == 'F';
    assert NOTHING[0] == 'N' && "Transition"[0] == 'T';
  }

  lemma NamesOfStates(s: FWState)
    requires s != Transition
    ensures StateToStr(s) != NOTHING && StateToStr(s) != "Transition"
  {
    assert StateToStr(s)[0] != 'N' && StateToStr(s)[0] != 'T';
    assert NOTHING[0] == 'N' && "Transition"[0] == 'T';
  }

  lemma DescriptionIsProper(f: Fsm)
    requires WellFormed(f)
    ensures Description(f) != "Transition" && Description(f) != NOTHING
  {
    if f.state == Transition {
      NamesDiffer(f.routine.value);
    } else {
      NamesOfStates(f.state);
    }
  }

  lemma RoutineOrState(r: Routine, s: FWState)
    requires s != Transition
    ensures Name(r) != StateToStr(s)
  {
    assert |Name(r)| >= 10 && |StateToStr(s)| <= 7;
  }

  lemma NamesTell(r: Routine, q: Routine)
    requires Name(r) == Name(q)
    ensures r == q
  {
    assert Name(FWFlashing)[9] == 'f' && Name(FWStarting)[9] == 's' && Name(ChipReset)[0] == 'C';
  }

  lemma StatesTell(s: FWState, t: FWState)
    requires StateToStr(s)[0] == StateToStr(t)[0]
    ensures s == t
  {
  }

  /** Whoever reads the description knows the state, and in a transition also the routine. */
  lemma DescriptionTellsFsm(f: Fsm, g: Fsm)
    requires WellFormed(f) && WellFormed(g)
    ensures Description(f) == Description(g) <==> f == g
  {
    if Description(f) == Description(g) {
      if f.state == Transition && g.state == Transition {
        NamesTell(f.routine.value, g.routine.value);
      } else if f.state == Transition {
        RoutineOrState(f.routine.value, g.state);
      } else if g.state == Transition {
        RoutineOrState(g.routine.value, f.state);
      } else {
        StatesTell(f.state, g.state);
      }
    }
  }

  // ---- The script run by a routine ----

  datatype Script = Exited(code: Byte) | Killed

  /** The exception text `Execute` throws for a script that did not exit with 0. */
  function ScriptText(s: Script): seq<Byte> {
    match s
    case Killed => Ascii("Execute: Flashing script terminated abnormally")
    case Exited(code) => Ascii("Execute: Flashing script exited with non-zero code " + Decimal(code))
  }

  // ---- Error texts ----

  function Join(states: seq<FWState>): string {
    if states == [] then "" else
    if |states| == 1 then StateToStr(states[0]) else StateToStr(states[0]) + ", " + Join(states[1..])
  }

  function RejectedHead(operation: string, got: FWState): string {
    "Inappropriate state for operation \"" + operation + "\": " + ("Got " + StateToStr(got) + ",") +
    " Expected one of: "
  }

  function RejectedText(operation: string, got: FWState, expected: seq<FWState>): string {
    RejectedHead(operation, got) + Join(expected)
  }

  function AtPid(pid: Pid): (r: seq<Byte>)
    ensures |r| == 8 + |Decimal(pid)|
  {
    Ascii(" at PID " + Decimal(pid))
  }

  function AcquiredText(procedure: string, user: User): seq<Byte> {
    Ascii("Can't do " + procedure + ": Port is acquired by ") + user.name + AtPid(user.pid)
  }

  /** From the end of the text, the PID begins after the last space. */
  lemma LastSpace(pid: Pid, k: nat)
    requires 7 <= k < |AtPid(pid)|
    ensures k == 7 ==> AtPid(pid)[k] == 32
    ensures k > 7 ==> AtPid(pid)[k] == Decimal(pid)[k - 8] as int && AtPid(pid)[k] != 32
  {
    var lead := " at PID ";
    assert |lead| == 8 && lead[7] == ' ';
    assert (lead + Decimal(pid))[k] == if k == 7 then ' ' else Decimal(pid)[k - 8];
    if k > 7 {
      DecimalCharacter(pid, k - 8);
    }
  }

  lemma SameTailLength(a: seq<Byte>, p: Pid, b: seq<Byte>, q: Pid)
    requires a + AtPid(p) == b + AtPid(q)
    ensures |AtPid(p)| <= |AtPid(q)|
  {
    if |AtPid(p)| > |AtPid(q)| {
      var k := |b| + 7;
      assert (b + AtPid(q))[k] == AtPid(q)[7];
      assert (a + AtPid(p))[k] == AtPid(p)[k - |a|];
      LastSpace(q, 7);
      LastSpace(p, k - |a|);
      assert false;
    }
  }

  lemma TailTellsPid(a: seq<Byte>, p: Pid, b: seq<Byte>, q: Pid)
    requires a + AtPid(p) == b + AtPid(q)
    ensures a == b && p == q
  {
    SameTailLength(a, p, b, q);
    SameTailLength(b, q, a, p);
    assert a == (a + AtPid(p))[..|a|] && b == (b + AtPid(q))[..|b|];
    assert AtPid(p) == (a + AtPid(p))[|a|..] && AtPid(q) == (b + AtPid(q))[|b|..];
    forall k | 0 <= k < |Decimal(p)|
      ensures Decimal(p)[k] == Decimal(q)[k]
    {
      LastSpace(p, k + 8);
      LastSpace(q, k + 8);
    }
    assert Decimal(p) == Decimal(q);
    DecimalTells(p, q);
  }

  /** A refusal tells the holder's name and PID apart, whatever bytes the name is made of. */
  lemma RefusalTellsHolder(procedure: string, u: User, v: User)
    ensures AcquiredText(procedure, u) == AcquiredText(procedure, v) <==> u == v
  {
    var head := Ascii("Can't do " + procedure + ": Port is acquired by ");
    if AcquiredText(procedure, u) == AcquiredText(procedure, v) {
      TailTellsPid(head + u.name, u.pid, head + v.name, v.pid);
      assert u.name == (head + u.name)[|head|..] && v.name == (head + v.name)[|head|..];
    }
  }

  const NOT_STARTED := "Can't connect: firmware is not started"
  const NOT_ACQUIRED := "Port is not acquired"

  /** A C++ string handed to a `String` message, whose size field is one byte. */
  function OneByteText(d: string): Text {
    Ascii(d)[..|d| % 256]
  }

  lemma ShortTextIsWhole(d: string)
    requires |d| <= 255
    ensures OneByteText(d) == Ascii(d)
  {
    assert Ascii(d)[..|d|] == Ascii(d);
  }

  /** What a call returns to the RPC layer. `OsError` stands for texts made by `strerror`. */
  datatype Reply = Done | PortPath | Status(message: Message) | Error(text: seq<Byte>) | OsError

  /** How the action of a routine ended, seen from `DoTransition`. */
  datatype Action = Ran(script: Script) | NeverRan

  predicate Succeeded(a: Action) {
    a == Ran(Exited(0))
  }

  function EndState(r: Routine, a: Action): FWState {
    if Succeeded(a) then Final(r) else Fault
  }

  function ActionReply(a: Action): Reply {
    match a
    case NeverRan => OsError
    case Ran(s) => if s == Exited(0) then Done else Error(ScriptText(s))
  }

  function Rejection(r: Routine, got: FWState): Reply {
    Error(Ascii(RejectedText(Name(r), got, Expected(r))))
  }

  lemma JoinStep(expected: seq<FWState>, i: nat)
    requires i < |expected|
    ensures i + 1 < |expected| ==>
      Join(expected[i..]) == (StateToStr(expected[i]) + ", ") + Join(expected[i + 1..])
    ensures i + 1 == |expected| ==> Join(expected[i..]) == StateToStr(expected[i])
  {
    assert expected[i..][1..] == expected[i + 1..];
  }

  /** The loop over the expected states, after the head of the text. */
  method AppendStates(head: string, expected: seq<FWState>) returns (msg: string)
    requires expected != []
    ensures msg == head + Join(expected)
  {
    msg := head;
    assert expected[0..] == expected;
    for i := 0 to |expected| - 1
      invariant msg + Join(expected[i..]) == head + Join(expected)
    {
      JoinStep(expected, i);
      msg := msg + (StateToStr(expected[i]) + ", ");
    }
    JoinStep(expected, |expected| - 1);
    msg := msg + StateToStr(expected[|expected| - 1]);
  }

  // ---- What each call promises, as one relation ----

  /** What `HandlerImpl` holds between critical sections. */
  datatype Arbiter = Arbiter(fsm: Fsm, acquired: bool, user: User)

  /** A call, with how its script ran or whether the serial port could be drained. */
  datatype Request =
    | AskReset(action: Action) | AskFlash(action: Action) | AskStart(action: Action)
    | AskConnect(user: User, clearOk: bool) | AskDisconnect | AskStatus

  /** A routine that is let through to the FSM: the client is told Done exactly when its script exited with 0. */
  ghost predicate RoutineServed(v: Arbiter, r: Routine, a: Action, w: Arbiter, reply: Reply) {
    && w.acquired == v.acquired && w.user == v.user
    && if v.fsm.state in Expected(r) then
         && (reply == Done <==> a == Ran(Exited(0)))
         && (reply == Done || reply.Error? || reply == OsError)
         && w.fsm == Fsm(if reply == Done then Final(r) else Fault, None)
         && reply == ActionReply(a)
       else w.fsm == v.fsm && reply == Rejection(r, v.fsm.state)
  }

  /** From `v`, the call `q` made alone leads to `w` and answers `reply`. */
  ghost predicate Served(v: Arbiter, q: Request, w: Arbiter, reply: Reply) {
    match q
    case AskReset(a) =>
      if v.acquired then w == v && reply == Error(AcquiredText("Reset", v.user))
      else RoutineServed(v, ChipReset, a, w, reply)
    case AskFlash(a) =>
      if v.acquired then w == v && reply == Error(AcquiredText("Flash", v.user))
      else RoutineServed(v, FWFlashing, a, w, reply)
    case AskStart(a) => RoutineServed(v, FWStarting, a, w, reply)
    case AskConnect(user, clearOk) =>
      if v.acquired then w == v && reply == Error(AcquiredText("Connect", v.user))
      else if v.fsm.state != Running then w == v && reply == Error(Ascii("Can't connect: firmware is not started"))
      else if !clearOk then w == v && reply == OsError
      else w == v.(acquired := true, user := user) && reply == PortPath
    case AskDisconnect =>
      if v.acquired then w == v.(acquired := false) && reply == Done
      else w == v && reply == Error(Ascii("Port is not acquired"))
    case AskStatus =>
      w == v && reply == Status(ChipStatus(OneByteText(Description(v.fsm)), v.acquired, v.user))
  }

  method ComposeMsg(operation: string, got: FWState, expected: seq<FWState>) returns (msg: string)
    requires expected != []
    ensures msg == RejectedText(operation, got, expected)
  {
    msg := "Inappropriate state for operation \"" + operation + "\": ";
    msg := msg + ("Got " + StateToStr(got) + ",");
    msg := msg + " Expected one of: ";
    msg := AppendStates(msg, expected);
  }

  class FirmwareFSM {
    var state: FWState
    var routine: Option<Routine>

    ghost function Value(): Fsm
      reads this
    {
      Fsm(state, routine)
    }

    constructor ()
      ensures Value() == Settle(Boot)
    {
      state, routine := Boot, None;
    }

    method CheckState(expected: seq<FWState>) returns (passed: bool)
      ensures passed <==> state in expected
    {
      passed := false;
      for i := 0 to |expected|
        invariant passed <==> state in expected[..i]
      {
        passed := if passed then true else state == expected[i];
      }
    }

    method SetState(s: FWState)
      modifies this
      ensures Value() == Settle(s)
    {
      state := s;
      routine := None;
    }

    method GetStateDescription() returns (d: string)
      ensures d == Description(Value())
      ensures WellFormed(Value()) ==> d != "Transition" && d != NOTHING
    {
      if state == Transition {
        d := RoutineName(routine);
      } else {
        d := StateToStr(state);
      }
      if WellFormed(Fsm(state, routine)) {
        DescriptionIsProper(Fsm(state, routine));
      }
    }

    /** A transition that no other call overlaps: rejected unchanged, or run to its final state or Fault. */
    method DoTransition(r: Routine, action: Action) returns (reply: Reply)
      modifies this
      ensures old(Admits(Value(), r)) ==> Value() == Settle(EndState(r, action)) && reply == ActionReply(action)
      ensures old(Admits(Value(), r)) ==>
        && (reply == Done <==> action == Ran(Exited(0))) && (reply == Done <==> state == Final(r))
        && (reply != Done ==> state == Fault && (reply.Error? || reply == OsError))
      ensures !old(Admits(Value(), r)) ==>
        Value() == old(Value()) && reply == Rejection(r, state)
    {
      var ok := CheckState(Expected(r));
      if !ok {
        var msg := ComposeMsg(Name(r), state, Expected(r));
        return Error(Ascii(msg));
      }
      state := Transition;
      routine := Some(r);
      var newState := Fault;
      if Succeeded(action) {
        newState := Final(r);
      }
      SetState(newState);
      reply := ActionReply(action);
    }
  }

  /** `HandlerImpl`, called by one thread at a time. */
  class HandlerImpl {
    const firmware: FirmwareFSM
    var acquired: bool
    var user: User

    ghost function Value(): Arbiter
      reads this, firmware
    {
      Arbiter(firmware.Value(), acquired, user)
    }

    /** Between calls no transition runs, and a granted port means running firmware. */
    ghost predicate Valid()
      reads this, firmware
    {
      && firmware.state != Transition && firmware.routine.None?
      && (acquired ==> firmware.state == Running)
    }

    constructor ()
      ensures Valid() && fresh(firmware) && Value() == Arbiter(Fsm(Boot, None), false, User([], -1))
    {
      firmware := new FirmwareFSM();
      acquired, user := false, User([], -1);
    }

    method EnsureNotAcquired(procedure: string) returns (failure: Option<Reply>)
      ensures acquired ==> failure == Some(Error(AcquiredText(procedure, user)))
      ensures !acquired ==> failure == None
    {
      failure := if acquired then Some(Error(AcquiredText(procedure, user))) else None;
    }

    method Reset(action: Action) returns (reply: Reply)
      requires Valid()
      modifies firmware
      ensures Valid() && Served(old(Value()), AskReset(action), Value(), reply)
      ensures !acquired ==>
        (reply == Done <==> action == Ran(Exited(0))) && firmware.state == if reply == Done then Boot else Fault
      ensures acquired ==> firmware.Value() == old(firmware.Value()) && reply == Error(AcquiredText("Reset", user))
      ensures !acquired ==> firmware.Value() == Settle(EndState(ChipReset, action)) && reply == ActionReply(action)
    {
      var failure := EnsureNotAcquired("Reset");
      if failure.Some? {
        return failure.value;
      }
      reply := firmware.DoTransition(ChipReset, action);
    }

    method Flash(action: Action) returns (reply: Reply)
      requires Valid()
      modifies firmware
      ensures Valid() && Served(old(Value()), AskFlash(action), Value(), reply)
      ensures !acquired && old(firmware.state) == Boot ==>
        (reply == Done <==> action == Ran(Exited(0))) && firmware.state == if reply == Done then Boot else Fault
      ensures acquired ==> firmware.Value() == old(firmware.Value()) && reply == Error(AcquiredText("Flash", user))
      ensures !acquired && old(firmware.state) != Boot ==>
        firmware.Value() == old(firmware.Value()) && reply == Rejection(FWFlashing, firmware.state)
      ensures !acquired && old(firmware.state) == Boot ==>
        firmware.Value() == Settle(EndState(FWFlashing, action)) && reply == ActionReply(action)
    {
      var failure := EnsureNotAcquired("Flash");
      if failure.Some? {
        return failure.value;
      }
      reply := firmware.DoTransition(FWFlashing, action);
    }

    method Start(action: Action) returns (reply: Reply)
      requires Valid()
      modifies firmware
      ensures Valid() && Served(old(Value()), AskStart(action), Value(), reply)
      ensures old(firmware.state) == Boot ==>
        (reply == Done <==> action == Ran(Exited(0))) && firmware.state == if reply == Done then Running else Fault
      ensures old(firmware.state) == Boot ==>
        firmware.Value() == Settle(EndState(FWStarting, action)) && reply == ActionReply(action)
      ensures old(firmware.state) != Boot ==>
        firmware.Value() == old(firmware.Value()) && reply == Rejection(FWStarting, firmware.state)
    {
      reply := firmware.DoTransition(FWStarting, action);
    }

    /** `clearOk` says whether draining the serial port worked. */
    method Connect(newUser: User, clearOk: bool) returns (reply: Reply)
      requires Valid()
      modifies this
      ensures Valid() && Served(old(Value()), AskConnect(newUser, clearOk), Value(), reply)
      ensures reply == PortPath <==> !old(acquired) && firmware.state == Running && clearOk
      ensures reply == PortPath ==> acquired && user == newUser
      ensures reply != PortPath ==> acquired == old(acquired) && user == old(user)
      ensures old(acquired) ==> reply == Error(AcquiredText("Connect", user))
      ensures !old(acquired) && firmware.state != Running ==> reply == Error(Ascii(NOT_STARTED))
      ensures !old(acquired) && firmware.state == Running && !clearOk ==> reply == OsError
    {
      var failure := EnsureNotAcquired("Connect");
      if failure.Some? {
        return failure.value;
      }
      if firmware.state != Running {
        return Error(Ascii(NOT_STARTED));
      }
      if !clearOk {
        return OsError;
      }
      user := newUser;
      acquired := true;
      reply := PortPath;
    }

    method Disconnect() returns (reply: Reply)
      requires Valid()
      modifies this
      ensures Valid() && !acquired && user == old(user)
      ensures Served(old(Value()), AskDisconnect, Value(), reply)
      ensures reply == if old(acquired) then Done else Error(Ascii(NOT_ACQUIRED))
    {
      if !acquired {
        return Error(Ascii(NOT_ACQUIRED));
      }
      acquired := false;
      reply := Done;
    }

    method GetStatus() returns (reply: Reply)
      requires Valid()
      ensures Served(old(Value()), AskStatus, Value(), reply)
      ensures reply == Status(ChipStatus(Ascii(StateToStr(firmware.state)), acquired, user))
      ensures acquired ==> reply.message.description == Ascii("Running")
    {
      var description := firmware.GetStateDescription();
      ShortTextIsWhole(description);
      reply := Status(ChipStatus(OneByteText(description), acquired, user));
    }
  }
}
