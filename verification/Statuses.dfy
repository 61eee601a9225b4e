/** What a status reply says about the firmware, in every interleaving. */
module Statuses {
  import opened Bytes
  import opened Runs
  import opened Codec
  import opened Firmware
  import opened Arbitration
  import opened PortSafety
  import opened Transitions
  import opened Rejections
  import opened Limits

  lemma StatusReadStep(s: State, e: Event, t: Tid, f: Fsm)
    requires Step(s, e).Some? && At(Step(s, e).value, t) == Some(StatusRead(f))
    ensures if ThreadOf(e) == Some(t) then e == ReadDescription(t) && f == s.fsm else At(s, t) == Some(StatusRead(f))
  {
  }

  /** Thread t last read the FSM, at d, and saw f. */
  ghost predicate ReadAt(h: seq<Event>, t: Tid, f: Fsm, d: nat, m: nat) {
    && d < m <= |h| && h[d] == ReadDescription(t) && Quiet(h, t, d, m)
    && Run(h[..d]).Some? && f == Run(h[..d]).value.fsm
  }

  lemma {:induction false} LastRead(h: seq<Event>, t: Tid, f: Fsm, m: nat) returns (d: nat)
    requires Run(h).Some? && m <= |h| && Run(h[..m]).Some? && At(Run(h[..m]).value, t) == Some(StatusRead(f))
    ensures ReadAt(h, t, f, d, m)
    decreases m
  {
    assert m > 0;
    d := m - 1;
    RunStep(h, d);
    StatusReadStep(Run(h[..d]).value, h[d], t, f);
    if ThreadOf(h[d]) != Some(t) {
      d := LastRead(h, t, f, d);
    }
  }

  /** While a status call holds the handler mutex nobody else changes the port. */
  lemma OthersSparePort(s: State, e: Event, t: Tid)
    requires Mutex(s) && At(s, t).Some? && At(s, t).value.StatusRead? && ThreadOf(e) != Some(t) && Step(s, e).Some?
    ensures var u := Step(s, e).value; u.acquired == s.acquired && u.user == s.user && u.grant == s.grant
  {
    assert s.lock == Some(t);
  }

  lemma ReadSparesPort(s: State, t: Tid)
    requires Step(s, ReadDescription(t)).Some?
    ensures var u := Step(s, ReadDescription(t)).value;
      u.acquired == s.acquired && u.user == s.user && u.grant == s.grant && At(u, t) == Some(StatusRead(s.fsm))
  {
  }

  ghost predicate SamePort(h: seq<Event>, d: nat, m: nat)
    requires d <= m <= |h| && Run(h[..d]).Some? && Run(h[..m]).Some?
  {
    var s, u := Run(h[..d]).value, Run(h[..m]).value;
    u.acquired == s.acquired && u.user == s.user && u.grant == s.grant
  }

  lemma PortHoldsStep(h: seq<Event>, t: Tid, k: nat, f: Fsm)
    requires Run(h).Some? && k < |h| && ThreadOf(h[k]) != Some(t) && Run(h[..k]).Some?
    requires At(Run(h[..k]).value, t) == Some(StatusRead(f))
    ensures Run(h[..k + 1]).Some? && SamePort(h, k, k + 1) && At(Run(h[..k + 1]).value, t) == Some(StatusRead(f))
  {
    RunStep(h, k);
    RunsAreSafe(h[..k]);
    OthersSparePort(Run(h[..k]).value, h[k], t);
    OtherThread(Run(h[..k]).value, h[k], t);
  }

  lemma {:induction false} PortHolds(h: seq<Event>, t: Tid, d: nat, m: nat)
    requires Run(h).Some? && d < m <= |h| && h[d] == ReadDescription(t) && Quiet(h, t, d, m)
    ensures Run(h[..d]).Some? && Run(h[..m]).Some? && SamePort(h, d, m)
    ensures At(Run(h[..m]).value, t) == Some(StatusRead(Run(h[..d]).value.fsm))
    decreases m
  {
    if d == m - 1 {
      RunStep(h, d);
      ReadSparesPort(Run(h[..d]).value, t);
    } else {
      PortHolds(h, t, d, m - 1);
      PortHoldsStep(h, t, m - 1, Run(h[..d]).value.fsm);
    }
  }

  /**
   Over every run a status reply is a snapshot of one moment d, at which the same call read the FSM: the whole
   description of the FSM, and flag, name and PID of the port, all as they were then.
   */
  lemma StatusIsSnapshot(h: seq<Event>, t: Tid, m: Message) returns (d: nat)
    requires Run(h).Some? && Output(Run(h).value, ReplyStatus(t)) == Some(Status(m))
    ensures d < |h| && h[d] == ReadDescription(t) && Quiet(h, t, d, |h|) && Run(h[..d]).Some?
    ensures var s := Run(h[..d]).value;
      && m == ChipStatus(Ascii(Description(s.fsm)), s.acquired, s.user)
      && WellFormed(s.fsm) && s.grant == Run(h).value.grant
  {
    StatusOutput(Run(h).value, t, m);
    var f := At(Run(h).value, t).value.seen;
    assert h[..|h|] == h;
    d := LastRead(h, t, f, |h|);
    PortHolds(h, t, d, |h|);
    DescriptionIsWhole(f);
    TransitionIsExclusive(h[..d]);
  }

  lemma FsmStays(s: State, e: Event)
    requires Exclusive(s) && Step(s, e).Some? && !e.Complete?
    requires !(e.TryEnter? && s.fsm.state != Transition && Step(s, e).value.fsm.state == Transition)
    ensures Step(s, e).value.fsm == s.fsm
  {
  }

  lemma {:induction false} SameFsm(h: seq<Event>, d: nat, m: nat)
    requires Run(h).Some? && d <= m <= |h|
    requires forall k :: d <= k < m ==> !h[k].Complete? && !AdmittedAt(h, k)
    ensures Run(h[..d]).Some? && Run(h[..m]).Some? && Run(h[..d]).value.fsm == Run(h[..m]).value.fsm
    decreases m
  {
    FoldPrefix(Step, INIT, h, m);
    if d < m {
      SameFsm(h, d, m - 1);
      RunStep(h, m - 1);
      RunsAreSafe(h[..m - 1]);
      FsmStays(Run(h[..m - 1]).value, h[m - 1]);
    }
  }

  /** If nothing was admitted and nothing settled since d, the reply also describes the firmware as it is now. */
  lemma UndisturbedStatusIsTrue(h: seq<Event>, t: Tid, m: Message, d: nat)
    requires Run(h).Some? && Output(Run(h).value, ReplyStatus(t)) == Some(Status(m))
    requires d < |h| && h[d] == ReadDescription(t) && Quiet(h, t, d, |h|)
    requires forall k :: d <= k < |h| ==> !h[k].Complete? && !AdmittedAt(h, k)
    ensures m == ChipStatus(Ascii(Description(Run(h).value.fsm)), Run(h).value.acquired, Run(h).value.user)
  {
    var c := StatusIsSnapshot(h, t, m);
    assert c == d;
    assert h[..|h|] == h;
    SameFsm(h, d, |h|);
    PortHolds(h, t, d, |h|);
  }

  /** A status that says "acquired" also says "Running", unless an early Reset raced with the holder's Connect. */
  lemma AcquiredStatusSaysRunning(h: seq<Event>, t: Tid, m: Message)
    requires Run(h).Some? && Output(Run(h).value, ReplyStatus(t)) == Some(Status(m))
    requires m.ChipStatus? && m.acquired
    requires !exists u: Tid, a: nat, d: nat :: Raced(h, Run(h).value.grant, u, a, d)
    ensures m.description == Ascii("Running")
  {
    var d := StatusIsSnapshot(h, t, m);
    StatusOutput(Run(h).value, t, m);
    HeldPortKeepsRunning(h);
    GrantsAreLogged(h[..d]);
    assert FwAt(h, d) == Running;
  }

  lemma FirstUser(s: State, e: Event)
    requires Step(s, e).Some? && Change(s, e).None?
    ensures Step(s, e).value.user == s.user && Step(s, e).value.acquired == s.acquired
  {
  }

  /** Until the first successful Connect a status says free, without a name and with PID -1. */
  lemma {:induction false} NobodyAtFirst(h: seq<Event>)
    requires Run(h).Some? && History(h) == []
    ensures !Run(h).value.acquired && Run(h).value.user == User([], -1)
  {
    if h != [] {
      NobodyAtFirst(h[..|h| - 1]);
      FirstUser(Run(h[..|h| - 1]).value, h[|h| - 1]);
    }
  }
}
