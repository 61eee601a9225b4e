/**
 Calls as clients see them: every call can be begun and finished and is answered once; what the answers to
 Connect and Disconnect tell about the port; and calls made one at a time do what `HandlerImpl` promises.
 */
module Calls {
  import opened Bytes
  import opened Runs
  import opened Codec
  import opened Firmware
  import opened Arbitration
  import opened PortSafety
  import opened Transitions

  // ---- One answer per call ----

  /** The call that an event belongs to is over after it. */
  predicate EndsCall(e: Event, u: State) {
    ThreadOf(e).Some? && ThreadOf(e).value !in u.threads
  }

  /** An event hands out a reply exactly when it ends its call. */
  lemma AnsweredAtEnd(s: State, e: Event)
    requires Step(s, e).Some?
    ensures Output(s, e).Some? <==> EndsCall(e, Step(s, e).value)
  {
  }

  // ---- Connect and Disconnect ----

  /** Over every run: the port path is given exactly to the Connect that takes the port. */
  lemma PathMeansTaken(h: seq<Event>, e: Event)
    requires Run(h).Some? && Step(Run(h).value, e).Some?
    ensures var s := Run(h).value;
      && (Output(s, e) == Some(PortPath) <==> Change(s, e).Some? && Change(s, e).value.Took?)
      && (Output(s, e) == Some(PortPath) ==>
            var u := Step(s, e).value; !s.acquired && u.acquired && Change(s, e) == Some(Took(u.user)))
  {
    RunsAreSafe(h);
    PortStep(Run(h).value, e);
  }

  /** A Disconnect is told Done exactly when it gives the port back, and otherwise changes nothing. */
  lemma DoneMeansGiven(h: seq<Event>, t: Tid)
    requires Run(h).Some? && Step(Run(h).value, Disconnect(t)).Some?
    ensures var s := Run(h).value;
      var u := Step(s, Disconnect(t)).value;
      && !u.acquired && u.user == s.user && u.fsm == s.fsm
      && (Output(s, Disconnect(t)) == Some(Done) <==> Change(s, Disconnect(t)) == Some(Gave))
      && (Change(s, Disconnect(t)) == Some(Gave) <==> Tells(History(h), true, s.user))
      && (Output(s, Disconnect(t)) != Some(Done) ==>
            Output(s, Disconnect(t)) == Some(Error(Ascii("Port is not acquired"))) && !s.acquired)
  {
    ConnectsAlternate(h);
  }

  /** A Connect that finds no running firmware is told so, gives the mutex back and changes nothing. */
  lemma ReadStateDecides(s: State, t: Tid)
    requires Step(s, ReadState(t)).Some?
    ensures var u := Step(s, ReadState(t)).value;
      if s.fsm.state == Running
      then Output(s, ReadState(t)).None? && At(u, t).Some? && At(u, t).value.ConnectChecked? && u.lock == s.lock
      else
        && Output(s, ReadState(t)) == Some(Error(Ascii("Can't connect: firmware is not started")))
        && t !in u.threads && u.lock.None? && u.acquired == s.acquired && u.user == s.user && u.fsm == s.fsm
  {
  }

  /** A call that is refused because the port is held names the holder: the user of the last successful Connect. */
  lemma RefusalNamesHolder(h: seq<Event>, e: Event)
    requires Run(h).Some? && Step(Run(h).value, e).Some? && Run(h).value.acquired
    requires e.BeginReset? || e.BeginFlash? || e.BeginConnect?
    ensures var s := Run(h).value;
      && Tells(History(h), true, s.user)
      && Step(s, e).value == s.(now := s.now + 1)
      && Output(s, e) == Some(Error(AcquiredText(
           if e.BeginReset? then "Reset" else if e.BeginFlash? then "Flash" else "Connect", s.user)))
  {
    ConnectsAlternate(h);
  }

  // ---- Calls can always begin and end ----

  /** While the handler mutex is free an idle thread can make any call; Start and Disconnect aside, the rest is Connect's. */
  lemma IdleCanCall(s: State, t: Tid, user: User)
    requires t !in s.threads && s.lock.None?
    ensures Step(s, BeginReset(t)).Some? && Step(s, BeginFlash(t)).Some? && Step(s, BeginConnect(t, user)).Some?
    ensures Step(s, BeginStatus(t)).Some? && Step(s, Disconnect(t)).Some?
    ensures !s.acquired ==>
      && At(Step(s, BeginReset(t)).value, t) == Some(Cleared(ChipReset, s.now))
      && At(Step(s, BeginFlash(t)).value, t) == Some(Cleared(FWFlashing, s.now))
  {
  }

  /** A Start needs no mutex and no free port: it always comes to the FSM. */
  lemma StartAlwaysTries(s: State, t: Tid)
    requires t !in s.threads
    ensures Step(s, BeginStart(t)).Some?
    ensures At(Step(s, BeginStart(t)).value, t) == Some(Cleared(FWStarting, s.now))
  {
  }

  // ---- A waiting thread's child ----

  /** In every run a waiting thread's own child is there to be reaped, cancelled waits or not. */
  lemma {:induction false} WaiterHasChild(h: seq<Event>, t: Tid, p: ChildPid)
    requires Run(h).Some? && WaitsFor(Run(h).value, t, p)
    ensures p in Run(h).value.children && Run(h).value.children[p].owner == t
  {
    if h != [] {
      var g, e := h[..|h| - 1], h[|h| - 1];
      WaitStep(Run(g).value, e, t);
      if ThreadOf(e) == Some(t) {
        ForkStep(Run(g).value, e);
      } else {
        WaiterHasChild(g, t, p);
        RunsAreSafe(g);
        OthersSpareChildren(Run(g).value, e, t);
      }
    }
  }

  /** So `wait` never finds no child. */
  lemma WaitNeverFails(h: seq<Event>, t: Tid)
    requires Run(h).Some?
    ensures Step(Run(h).value, NoChild(t)).None?
  {
    var s := Run(h).value;
    if At(s, t).Some? && At(s, t).value.Waiting? {
      WaiterHasChild(h, t, At(s, t).value.child);
    }
  }

  // ---- System calls that fail ----

  /** A routine that could not be forked, or whose wait is cancelled, ends in Fault with an error. */
  lemma FailedRoutineIsTold(s: State, t: Tid, e: Event)
    requires t in s.threads
    requires (s.threads[t].Admitted? && e == ForkFails(t)) || (s.threads[t].Waiting? && e == CancelWait(t))
    ensures Step(s, e).Some? && Step(Step(s, e).value, Complete(t)).Some?
    ensures var u := Step(s, e).value;
      && Output(u, Complete(t)) == Some(OsError)
      && Step(u, Complete(t)).value.fsm == Fsm(Fault, None)
      && Step(u, Complete(t)).value.children == s.children
  {
  }

  /** A Connect that cannot drain the port is told so, gives the mutex back and changes nothing. */
  lemma FailedClearIsTold(s: State, t: Tid)
    requires t in s.threads && s.threads[t].ConnectChecked?
    ensures Step(s, ClearFails(t)).Some? && Output(s, ClearFails(t)) == Some(OsError)
    ensures var u := Step(s, ClearFails(t)).value;
      && t !in u.threads && u.lock.None? && u.acquired == s.acquired && u.user == s.user && u.fsm == s.fsm
  {
  }

  // ---- To the end of a call ----

  /** Events of thread t in which no system call fails, and the ends of scripts. */
  predicate GoesWell(e: Event, t: Tid) {
    || e.ChildEnds?
    || (e.t == t && !e.ForkFails? && !e.NoChild? && !e.CancelWait? && !e.ClearFails?)
  }

  ghost predicate AllGoWell(g: seq<Event>, t: Tid) {
    forall e :: e in g ==> GoesWell(e, t)
  }

  /** How many events a call has left at most. */
  function Left(s: State, t: Tid): nat {
    if t !in s.threads then 0 else
    match s.threads[t]
    case Cleared(_, _) => 5
    case Rejected(_) => 1
    case Admitted(_, _) => 4
    case Waiting(_, _, p) => if p in s.children && s.children[p].ended.Some? then 2 else 3
    case Ending(_, _, _) => 1
    case ConnectLocked(_, _) => 2
    case ConnectChecked(_, _, _) => 1
    case StatusLocked => 2
    case StatusRead(_) => 1
  }

  /** The next event of a call that goes well; `free` is the PID a fork would give. */
  function NextOf(s: State, t: Tid, free: ChildPid): Event
    requires t in s.threads
  {
    match s.threads[t]
    case Cleared(_, _) => TryEnter(t)
    case Rejected(_) => ReportRejected(t)
    case Admitted(_, _) => Fork(t, free)
    case Waiting(_, _, p) =>
      if p in s.children && s.children[p].ended.None? then ChildEnds(p, Exited(0)) else Reap(t, p)
    case Ending(_, _, _) => Complete(t)
    case ConnectLocked(_, _) => ReadState(t)
    case ConnectChecked(_, _, _) => FinishConnect(t)
    case StatusLocked => ReadDescription(t)
    case StatusRead(_) => ReplyStatus(t)
  }

  lemma Advances(s: State, t: Tid, free: ChildPid)
    requires t in s.threads && free !in s.children
    requires s.threads[t].Waiting? ==> s.threads[t].child in s.children
    ensures var e := NextOf(s, t, free);
      GoesWell(e, t) && Step(s, e).Some? && Left(Step(s, e).value, t) < Left(s, t)
  {
  }

  /** Every thread inside a call can go on, by itself, whatever the other threads do or hold. */
  lemma NobodyIsStuck(h: seq<Event>, t: Tid) returns (e: Event)
    requires Run(h).Some? && t in Run(h).value.threads
    ensures GoesWell(e, t) && Step(Run(h).value, e).Some?
    ensures Left(Step(Run(h).value, e).value, t) < Left(Run(h).value, t)
  {
    var s := Run(h).value;
    if s.threads[t].Waiting? {
      WaiterHasChild(h, t, s.threads[t].child);
    }
    var free := FreshPid(s.children);
    Advances(s, t, free);
    e := NextOf(s, t, free);
  }

  /** From every reachable state a call comes to its end, and so to its one reply, without any other thread. */
  lemma {:induction false} CallsCanFinish(h: seq<Event>, t: Tid) returns (g: seq<Event>)
    requires Run(h).Some?
    ensures AllGoWell(g, t) && Run(h + g).Some? && t !in Run(h + g).value.threads
    decreases Left(Run(h).value, t)
  {
    g := [];
    assert h + g == h;
    if t in Run(h).value.threads {
      var e := NobodyIsStuck(h, t);
      Extend(h, e);
      var f := CallsCanFinish(h + [e], t);
      assert h + [e] + f == h + ([e] + f);
      g := [e] + f;
    }
  }
}
