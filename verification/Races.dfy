/** Short runs that show where the plain forms of the properties stop holding. */
module Races {
  import opened Bytes
  import opened Codec
  import opened Firmware
  import opened Arbitration
  import opened PortSafety
  import opened Transitions

  ghost predicate Reaches(h: seq<Event>, s: State) {
    Run(h) == Some(s)
  }

  /** Takes one more event of a run. */
  lemma Next(h: seq<Event>, s: State, e: Event, u: State)
    requires Reaches(h, s) && Act(s, e) == Some(u)
    ensures Reaches(h + [e], u.(now := s.now + 1))
  {
    Extend(h, e);
  }

  /** A state between calls, with nothing held. */
  predicate Idle(s: State, fw: FWState) {
    s.fsm == Settle(fw) && !s.acquired && s.lock.None? && s.threads == map[] && s.actor.None?
  }

  /** A state in which only thread t is inside a call. */
  predicate Alone(s: State, f: Fsm, t: Tid, pc: Pc) {
    s.fsm == f && !s.acquired && s.lock.None? && s.threads == map[t := pc]
  }

  lemma Begins(h: seq<Event>, s: State, t: Tid, r: Routine) returns (g: seq<Event>, u: State)
    requires Reaches(h, s) && t !in s.threads && s.lock.None? && !s.acquired
    ensures Reaches(g, u) && u == Go(s, t, Cleared(r, s.now)).(now := s.now + 1)
  {
    g := h + [BeginOf(r, t)];
    u := Go(s, t, Cleared(r, s.now)).(now := s.now + 1);
    Next(h, s, BeginOf(r, t), Go(s, t, Cleared(r, s.now)));
  }

  lemma Tries(h: seq<Event>, s: State, t: Tid) returns (g: seq<Event>, u: State)
    requires Reaches(h, s) && t in s.threads && s.threads[t].Cleared?
    ensures Reaches(g, u) && u == TryToEnter(s, t, s.threads[t]).(now := s.now + 1)
  {
    g := h + [TryEnter(t)];
    u := TryToEnter(s, t, s.threads[t]).(now := s.now + 1);
    Next(h, s, TryEnter(t), TryToEnter(s, t, s.threads[t]));
  }

  lemma Enters(h: seq<Event>, s: State, t: Tid, r: Routine) returns (g: seq<Event>, u: State)
    requires Reaches(h, s) && Idle(s, s.fsm.state) && s.fsm.state in Expected(r)
    ensures Reaches(g, u) && Alone(u, Fsm(Transition, Some(r)), t, Admitted(r, s.fsm.state)) && u.children == s.children
  {
    g, u := Begins(h, s, t, r);
    g, u := Tries(g, u, t);
  }

  lemma Forks(h: seq<Event>, s: State, t: Tid, p: ChildPid) returns (g: seq<Event>, u: State)
    requires Reaches(h, s) && t in s.threads && s.threads[t].Admitted? && p !in s.children
    ensures Reaches(g, u)
    ensures var pc := s.threads[t];
      u == Go(s, t, Waiting(pc.routine, pc.from, p)).(children := s.children[p := Child(t, None)], now := s.now + 1)
  {
    var pc := s.threads[t];
    g := h + [Fork(t, p)];
    u := Go(s, t, Waiting(pc.routine, pc.from, p)).(children := s.children[p := Child(t, None)], now := s.now + 1);
    Next(h, s, Fork(t, p), u.(now := s.now));
  }

  /** Child p exits with 0 and the waiting thread t reaps it. */
  lemma Reaps(h: seq<Event>, s: State, t: Tid, p: ChildPid) returns (g: seq<Event>, u: State)
    requires Reaches(h, s) && t in s.threads && s.threads[t].Waiting? && p in s.children && s.children[p].ended.None?
    ensures Reaches(g, u)
    ensures var pc := s.threads[t];
      u == Go(s, t, Ending(pc.routine, pc.from, Ran(Exited(0)))).(children := s.children - {p}, now := s.now + 2)
  {
    var pc := s.threads[t];
    var s1 := s.(children := s.children[p := s.children[p].(ended := Some(Exited(0)))]);
    Next(h, s, ChildEnds(p, Exited(0)), s1);
    s1 := s1.(now := s.now + 1);
    g := h + [ChildEnds(p, Exited(0))];
    u := Go(s, t, Ending(pc.routine, pc.from, Ran(Exited(0)))).(children := s.children - {p}, now := s.now + 1);
    assert s1.children - {p} == s.children - {p};
    Next(g, s1, Reap(t, p), u);
    u := u.(now := s.now + 2);
    g := g + [Reap(t, p)];
  }

  /** The waiting thread t reaps child p after p exits with 0, and settles. */
  lemma Succeeds(h: seq<Event>, s: State, t: Tid, p: ChildPid) returns (g: seq<Event>, u: State)
    requires Reaches(h, s) && t in s.threads && s.threads[t].Waiting? && p in s.children && s.children[p].ended.None?
    ensures Reaches(g, u) && g != [] && g[|g| - 1] == Complete(t)
    ensures u == Leave(s, t).(fsm := Settle(Final(s.threads[t].routine)), actor := None,
                              children := s.children - {p}, now := s.now + 3)
  {
    var s1;
    g, s1 := Reaps(h, s, t, p);
    u := Leave(s, t).(fsm := Settle(Final(s.threads[t].routine)), actor := None,
                      children := s.children - {p}, now := s.now + 2);
    assert s1.threads - {t} == s.threads - {t};
    Next(g, s1, Complete(t), u);
    u := u.(now := s.now + 3);
    g := g + [Complete(t)];
  }

  lemma StartedFirmware() returns (h: seq<Event>, s: State)
    ensures Reaches(h, s) && Idle(s, Running) && s.children == map[]
  {
    h, s := Enters([], INIT, 1, FWStarting);
    h, s := Forks(h, s, 1, 7);
    h, s := Succeeds(h, s, 1, 7);
  }

  lemma ReadsRunning(h: seq<Event>, s: State, user: User, b: nat) returns (g: seq<Event>, u: State)
    requires Reaches(h, s) && s.fsm == Settle(Running) && At(s, 1) == Some(ConnectLocked(user, b))
    ensures Reaches(g, u) && u == Go(s, 1, ConnectChecked(user, b, s.now)).(now := s.now + 1)
  {
    g := h + [ReadState(1)];
    u := Go(s, 1, ConnectChecked(user, b, s.now)).(now := s.now + 1);
    Next(h, s, ReadState(1), u.(now := s.now));
  }

  lemma Finishes(h: seq<Event>, s: State, user: User, b: nat, c: nat) returns (g: seq<Event>, u: State)
    requires Reaches(h, s) && At(s, 1) == Some(ConnectChecked(user, b, c))
    ensures Reaches(g, u)
    ensures u == Leave(s, 1).(lock := None, acquired := true, user := user,
                              grant := Grant(1, b, c, s.now), now := s.now + 1)
  {
    g := h + [FinishConnect(1)];
    u := Leave(s, 1).(lock := None, acquired := true, user := user, grant := Grant(1, b, c, s.now), now := s.now + 1);
    Next(h, s, FinishConnect(1), u.(now := s.now));
  }

  /** The Connect of thread 1, from the step after its lock to the end. */
  lemma Connects(h: seq<Event>, s: State, user: User, b: nat) returns (g: seq<Event>, u: State)
    requires Reaches(h, s) && s.fsm == Settle(Running) && At(s, 1) == Some(ConnectLocked(user, b))
    ensures Reaches(g, u)
    ensures u == Leave(s, 1).(lock := None, acquired := true, user := user,
                              grant := Grant(1, b, s.now, s.now + 1), now := s.now + 2)
  {
    g, u := ReadsRunning(h, s, user, b);
    assert u.threads - {1} == s.threads - {1};
    g, u := Finishes(g, u, user, b, s.now);
  }

  lemma Locks1(h: seq<Event>, s: State, user: User) returns (g: seq<Event>, u: State)
    requires Reaches(h, s) && 1 !in s.threads && s.lock.None? && !s.acquired
    ensures Reaches(g, u)
    ensures u == Go(s, 1, ConnectLocked(user, s.now)).(lock := Some(1), now := s.now + 1)
  {
    g := h + [BeginConnect(1, user)];
    u := Go(s, 1, ConnectLocked(user, s.now)).(lock := Some(1), now := s.now + 1);
    Next(h, s, BeginConnect(1, user), u.(now := s.now));
  }

  lemma ConnectedAs(user: User) returns (h: seq<Event>, s: State)
    ensures Reaches(h, s) && s.acquired && s.user == user
  {
    h, s := StartedFirmware();
    var b := s.now;
    h, s := Locks1(h, s, user);
    h, s := Connects(h, s, user, b);
  }

  /** "Acquired implies Running" fails: a Reset checked before the Connect enters after it. */
  lemma AcquiredWhileResetting()
    ensures exists h, s :: Reaches(h, s) && s.acquired && s.fsm.state == Transition
  {
    var user := User([], 5);
    var h, s := StartedFirmware();
    h, s := Begins(h, s, 2, ChipReset);
    var b := s.now;
    h, s := Locks1(h, s, user);
    h, s := Connects(h, s, user, b);
    h, s := Tries(h, s, 2);
  }

  /**
   With cancellation the wrong child can be reaped: a Reset settles in Boot while the script it
   started is still running.
   */
  lemma CancelledWaitMisleads()
    ensures exists h, s ::
      && Reaches(h, s) && h != [] && h[|h| - 1] == Complete(2)
      && Idle(s, Boot) && s.children == map[8 := Child(2, None)]
  {
    var h, s := Enters([], INIT, 1, FWFlashing);
    h, s := Forks(h, s, 1, 7);
    h, s := Cancelled(h, s, 1);
    h, s := Enters(h, s, 2, ChipReset);
    h, s := Forks(h, s, 2, 8);
    h, s := Succeeds(h, s, 2, 7);
    assert s.children == map[8 := Child(2, None)];
  }

  lemma Cancelled(h: seq<Event>, s: State, t: Tid) returns (g: seq<Event>, u: State)
    requires Reaches(h, s) && t in s.threads && s.threads[t].Waiting?
    ensures Reaches(g, u)
    ensures u == Leave(s, t).(fsm := Settle(Fault), actor := None, now := s.now + 2)
  {
    var pc := s.threads[t];
    var s1 := Go(s, t, Ending(pc.routine, pc.from, NeverRan));
    Next(h, s, CancelWait(t), s1);
    s1 := s1.(now := s.now + 1);
    g := h + [CancelWait(t)];
    u := Leave(s, t).(fsm := Settle(Fault), actor := None, now := s.now + 1);
    assert s1.threads - {t} == s.threads - {t};
    Next(g, s1, Complete(t), u);
    u := u.(now := s.now + 2);
    g := g + [Complete(t)];
  }

  lemma RejectedDuringFlash() returns (h: seq<Event>, s: State)
    ensures Reaches(h, s) && s.threads.Keys == {1, 2} && s.threads[2] == Rejected(FWFlashing)
    ensures s.threads[1].Waiting? && s.threads[1].routine == FWFlashing
    ensures 7 in s.children && s.children[7].ended.None?
  {
    h, s := Enters([], INIT, 1, FWFlashing);
    h, s := Forks(h, s, 1, 7);
    h, s := Begins(h, s, 2, FWFlashing);
    h, s := Tries(h, s, 2);
  }

  /** The state in a rejection text is read after the unlock, so it can name a state that was expected. */
  lemma RejectionCanNameExpectedState()
    ensures exists h, s, t ::
      && Reaches(h, s) && At(s, t) == Some(Rejected(FWFlashing)) && Boot in Expected(FWFlashing)
      && Output(s, ReportRejected(t)) == Some(Rejection(FWFlashing, Boot))
  {
    var h, s := RejectedDuringFlash();
    h, s := Succeeds(h, s, 1, 7);
    assert At(s, 2) == Some(Rejected(FWFlashing));
  }
}
