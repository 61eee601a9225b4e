/** What every interleaving keeps about the port: who holds it, and when the firmware keeps running under it. */
module PortSafety {
  import opened Bytes
  import opened Runs
  import opened Codec
  import opened Firmware
  import opened Arbitration

  // ---- Runs ----

  /** The state after the first k events, and the k-th event taken from it. */
  lemma RunStep(h: seq<Event>, k: nat)
    requires Run(h).Some? && k < |h|
    ensures Run(h[..k]).Some? && Run(h[..k + 1]).Some?
    ensures Run(h[..k + 1]) == Step(Run(h[..k]).value, h[k])
  {
    FoldStep(Step, INIT, h, k);
  }

  /** The port is held, or a Connect has read Running and is about to hold it: when it locked and read. */
  function Since(s: State): Option<(nat, nat)> {
    if s.acquired then Some((s.grant.lockedAt, s.grant.readAt))
    else if s.lock.Some? && At(s, s.lock.value).Some? && At(s, s.lock.value).value.ConnectChecked?
    then var pc := At(s, s.lock.value).value; Some((pc.lockedAt, pc.readAt))
    else None
  }

  /** When the handler mutex was taken by the Connect that holds, or may come to hold, the port. */
  function LockedSince(s: State): Option<nat> {
    if s.acquired then Some(s.grant.lockedAt)
    else if s.lock.Some? && At(s, s.lock.value).Some? &&
      (At(s, s.lock.value).value.ConnectLocked? || At(s, s.lock.value).value.ConnectChecked?)
    then Some(At(s, s.lock.value).value.lockedAt)
    else None
  }

  /** Every Reset that may still enter was cleared before the holder locked. */
  ghost predicate ClearedFirst(s: State) {
    && (forall t :: t in s.threads && s.threads[t].Cleared? ==> s.threads[t].since < s.now)
    && (forall t :: t in s.threads && s.threads[t].Cleared? && s.threads[t].routine == ChipReset ==>
          LockedSince(s).Some? ==> s.threads[t].since < LockedSince(s).value)
    && (LockedSince(s).Some? ==> LockedSince(s).value < s.now)
  }

  /** Since the holder read Running, only a Reset cleared before it locked can have moved the FSM. */
  ghost predicate OnlyEarlyResets(s: State) {
    && (s.lastReset.Some? ==> s.lastReset.value.clearedAt < s.lastReset.value.enteredAt < s.now)
    && (Since(s).Some? ==>
      var (b, c) := Since(s).value;
      && b < c < s.now
      && (s.fsm.state != Running ==> s.lastReset.Some? && c < s.lastReset.value.enteredAt)
      && (s.lastReset.Some? && c < s.lastReset.value.enteredAt ==> s.lastReset.value.clearedAt < b))
  }

  lemma RoutineKeepsSince(s: State, e: Event)
    requires !PortEvent(e) && Mutex(s) && Step(s, e).Some?
    ensures Since(Step(s, e).value) == Since(s) && LockedSince(Step(s, e).value) == LockedSince(s)
  {
    var u := Step(s, e).value;
    assert u.acquired == s.acquired && u.lock == s.lock && u.grant == s.grant;
    if s.lock.Some? {
      assert At(u, s.lock.value) == At(s, s.lock.value);
    }
  }

  /** Who is cleared after a routine's event: whoever was before, or the thread that was just let through. */
  lemma RoutineKeepsCleared(s: State, e: Event, t: Tid)
    requires !PortEvent(e) && Mutex(s) && Step(s, e).Some?
    requires At(Step(s, e).value, t).Some? && At(Step(s, e).value, t).value.Cleared?
    ensures
      var pc := At(Step(s, e).value, t).value;
      At(s, t) == Some(pc) || (pc.since == s.now && (pc.routine == FWStarting || LockedSince(s).None?))
  {
  }

  lemma RoutineStepKeepsClearedFirst(s: State, e: Event)
    requires !PortEvent(e) && Mutex(s) && ClearedFirst(s) && Step(s, e).Some?
    ensures ClearedFirst(Step(s, e).value)
  {
    var u := Step(s, e).value;
    RoutineKeepsSince(s, e);
    forall t | t in u.threads && u.threads[t].Cleared?
      ensures u.threads[t].since < u.now
      ensures u.threads[t].routine == ChipReset && LockedSince(u).Some? ==>
                u.threads[t].since < LockedSince(u).value
    {
      RoutineKeepsCleared(s, e, t);
    }
  }

  lemma PortStepKeepsClearedFirst(s: State, e: Event)
    requires PortEvent(e) && Mutex(s) && ClearedFirst(s) && Step(s, e).Some?
    ensures ClearedFirst(Step(s, e).value)
  {
  }

  lemma PortStepKeepsOnlyEarlyResets(s: State, e: Event)
    requires PortEvent(e) && Mutex(s) && OnlyEarlyResets(s) && ClearedFirst(s) && Step(s, e).Some?
    ensures OnlyEarlyResets(Step(s, e).value)
  {
  }

  /** A routine's event leaves the FSM alone, or enters a transition, or ends one. */
  lemma RoutineMovesFsm(s: State, e: Event)
    requires !PortEvent(e) && Exclusive(s) && Step(s, e).Some?
    ensures var u := Step(s, e).value;
      || (u.fsm == s.fsm && u.lastReset == s.lastReset)
      || (s.fsm.state != Running && u.lastReset == s.lastReset)
      || (e.TryEnter? && e.t in s.threads && s.threads[e.t].Cleared? && s.threads[e.t].routine == ChipReset
          && u.lastReset == Some(Entry(e.t, s.threads[e.t].since, s.now)))
  {
  }

  lemma RoutineStepKeepsOnlyEarlyResets(s: State, e: Event)
    requires !PortEvent(e)
    requires Exclusive(s) && Mutex(s) && OnlyEarlyResets(s) && ClearedFirst(s) && Step(s, e).Some?
    ensures OnlyEarlyResets(Step(s, e).value)
  {
    RoutineKeepsSince(s, e);
    RoutineMovesFsm(s, e);
    if Since(s).Some? {
      assert LockedSince(s) == Some(Since(s).value.0);
    }
  }

  lemma StepKeepsResets(s: State, e: Event)
    requires Exclusive(s) && Mutex(s) && ClearedFirst(s) && OnlyEarlyResets(s) && Step(s, e).Some?
    ensures ClearedFirst(Step(s, e).value) && OnlyEarlyResets(Step(s, e).value)
  {
    if PortEvent(e) {
      PortStepKeepsClearedFirst(s, e);
      PortStepKeepsOnlyEarlyResets(s, e);
    } else {
      RoutineStepKeepsClearedFirst(s, e);
      RoutineStepKeepsOnlyEarlyResets(s, e);
    }
  }

  lemma {:induction false} RunsAreSafe(h: seq<Event>)
    requires Run(h).Some?
    ensures var s := Run(h).value;
      s.now == |h| && Exclusive(s) && Mutex(s) && ClearedFirst(s) && OnlyEarlyResets(s)
  {
    if h != [] {
      var g, e := h[..|h| - 1], h[|h| - 1];
      RunsAreSafe(g);
      StepKeepsExclusive(Run(g).value, e);
      StepKeepsMutex(Run(g).value, e);
      StepKeepsResets(Run(g).value, e);
    }
  }

  // ---- The log behind a state ----

  /** No event of thread t strictly between positions a and b. */
  ghost predicate Quiet(h: seq<Event>, t: Tid, a: int, b: int) {
    forall k :: 0 <= k < |h| && a < k < b ==> ThreadOf(h[k]) != Some(t)
  }

  function BeginOf(r: Routine, t: Tid): Event {
    match r
    case ChipReset => BeginReset(t)
    case FWFlashing => BeginFlash(t)
    case FWStarting => BeginStart(t)
  }

  /** The events that brought thread t to `pc`. */
  ghost predicate PcLogged(h: seq<Event>, t: Tid, pc: Pc) {
    match pc
    case Cleared(r, a) => a < |h| && h[a] == BeginOf(r, t) && Quiet(h, t, a, |h|)
    case ConnectLocked(user, b) => b < |h| && h[b] == BeginConnect(t, user) && Quiet(h, t, b, |h|)
    case ConnectChecked(user, b, c) =>
      && b < c < |h| && h[b] == BeginConnect(t, user) && h[c] == ReadState(t)
      && Quiet(h, t, b, c) && Quiet(h, t, c, |h|)
    case _ => true
  }

  lemma OtherThread(s: State, e: Event, t: Tid)
    requires Step(s, e).Some? && ThreadOf(e) != Some(t)
    ensures At(Step(s, e).value, t) == At(s, t)
  {
  }

  lemma OwnStep(s: State, e: Event, t: Tid)
    requires Step(s, e).Some? && ThreadOf(e) == Some(t) && At(Step(s, e).value, t).Some?
    ensures match At(Step(s, e).value, t).value
      case Cleared(r, a) => a == s.now && e == BeginOf(r, t)
      case ConnectLocked(user, b) => b == s.now && e == BeginConnect(t, user)
      case ConnectChecked(user, b, c) => c == s.now && e == ReadState(t) && At(s, t) == Some(ConnectLocked(user, b))
      case _ => true
  {
  }

  lemma PcLoggedSnoc(g: seq<Event>, e: Event, t: Tid, pc: Pc)
    requires PcLogged(g, t, pc) && ThreadOf(e) != Some(t)
    ensures PcLogged(g + [e], t, pc)
  {
  }

  lemma CheckedSnoc(g: seq<Event>, t: Tid, user: User, b: nat)
    requires PcLogged(g, t, ConnectLocked(user, b))
    ensures PcLogged(g + [ReadState(t)], t, ConnectChecked(user, b, |g|))
  {
  }

  lemma {:induction false} PcsAreLogged(h: seq<Event>, t: Tid)
    requires Run(h).Some? && At(Run(h).value, t).Some?
    ensures PcLogged(h, t, At(Run(h).value, t).value)
  {
    if h != [] {
      var g, e := h[..|h| - 1], h[|h| - 1];
      var s := Run(g).value;
      assert h == g + [e];
      RunsAreSafe(g);
      if ThreadOf(e) != Some(t) {
        OtherThread(s, e, t);
        PcsAreLogged(g, t);
        PcLoggedSnoc(g, e, t, At(s, t).value);
      } else {
        OwnStep(s, e, t);
        var pc := At(Run(h).value, t).value;
        if pc.ConnectChecked? {
          PcsAreLogged(g, t);
          CheckedSnoc(g, t, pc.user, pc.lockedAt);
        }
      }
    }
  }

  ghost predicate ResetLogged(h: seq<Event>, x: Entry) {
    && x.clearedAt < x.enteredAt < |h|
    && h[x.clearedAt] == BeginReset(x.thread) && h[x.enteredAt] == TryEnter(x.thread)
    && Quiet(h, x.thread, x.clearedAt, x.enteredAt)
  }

  lemma ResetStep(s: State, e: Event)
    requires Step(s, e).Some?
    ensures var u := Step(s, e).value;
      || u.lastReset == s.lastReset
      || (e.TryEnter? && At(s, e.t).Some? && At(s, e.t).value.Cleared? && At(s, e.t).value.routine == ChipReset
          && u.lastReset == Some(Entry(e.t, At(s, e.t).value.since, s.now)))
  {
  }

  lemma {:induction false} ResetsAreLogged(h: seq<Event>)
    requires Run(h).Some? && Run(h).value.lastReset.Some?
    ensures ResetLogged(h, Run(h).value.lastReset.value)
  {
    if h != [] {
      var g, e := h[..|h| - 1], h[|h| - 1];
      var s := Run(g).value;
      RunsAreSafe(g);
      ResetStep(s, e);
      if Run(h).value.lastReset == s.lastReset {
        ResetsAreLogged(g);
      } else {
        PcsAreLogged(g, e.t);
      }
    }
  }

  /** The Connect of `g` is the latest successful one and was not followed by a Disconnect. */
  ghost predicate HeldBy(h: seq<Event>, g: Grant, user: User) {
    && g.lockedAt < g.readAt < g.doneAt < |h|
    && h[g.lockedAt] == BeginConnect(g.thread, user)
    && h[g.readAt] == ReadState(g.thread)
    && h[g.doneAt] == FinishConnect(g.thread)
    && Quiet(h, g.thread, g.lockedAt, g.readAt) && Quiet(h, g.thread, g.readAt, g.doneAt)
    && forall k :: g.doneAt < k < |h| ==> !h[k].FinishConnect? && !h[k].Disconnect?
  }

  lemma HoldStep(s: State, e: Event)
    requires Step(s, e).Some? && Step(s, e).value.acquired && Mutex(s)
    ensures var u := Step(s, e).value;
      if e.FinishConnect? then
        && At(s, e.t) == Some(ConnectChecked(u.user, u.grant.lockedAt, u.grant.readAt))
        && u.grant.thread == e.t && u.grant.doneAt == s.now
      else s.acquired && !e.Disconnect? && u.grant == s.grant && u.user == s.user
  {
  }

  lemma HeldBySnoc(h: seq<Event>, e: Event, g: Grant, user: User)
    requires HeldBy(h, g, user) && !e.FinishConnect? && !e.Disconnect?
    ensures HeldBy(h + [e], g, user)
  {
  }

  lemma HeldByFinish(h: seq<Event>, t: Tid, user: User, b: nat, c: nat)
    requires PcLogged(h, t, ConnectChecked(user, b, c))
    ensures HeldBy(h + [FinishConnect(t)], Grant(t, b, c, |h|), user)
  {
  }

  lemma {:induction false} GrantsAreLogged(h: seq<Event>)
    requires Run(h).Some? && Run(h).value.acquired
    ensures HeldBy(h, Run(h).value.grant, Run(h).value.user)
  {
    if h != [] {
      var g, e := h[..|h| - 1], h[|h| - 1];
      var s, u := Run(g).value, Run(h).value;
      assert h == g + [e];
      RunsAreSafe(g);
      HoldStep(s, e);
      if e.FinishConnect? {
        PcsAreLogged(g, e.t);
        HeldByFinish(g, e.t, u.user, u.grant.lockedAt, u.grant.readAt);
      } else {
        GrantsAreLogged(g);
        HeldBySnoc(g, e, s.grant, s.user);
      }
    }
  }

  // ---- The port and the firmware ----

  function FwAt(h: seq<Event>, k: nat): FWState
    requires Run(h).Some? && k <= |h|
  {
    FoldPrefix(Step, INIT, h, k);
    Run(h[..k]).value.fsm.state
  }

  /** A Reset of thread t that was cleared before the holder locked and came to the FSM after the holder read it. */
  ghost predicate Raced(h: seq<Event>, g: Grant, t: Tid, a: nat, d: nat) {
    && a < g.lockedAt && g.readAt < d < |h| && a < |h|
    && h[a] == BeginReset(t) && h[d] == TryEnter(t) && Quiet(h, t, a, d)
  }

  /** The firmware has been running ever since position c. */
  ghost predicate RunningSince(h: seq<Event>, c: nat)
    requires Run(h).Some?
  {
    forall k :: c < k <= |h| ==> FwAt(h, k) == Running
  }

  lemma SinceStep(s: State, e: Event)
    requires Mutex(s) && Step(s, e).Some? && Since(Step(s, e).value).Some?
    ensures Since(s) == Since(Step(s, e).value) || Since(Step(s, e).value).value.1 == s.now
  {
    if !PortEvent(e) {
      RoutineKeepsSince(s, e);
    }
  }

  lemma ResetsOnlyAdvance(s: State, e: Event)
    requires Step(s, e).Some?
    ensures var u := Step(s, e).value;
      u.lastReset == s.lastReset || (u.lastReset.Some? && u.lastReset.value.enteredAt == s.now)
  {
    ResetStep(s, e);
  }

  lemma FwAtPrefix(h: seq<Event>, k: nat)
    requires Run(h).Some? && h != [] && k < |h|
    ensures Run(h[..|h| - 1]).Some?
    ensures FwAt(h, k) == FwAt(h[..|h| - 1], k)
  {
    FoldPrefix(Step, INIT, h, |h| - 1);
    assert h[..|h| - 1][..k] == h[..k];
  }

  lemma RunningSinceSnoc(h: seq<Event>, c: nat)
    requires Run(h).Some? && h != [] && c < |h| && Run(h).value.fsm.state == Running
    requires Run(h[..|h| - 1]).Some? && RunningSince(h[..|h| - 1], c)
    ensures RunningSince(h, c)
  {
    forall k | c < k <= |h|
      ensures FwAt(h, k) == Running
    {
      if k < |h| {
        FwAtPrefix(h, k);
      } else {
        assert h[..|h|] == h;
      }
    }
  }

  /** Without a Reset admitted since the holder read Running, the firmware has been running since. */
  lemma {:induction false} StaysRunning(h: seq<Event>)
    requires Run(h).Some? && Since(Run(h).value).Some?
    requires var s := Run(h).value;
      s.lastReset.Some? ==> s.lastReset.value.enteredAt <= Since(s).value.1
    ensures RunningSince(h, Since(Run(h).value).value.1)
  {
    RunsAreSafe(h);
    if h != [] {
      var g, e, c := h[..|h| - 1], h[|h| - 1], Since(Run(h).value).value.1;
      RunsAreSafe(g);
      SinceStep(Run(g).value, e);
      ResetsOnlyAdvance(Run(g).value, e);
      if c < |g| {
        StaysRunning(g);
      }
      RunningSinceSnoc(h, c);
    }
  }

  /** A thread whose last event was a cleared BeginReset at a is still cleared there. */
  lemma RacerIsCleared(h: seq<Event>, t: Tid, a: nat, d: nat)
    requires Run(h).Some? && a < d < |h| && h[a] == BeginReset(t) && h[d] == TryEnter(t) && Quiet(h, t, a, d)
    ensures Run(h[..d]).Some? && At(Run(h[..d]).value, t) == Some(Cleared(ChipReset, a))
  {
    RunStep(h, d);
    PcsAreLogged(h[..d], t);
    var pc := At(Run(h[..d]).value, t).value;
    assert h[..d][pc.since] == h[pc.since];
    assert h[..d][a] == h[a];
    assert pc.since == a;
  }

  lemma RaceStopsRunning(h: seq<Event>, g: Grant, t: Tid, a: nat, d: nat)
    requires Run(h).Some? && Raced(h, g, t, a, d) && g.lockedAt < g.readAt
    ensures !RunningSince(h, g.readAt)
  {
    RacerIsCleared(h, t, a, d);
    RunStep(h, d);
    assert FwAt(h, d) != Running || FwAt(h, d + 1) == Transition;
  }

  /**
   Over every run that ends with the port held: the holder's Connect is in the log, and the firmware has
   been running ever since that Connect read it exactly when no Reset that had passed its not-acquired
   check before the Connect locked came to the FSM after the read.
   */
  lemma HeldPortKeepsRunning(h: seq<Event>)
    requires Run(h).Some? && Run(h).value.acquired
    ensures var s := Run(h).value;
      && HeldBy(h, s.grant, s.user)
      && (RunningSince(h, s.grant.readAt) <==> !exists t: Tid, a: nat, d: nat :: Raced(h, s.grant, t, a, d))
  {
    var s := Run(h).value;
    GrantsAreLogged(h);
    RunsAreSafe(h);
    if t: Tid, a: nat, d: nat :| Raced(h, s.grant, t, a, d) {
      RaceStopsRunning(h, s.grant, t, a, d);
    }
    if s.lastReset.None? || s.lastReset.value.enteredAt <= s.grant.readAt {
      StaysRunning(h);
    } else {
      var x := s.lastReset.value;
      ResetsAreLogged(h);
      assert Raced(h, s.grant, x.thread, x.clearedAt, x.enteredAt);
    }
  }

  /** If the port is held and the firmware is not running, an early Reset got in after the holder's check. */
  lemma HeldButNotRunning(h: seq<Event>)
    requires Run(h).Some? && Run(h).value.acquired && Run(h).value.fsm.state != Running
    ensures exists t: Tid, a: nat, d: nat :: Raced(h, Run(h).value.grant, t, a, d)
  {
    HeldPortKeepsRunning(h);
    assert h[..|h|] == h;
    assert FwAt(h, |h|) != Running;
  }

  lemma OthersStep(h: seq<Event>, t: Tid, k: nat)
    requires Run(h).Some? && k < |h| && ThreadOf(h[k]) != Some(t)
    ensures Run(h[..k]).Some? && Run(h[..k + 1]).Some?
    ensures At(Run(h[..k]).value, t) == At(Run(h[..k + 1]).value, t)
  {
    RunStep(h, k);
    OtherThread(Run(h[..k]).value, h[k], t);
  }

  lemma {:induction false} StaysPut(h: seq<Event>, t: Tid, b: nat, d: nat)
    requires Run(h).Some? && b <= d <= |h| && Quiet(h, t, b - 1, d)
    ensures Run(h[..b]).Some? && Run(h[..d]).Some?
    ensures At(Run(h[..b]).value, t) == At(Run(h[..d]).value, t)
    decreases d
  {
    FoldPrefix(Step, INIT, h, b);
    if b < d {
      OthersStep(h, t, d - 1);
      StaysPut(h, t, b, d - 1);
    }
  }

  ghost predicate ResetInFlight(s: State) {
    exists t :: t in s.threads && s.threads[t].Cleared? && s.threads[t].routine == ChipReset
  }

  /** If no Reset was between its check and the FSM when the holder locked, the firmware keeps running. */
  lemma NoResetInFlightIsSafe(h: seq<Event>)
    requires Run(h).Some? && Run(h).value.acquired
    ensures var g := Run(h).value.grant;
      && g.lockedAt <= |h| && Run(h[..g.lockedAt]).Some?
      && (!ResetInFlight(Run(h[..g.lockedAt]).value) ==> RunningSince(h, g.readAt) && Run(h).value.fsm.state == Running)
  {
    HeldPortKeepsRunning(h);
    var g := Run(h).value.grant;
    FoldPrefix(Step, INIT, h, g.lockedAt);
    if t: Tid, a: nat, d: nat :| Raced(h, g, t, a, d) {
      RacerIsCleared(h, t, a, d);
      StaysPut(h, t, g.lockedAt, d);
      assert At(Run(h[..g.lockedAt]).value, t) == Some(Cleared(ChipReset, a));
    } else {
      assert h[..|h|] == h;
      assert FwAt(h, |h|) == Running;
    }
  }

  // ---- One call at a time ----

  predicate BeginsCall(e: Event) {
    e.BeginReset? || e.BeginFlash? || e.BeginStart? || e.BeginConnect? || e.Disconnect? || e.BeginStatus?
  }

  ghost predicate OneAtATime(h: seq<Event>)
    requires Run(h).Some?
  {
    forall k :: 0 <= k < |h| && BeginsCall(h[k]) ==> Run(h[..k]).Some? && Run(h[..k]).value.threads == map[]
  }

  /** When calls do not overlap, a held port always means running firmware. */
  lemma OneAtATimeIsSafe(h: seq<Event>)
    requires Run(h).Some? && OneAtATime(h) && Run(h).value.acquired
    ensures Run(h).value.fsm.state == Running
  {
    GrantsAreLogged(h);
    assert BeginsCall(h[Run(h).value.grant.lockedAt]);
    NoResetInFlightIsSafe(h);
  }
}
