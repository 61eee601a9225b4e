/**
 Port arbitration and the firmware state machine under any interleaving of any number of handler
 threads. One event is one critical section, one system call or one unlocked gap of a call. Mutexes
 are released between `EnsureNotAcquired` and the FSM, and between the admission of a routine and its
 action; `Connect` and `GetStatus` hold the handler mutex while they take and release the FSM mutex.

 Fields and parameters marked "aux" only record when or by whom something was done. The
 module `Erasure` proves that they change neither what can happen nor what is replied.
 */
module Arbitration {
  import opened Bytes
  import opened Runs
  import opened Codec
  import opened Firmware

  type Tid = nat
  type ChildPid = nat

  /** A child process: who forked it (aux), and how it ended if it is a zombie. */
  datatype Child = Child(owner: Tid, ended: Option<Script>)

  /** Where a thread is inside a call; threads between calls have no program counter. */
  datatype Pc =
    | Cleared(routine: Routine, since: nat)                // before the lock in DoTransition (since: aux)
    | Rejected(routine: Routine)                           // unlocked again, exception not composed yet
    | Admitted(routine: Routine, from: FWState)            // about to fork (from: aux)
    | Waiting(routine: Routine, from: FWState, child: ChildPid) // in wait() (child: aux)
    | Ending(routine: Routine, from: FWState, action: Action)   // the Defer is about to call SetState
    | ConnectLocked(user: User, lockedAt: nat)             // not acquired, about to read the FSM
    | ConnectChecked(user: User, lockedAt: nat, readAt: nat) // read Running, about to clear the port
    | StatusLocked
    | StatusRead(seen: Fsm)                                // what GetStateDescription saw

  datatype Grant = Grant(thread: Tid, lockedAt: nat, readAt: nat, doneAt: nat)

  datatype Entry = Entry(thread: Tid, clearedAt: nat, enteredAt: nat)

  datatype State = State(
    fsm: Fsm,
    acquired: bool,
    user: User,
    lock: Option<Tid>,                // the handler mutex
    threads: map<Tid, Pc>,
    children: map<ChildPid, Child>,
    now: nat,                         // aux: number of events so far
    actor: Option<Tid>,               // aux: the thread last admitted and not yet settled
    grant: Grant,                     // aux: the latest successful Connect
    lastReset: Option<Entry>)         // aux: the latest admitted ChipReset

  datatype Event =
    | BeginReset(t: Tid) | BeginFlash(t: Tid) | BeginStart(t: Tid)
    | TryEnter(t: Tid) | ReportRejected(t: Tid)
    | Fork(t: Tid, child: ChildPid) | ForkFails(t: Tid)
    | ChildEnds(child: ChildPid, script: Script)
    | Reap(t: Tid, child: ChildPid)   // wait() returns some ended child
    | NoChild(t: Tid)                 // wait() fails: there is no child
    | CancelWait(t: Tid)              // pthread_cancel takes effect inside wait()
    | Complete(t: Tid)
    | BeginConnect(t: Tid, user: User) | ReadState(t: Tid) | ClearFails(t: Tid) | FinishConnect(t: Tid)
    | Disconnect(t: Tid)
    | BeginStatus(t: Tid) | ReadDescription(t: Tid) | ReplyStatus(t: Tid)

  function ThreadOf(e: Event): Option<Tid> {
    if e.ChildEnds? then None else Some(e.t)
  }

  const INIT := State(Settle(Boot), false, User([], -1), None, map[], map[], 0, None,
                      Grant(0, 0, 0, 0), None)

  function At(s: State, t: Tid): Option<Pc> {
    if t in s.threads then Some(s.threads[t]) else None
  }

  function Go(s: State, t: Tid, pc: Pc): State {
    s.(threads := s.threads[t := pc])
  }

  function Leave(s: State, t: Tid): State {
    s.(threads := s.threads - {t})
  }

  /** `EnsureNotAcquired`, one critical section. */
  function Clear(s: State, t: Tid, r: Routine): Option<State> {
    if t in s.threads || s.lock.Some? then None
    else if s.acquired then Some(s)
    else Some(Go(s, t, Cleared(r, s.now)))
  }

  /** The locked part of `DoTransition`. */
  function TryToEnter(s: State, t: Tid, pc: Pc): State
    requires pc.Cleared?
  {
    if !Admits(s.fsm, pc.routine) then Go(s, t, Rejected(pc.routine)) else
    Go(s, t, Admitted(pc.routine, s.fsm.state)).(
      fsm := Enter(s.fsm, pc.routine),
      actor := Some(t),
      lastReset := if pc.routine == ChipReset then Some(Entry(t, pc.since, s.now)) else s.lastReset)
  }

  function Act(s: State, e: Event): Option<State> {
    match e
    case BeginReset(t) => Clear(s, t, ChipReset)
    case BeginFlash(t) => Clear(s, t, FWFlashing)
    case BeginStart(t) => if t in s.threads then None else Some(Go(s, t, Cleared(FWStarting, s.now)))
    case TryEnter(t) =>
      (match At(s, t) case Some(Cleared(r, a)) => Some(TryToEnter(s, t, Cleared(r, a))) case _ => None)
    case ReportRejected(t) =>
      (match At(s, t) case Some(Rejected(_)) => Some(Leave(s, t)) case _ => None)
    case Fork(t, p) =>
      (match At(s, t)
       case Some(Admitted(r, f)) =>
         if p in s.children then None
         else Some(Go(s, t, Waiting(r, f, p)).(children := s.children[p := Child(t, None)]))
       case _ => None)
    case ForkFails(t) =>
      (match At(s, t) case Some(Admitted(r, f)) => Some(Go(s, t, Ending(r, f, NeverRan))) case _ => None)
    case ChildEnds(p, script) =>
      if p in s.children && s.children[p].ended.None?
      then Some(s.(children := s.children[p := s.children[p].(ended := Some(script))])) else None
    case Reap(t, p) =>
      (match At(s, t)
       case Some(Waiting(r, f, _)) =>
         if p in s.children && s.children[p].ended.Some?
         then Some(Go(s, t, Ending(r, f, Ran(s.children[p].ended.value))).(children := s.children - {p}))
         else None
       case _ => None)
    case NoChild(t) =>
      (match At(s, t)
       case Some(Waiting(r, f, _)) => if s.children == map[] then Some(Go(s, t, Ending(r, f, NeverRan))) else None
       case _ => None)
    case CancelWait(t) =>
      (match At(s, t) case Some(Waiting(r, f, _)) => Some(Go(s, t, Ending(r, f, NeverRan))) case _ => None)
    case Complete(t) =>
      (match At(s, t)
       case Some(Ending(r, _, a)) => Some(Leave(s, t).(fsm := Settle(EndState(r, a)), actor := None))
       case _ => None)
    case BeginConnect(t, user) =>
      if t in s.threads || s.lock.Some? then None
      else if s.acquired then Some(s)
      else Some(Go(s, t, ConnectLocked(user, s.now)).(lock := Some(t)))
    case ReadState(t) =>
      (match At(s, t)
       case Some(ConnectLocked(user, b)) =>
         if s.fsm.state == Running then Some(Go(s, t, ConnectChecked(user, b, s.now)))
         else Some(Leave(s, t).(lock := None))
       case _ => None)
    case ClearFails(t) =>
      (match At(s, t) case Some(ConnectChecked(_, _, _)) => Some(Leave(s, t).(lock := None)) case _ => None)
    case FinishConnect(t) =>
      (match At(s, t)
       case Some(ConnectChecked(user, b, c)) =>
         Some(Leave(s, t).(lock := None, acquired := true, user := user, grant := Grant(t, b, c, s.now)))
       case _ => None)
    case Disconnect(t) =>
      if t in s.threads || s.lock.Some? then None else Some(s.(acquired := false))
    case BeginStatus(t) =>
      if t in s.threads || s.lock.Some? then None else Some(Go(s, t, StatusLocked).(lock := Some(t)))
    case ReadDescription(t) =>
      (match At(s, t) case Some(StatusLocked) => Some(Go(s, t, StatusRead(s.fsm))) case _ => None)
    case ReplyStatus(t) =>
      (match At(s, t) case Some(StatusRead(_)) => Some(Leave(s, t).(lock := None)) case _ => None)
  }

  function Step(s: State, e: Event): Option<State> {
    match Act(s, e)
    case None => None
    case Some(u) => Some(u.(now := s.now + 1))
  }

  /** The state after a log of events, if the machine can produce that log. */
  function Run(h: seq<Event>): Option<State> {
    Fold(Step, INIT, h)
  }

  /** The reply an event hands to the RPC layer, if it ends a call. */
  function Output(s: State, e: Event): Option<Reply> {
    match e
    case BeginReset(t) => if s.acquired then Some(Error(AcquiredText("Reset", s.user))) else None
    case BeginFlash(t) => if s.acquired then Some(Error(AcquiredText("Flash", s.user))) else None
    case ReportRejected(t) =>
      (match At(s, t)
       case Some(Rejected(r)) => Some(Rejection(r, s.fsm.state))
       case _ => None)
    case Complete(t) =>
      (match At(s, t) case Some(Ending(_, _, a)) => Some(ActionReply(a)) case _ => None)
    case BeginConnect(t, _) => if s.acquired then Some(Error(AcquiredText("Connect", s.user))) else None
    case ReadState(t) => if s.fsm.state == Running then None else Some(Error(Ascii(NOT_STARTED)))
    case ClearFails(t) => Some(OsError)
    case FinishConnect(t) => Some(PortPath)
    case Disconnect(t) => Some(if s.acquired then Done else Error(Ascii(NOT_ACQUIRED)))
    case ReplyStatus(t) =>
      (match At(s, t)
       case Some(StatusRead(f)) => Some(Status(ChipStatus(OneByteText(Description(f)), s.acquired, s.user)))
       case _ => None)
    case _ => None
  }

  // ---- Invariants ----

  predicate InTransit(pc: Pc) {
    pc.Admitted? || pc.Waiting? || pc.Ending?
  }

  predicate Locks(pc: Pc) {
    pc.ConnectLocked? || pc.ConnectChecked? || pc.StatusLocked? || pc.StatusRead?
  }

  /** At most one routine at a time, and the FSM says exactly which. */
  ghost predicate Exclusive(s: State) {
    && (forall t :: t in s.threads ==> (InTransit(s.threads[t]) <==> s.actor == Some(t)))
    && (s.actor.Some? ==>
          && s.actor.value in s.threads && InTransit(s.threads[s.actor.value])
          && s.fsm == Fsm(Transition, Some(s.threads[s.actor.value].routine)))
    && (s.actor.None? ==> s.fsm == Settle(s.fsm.state) && s.fsm.state != Transition)
  }

  ghost predicate Mutex(s: State) {
    && (forall t :: t in s.threads ==> (Locks(s.threads[t]) <==> s.lock == Some(t)))
    && (s.lock.Some? ==> s.lock.value in s.threads)
    && (s.acquired && s.lock.Some? ==> !s.threads[s.lock.value].ConnectLocked? && !s.threads[s.lock.value].ConnectChecked?)
  }

  /** Events of calls that never run a routine. */
  predicate PortEvent(e: Event) {
    || e.BeginConnect? || e.ReadState? || e.ClearFails? || e.FinishConnect? || e.Disconnect?
    || e.BeginStatus? || e.ReadDescription? || e.ReplyStatus?
  }

  /** These leave the FSM, the children and every admitted thread alone. */
  lemma PortFrame(s: State, e: Event)
    requires PortEvent(e) && Step(s, e).Some?
    ensures var u := Step(s, e).value;
      && u.fsm == s.fsm && u.actor == s.actor && u.children == s.children && u.lastReset == s.lastReset
      && (forall t :: (t in s.threads && InTransit(s.threads[t])) || (t in u.threads && InTransit(u.threads[t])) ==>
            At(u, t) == At(s, t))
  {
  }

  lemma RoutineKeepsExclusive(s: State, e: Event)
    requires !PortEvent(e) && Exclusive(s) && Step(s, e).Some?
    ensures Exclusive(Step(s, e).value)
  {
  }

  lemma StepKeepsExclusive(s: State, e: Event)
    requires Exclusive(s) && Step(s, e).Some?
    ensures Exclusive(Step(s, e).value)
  {
    if PortEvent(e) {
      PortFrame(s, e);
      assert s.actor.Some? ==> At(Step(s, e).value, s.actor.value) == At(s, s.actor.value);
    } else {
      RoutineKeepsExclusive(s, e);
    }
  }

  lemma PortKeepsMutex(s: State, e: Event)
    requires PortEvent(e) && Mutex(s) && Step(s, e).Some?
    ensures Mutex(Step(s, e).value)
  {
  }

  lemma RoutineKeepsMutex(s: State, e: Event)
    requires !PortEvent(e) && Mutex(s) && Step(s, e).Some?
    ensures Mutex(Step(s, e).value)
  {
  }

  lemma StepKeepsMutex(s: State, e: Event)
    requires Mutex(s) && Step(s, e).Some?
    ensures Mutex(Step(s, e).value)
  {
    if PortEvent(e) {
      PortKeepsMutex(s, e);
    } else {
      RoutineKeepsMutex(s, e);
    }
  }
}
