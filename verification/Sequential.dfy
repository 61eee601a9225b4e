/** When calls do not overlap, the interleaving machine does what the methods of `HandlerImpl` promise. */
module Sequential {
  import opened Bytes
  import opened Runs
  import opened Codec
  import opened Firmware
  import opened Arbitration
  import opened PortSafety

  function ArbiterOf(s: State): Arbiter {
    Arbiter(s.fsm, s.acquired, s.user)
  }

  /** The event `b` begins the call `q` of thread t. */
  predicate Asks(b: Event, t: Tid, q: Request) {
    match q
    case AskReset(_) => b == BeginReset(t)
    case AskFlash(_) => b == BeginFlash(t)
    case AskStart(_) => b == BeginStart(t)
    case AskConnect(user, _) => b == BeginConnect(t, user)
    case AskDisconnect => b == Disconnect(t)
    case AskStatus => b == BeginStatus(t)
  }

  predicate LetThrough(v: Arbiter, r: Routine) {
    r == FWStarting || !v.acquired
  }

  /** Where the call that b began in `v` stands, alone, at `pc`. */
  predicate Midway(v: Arbiter, b: Event, t: Tid, pc: Pc, w: Arbiter) {
    match pc
    case Cleared(r, _) => b == BeginOf(r, t) && LetThrough(v, r) && w == v
    case Rejected(r) => b == BeginOf(r, t) && LetThrough(v, r) && w == v && v.fsm.state !in Expected(r)
    case ConnectLocked(user, _) => b == BeginConnect(t, user) && !v.acquired && w == v
    case ConnectChecked(user, _, _) => b == BeginConnect(t, user) && !v.acquired && v.fsm.state == Running && w == v
    case StatusLocked => b == BeginStatus(t) && w == v
    case StatusRead(f) => b == BeginStatus(t) && w == v && f == v.fsm
    case _ =>
      && b == BeginOf(pc.routine, t) && LetThrough(v, pc.routine) && v.fsm.state in Expected(pc.routine)
      && w == v.(fsm := Fsm(Transition, Some(pc.routine)))
  }

  /** What an event makes of the only call there is: it goes on, or it is answered as promised. */
  ghost predicate GoesOn(v: Arbiter, b: Event, t: Tid, s: State, e: Event, u: State) {
    if t in u.threads
    then u.threads == map[t := u.threads[t]] && Midway(v, b, t, u.threads[t], ArbiterOf(u)) && Output(s, e).None?
    else
      && u.threads == map[] && Output(s, e).Some?
      && exists q :: Asks(b, t, q) && Served(v, q, ArbiterOf(u), Output(s, e).value)
  }

  function AskOf(r: Routine, a: Action): Request {
    match r
    case ChipReset => AskReset(a)
    case FWFlashing => AskFlash(a)
    case FWStarting => AskStart(a)
  }

  lemma RoutineBegins(s: State, e: Event, t: Tid, r: Routine)
    requires s.threads == map[] && e == BeginOf(r, t) && Step(s, e).Some?
    ensures GoesOn(ArbiterOf(s), e, t, s, e, Step(s, e).value)
  {
    var u := Step(s, e).value;
    if u.threads == map[] {
      var q := AskOf(r, NeverRan);
      assert Asks(e, t, q) && Served(ArbiterOf(s), q, ArbiterOf(u), Output(s, e).value);
    }
  }

  lemma PortCallBegins(s: State, e: Event)
    requires s.threads == map[] && (e.BeginConnect? || e.Disconnect? || e.BeginStatus?) && Step(s, e).Some?
    ensures GoesOn(ArbiterOf(s), e, e.t, s, e, Step(s, e).value)
  {
    var u := Step(s, e).value;
    if e.Disconnect? {
      assert Asks(e, e.t, AskDisconnect) && Served(ArbiterOf(s), AskDisconnect, ArbiterOf(u), Output(s, e).value);
    } else if e.BeginConnect? && s.acquired {
      var q := AskConnect(e.user, true);
      assert Asks(e, e.t, q) && Served(ArbiterOf(s), q, ArbiterOf(u), Output(s, e).value);
    }
  }

  lemma CallBegins(s: State, e: Event)
    requires s.threads == map[] && BeginsCall(e) && Step(s, e).Some?
    ensures GoesOn(ArbiterOf(s), e, e.t, s, e, Step(s, e).value)
  {
    match e
    case BeginReset(t) => RoutineBegins(s, e, t, ChipReset);
    case BeginFlash(t) => RoutineBegins(s, e, t, FWFlashing);
    case BeginStart(t) => RoutineBegins(s, e, t, FWStarting);
    case _ => PortCallBegins(s, e);
  }

  ghost predicate AloneAt(v: Arbiter, b: Event, t: Tid, s: State) {
    t in s.threads && s.threads == map[t := s.threads[t]] && Midway(v, b, t, s.threads[t], ArbiterOf(s))
  }

  lemma RoutineEnds(v: Arbiter, b: Event, t: Tid, s: State, e: Event)
    requires AloneAt(v, b, t, s) && (e == ReportRejected(t) || e == Complete(t)) && Step(s, e).Some?
    ensures GoesOn(v, b, t, s, e, Step(s, e).value)
  {
    var pc, u := s.threads[t], Step(s, e).value;
    var q := AskOf(pc.routine, if pc.Ending? then pc.action else NeverRan);
    assert u.threads == map[];
    assert Asks(b, t, q);
    assert RoutineServed(v, pc.routine, q.action, ArbiterOf(u), Output(s, e).value);
    assert Served(v, q, ArbiterOf(u), Output(s, e).value);
  }

  /** Events inside a running routine. */
  predicate MovesInside(e: Event) {
    e.Fork? || e.ForkFails? || e.Reap? || e.NoChild? || e.CancelWait?
  }

  lemma InsideStep(s: State, e: Event, t: Tid)
    requires MovesInside(e) && Step(s, e).Some? && t in s.threads && s.threads == map[t := s.threads[t]]
    ensures var u := Step(s, e).value;
      && e.t == t && InTransit(s.threads[t]) && ArbiterOf(u) == ArbiterOf(s) && Output(s, e).None?
      && t in u.threads && u.threads == s.threads[t := u.threads[t]]
      && InTransit(u.threads[t]) && u.threads[t].routine == s.threads[t].routine
  {
  }

  lemma RoutineGoesOn(v: Arbiter, b: Event, t: Tid, s: State, e: Event)
    requires AloneAt(v, b, t, s) && MovesInside(e) && Step(s, e).Some?
    ensures GoesOn(v, b, t, s, e, Step(s, e).value)
  {
    InsideStep(s, e, t);
  }

  lemma TryGoesOn(v: Arbiter, b: Event, t: Tid, s: State, e: Event)
    requires AloneAt(v, b, t, s) && e.TryEnter? && Step(s, e).Some?
    ensures GoesOn(v, b, t, s, e, Step(s, e).value)
  {
    assert e.t == t;
  }

  lemma ScriptEnds(v: Arbiter, b: Event, t: Tid, s: State, e: Event)
    requires AloneAt(v, b, t, s) && e.ChildEnds? && Step(s, e).Some?
    ensures GoesOn(v, b, t, s, e, Step(s, e).value)
  {
  }

  lemma PortCallGoesOn(v: Arbiter, b: Event, t: Tid, s: State, e: Event)
    requires AloneAt(v, b, t, s) && PortEvent(e) && !BeginsCall(e) && Step(s, e).Some?
    ensures GoesOn(v, b, t, s, e, Step(s, e).value)
  {
    var pc, u := s.threads[t], Step(s, e).value;
    if t !in u.threads {
      assert u.threads == map[];
      var q := if pc.StatusRead? then AskStatus else AskConnect(pc.user, e.FinishConnect?);
      assert Asks(b, t, q) && Served(v, q, ArbiterOf(u), Output(s, e).value);
    }
  }

  lemma CallGoesOn(v: Arbiter, b: Event, t: Tid, s: State, e: Event)
    requires AloneAt(v, b, t, s) && !BeginsCall(e) && Step(s, e).Some?
    ensures GoesOn(v, b, t, s, e, Step(s, e).value)
  {
    if PortEvent(e) {
      PortCallGoesOn(v, b, t, s, e);
    } else if e.ReportRejected? || e.Complete? {
      RoutineEnds(v, b, t, s, e);
    } else if MovesInside(e) {
      RoutineGoesOn(v, b, t, s, e);
    } else if e.TryEnter? {
      TryGoesOn(v, b, t, s, e);
    } else {
      ScriptEnds(v, b, t, s, e);
    }
  }

  // ---- Whole runs ----

  lemma OneAtATimePrefix(h: seq<Event>)
    requires Run(h).Some? && OneAtATime(h) && h != []
    ensures Run(h[..|h| - 1]).Some? && OneAtATime(h[..|h| - 1])
  {
    var g := h[..|h| - 1];
    forall k | 0 <= k < |g| && BeginsCall(g[k])
      ensures Run(g[..k]).Some? && Run(g[..k]).value.threads == map[]
    {
      assert g[..k] == h[..k] && BeginsCall(h[k]);
    }
  }

  /** The last call began at a, and nothing was called since. */
  ghost predicate LastBegan(h: seq<Event>, a: nat) {
    a < |h| && BeginsCall(h[a]) && Run(h[..a]).Some? && forall k :: a < k < |h| ==> !BeginsCall(h[k])
  }

  /** What the last event of a run did to the call that began at a. */
  ghost predicate Moved(h: seq<Event>, a: nat)
    requires Run(h).Some? && LastBegan(h, a)
  {
    && Run(h[..|h| - 1]).Some?
    && GoesOn(ArbiterOf(Run(h[..a]).value), h[a], h[a].t, Run(h[..|h| - 1]).value, h[|h| - 1], Run(h).value)
  }

  lemma BeganNow(h: seq<Event>)
    requires Run(h).Some? && OneAtATime(h) && h != [] && BeginsCall(h[|h| - 1])
    ensures LastBegan(h, |h| - 1) && Moved(h, |h| - 1)
  {
    OneAtATimePrefix(h);
    CallBegins(Run(h[..|h| - 1]).value, h[|h| - 1]);
  }

  lemma BeganBefore(h: seq<Event>, a: nat)
    requires Run(h).Some? && h != [] && !BeginsCall(h[|h| - 1]) && Run(h[..|h| - 1]).Some? && LastBegan(h[..|h| - 1], a)
    requires var g := h[..|h| - 1]; AloneAt(ArbiterOf(Run(g[..a]).value), g[a], g[a].t, Run(g).value)
    ensures LastBegan(h, a) && Moved(h, a)
  {
    var g := h[..|h| - 1];
    assert g[..a] == h[..a];
    CallGoesOn(ArbiterOf(Run(g[..a]).value), g[a], g[a].t, Run(g).value, h[|h| - 1]);
  }

  /** In a run of calls made one at a time, the last event belongs to the last call. */
  lemma {:induction false} LastCall(h: seq<Event>) returns (a: nat)
    requires Run(h).Some? && OneAtATime(h) && h != []
    requires BeginsCall(h[|h| - 1]) || Run(h[..|h| - 1]).value.threads != map[]
    ensures LastBegan(h, a) && Moved(h, a)
    decreases |h|, 0
  {
    if BeginsCall(h[|h| - 1]) {
      a := |h| - 1;
      BeganNow(h);
    } else {
      OneAtATimePrefix(h);
      a := OpenCall(h[..|h| - 1]);
      BeganBefore(h, a);
    }
  }

  lemma NoThreadNoEvent(s: State, e: Event)
    requires s.threads == map[] && Step(s, e).Some? && !BeginsCall(e)
    ensures Step(s, e).value.threads == map[]
  {
  }

  /** The call that is open at the end of such a run. */
  lemma {:induction false} OpenCall(h: seq<Event>) returns (a: nat)
    requires Run(h).Some? && OneAtATime(h) && Run(h).value.threads != map[]
    ensures LastBegan(h, a) && AloneAt(ArbiterOf(Run(h[..a]).value), h[a], h[a].t, Run(h).value)
    decreases |h|, 1
  {
    var g, e := h[..|h| - 1], h[|h| - 1];
    if !BeginsCall(e) && Run(g).value.threads == map[] {
      NoThreadNoEvent(Run(g).value, e);
    }
    a := LastCall(h);
  }

  /**
   Over every run of calls made one at a time: each reply ends the last call begun, at a, and reply and new state
   are those the method of `HandlerImpl` promises from the state at a.
   */
  lemma CallsDoAsPromised(h: seq<Event>) returns (a: nat, q: Request)
    requires Run(h).Some? && OneAtATime(h) && h != []
    requires Run(h[..|h| - 1]).Some? && Output(Run(h[..|h| - 1]).value, h[|h| - 1]).Some?
    ensures LastBegan(h, a) && Asks(h[a], h[a].t, q) && Run(h).value.threads == map[]
    ensures Served(ArbiterOf(Run(h[..a]).value), q, ArbiterOf(Run(h).value), Output(Run(h[..|h| - 1]).value, h[|h| - 1]).value)
  {
    AnswerNeedsCall(Run(h[..|h| - 1]).value, h[|h| - 1]);
    a := LastCall(h);
    q :| Asks(h[a], h[a].t, q) &&
      Served(ArbiterOf(Run(h[..a]).value), q, ArbiterOf(Run(h).value), Output(Run(h[..|h| - 1]).value, h[|h| - 1]).value);
  }

  lemma AnswerNeedsCall(s: State, e: Event)
    requires Step(s, e).Some? && Output(s, e).Some?
    ensures BeginsCall(e) || s.threads != map[]
  {
  }
}
