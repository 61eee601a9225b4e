/** The life of each thread of the server, told by the log: in which order its events come. */
module HandlerLives {
  import opened Bytes
  import opened Runs
  import opened Lifecycle
  import opened CleanupSafety

  // ---- Handlers ----

  /** Events that the handler thread `id` takes itself. */
  predicate IsOwn(e: Event, id: Id) {
    match e
    case Ready(i) => i == id
    case ClientConnects(i) => i == id
    case AcceptFails(i) => i == id
    case SessionEnds(i) => i == id
    case CancelTaken(i) => i == id
    case Push(i) => i == id
    case Release(i) => i == id
    case Exit(i) => i == id
    case _ => false
  }

  function OwnEvents(h: seq<Event>, id: Id): seq<Event> {
    if h == [] then [] else
    var g := OwnEvents(h[..|h| - 1], id);
    if IsOwn(h[|h| - 1], id) then g + [h[|h| - 1]] else g
  }

  /** The five ways through the routine: to the end of a session, a failed Accept, or cancelled on the way. */
  predicate IsRoutine(x: seq<Event>, id: Id) {
    || x == [Ready(id), ClientConnects(id), SessionEnds(id)]
    || x == [Ready(id), AcceptFails(id)]
    || x == [CancelTaken(id)]
    || x == [Ready(id), CancelTaken(id)]
    || x == [Ready(id), ClientConnects(id), CancelTaken(id)]
  }

  /** The routine, and then so much of the Defer's push and the end of the thread. */
  predicate RoutineThen(x: seq<Event>, id: Id, tail: seq<Event>) {
    |tail| <= |x| && x[|x| - |tail|..] == tail && IsRoutine(x[..|x| - |tail|], id)
  }

  /** The events of a handler in state `pc`. */
  predicate LifeOf(x: seq<Event>, id: Id, pc: Handler) {
    match pc
    case Starting => x == []
    case Listening => x == [Ready(id)]
    case Serving => x == [Ready(id), ClientConnects(id)]
    case Unwinding => RoutineThen(x, id, [])
    case Pushing => RoutineThen(x, id, [Push(id)])
    case Released => RoutineThen(x, id, [Push(id), Release(id)])
    case _ => RoutineThen(x, id, [Push(id), Release(id), Exit(id)])
  }

  lemma RoutineThenSnoc(x: seq<Event>, id: Id, tail: seq<Event>, e: Event)
    requires RoutineThen(x, id, tail)
    ensures RoutineThen(x + [e], id, tail + [e])
  {
    var y := x + [e];
    assert y[..|y| - |tail + [e]|] == x[..|x| - |tail|];
    assert y[|y| - |tail + [e]|..] == x[|x| - |tail|..] + [e];
  }

  lemma RoutineDone(x: seq<Event>, id: Id)
    requires IsRoutine(x, id)
    ensures RoutineThen(x, id, [])
  {
    assert x[..|x|] == x;
  }

  /** The steps of the routine. */
  predicate Moves(pc: Handler, e: Event, next: Handler) {
    match e
    case Ready(_) => pc == Starting && next == Listening
    case ClientConnects(_) => pc == Listening && next == Serving
    case AcceptFails(_) => pc == Listening && next == Unwinding
    case SessionEnds(_) => pc == Serving && next == Unwinding
    case CancelTaken(_) => (pc == Starting || pc == Listening || pc == Serving) && next == Unwinding
    case Push(_) => pc == Unwinding && next == Pushing
    case Release(_) => pc == Pushing && next == Released
    case Exit(_) => pc == Released && next == Exited
    case _ => false
  }

  lemma OwnStep(s: State, e: Event, id: Id)
    requires id in s.threads && IsOwn(e, id) && Step(s, e).Some?
    ensures id in Step(s, e).value.threads && Moves(s.threads[id], e, Step(s, e).value.threads[id])
  {
  }

  lemma RoutineEnds(x: seq<Event>, id: Id, pc: Handler, e: Event)
    requires LifeOf(x, id, pc) && IsOwn(e, id) && Moves(pc, e, Unwinding)
    ensures IsRoutine(x + [e], id)
  {
  }

  lemma PushGrows(x: seq<Event>, id: Id)
    requires RoutineThen(x, id, [])
    ensures RoutineThen(x + [Push(id)], id, [Push(id)])
  {
    RoutineThenSnoc(x, id, [], Push(id));
    assert [] + [Push(id)] == [Push(id)];
  }

  lemma ReleaseGrows(x: seq<Event>, id: Id)
    requires RoutineThen(x, id, [Push(id)])
    ensures RoutineThen(x + [Release(id)], id, [Push(id), Release(id)])
  {
    RoutineThenSnoc(x, id, [Push(id)], Release(id));
    assert [Push(id)] + [Release(id)] == [Push(id), Release(id)];
  }

  lemma ExitGrows(x: seq<Event>, id: Id)
    requires RoutineThen(x, id, [Push(id), Release(id)])
    ensures RoutineThen(x + [Exit(id)], id, [Push(id), Release(id), Exit(id)])
  {
    RoutineThenSnoc(x, id, [Push(id), Release(id)], Exit(id));
    assert [Push(id), Release(id)] + [Exit(id)] == [Push(id), Release(id), Exit(id)];
  }

  lemma LifeGoesOn(x: seq<Event>, id: Id, pc: Handler, e: Event, next: Handler)
    requires LifeOf(x, id, pc) && IsOwn(e, id) && Moves(pc, e, next)
    ensures LifeOf(x + [e], id, next)
  {
    match next
    case Unwinding =>
      RoutineEnds(x, id, pc, e);
      RoutineDone(x + [e], id);
    case Pushing => PushGrows(x, id);
    case Released => ReleaseGrows(x, id);
    case Exited => ExitGrows(x, id);
    case _ =>
  }

  /** Others' events leave it where it is, except that cleanup joins it when it has exited. */
  lemma OthersStep(s: State, e: Event, id: Id)
    requires id in s.threads && !IsOwn(e, id) && Step(s, e).Some? && IdsExact(s)
    ensures var u := Step(s, e).value;
      id in u.threads && (u.threads[id] == s.threads[id] || (s.threads[id] == Exited && u.threads[id] == Joined))
  {
  }

  lemma NewThread(s: State, e: Event, id: Id)
    requires id !in s.threads && Step(s, e).Some? && id in Step(s, e).value.threads
    ensures e == Spawn && Step(s, e).value.threads[id] == Starting
  {
  }

  lemma NoThreadNoEvents(s: State, e: Event, id: Id)
    requires Step(s, e).Some? && id !in Step(s, e).value.threads && IdsExact(s)
    ensures !IsOwn(e, id) && id !in s.threads
  {
  }

  lemma {:induction false} UnbornHasNoEvents(h: seq<Event>, id: Id)
    requires Run(h).Some? && id !in Run(h).value.threads
    ensures OwnEvents(h, id) == []
  {
    if h != [] {
      var g := h[..|h| - 1];
      RunsAreExact(g);
      NoThreadNoEvents(Run(g).value, h[|h| - 1], id);
      UnbornHasNoEvents(g, id);
    }
  }

  /** Over every run, every handler has taken exactly the steps of its routine that its state says, in their order. */
  lemma {:induction false} HandlersFollowRoutine(h: seq<Event>, id: Id)
    requires Run(h).Some? && id in Run(h).value.threads
    ensures LifeOf(OwnEvents(h, id), id, Run(h).value.threads[id])
  {
    if h != [] {
      var g, e := h[..|h| - 1], h[|h| - 1];
      var s := Run(g).value;
      RunsAreExact(g);
      if id !in s.threads {
        NewThread(s, e, id);
        UnbornHasNoEvents(g, id);
      } else {
        HandlersFollowRoutine(g, id);
        if IsOwn(e, id) {
          OwnStep(s, e, id);
          LifeGoesOn(OwnEvents(g, id), id, s.threads[id], e, Run(h).value.threads[id]);
        } else {
          OthersStep(s, e, id);
        }
      }
    }
  }

  /** What can happen to each thread next: nobody has to wait for anything but a client, the mutex or a flag. */
  lemma WhoCanMove(s: State, id: Id)
    ensures s.dispatch == Accepting ==> Step(s, Spawn).Some?
    ensures s.dispatch == Inserted(id) ==> (Step(s, Hello(id)).Some? <==> !Is(s, id, Starting))
    ensures s.dispatch == Spawned(id) ==> (Step(s, Insert(id)).Some? <==> s.lock.None?)
    ensures Step(s, DispatchStops).Some? <==> s.dispatch.Accepting? || s.dispatch.Inserted?
    ensures Step(s, Ready(id)).Some? <==> Is(s, id, Starting)
    ensures Step(s, ClientConnects(id)).Some? <==> Is(s, id, Listening)
    ensures Step(s, AcceptFails(id)).Some? <==> Is(s, id, Listening)
    ensures Step(s, SessionEnds(id)).Some? <==> Is(s, id, Serving)
    ensures Step(s, CancelTaken(id)).Some? <==> id in s.cancelled && Inside(s, id)
    ensures Step(s, Push(id)).Some? <==> Is(s, id, Unwinding) && s.lock.None?
    ensures Step(s, Cancel(id)).Some? <==> s.sweeping && id in s.handlers
  {
  }

  /** The same for cleanup and main; cleanup leaves exactly when it wakes to a shutdown with an empty table. */
  lemma CleanupCanMove(s: State, id: Id)
    ensures Step(s, Wake).Some? <==> s.cleanup == Waiting && s.lock.None? && (s.joinables != [] || s.shutdown)
    ensures Step(s, Wake).Some? ==>
      Step(s, Wake).value.cleanup == if s.shutdown && s.handlers == {} then Left else Draining
    ensures Step(s, Join).Some? <==>
      s.cleanup == Draining && s.joinables != [] && (s.joinables[0] in s.handlers ==> Is(s, s.joinables[0], Exited))
    ensures Step(s, Drained).Some? <==> s.cleanup == Draining && s.joinables == []
    ensures Step(s, Release(id)).Some? <==> Is(s, id, Pushing)
    ensures Step(s, Exit(id)).Some? <==> Is(s, id, Released)
    ensures Step(s, Signal).Some? && (Step(s, JoinDispatch).Some? <==> s.shutdown && s.dispatch == Stopped)
  {
  }

  // ---- The queue ----

  /** Ids in the order in which their handlers pushed them. */
  function Pushes(h: seq<Event>): seq<Id> {
    if h == [] then [] else
    var g := Pushes(h[..|h| - 1]);
    if h[|h| - 1].Push? then g + [h[|h| - 1].id] else g
  }

  lemma QueueStep(s: State, e: Event)
    requires Step(s, e).Some?
    ensures var u := Step(s, e).value;
      u.joined + u.joinables == s.joined + s.joinables + if e.Push? then [e.id] else []
  {
    if e.Join? {
      assert s.joinables == [s.joinables[0]] + s.joinables[1..];
    }
  }

  /** Over every run handlers are joined in the order in which they left: joined and queued ids are all pushes so far. */
  lemma {:induction false} JoinedInOrder(h: seq<Event>)
    requires Run(h).Some?
    ensures Run(h).value.joined + Run(h).value.joinables == Pushes(h)
  {
    if h != [] {
      JoinedInOrder(h[..|h| - 1]);
      QueueStep(Run(h[..|h| - 1]).value, h[|h| - 1]);
    }
  }

  // ---- Dispatch and main ----

  /** Main sweeps only after it was told to shut down and has joined a dispatch that stopped. */
  ghost predicate SweepLogged(h: seq<Event>, s: State) {
    && (s.shutdown ==> Signal in h)
    && (s.dispatch == Stopped ==> DispatchStops in h)
    && (s.sweeping ==> s.shutdown && s.dispatch == Stopped && JoinDispatch in h)
    && (s.cancelled != {} ==> s.sweeping)
  }

  lemma SweepStep(h: seq<Event>, s: State, e: Event)
    requires SweepLogged(h, s) && Step(s, e).Some?
    ensures SweepLogged(h + [e], Step(s, e).value)
  {
    assert e in h + [e];
    assert forall x :: x in h ==> x in h + [e];
  }

  lemma {:induction false} SweepsAreLogged(h: seq<Event>)
    requires Run(h).Some?
    ensures SweepLogged(h, Run(h).value)
  {
    if h != [] {
      SweepsAreLogged(h[..|h| - 1]);
      SweepStep(h[..|h| - 1], Run(h[..|h| - 1]).value, h[|h| - 1]);
      assert h == h[..|h| - 1] + [h[|h| - 1]];
    }
  }

  /** Every cancellation comes after the signal, after dispatch stopped and after main joined it. */
  lemma CancelsComeLast(h: seq<Event>, k: nat)
    requires Run(h).Some? && k < |h| && (h[k].Cancel? || h[k].CancelTaken?)
    ensures Signal in h[..k] && DispatchStops in h[..k] && JoinDispatch in h[..k]
  {
    RunStep(h, k);
    SweepsAreLogged(h[..k]);
  }

  lemma ReadyInLife(x: seq<Event>, id: Id, pc: Handler)
    requires LifeOf(x, id, pc) && pc != Starting
    ensures x != [] && (x[0] == Ready(id) || x[0] == CancelTaken(id))
  {
  }

  lemma {:induction false} OwnAreLogged(h: seq<Event>, id: Id, e: Event)
    requires e in OwnEvents(h, id)
    ensures e in h
  {
    var g := h[..|h| - 1];
    if e in OwnEvents(g, id) {
      OwnAreLogged(g, id, e);
      assert h == g + [h[|h| - 1]];
    }
  }

  /** A hello is sent only for a handler in the table that has said it is ready. */
  lemma HelloComesAfterReady(h: seq<Event>, k: nat)
    requires Run(h).Some? && k < |h| && h[k].Hello?
    ensures Ready(h[k].id) in h[..k] && Insert(h[k].id) in h[..k]
  {
    var id, g := h[k].id, h[..k];
    RunStep(h, k);
    var j := InsertedHasInsert(g, id);
    RunsAreExact(g);
    InsertedStays(g, j);
    HandlersFollowRoutine(g, id);
    ReadyInLife(OwnEvents(g, id), id, Run(g).value.threads[id]);
    var first := OwnEvents(g, id)[0];
    assert first in OwnEvents(g, id);
    OwnAreLogged(g, id, first);
    if first == CancelTaken(id) {
      NoCancelBefore(g, first);
    }
  }

  lemma NoCancelBefore(g: seq<Event>, e: Event)
    requires Run(g).Some? && Run(g).value.dispatch != Stopped && e in g
    ensures !e.CancelTaken?
  {
    var i :| 0 <= i < |g| && g[i] == e;
    if e.CancelTaken? {
      CancelsComeLast(g, i);
      var j :| 0 <= j < i && g[..i][j] == DispatchStops;
      StaysStopped(g, j);
    }
  }

  lemma StopStep(s: State, e: Event)
    requires Step(s, e).Some? && (e == DispatchStops || s.dispatch == Stopped)
    ensures Step(s, e).value.dispatch == Stopped
  {
  }

  lemma {:induction false} StaysStopped(h: seq<Event>, j: nat)
    requires Run(h).Some? && j < |h| && h[j] == DispatchStops
    ensures Run(h).value.dispatch == Stopped
  {
    var g := h[..|h| - 1];
    if j < |g| {
      StaysStopped(g, j);
    }
    StopStep(Run(g).value, h[|h| - 1]);
  }
}
