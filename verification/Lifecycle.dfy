/**
 The server's threads: dispatch, one handler per client, cleanup and main. They share the table of handler
 threads, the queue of joinable ids, the shutdown flag and one mutex. One event is one critical section or
 one step outside it; reads of the flags without the mutex count as one step each.
 */
module Lifecycle {
  import opened Bytes
  import opened Runs

  type Id = nat

  datatype Dispatch =
    | Accepting           // waiting for, or between, clients
    | Spawned(id: Id)     // the handler thread runs but is not in the table yet
    | Inserted(id: Id)    // in the table; waiting for its ready flag
    | Stopped

  datatype Handler =
    | Starting            // before the ready flag
    | Listening           // ready, waiting in Accept
    | Serving             // a client is connected
    | Unwinding           // left the routine; the Defer wants the mutex
    | Pushing             // holds the mutex, id is in the queue
    | Released            // gave the mutex back for the last time
    | Exited
    | Joined

  datatype Cleanup =
    | Waiting             // on the condition variable, without the mutex
    | Draining            // holds the mutex
    | Crashed             // Handlers.at(id) threw
    | Left

  datatype Owner = ByCleanup | ByHandler(id: Id)

  datatype State = State(
    dispatch: Dispatch,
    nextId: nat,
    threads: map<Id, Handler>,    // every handler thread ever created
    handlers: set<Id>,            // the table Handlers
    joinables: seq<Id>,           // the queue Joinables
    cancelled: set<Id>,
    lock: Option<Owner>,          // JoinablesMutex
    cleanup: Cleanup,
    sweeping: bool,               // main has joined dispatch and cancels handlers
    shutdown: bool,
    joined: seq<Id>)              // aux: ids in the order they were joined

  datatype Event =
    | Spawn | Insert(id: Id) | Hello(id: Id) | DispatchStops
    | Ready(id: Id) | ClientConnects(id: Id) | AcceptFails(id: Id) | SessionEnds(id: Id)
    | CancelTaken(id: Id) | Push(id: Id) | Release(id: Id) | Exit(id: Id)
    | Wake | Join | Drained
    | Signal | JoinDispatch | Cancel(id: Id)

  const INIT := State(Accepting, 0, map[], {}, [], {}, None, Waiting, false, false, [])

  predicate Is(s: State, id: Id, pc: Handler) {
    id in s.threads && s.threads[id] == pc
  }

  function To(s: State, id: Id, pc: Handler): State {
    s.(threads := s.threads[id := pc])
  }

  function Step(s: State, e: Event): Option<State> {
    match e
    case Spawn =>
      if s.dispatch != Accepting then None else
      Some(To(s, s.nextId, Starting).(dispatch := Spawned(s.nextId), nextId := s.nextId + 1))
    case Insert(id) =>
      if s.dispatch != Spawned(id) || s.lock.Some? then None else
      Some(s.(dispatch := Inserted(id), handlers := s.handlers + {id}))
    case Hello(id) =>
      if s.dispatch != Inserted(id) || Is(s, id, Starting) then None else Some(s.(dispatch := Accepting))
    case DispatchStops =>
      if s.dispatch.Spawned? || s.dispatch.Stopped? then None else Some(s.(dispatch := Stopped))
    case Ready(id) => if Is(s, id, Starting) then Some(To(s, id, Listening)) else None
    case ClientConnects(id) =>
      if Is(s, id, Listening) then Some(To(s, id, Serving)) else None
    case AcceptFails(id) => if Is(s, id, Listening) then Some(To(s, id, Unwinding)) else None
    case SessionEnds(id) => if Is(s, id, Serving) then Some(To(s, id, Unwinding)) else None
    case CancelTaken(id) =>
      if id in s.cancelled && (Is(s, id, Starting) || Is(s, id, Listening) || Is(s, id, Serving))
      then Some(To(s, id, Unwinding)) else None
    case Push(id) =>
      if !Is(s, id, Unwinding) || s.lock.Some? then None else
      Some(To(s, id, Pushing).(joinables := s.joinables + [id], lock := Some(ByHandler(id))))
    case Release(id) => if Is(s, id, Pushing) then Some(To(s, id, Released).(lock := None)) else None
    case Exit(id) => if Is(s, id, Released) then Some(To(s, id, Exited)) else None
    case Wake =>
      if s.cleanup != Waiting || s.lock.Some? || (s.joinables == [] && !s.shutdown) then None
      else if s.shutdown && s.handlers == {} then Some(s.(cleanup := Left))
      else Some(s.(cleanup := Draining, lock := Some(ByCleanup)))
    case Join =>
      if s.cleanup != Draining || s.joinables == [] then None else
      var id := s.joinables[0];
      if id !in s.handlers then Some(s.(cleanup := Crashed)) else
      if !Is(s, id, Exited) then None else
      Some(To(s, id, Joined).(handlers := s.handlers - {id}, joinables := s.joinables[1..], joined := s.joined + [id]))
    case Drained =>
      if s.cleanup == Draining && s.joinables == [] then Some(s.(cleanup := Waiting, lock := None)) else None
    case Signal => Some(s.(shutdown := true))
    case JoinDispatch => if s.shutdown && s.dispatch == Stopped then Some(s.(sweeping := true)) else None
    case Cancel(id) =>
      if s.sweeping && id in s.handlers then Some(s.(cancelled := s.cancelled + {id})) else None
  }

  function Run(h: seq<Event>): Option<State> {
    Fold(Step, INIT, h)
  }

  // ---- Invariants ----

  predicate Queued(pc: Handler) {
    pc == Pushing || pc == Released || pc == Exited
  }

  ghost predicate Distinct(x: seq<Id>) {
    forall i, j :: 0 <= i < j < |x| ==> x[i] != x[j]
  }

  ghost predicate IdsExact(s: State) {
    && (forall id: Id :: id in s.threads <==> id < s.nextId)
    && (s.dispatch.Spawned? ==> s.dispatch.id + 1 == s.nextId)
  }

  /** Every thread is joined, in the table, or the one not yet inserted. */
  ghost predicate TableExact(s: State) {
    && (forall id :: id in s.threads ==>
          (id in s.handlers <==> s.threads[id] != Joined && s.dispatch != Spawned(id)))
    && (forall id :: id in s.handlers ==> id in s.threads)
    && (s.dispatch.Spawned? ==> !Is(s, s.dispatch.id, Joined))
  }

  /** The joined ids are exactly the threads joined, each once. */
  ghost predicate JoinedExact(s: State) {
    && (forall id :: id in s.joined <==> Is(s, id, Joined))
    && Distinct(s.joined)
  }

  /** The queue holds exactly the ids whose handler has pushed and is not joined, each once. */
  ghost predicate QueueExact(s: State) {
    && (forall id :: id in s.joinables <==> id in s.threads && Queued(s.threads[id]))
    && Distinct(s.joinables)
  }

  ghost predicate MutexExact(s: State) {
    && (forall id :: id in s.threads ==> (s.threads[id] == Pushing <==> s.lock == Some(ByHandler(id))))
    && (s.lock.Some? && s.lock.value.ByHandler? ==> s.lock.value.id in s.threads)
    && (s.cleanup == Draining ==> s.lock == Some(ByCleanup))
    && (s.lock == Some(ByCleanup) ==> s.cleanup == Draining || s.cleanup == Crashed)
  }

  /** Cancellations go only to handlers in the table. */
  ghost predicate CalledAfterInsert(s: State) {
    forall id :: id in s.cancelled ==> id in s.threads && s.dispatch != Spawned(id)
  }

  /** The handler's thread has not left its routine. */
  predicate Inside(s: State, id: Id) {
    Is(s, id, Starting) || Is(s, id, Listening) || Is(s, id, Serving)
  }

  /** A handler that is not in the table yet has left its routine already. */
  predicate LeftEarly(s: State) {
    s.dispatch.Spawned? && !Inside(s, s.dispatch.id)
  }

  /** The events by which a handler leaves its routine of its own accord. */
  predicate Leaves(e: Event) {
    e.AcceptFails? || e.SessionEnds?
  }

  lemma StepKeepsIds(s: State, e: Event)
    requires IdsExact(s) && Step(s, e).Some?
    ensures IdsExact(Step(s, e).value)
  {
  }

  /** Only spawning, inserting and joining touch the table or make a thread joined. */
  lemma TableFrame(s: State, e: Event)
    requires Step(s, e).Some? && !e.Spawn? && !e.Insert? && !e.Join?
    ensures var u := Step(s, e).value;
      && u.handlers == s.handlers && u.joined == s.joined && u.threads.Keys == s.threads.Keys
      && (forall id :: id in s.threads ==> (u.threads[id] == Joined <==> s.threads[id] == Joined))
      && (u.dispatch == s.dispatch || (!u.dispatch.Spawned? && !s.dispatch.Spawned?))
  {
  }

  lemma StepKeepsTable(s: State, e: Event)
    requires IdsExact(s) && TableExact(s) && Step(s, e).Some?
    ensures TableExact(Step(s, e).value)
  {
    if e.Spawn? {
    } else if e.Insert? {
    } else if e.Join? {
    } else {
      TableFrame(s, e);
    }
  }

  lemma DistinctSnoc(x: seq<Id>, id: Id)
    requires Distinct(x) && id !in x
    ensures Distinct(x + [id])
  {
  }

  lemma StepKeepsJoined(s: State, e: Event)
    requires IdsExact(s) && JoinedExact(s) && Step(s, e).Some?
    ensures JoinedExact(Step(s, e).value)
  {
    if e.Join? {
      if s.joinables[0] in s.handlers {
        DistinctSnoc(s.joined, s.joinables[0]);
      }
    } else if !e.Spawn? && !e.Insert? {
      TableFrame(s, e);
    }
  }

  /** Only pushing and joining change the queue or whether a thread counts as queued. */
  lemma QueueFrame(s: State, e: Event)
    requires IdsExact(s) && Step(s, e).Some? && !e.Push? && !e.Join?
    ensures var u := Step(s, e).value;
      && u.joinables == s.joinables
      && (forall id :: (id in u.threads && Queued(u.threads[id])) <==> (id in s.threads && Queued(s.threads[id])))
  {
  }

  lemma StepKeepsQueue(s: State, e: Event)
    requires IdsExact(s) && QueueExact(s) && Step(s, e).Some?
    ensures QueueExact(Step(s, e).value)
  {
    if e.Push? {
      DistinctSnoc(s.joinables, e.id);
    } else if !e.Join? {
      QueueFrame(s, e);
    }
  }

  lemma StepKeepsMutex(s: State, e: Event)
    requires IdsExact(s) && MutexExact(s) && Step(s, e).Some?
    ensures MutexExact(Step(s, e).value)
  {
  }

  lemma StepKeepsCalled(s: State, e: Event)
    requires IdsExact(s) && TableExact(s) && CalledAfterInsert(s) && Step(s, e).Some?
    ensures CalledAfterInsert(Step(s, e).value)
  {
  }

  /** Only a handler that leaves before its insert leaves early. */
  lemma StepKeepsFresh(s: State, e: Event)
    requires IdsExact(s) && CalledAfterInsert(s) && !LeftEarly(s) && Step(s, e).Some?
    requires Leaves(e) ==> s.dispatch != Spawned(e.id)
    ensures !LeftEarly(Step(s, e).value)
  {
  }
}
