/**
 The shutdown sequence of `Run`: stop dispatch, cancel every handler, let cleanup join them all. It needs
 nothing from the clients: handlers that serve or wait for one are cancelled.
 */
module Shutdown {
  import opened Bytes
  import opened Runs
  import opened Lifecycle
  import opened CleanupSafety

  /** Steps of the daemon itself that serve no client: no new thread, no client connects, leaves or fails to. */
  predicate Silent(e: Event) {
    !e.Spawn? && !e.Hello? && !e.Ready? && !e.ClientConnects? && !e.AcceptFails? && !e.SessionEnds?
  }

  ghost predicate AllSilent(g: seq<Event>) {
    forall e :: e in g ==> Silent(e)
  }

  ghost predicate Good(s: State) {
    Exact(s) && s.nextId == Count(s)
  }

  /** The daemon alone can go from s to u. */
  ghost predicate Leads(s: State, g: seq<Event>, u: State) {
    AllSilent(g) && Fold(Step, s, g) == Some(u)
  }

  lemma LeadsOn(s: State, g: seq<Event>, u: State, f: seq<Event>, v: State)
    requires Leads(s, g, u) && Leads(u, f, v)
    ensures Leads(s, g + f, v)
  {
    FoldConcat(Step, s, g, f);
  }

  lemma One(s: State, e: Event) returns (u: State)
    requires Good(s) && Silent(e) && Step(s, e).Some?
    ensures Leads(s, [e], u) && Step(s, e) == Some(u) && Good(u)
  {
    FoldOne(s, e);
    StepKeepsExact(s, e);
    StepKeepsCount(s, e);
    u := Step(s, e).value;
  }

  lemma {:induction false} GoodAlong(s: State, g: seq<Event>)
    requires Good(s) && Fold(Step, s, g).Some?
    ensures Good(Fold(Step, s, g).value)
  {
    if g != [] {
      GoodAlong(s, g[..|g| - 1]);
      StepKeepsExact(Fold(Step, s, g[..|g| - 1]).value, g[|g| - 1]);
      StepKeepsCount(Fold(Step, s, g[..|g| - 1]).value, g[|g| - 1]);
    }
  }

  // ---- Cleanup waits and the mutex is free ----

  predicate Free(s: State) {
    s.cleanup == Waiting && s.lock.None?
  }

  lemma Drains(s: State) returns (g: seq<Event>, u: State)
    requires Good(s) && s.cleanup == Draining && !QueueHasSpawned(s)
    ensures Leads(s, g, u) && Good(u) && Free(u) && SameMain(s, u)
    ensures u.joinables == [] && u.handlers == DrainAll(TablesOf(s)).handlers
  {
    g, u := DrainIsRun(s);
    GoodAlong(s, g);
    var v := One(u, Drained);
    LeadsOn(s, g, u, [Drained], v);
    g, u := g + [Drained], v;
  }

  lemma Frees(s: State) returns (g: seq<Event>, u: State)
    requires Good(s) && (s.cleanup == Waiting || (s.cleanup == Draining && !QueueHasSpawned(s)))
    ensures Leads(s, g, u) && Good(u) && Free(u) && SameMain(s, u)
  {
    if s.cleanup == Draining {
      g, u := Drains(s);
    } else if s.lock.Some? {
      var id := s.lock.value.id;
      g := [Release(id)];
      u := One(s, Release(id));
    } else {
      g, u := [], s;
    }
  }

  // ---- Main stops dispatch ----

  predicate Sweeps(s: State) {
    Free(s) && s.dispatch == Stopped && s.shutdown && s.sweeping
  }

  lemma Inserts(s: State) returns (g: seq<Event>, u: State)
    requires Good(s) && Free(s)
    ensures Leads(s, g, u) && Good(u) && Free(u) && !u.dispatch.Spawned?
  {
    g, u := [], s;
    if s.dispatch.Spawned? {
      g := [Insert(s.dispatch.id)];
      u := One(s, Insert(s.dispatch.id));
    }
  }

  lemma Stops(s: State) returns (g: seq<Event>, u: State)
    requires Good(s) && Free(s) && !s.dispatch.Spawned?
    ensures Leads(s, g, u) && Good(u) && Free(u) && u.dispatch == Stopped
  {
    g, u := [], s;
    if s.dispatch != Stopped {
      g := [DispatchStops];
      u := One(s, DispatchStops);
    }
  }

  lemma BeginsSweep(s: State) returns (g: seq<Event>, u: State)
    requires Good(s) && Free(s)
    ensures Leads(s, g, u) && Good(u) && Sweeps(u)
  {
    g, u := Inserts(s);
    var f, v := Stops(u);
    LeadsOn(s, g, u, f, v);
    g, u := g + f, v;
    v := One(u, Signal);
    LeadsOn(s, g, u, [Signal], v);
    g, u := g + [Signal], v;
    v := One(u, JoinDispatch);
    LeadsOn(s, g, u, [JoinDispatch], v);
    g, u := g + [JoinDispatch], v;
  }

  // ---- Handlers leave and are joined ----

  /** Whoever is still inside its routine is cancelled and leaves it. */
  lemma Cancels(s: State, id: Id) returns (g: seq<Event>, u: State)
    requires Good(s) && Sweeps(s) && id in s.handlers && s.joinables == []
    ensures Leads(s, g, u) && Good(u) && Sweeps(u) && u.handlers == s.handlers && u.joinables == []
    ensures Is(u, id, Unwinding)
  {
    assert Inside(s, id) || Is(s, id, Unwinding) by {
      assert id in s.threads && s.threads[id] != Joined;
      assert !Queued(s.threads[id]);
    }
    g, u := [], s;
    if Inside(s, id) {
      var v := One(s, Cancel(id));
      u := One(v, CancelTaken(id));
      LeadsOn(s, [Cancel(id)], v, [CancelTaken(id)], u);
      g := [Cancel(id)] + [CancelTaken(id)];
    }
  }

  /** A handler that has left queues its id and lets the mutex go. */
  lemma Queues(s: State, id: Id) returns (g: seq<Event>, u: State)
    requires Good(s) && Sweeps(s) && Is(s, id, Unwinding) && s.joinables == []
    ensures Leads(s, g, u) && Good(u) && Sweeps(u) && u.handlers == s.handlers && u.joinables == [id]
  {
    var v := One(s, Push(id));
    u := One(v, Release(id));
    LeadsOn(s, [Push(id)], v, [Release(id)], u);
    g := [Push(id)] + [Release(id)];
  }

  lemma DrainRemoves(s: State)
    requires Exact(s) && s.dispatch == Stopped && s.joinables != []
    ensures |DrainAll(TablesOf(s)).handlers| < |s.handlers|
  {
    assert forall id :: id in s.joinables ==> id in s.handlers;
    DrainJoinsAll(TablesOf(s));
    var id := s.joinables[0];
    assert id in s.joinables;
    SmallerSet(s.handlers, (set k | k in s.joinables), id);
  }

  lemma SmallerSet(x: set<Id>, y: set<Id>, id: Id)
    requires id in x && id in y
    ensures |x - y| < |x|
  {
    assert x == (x - y) + (x * y);
    assert id in x * y;
  }

  lemma Joins(s: State) returns (g: seq<Event>, u: State)
    requires Good(s) && Sweeps(s) && s.joinables != []
    ensures Leads(s, g, u) && Good(u) && Sweeps(u) && u.joinables == [] && |u.handlers| < |s.handlers|
  {
    assert s.joinables[0] in s.joinables && s.joinables[0] in s.handlers;
    var v := One(s, Wake);
    g, u := Drains(v);
    LeadsOn(s, [Wake], v, g, u);
    g := [Wake] + g;
    DrainRemoves(s);
    assert TablesOf(v) == TablesOf(s);
  }

  /** Everyone is home: cleanup has left, no handler is left, and each one ever spawned was joined exactly once. */
  ghost predicate AllHome(s: State) {
    && s.cleanup == Left && s.dispatch == Stopped && s.handlers == {} && s.joinables == []
    && Distinct(s.joined) && |s.joined| == s.nextId && (forall id: Id :: id in s.joined <==> id < s.nextId)
  }

  lemma {:induction false} SweepEnds(s: State) returns (g: seq<Event>, u: State)
    requires Good(s) && Sweeps(s)
    ensures Leads(s, g, u) && AllHome(u)
    decreases |s.handlers|, if s.joinables == [] then 1 else 0
  {
    if s.joinables != [] {
      var v;
      g, v := Joins(s);
      var f;
      f, u := SweepEnds(v);
      LeadsOn(s, g, v, f, u);
      g := g + f;
    } else if s.handlers == {} {
      u := One(s, Wake);
      g := [Wake];
      EmptyTableMeansAllJoined(u);
    } else {
      var id :| id in s.handlers;
      var v, w, f;
      g, v := Cancels(s, id);
      f, w := Queues(v, id);
      LeadsOn(s, g, v, f, w);
      g := g + f;
      f, u := SweepEnds(w);
      LeadsOn(s, g, w, f, u);
      g := g + f;
    }
  }

  // ---- When it cannot end ----

  /** Cleanup is draining a queue that holds a handler which dispatch cannot insert before the drain is over. */
  predicate Trapped(s: State) {
    s.cleanup == Draining && QueueHasSpawned(s)
  }

  lemma TrapHolds(s: State, e: Event)
    requires Exact(s) && (s.cleanup == Crashed || Trapped(s)) && Step(s, e).Some?
    ensures Step(s, e).value.cleanup == Crashed || Trapped(Step(s, e).value)
  {
    if e == Join && Trapped(s) {
      LookupFailsIff(s);
      assert s.joinables == [s.joinables[0]] + s.joinables[1..];
    }
  }

  lemma {:induction false} NeverOut(s: State, g: seq<Event>)
    requires Good(s) && (s.cleanup == Crashed || Trapped(s)) && Fold(Step, s, g).Some?
    ensures var u := Fold(Step, s, g).value; u.cleanup == Crashed || Trapped(u)
  {
    if g != [] {
      NeverOut(s, g[..|g| - 1]);
      GoodAlong(s, g[..|g| - 1]);
      TrapHolds(Fold(Step, s, g[..|g| - 1]).value, g[|g| - 1]);
    }
  }

  ghost predicate CanShutDown(h: seq<Event>) {
    exists g :: AllSilent(g) && Run(h + g).Some? && AllHome(Run(h + g).value)
  }

  lemma ShutdownEnds(h: seq<Event>) returns (g: seq<Event>)
    requires Run(h).Some? && (Run(h).value.cleanup == Waiting || Run(h).value.cleanup == Draining)
    requires !Trapped(Run(h).value)
    ensures AllSilent(g) && Run(h + g).Some? && AllHome(Run(h + g).value)
  {
    var s := Run(h).value;
    RunsAreExact(h);
    HandlersAreConserved(h);
    var u, v, w, f;
    g, u := Frees(s);
    f, v := BeginsSweep(u);
    LeadsOn(s, g, u, f, v);
    g := g + f;
    f, w := SweepEnds(v);
    LeadsOn(s, g, v, f, w);
    g := g + f;
    FoldConcat(Step, INIT, h, g);
  }

  /**
   Over every run in which cleanup has not left: whatever the clients do or do not do, the daemon can be shut down
   with every handler joined exactly once, if and only if the lookup has not failed and cleanup is not already
   draining a queue that holds a handler not inserted yet. In these two cases cleanup never leaves, whatever happens.
   */
  lemma ShutdownCanEndIff(h: seq<Event>)
    requires Run(h).Some? && Run(h).value.cleanup != Left
    ensures CanShutDown(h) <==> Run(h).value.cleanup != Crashed && !Trapped(Run(h).value)
    ensures !CanShutDown(h) ==> forall g :: Run(h + g).Some? ==> Run(h + g).value.cleanup != Left
  {
    var s := Run(h).value;
    if s.cleanup != Crashed && !Trapped(s) {
      var g := ShutdownEnds(h);
    } else {
      RunsAreExact(h);
      HandlersAreConserved(h);
      forall g | Run(h + g).Some?
        ensures Run(h + g).value.cleanup != Left
      {
        FoldConcat(Step, INIT, h, g);
        NeverOut(s, g);
      }
    }
  }
}
