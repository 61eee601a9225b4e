/** What every run of the server's threads keeps: safe lookups, joins that cannot deadlock, and who is left at exit. */
module CleanupSafety {
  import opened Bytes
  import opened Runs
  import opened Lifecycle

  lemma RunStep(h: seq<Event>, k: nat)
    requires Run(h).Some? && k < |h|
    ensures Run(h[..k]).Some? && Run(h[..k + 1]).Some?
    ensures Run(h[..k + 1]) == Step(Run(h[..k]).value, h[k])
  {
    FoldStep(Step, INIT, h, k);
  }

  ghost predicate Exact(s: State) {
    IdsExact(s) && TableExact(s) && JoinedExact(s) && QueueExact(s) && MutexExact(s) && CalledAfterInsert(s)
  }

  lemma StepKeepsExact(s: State, e: Event)
    requires Exact(s) && Step(s, e).Some?
    ensures Exact(Step(s, e).value)
  {
    StepKeepsIds(s, e);
    StepKeepsTable(s, e);
    StepKeepsJoined(s, e);
    StepKeepsQueue(s, e);
    StepKeepsMutex(s, e);
    StepKeepsCalled(s, e);
  }

  lemma {:induction false} RunsAreExact(h: seq<Event>)
    requires Run(h).Some?
    ensures Exact(Run(h).value)
  {
    if h != [] {
      RunsAreExact(h[..|h| - 1]);
      StepKeepsExact(Run(h[..|h| - 1]).value, h[|h| - 1]);
    }
  }

  // ---- Conservation ----

  function Count(s: State): nat {
    |s.joined| + |s.handlers| + if s.dispatch.Spawned? then 1 else 0
  }

  lemma JoinKeepsCount(s: State)
    requires Exact(s) && Step(s, Join).Some?
    ensures Count(Step(s, Join).value) == Count(s) && Step(s, Join).value.nextId == s.nextId
  {
  }

  lemma InsertKeepsCount(s: State, id: Id)
    requires Exact(s) && Step(s, Insert(id)).Some?
    ensures Count(Step(s, Insert(id)).value) == Count(s) && Step(s, Insert(id)).value.nextId == s.nextId
  {
    assert id in s.threads && id !in s.handlers;
  }

  lemma StepKeepsCount(s: State, e: Event)
    requires Exact(s) && s.nextId == Count(s) && Step(s, e).Some?
    ensures Step(s, e).value.nextId == Count(Step(s, e).value)
  {
    if e.Insert? {
      InsertKeepsCount(s, e.id);
    } else if e.Join? {
      JoinKeepsCount(s);
    } else if !e.Spawn? {
      TableFrame(s, e);
    }
  }

  /** In every state: handlers spawned = joined + in the table + at most one not yet inserted. */
  lemma {:induction false} HandlersAreConserved(h: seq<Event>)
    requires Run(h).Some?
    ensures Run(h).value.nextId == Count(Run(h).value)
  {
    if h != [] {
      RunsAreExact(h[..|h| - 1]);
      HandlersAreConserved(h[..|h| - 1]);
      StepKeepsCount(Run(h[..|h| - 1]).value, h[|h| - 1]);
    }
  }

  // ---- The lookup in cleanup ----

  /** No handler leaves its routine before dispatch has put it into the table. */
  ghost predicate Orderly(h: seq<Event>) {
    forall k :: 0 <= k < |h| && Leaves(h[k]) ==> exists j :: 0 <= j < k && h[j] == Insert(h[k].id)
  }

  lemma InsertedStep(s: State, e: Event, id: Id)
    requires IdsExact(s) && Step(s, e).Some?
    requires e == Insert(id) || (id in s.threads && s.dispatch != Spawned(id))
    ensures var u := Step(s, e).value; id in u.threads && u.dispatch != Spawned(id)
  {
  }

  lemma {:induction false} InsertedStays(h: seq<Event>, j: nat)
    requires Run(h).Some? && j < |h| && h[j].Insert?
    ensures h[j].id in Run(h).value.threads && Run(h).value.dispatch != Spawned(h[j].id)
  {
    var g := h[..|h| - 1];
    RunsAreExact(g);
    if j < |g| {
      InsertedStays(g, j);
    }
    InsertedStep(Run(g).value, h[|h| - 1], h[j].id);
  }

  /** Cleanup's lookup fails exactly when the handler at the front of the queue is not inserted yet. */
  lemma LookupFailsIff(s: State)
    requires Exact(s) && s.joinables != []
    ensures s.joinables[0] !in s.handlers <==> s.dispatch == Spawned(s.joinables[0])
  {
    assert s.joinables[0] in s.joinables;
  }

  lemma FreshStepCannotCrash(s: State, e: Event)
    requires Exact(s) && !LeftEarly(s) && s.cleanup != Crashed && Step(s, e).Some?
    ensures Step(s, e).value.cleanup != Crashed
  {
    if s.joinables != [] {
      LookupFailsIff(s);
    }
  }

  lemma OrderlyPrefix(h: seq<Event>)
    requires h != [] && Orderly(h)
    ensures Orderly(h[..|h| - 1])
  {
    var g := h[..|h| - 1];
    forall k | 0 <= k < |g| && Leaves(g[k])
      ensures exists j :: 0 <= j < k && g[j] == Insert(g[k].id)
    {
      var j :| 0 <= j < k && h[j] == Insert(h[k].id);
      assert g[j] == Insert(g[k].id);
    }
  }

  lemma {:induction false} OrderlyRunsAreFresh(h: seq<Event>)
    requires Run(h).Some? && Orderly(h)
    ensures !LeftEarly(Run(h).value) && Run(h).value.cleanup != Crashed
  {
    if h != [] {
      var g, e := h[..|h| - 1], h[|h| - 1];
      OrderlyPrefix(h);
      OrderlyRunsAreFresh(g);
      RunsAreExact(g);
      if Leaves(e) {
        var j :| 0 <= j < |g| && h[j] == Insert(e.id);
        InsertedStays(g, j);
      }
      StepKeepsFresh(Run(g).value, e);
      FreshStepCannotCrash(Run(g).value, e);
    }
  }

  /**
   If no handler leaves its routine before its insert, then in every reachable state every id in the queue is
   in the table and in the queue once, no id is joined twice, and the lookup has never failed.
   */
  lemma LookupSucceeds(h: seq<Event>)
    requires Run(h).Some? && Orderly(h)
    ensures var s := Run(h).value;
      && s.cleanup != Crashed
      && (forall id :: id in s.joinables ==> id in s.handlers)
      && Distinct(s.joinables) && Distinct(s.joined)
      && (forall id :: id in s.joined ==> id !in s.joinables && id !in s.handlers)
  {
    RunsAreExact(h);
    OrderlyRunsAreFresh(h);
  }

  // ---- Clients that wait for their hello ----

  /** Clients connect only to ports they got in a hello, and Accept fails only for handlers in the table. */
  ghost predicate Polite(h: seq<Event>) {
    && (forall k :: 0 <= k < |h| && h[k].ClientConnects? ==> exists j :: 0 <= j < k && h[j] == Hello(h[k].id))
    && (forall k :: 0 <= k < |h| && h[k].AcceptFails? ==> exists j :: 0 <= j < k && h[j] == Insert(h[k].id))
  }

  lemma ServingStep(s: State, e: Event, id: Id)
    requires Step(s, e).Some? && Is(Step(s, e).value, id, Serving)
    ensures e == ClientConnects(id) || Is(s, id, Serving)
  {
  }

  lemma {:induction false} ServingHasClient(h: seq<Event>, id: Id) returns (j: nat)
    requires Run(h).Some? && Is(Run(h).value, id, Serving)
    ensures j < |h| && h[j] == ClientConnects(id)
  {
    j := |h| - 1;
    ServingStep(Run(h[..j]).value, h[j], id);
    if h[j] != ClientConnects(id) {
      j := ServingHasClient(h[..j], id);
    }
  }

  lemma InsertStep(s: State, e: Event, id: Id)
    requires Step(s, e).Some? && Step(s, e).value.dispatch == Inserted(id)
    ensures e == Insert(id) || s.dispatch == Inserted(id)
  {
  }

  lemma {:induction false} InsertedHasInsert(h: seq<Event>, id: Id) returns (j: nat)
    requires Run(h).Some? && Run(h).value.dispatch == Inserted(id)
    ensures j < |h| && h[j] == Insert(id)
  {
    j := |h| - 1;
    InsertStep(Run(h[..j]).value, h[j], id);
    if h[j] != Insert(id) {
      j := InsertedHasInsert(h[..j], id);
    }
  }

  lemma HelloHasInsert(h: seq<Event>, k: nat) returns (j: nat)
    requires Run(h).Some? && k < |h| && h[k].Hello?
    ensures j < k && h[j] == Insert(h[k].id)
  {
    RunStep(h, k);
    j := InsertedHasInsert(h[..k], h[k].id);
  }

  /** The hello comes after the insert, so clients that wait for it keep every run orderly. */
  lemma PoliteIsOrderly(h: seq<Event>)
    requires Run(h).Some? && Polite(h)
    ensures Orderly(h)
  {
    forall k | 0 <= k < |h| && Leaves(h[k])
      ensures exists j :: 0 <= j < k && h[j] == Insert(h[k].id)
    {
      if h[k].SessionEnds? {
        RunStep(h, k);
        var c := ServingHasClient(h[..k], h[k].id);
        var d :| 0 <= d < c && h[d] == Hello(h[c].id);
        var j := HelloHasInsert(h, d);
      }
    }
  }

  // ---- When the lookup can still fail ----

  /** The steps that finish handlers which have left already: no handler leaves, none is inserted. */
  predicate Finishing(e: Event) {
    e.Push? || e.Release? || e.Exit? || e.Wake? || e.Join? || e.Drained?
  }

  ghost predicate AllFinishing(g: seq<Event>) {
    forall e :: e in g ==> Finishing(e)
  }

  /** Whose turn it is on the way to the failing lookup. */
  function NextTurn(s: State): Event
    requires LeftEarly(s)
  {
    if s.lock.Some? && s.lock.value.ByHandler? then Release(s.lock.value.id)
    else if s.cleanup == Draining then
      if s.joinables == [] then Drained
      else if Is(s, s.joinables[0], Released) && s.joinables[0] in s.handlers then Exit(s.joinables[0])
      else Join
    else if Is(s, s.dispatch.id, Unwinding) then Push(s.dispatch.id)
    else Wake
  }

  /** A handler is left in the table after this drain. */
  predicate KeepsHandler(s: State) {
    exists id :: id in s.handlers && id !in s.joinables
  }

  /** Cleanup comes to the queue with the spawned handler in it before a shutdown lets it leave. */
  predicate WillDrain(s: State)
    requires s.dispatch.Spawned?
  {
    match s.cleanup
    case Waiting => !s.shutdown || s.handlers != {}
    case Draining => !s.shutdown || s.dispatch.id in s.joinables || KeepsHandler(s)
    case _ => false
  }

  predicate Doomed(s: State) {
    LeftEarly(s) && WillDrain(s)
  }

  function B(b: bool): nat {
    if b then 1 else 0
  }

  /** How far the failing lookup is, compared from left to right. */
  function Distance(s: State): (nat, nat, nat, nat)
    requires LeftEarly(s)
  {
    var unwinding := Is(s, s.dispatch.id, Unwinding);
    (B(unwinding),
     B(if unwinding then s.cleanup == Draining else s.cleanup != Draining),
     |s.joinables|,
     B(s.lock.Some? && s.lock.value.ByHandler?) + B(s.joinables != [] && !Is(s, s.joinables[0], Exited)))
  }

  predicate Nearer(a: (nat, nat, nat, nat), b: (nat, nat, nat, nat)) {
    || a.0 < b.0
    || (a.0 == b.0 && a.1 < b.1)
    || (a.0 == b.0 && a.1 == b.1 && a.2 < b.2)
    || (a.0 == b.0 && a.1 == b.1 && a.2 == b.2 && a.3 < b.3)
  }

  /** The turn of a handler that holds the mutex, or of cleanup between its drains. */
  lemma OutsideTurn(s: State)
    requires Exact(s) && Doomed(s) && s.cleanup == Waiting
    ensures Finishing(NextTurn(s)) && Step(s, NextTurn(s)).Some?
    ensures var u := Step(s, NextTurn(s)).value; Doomed(u) && Nearer(Distance(u), Distance(s))
  {
    if s.lock.None? && !Is(s, s.dispatch.id, Unwinding) {
      assert s.dispatch.id in s.joinables;
    }
  }

  lemma DrainedTurn(s: State)
    requires Exact(s) && Doomed(s) && s.cleanup == Draining && s.joinables == []
    ensures NextTurn(s) == Drained && Step(s, Drained).Some?
    ensures var u := Step(s, Drained).value; Doomed(u) && Nearer(Distance(u), Distance(s))
  {
    assert Is(s, s.dispatch.id, Unwinding);
  }

  lemma JoinKeepsDoom(s: State)
    requires Exact(s) && Doomed(s) && s.cleanup == Draining && s.joinables != [] && s.joinables[0] in s.handlers
    requires Step(s, Join).Some?
    ensures Doomed(Step(s, Join).value)
  {
    var id, u := s.joinables[0], Step(s, Join).value;
    assert id in s.joinables && id != s.dispatch.id;
    assert s.joinables == [id] + u.joinables;
    if k :| k in s.handlers && k !in s.joinables {
      assert k in u.handlers && k !in u.joinables;
    }
  }

  lemma DrainingTurn(s: State)
    requires Exact(s) && Doomed(s) && s.cleanup == Draining && s.joinables != []
    ensures Finishing(NextTurn(s)) && Step(s, NextTurn(s)).Some?
    ensures var u := Step(s, NextTurn(s)).value;
      u.cleanup == Crashed || (Doomed(u) && Nearer(Distance(u), Distance(s)))
  {
    assert s.joinables[0] in s.joinables;
    assert Is(s, s.joinables[0], Released) || Is(s, s.joinables[0], Exited);
    LookupFailsIff(s);
    if NextTurn(s) == Join {
      if s.joinables[0] in s.handlers {
        JoinKeepsDoom(s);
      }
    } else {
      assert KeepsHandler(s) ==> KeepsHandler(Step(s, NextTurn(s)).value);
    }
  }

  lemma TurnIsTaken(s: State) returns (u: State)
    requires Exact(s) && Doomed(s)
    ensures Finishing(NextTurn(s)) && Step(s, NextTurn(s)) == Some(u) && Exact(u)
    ensures u.cleanup == Crashed || (Doomed(u) && Nearer(Distance(u), Distance(s)))
  {
    if s.cleanup == Waiting {
      OutsideTurn(s);
    } else if s.joinables == [] {
      DrainedTurn(s);
    } else {
      DrainingTurn(s);
    }
    u := Step(s, NextTurn(s)).value;
    StepKeepsExact(s, NextTurn(s));
  }

  lemma FoldOne(s: State, e: Event)
    ensures Fold(Step, s, [e]) == Step(s, e)
  {
    FoldSnoc(Step, s, [], e);
    assert [] + [e] == [e];
  }

  lemma {:induction false} DoomedCrashes(s: State) returns (g: seq<Event>)
    requires Exact(s) && Doomed(s)
    ensures AllFinishing(g) && Fold(Step, s, g).Some? && Fold(Step, s, g).value.cleanup == Crashed
    decreases Distance(s).0, Distance(s).1, Distance(s).2, Distance(s).3
  {
    var u := TurnIsTaken(s);
    var e := NextTurn(s);
    FoldOne(s, e);
    g := [e];
    if u.cleanup != Crashed {
      var f := DoomedCrashes(u);
      FoldConcat(Step, s, [e], f);
      g := [e] + f;
    }
  }

  ghost predicate Safe(s: State) {
    Exact(s) && !Doomed(s) && s.cleanup != Crashed
  }

  /** Under a shutdown, a handler that left early too late for cleanup stays too late. */
  lemma LateTurn(s: State, e: Event)
    requires Safe(s) && LeftEarly(s) && Finishing(e) && Step(s, e).Some?
    ensures var u := Step(s, e).value; !Doomed(u) && u.cleanup != Crashed
  {
    if s.joinables != [] {
      LookupFailsIff(s);
      assert s.joinables[0] in s.joinables;
      assert s.joinables == [s.joinables[0]] + s.joinables[1..];
    }
  }

  lemma SafeTurn(s: State, e: Event)
    requires Safe(s) && Finishing(e) && Step(s, e).Some?
    ensures Safe(Step(s, e).value)
  {
    StepKeepsExact(s, e);
    if LeftEarly(s) {
      LateTurn(s, e);
    } else {
      StepKeepsFresh(s, e);
      FreshStepCannotCrash(s, e);
    }
  }

  lemma {:induction false} StaysSafe(s: State, g: seq<Event>)
    requires Safe(s) && Fold(Step, s, g).Some? && AllFinishing(g)
    ensures Safe(Fold(Step, s, g).value)
  {
    if g != [] {
      StaysSafe(s, g[..|g| - 1]);
      SafeTurn(Fold(Step, s, g[..|g| - 1]).value, g[|g| - 1]);
    }
  }

  /** The handlers that have left already can make the lookup fail, if only they and cleanup go on. */
  ghost predicate CanCrash(h: seq<Event>) {
    exists g :: AllFinishing(g) && Run(h + g).Some? && Run(h + g).value.cleanup == Crashed
  }

  /**
   The exact condition, over every run in which the lookup has not failed yet: the handlers that have left
   already can make it fail if and only if one of them left before its insert, and cleanup comes to it
   before a shutdown lets cleanup leave.
   */
  lemma LookupCanFailIff(h: seq<Event>)
    requires Run(h).Some? && Run(h).value.cleanup != Crashed
    ensures CanCrash(h) <==> LeftEarly(Run(h).value) && WillDrain(Run(h).value)
  {
    var s := Run(h).value;
    RunsAreExact(h);
    if Doomed(s) {
      var g := DoomedCrashes(s);
      FoldConcat(Step, INIT, h, g);
    } else if g :| AllFinishing(g) && Run(h + g).Some? && Run(h + g).value.cleanup == Crashed {
      FoldConcat(Step, INIT, h, g);
      StaysSafe(s, g);
    }
  }

  // ---- Joining under the mutex ----

  /**
   Whenever cleanup is about to join, the handler has released the mutex: it has exited already, or its
   own next step, which needs no mutex, makes the join possible.
   */
  lemma JoinNeverWaitsForMutex(h: seq<Event>)
    requires Run(h).Some? && Run(h).value.cleanup == Draining && Run(h).value.joinables != []
    ensures var s := Run(h).value;
      var id := s.joinables[0];
      && s.lock == Some(ByCleanup)
      && (Is(s, id, Released) || Is(s, id, Exited))
      && (Is(s, id, Exited) ==> Step(s, Join).Some?)
      && (Is(s, id, Released) ==> Step(s, Exit(id)).Some? && Step(Step(s, Exit(id)).value, Join).Some?)
  {
    RunsAreExact(h);
    assert Run(h).value.joinables[0] in Run(h).value.joinables;
  }

  predicate PastMutex(s: State, id: Id) {
    Is(s, id, Released) || Is(s, id, Exited) || Is(s, id, Joined)
  }

  /** A handler that gave the mutex back stays past it, and past it it never holds it. */
  lemma ReleasedForGood(s: State, e: Event, id: Id)
    requires IdsExact(s) && Step(s, e).Some? && PastMutex(s, id)
    ensures PastMutex(Step(s, e).value, id)
    ensures MutexExact(s) ==> s.lock != Some(ByHandler(id))
  {
  }

  /** While cleanup drains, the queue only shrinks, so the inner loop ends. */
  lemma QueueShrinksWhileDraining(s: State, e: Event)
    requires MutexExact(s) && s.cleanup == Draining && Step(s, e).Some?
    ensures var u := Step(s, e).value;
      u.joinables == s.joinables || (e == Join && |s.joinables| > 0 && u.joinables == s.joinables[1..])
  {
  }

  // ---- The inner loop of cleanup ----

  /** What the inner loop works on. */
  datatype Tables = Tables(handlers: set<Id>, joinables: seq<Id>, joined: seq<Id>)

  function TablesOf(s: State): Tables {
    Tables(s.handlers, s.joinables, s.joined)
  }

  /** Joins from the front while the lookup succeeds. */
  function DrainAll(t: Tables): Tables
    decreases |t.joinables|
  {
    if t.joinables == [] || t.joinables[0] !in t.handlers then t else
    var id := t.joinables[0];
    DrainAll(Tables(t.handlers - {id}, t.joinables[1..], t.joined + [id]))
  }

  class HandlerTable {
    var handlers: set<Id>
    var joinables: seq<Id>
    var joined: seq<Id>

    ghost function Value(): Tables
      reads this
    {
      Tables(handlers, joinables, joined)
    }

    /** The inner loop of cleanup; it throws when a lookup fails. */
    method Drain() returns (ok: bool)
      modifies this
      ensures Value() == DrainAll(old(Value()))
      ensures ok <==> joinables == []
    {
      while joinables != []
        invariant DrainAll(Value()) == DrainAll(old(Value()))
        decreases |joinables|
      {
        var id := joinables[0];
        if id !in handlers {
          return false;
        }
        handlers := handlers - {id};
        joinables := joinables[1..];
        joined := joined + [id];
      }
      ok := true;
    }
  }

  /** Dispatch and main have not moved. */
  predicate SameMain(s: State, u: State) {
    u.dispatch == s.dispatch && u.nextId == s.nextId && u.shutdown == s.shutdown && u.sweeping == s.sweeping
  }

  /** One turn of the loop is a step of the machine, after one of the handler itself if it has not exited yet. */
  lemma JoinTurn(s: State) returns (g: seq<Event>, u: State)
    requires Exact(s) && s.cleanup == Draining && s.joinables != [] && s.joinables[0] in s.handlers
    ensures Fold(Step, s, g) == Some(u) && Exact(u) && u.cleanup == Draining && SameMain(s, u) && AllFinishing(g)
    ensures DrainAll(TablesOf(u)) == DrainAll(TablesOf(s)) && u.joinables == s.joinables[1..]
  {
    var id := s.joinables[0];
    assert id in s.joinables;
    g, u := [], s;
    if Is(s, id, Released) {
      StepKeepsExact(s, Exit(id));
      FoldOne(s, Exit(id));
      g, u := [Exit(id)], Step(s, Exit(id)).value;
    }
    FoldSnoc(Step, s, g, Join);
    StepKeepsExact(u, Join);
    g, u := g + [Join], Step(u, Join).value;
  }

  lemma MissingTurn(s: State) returns (u: State)
    requires Exact(s) && s.cleanup == Draining && s.joinables != [] && s.joinables[0] !in s.handlers
    ensures Fold(Step, s, [Join]) == Some(u) && u.cleanup == Crashed && TablesOf(u) == DrainAll(TablesOf(s))
    ensures Exact(u) && SameMain(s, u)
    ensures s.dispatch == Spawned(s.joinables[0])
  {
    FoldOne(s, Join);
    LookupFailsIff(s);
    u := Step(s, Join).value;
    StepKeepsExact(s, Join);
  }

  /** The queue holds the handler that dispatch has not inserted yet. */
  predicate QueueHasSpawned(s: State) {
    s.dispatch.Spawned? && s.dispatch.id in s.joinables
  }

  /**
   The inner loop is a run of the machine: from every reachable state in which cleanup drains it leads to the
   tables that `Drain` computes, and it fails exactly when the queue holds a handler that is not inserted yet.
   */
  lemma {:induction false} DrainIsRun(s: State) returns (g: seq<Event>, u: State)
    requires Exact(s) && s.cleanup == Draining
    ensures Fold(Step, s, g) == Some(u) && TablesOf(u) == DrainAll(TablesOf(s))
    ensures Exact(u) && SameMain(s, u) && AllFinishing(g)
    ensures u.cleanup == if QueueHasSpawned(s) then Crashed else Draining
    ensures u.joinables == [] <==> !QueueHasSpawned(s)
    decreases |s.joinables|
  {
    g, u := [], s;
    if s.joinables != [] {
      if s.joinables[0] in s.handlers {
        LookupFailsIff(s);
        var f, v := JoinTurn(s);
        assert s.joinables == [s.joinables[0]] + v.joinables;
        var k;
        k, u := DrainIsRun(v);
        FoldConcat(Step, s, f, k);
        g := f + k;
      } else {
        u := MissingTurn(s);
        g := [Join];
        assert s.joinables[0] in s.joinables;
      }
    }
  }

  /** Without a missing handler, the loop joins exactly the queued handlers in order and takes them off the table. */
  lemma {:induction false} DrainJoinsAll(t: Tables)
    requires Distinct(t.joinables) && forall id :: id in t.joinables ==> id in t.handlers
    ensures DrainAll(t).joinables == [] && DrainAll(t).joined == t.joined + t.joinables
    ensures DrainAll(t).handlers == t.handlers - set id | id in t.joinables
    decreases |t.joinables|
  {
    if t.joinables != [] {
      var id, rest := t.joinables[0], t.joinables[1..];
      assert t.joinables == [id] + rest;
      DrainJoinsAll(Tables(t.handlers - {id}, rest, t.joined + [id]));
    }
  }

  // ---- Exit ----

  /** Ids inserted after cleanup had left. */
  function Late(h: seq<Event>): set<Id> {
    if h == [] then {} else
    var g, e := h[..|h| - 1], h[|h| - 1];
    match Run(g)
    case Some(s) => if s.cleanup == Left && e.Insert? then Late(g) + {e.id} else Late(g)
    case None => Late(g)
  }

  lemma LeaveStep(s: State, e: Event)
    requires Step(s, e).Some?
    ensures var u := Step(s, e).value;
      && (s.cleanup == Left ==> u.cleanup == Left && u.handlers == s.handlers + if e.Insert? then {e.id} else {})
      && (s.cleanup != Left && u.cleanup == Left ==> e == Wake && u.handlers == {} && u.dispatch == s.dispatch)
  {
  }

  /** Once cleanup has left, the handlers never to be joined are exactly those inserted afterwards. */
  lemma {:induction false} LeftBehindAreLate(h: seq<Event>)
    requires Run(h).Some?
    ensures if Run(h).value.cleanup == Left then Run(h).value.handlers == Late(h) else Late(h) == {}
  {
    if h != [] {
      LeftBehindAreLate(h[..|h| - 1]);
      LeaveStep(Run(h[..|h| - 1]).value, h[|h| - 1]);
    }
  }

  lemma EmptyTableMeansAllJoined(s: State)
    requires Exact(s) && s.nextId == Count(s) && s.dispatch == Stopped
    ensures s.handlers == {} <==> |s.joined| == s.nextId
    ensures s.handlers == {} ==> s.joinables == [] && forall id: Id :: id in s.joined <==> id < s.nextId
  {
    assert s.joinables != [] ==> s.joinables[0] in s.joinables;
  }

  /** At the end of a run with dispatch stopped and cleanup gone, all were joined iff nothing came late. */
  lemma AllJoinedIffNoneLate(h: seq<Event>)
    requires Run(h).Some? && Run(h).value.cleanup == Left && Run(h).value.dispatch == Stopped
    ensures Late(h) == {} <==> |Run(h).value.joined| == Run(h).value.nextId
    ensures Late(h) == {} ==> forall id: Id :: id in Run(h).value.joined <==> id < Run(h).value.nextId
  {
    RunsAreExact(h);
    HandlersAreConserved(h);
    LeftBehindAreLate(h);
    EmptyTableMeansAllJoined(Run(h).value);
  }

  lemma {:induction false} StaysClean(h: seq<Event>, w: nat)
    requires Run(h).Some? && w <= |h| && Run(h[..w]).Some?
    requires var s := Run(h[..w]).value; s.cleanup == Left && s.dispatch == Stopped && s.handlers == {}
    ensures var s := Run(h).value; s.cleanup == Left && s.dispatch == Stopped && s.handlers == {}
  {
    if w == |h| {
      assert h[..w] == h;
    } else {
      var g := h[..|h| - 1];
      assert g[..w] == h[..w];
      StaysClean(g, w);
      LeaveStep(Run(g).value, h[|h| - 1]);
    }
  }

  /**
   If dispatch had stopped when cleanup made its exit test, then from then on table and queue are empty
   and every handler ever spawned was joined exactly once.
   */
  lemma CleanExit(h: seq<Event>, w: nat)
    requires Run(h).Some? && w < |h| && Run(h[..w]).Some? && Run(h[..w + 1]).Some?
    requires Run(h[..w]).value.cleanup != Left && Run(h[..w + 1]).value.cleanup == Left
    requires Run(h[..w]).value.dispatch == Stopped
    ensures var s := Run(h).value;
      && s.cleanup == Left && s.handlers == {} && s.joinables == []
      && Distinct(s.joined) && |s.joined| == s.nextId && (forall id: Id :: id in s.joined <==> id < s.nextId)
  {
    RunStep(h, w);
    LeaveStep(Run(h[..w]).value, h[w]);
    StaysClean(h, w + 1);
    RunsAreExact(h);
    HandlersAreConserved(h);
    EmptyTableMeansAllJoined(Run(h).value);
  }

  // ---- Runs ----

  lemma Take(h: seq<Event>, s: State, e: Event) returns (g: seq<Event>, u: State)
    requires Run(h) == Some(s) && Step(s, e).Some?
    ensures g == h + [e] && Run(g) == Some(u) && Step(s, e) == Some(u)
  {
    g, u := h + [e], Step(s, e).value;
    FoldSnoc(Step, INIT, h, e);
  }

  lemma LeftBetween() returns (h: seq<Event>, s: State)
    ensures Run(h) == Some(s) && s.cleanup == Left && s.handlers == {} && s.dispatch == Spawned(0) && s.lock.None?
  {
    h, s := Take([], INIT, Spawn);
    h, s := Take(h, s, Signal);
    h, s := Take(h, s, Wake);
  }

  /** Cleanup may leave while dispatch is between spawning and inserting; that handler is never joined. */
  lemma LateInsertLeaks()
    ensures exists h, s :: Run(h) == Some(s) && s.cleanup == Left && s.handlers == {0} && s.dispatch == Inserted(0)
  {
    var h, s := LeftBetween();
    h, s := Take(h, s, Insert(0));
  }

  lemma SpawnedOne() returns (h: seq<Event>, s: State)
    ensures Run(h) == Some(s) && h == [Spawn, Ready(0)] && s.dispatch == Spawned(0)
    ensures Is(s, 0, Listening) && s.cleanup == Waiting && !s.shutdown
  {
    h, s := Take([], INIT, Spawn);
    h, s := Take(h, s, Ready(0));
  }

  /** From here cleanup can come to look up the id that is not in the table yet. */
  lemma Crashes(h: seq<Event>, s: State) returns (g: seq<Event>)
    requires Run(h) == Some(s) && Doomed(s)
    ensures Run(h + g).Some? && Run(h + g).value.cleanup == Crashed && AllFinishing(g)
  {
    RunsAreExact(h);
    g := DoomedCrashes(s);
    FoldConcat(Step, INIT, h, g);
  }

  /** If Accept fails before the insert, the lookup can fail. */
  lemma EarlyFailureCrashes()
    ensures exists h :: AcceptFails(0) in h && Run(h).Some? && Run(h).value.cleanup == Crashed
  {
    var h, s := SpawnedOne();
    h, s := Take(h, s, AcceptFails(0));
    var g := Crashes(h, s);
    assert (h + g)[2] == AcceptFails(0);
  }

  ghost predicate NoFailure(h: seq<Event>) {
    forall e :: e in h ==> !e.AcceptFails?
  }

  /** So it can if a client guesses the port, connects without waiting for its hello, and leaves again. */
  lemma GuessedPortCrashes()
    ensures exists h :: NoFailure(h) && Run(h).Some? && Run(h).value.cleanup == Crashed
  {
    var h, s := SpawnedOne();
    h, s := Take(h, s, ClientConnects(0));
    h, s := Take(h, s, SessionEnds(0));
    var g := Crashes(h, s);
    assert NoFailure(h) && NoFailure(g);
    assert NoFailure(h + g);
  }

  /** Thread 0 alone is left, is in state `pc`, and nothing is held. */
  predicate Alone(s: State, pc: Handler) {
    s.threads == map[0 := pc] && s.lock.None? && s.cleanup == Waiting && !s.shutdown && s.joined == []
  }

  /** Handler 0 is inserted second, and nobody else leaves. */
  predicate Tidy(h: seq<Event>) {
    |h| > 1 && h[1] == Insert(0) && forall k :: 0 <= k < |h| && Leaves(h[k]) ==> k > 1 && h[k].id == 0
  }

  lemma TidyIsOrderly(h: seq<Event>)
    requires Tidy(h)
    ensures Orderly(h)
  {
  }

  lemma WelcomedOne() returns (h: seq<Event>, s: State)
    ensures Run(h) == Some(s) && Alone(s, Listening) && s.joinables == [] && Tidy(h)
    ensures s.dispatch == Accepting && s.handlers == {0}
  {
    h, s := Take([], INIT, Spawn);
    h, s := Take(h, s, Insert(0));
    h, s := Take(h, s, Ready(0));
    h, s := Take(h, s, Hello(0));
  }

  lemma ServedOne() returns (h: seq<Event>, s: State)
    ensures Run(h) == Some(s) && Alone(s, Unwinding) && s.joinables == [] && Tidy(h)
    ensures s.dispatch == Accepting && s.handlers == {0}
  {
    h, s := WelcomedOne();
    h, s := Take(h, s, ClientConnects(0));
    h, s := Take(h, s, SessionEnds(0));
  }

  lemma TidyAppend(h: seq<Event>, g: seq<Event>)
    requires Tidy(h) && forall k :: 0 <= k < |g| ==> !Leaves(g[k])
    ensures Tidy(h + g)
  {
  }

  lemma PushedOne(h0: seq<Event>, s0: State) returns (h: seq<Event>, s: State)
    requires Run(h0) == Some(s0) && Alone(s0, Unwinding) && s0.joinables == []
    ensures h == h0 + [Push(0), Release(0), Exit(0)]
    ensures Run(h) == Some(s) && Alone(s, Exited) && s.joinables == [0]
    ensures s.dispatch == s0.dispatch && s.handlers == s0.handlers
  {
    h, s := Take(h0, s0, Push(0));
    assert s.threads == map[0 := Pushing] && s.joinables == [0];
    h, s := Take(h, s, Release(0));
    assert s.threads == map[0 := Released];
    h, s := Take(h, s, Exit(0));
  }

  lemma JoinedOne(h0: seq<Event>, s0: State) returns (h: seq<Event>, s: State)
    requires Run(h0) == Some(s0) && Alone(s0, Exited) && s0.joinables == [0]
    requires s0.dispatch == Accepting && s0.handlers == {0}
    ensures h == h0 + [Wake, Join, Drained]
    ensures Run(h) == Some(s) && s.dispatch == Accepting && s.handlers == {} && s.joined == [0]
    ensures s.lock.None? && s.cleanup == Waiting && s.joinables == []
  {
    h, s := Take(h0, s0, Wake);
    h, s := Take(h, s, Join);
    h, s := Take(h, s, Drained);
  }

  /** An orderly life: one client is served and joined, and cleanup leaves after dispatch has stopped. */
  lemma OrderlyLife()
    ensures exists h, s ::
      && Run(h) == Some(s) && Orderly(h)
      && s.dispatch == Stopped && s.cleanup == Left && s.joined == [0] && s.handlers == {}
  {
    var h, s := ServedOne();
    TidyAppend(h, [Push(0), Release(0), Exit(0)]);
    h, s := PushedOne(h, s);
    TidyAppend(h, [Wake, Join, Drained]);
    h, s := JoinedOne(h, s);
    TidyAppend(h, [DispatchStops]);
    h, s := Take(h, s, DispatchStops);
    TidyAppend(h, [Signal]);
    h, s := Take(h, s, Signal);
    TidyAppend(h, [Wake]);
    h, s := Take(h, s, Wake);
    TidyIsOrderly(h);
  }
}
