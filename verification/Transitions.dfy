/** What every interleaving keeps about the firmware state machine, the scripts it runs, and the port's history. */
module Transitions {
  import opened Bytes
  import opened Runs
  import opened Codec
  import opened Firmware
  import opened Arbitration
  import opened PortSafety

  lemma Extend(h: seq<Event>, e: Event)
    requires Run(h).Some?
    ensures Run(h + [e]) == Step(Run(h).value, e)
  {
    FoldSnoc(Step, INIT, h, e);
  }

  // ---- One routine at a time ----

  /**
   In every reachable state the FSM is in Transition exactly when some thread is between its admission and
   its SetState; that thread is the only one and the routine is its own; otherwise the name is "Nothing". The
   description is never "Transition" or "Nothing".
   */
  lemma TransitionIsExclusive(h: seq<Event>)
    requires Run(h).Some?
    ensures var s := Run(h).value;
      && (s.fsm.state == Transition <==> exists t :: t in s.threads && InTransit(s.threads[t]))
      && (forall t, u :: t in s.threads && u in s.threads && InTransit(s.threads[t]) && InTransit(s.threads[u]) ==> t == u)
      && (forall t :: t in s.threads && InTransit(s.threads[t]) ==> s.fsm.routine == Some(s.threads[t].routine))
      && (s.fsm.state == Transition <==> RoutineName(s.fsm.routine) != NOTHING)
      && WellFormed(s.fsm) && Description(s.fsm) != "Transition" && Description(s.fsm) != NOTHING
  {
    RunsAreSafe(h);
    var s := Run(h).value;
    if s.actor.Some? {
      assert InTransit(s.threads[s.actor.value]);
      NamesDiffer(s.threads[s.actor.value].routine);
    }
    DescriptionIsProper(s.fsm);
  }

  /** A rejected call changes neither the state nor the routine name. */
  lemma RejectionChangesNothing(s: State, t: Tid)
    requires Step(s, TryEnter(t)).Some?
    ensures var u := Step(s, TryEnter(t)).value;
      At(s, t).Some? && At(s, t).value.Cleared? &&
      (u.fsm == s.fsm <==> At(u, t) == Some(Rejected(At(s, t).value.routine)))
      && (At(u, t).value.Rejected? <==> s.fsm.state !in Expected(At(s, t).value.routine))
  {
  }

  // ---- The path of completed transitions ----

  datatype Hop = Hop(from: FWState, routine: Routine, to: FWState)

  /** The transition that an event completes, if it completes one. */
  function HopOf(s: State, e: Event): Option<Hop> {
    match e
    case Complete(t) =>
      (match At(s, t) case Some(Ending(r, f, a)) => Some(Hop(f, r, EndState(r, a))) case _ => None)
    case _ => None
  }

  /** The transitions completed along a run, in order. */
  function Hops(h: seq<Event>): seq<Hop> {
    if h == [] then [] else
    var g, e := h[..|h| - 1], h[|h| - 1];
    match Run(g)
    case None => Hops(g)
    case Some(s) => (match HopOf(s, e) case None => Hops(g) case Some(x) => Hops(g) + [x])
  }

  function LastState(hops: seq<Hop>): FWState {
    if hops == [] then Boot else hops[|hops| - 1].to
  }

  predicate Legal(x: Hop) {
    x.from in Expected(x.routine) && (x.to == Final(x.routine) || x.to == Fault)
  }

  predicate IsPath(hops: seq<Hop>) {
    forall i :: 0 <= i < |hops| ==> hops[i].from == LastState(hops[..i]) && Legal(hops[i])
  }

  /** Where the FSM settled last: its state, or the state the running routine was admitted from. */
  ghost predicate Settled(s: State, last: FWState) {
    && (s.actor.None? ==> s.fsm.state == last)
    && (s.actor.Some? && s.actor.value in s.threads && InTransit(s.threads[s.actor.value]) ==>
          s.threads[s.actor.value].from == last && last in Expected(s.threads[s.actor.value].routine))
  }

  /** Events that fork or reap, or take a thread into or out of a transition. */
  predicate MovesActor(e: Event) {
    e.TryEnter? || e.Fork? || e.ForkFails? || e.Reap? || e.NoChild? || e.CancelWait? || e.Complete?
  }

  lemma OthersSpareActor(s: State, e: Event)
    requires Exclusive(s) && !MovesActor(e) && Step(s, e).Some?
    ensures var u := Step(s, e).value;
      u.actor == s.actor && u.fsm == s.fsm && (s.actor.Some? ==> At(u, s.actor.value) == At(s, s.actor.value))
  {
  }

  lemma EnterHops(s: State, e: Event, last: FWState)
    requires e.TryEnter? && Exclusive(s) && Settled(s, last) && Step(s, e).Some?
    ensures Settled(Step(s, e).value, last)
  {
  }

  lemma ActorHops(s: State, e: Event, last: FWState)
    requires MovesActor(e) && !e.TryEnter? && Exclusive(s) && Settled(s, last) && Step(s, e).Some?
    ensures match HopOf(s, e)
      case None => Settled(Step(s, e).value, last)
      case Some(x) => x.from == last && Legal(x) && Settled(Step(s, e).value, x.to)
  {
    assert s.actor == Some(e.t);
  }

  lemma StepHops(s: State, e: Event, last: FWState)
    requires Exclusive(s) && Settled(s, last) && Step(s, e).Some?
    ensures match HopOf(s, e)
      case None => Settled(Step(s, e).value, last)
      case Some(x) => x.from == last && Legal(x) && Settled(Step(s, e).value, x.to)
  {
    if !MovesActor(e) {
      OthersSpareActor(s, e);
    } else if e.TryEnter? {
      EnterHops(s, e, last);
    } else {
      ActorHops(s, e, last);
    }
  }

  lemma PathSnoc(hops: seq<Hop>, x: Hop)
    requires IsPath(hops) && x.from == LastState(hops) && Legal(x)
    ensures IsPath(hops + [x]) && LastState(hops + [x]) == x.to
  {
    var all := hops + [x];
    forall i | 0 <= i < |all|
      ensures all[i].from == LastState(all[..i])
    {
      if i < |hops| {
        assert all[..i] == hops[..i];
      } else {
        assert all[..i] == hops;
      }
    }
  }

  /** Over every run the completed transitions form a path of the intended graph, starting at Boot. */
  lemma {:induction false} HopsArePath(h: seq<Event>)
    requires Run(h).Some?
    ensures IsPath(Hops(h)) && Settled(Run(h).value, LastState(Hops(h)))
  {
    if h != [] {
      var g, e := h[..|h| - 1], h[|h| - 1];
      HopsArePath(g);
      RunsAreSafe(g);
      var s := Run(g).value;
      StepHops(s, e, LastState(Hops(g)));
      if HopOf(s, e).Some? {
        PathSnoc(Hops(g), HopOf(s, e).value);
      }
    }
  }

  predicate FaultThenReset(hops: seq<Hop>, i: nat)
    requires i < |hops|
  {
    && (i > 0 && hops[i - 1].to == Fault ==> hops[i].routine == ChipReset)
    && (hops[i].to == Running ==> hops[i].routine == FWStarting && hops[i].from == Boot)
    && hops[i].to != Transition
  }

  lemma PathsReset(hops: seq<Hop>, i: nat)
    requires IsPath(hops) && i < |hops|
    ensures FaultThenReset(hops, i)
  {
    if i > 0 {
      assert hops[..i][|hops[..i]| - 1] == hops[i - 1];
    }
  }

  /**
   After a failed action only Reset is admitted, whether it has completed since or still runs, and Running
   is entered only by a Start admitted from Boot.
   */
  lemma FaultNeedsReset(h: seq<Event>)
    requires Run(h).Some?
    ensures forall i :: 0 <= i < |Hops(h)| ==> FaultThenReset(Hops(h), i)
    ensures var s := Run(h).value;
      LastState(Hops(h)) == Fault ==>
        forall t :: t in s.threads && InTransit(s.threads[t]) ==> s.threads[t].routine == ChipReset
  {
    RunsAreSafe(h);
    HopsArePath(h);
    forall i | 0 <= i < |Hops(h)|
      ensures FaultThenReset(Hops(h), i)
    {
      PathsReset(Hops(h), i);
    }
  }

  // ---- Scripts ----

  predicate WaitsFor(s: State, t: Tid, p: ChildPid) {
    At(s, t).Some? && At(s, t).value.Waiting? && At(s, t).value.child == p
  }

  predicate IsAdmitted(s: State, t: Tid) {
    At(s, t).Some? && At(s, t).value.Admitted?
  }

  /** Thread t waits for p, which it forked, and no other child exists. */
  predicate OnlyOwn(s: State, t: Tid, p: ChildPid) {
    WaitsFor(s, t, p) && s.children.Keys == {p} && s.children[p].owner == t
  }

  /** While t is in transit no other thread forks or reaps. */
  lemma OthersSpareChildren(s: State, e: Event, t: Tid)
    requires Exclusive(s) && Step(s, e).Some? && ThreadOf(e) != Some(t)
    requires At(s, t).Some? && InTransit(At(s, t).value)
    ensures var u := Step(s, e).value;
      && At(u, t) == At(s, t) && u.children.Keys == s.children.Keys
      && forall p :: p in s.children ==> u.children[p].owner == s.children[p].owner
  {
  }

  lemma ForkStep(s: State, e: Event)
    requires Step(s, e).Some? && e.Fork?
    ensures var u := Step(s, e).value;
      && IsAdmitted(s, e.t) && WaitsFor(u, e.t, e.child) && e.child !in s.children
      && u.children == s.children[e.child := Child(e.t, None)]
  {
  }

  /** A fork of t that found no child. */
  ghost predicate ForkedAlone(h: seq<Event>, t: Tid, i: nat) {
    i < |h| && h[i].Fork? && h[i].t == t && Run(h[..i]).Some? && Run(h[..i]).value.children == map[]
  }

  lemma ForkIsOnlyChild(h: seq<Event>, t: Tid)
    requires Run(h).Some? && h != [] && ForkedAlone(h, t, |h| - 1)
    ensures OnlyOwn(Run(h).value, t, h[|h| - 1].child)
  {
    ForkStep(Run(h[..|h| - 1]).value, h[|h| - 1]);
  }

  /** A thread that forked when there was no child waits beside no child but its own, cancelled waits or not. */
  lemma {:induction false} WaiterIsAlone(h: seq<Event>, t: Tid, i: nat)
    requires Run(h).Some? && ForkedAlone(h, t, i) && Quiet(h, t, i, |h|)
    ensures OnlyOwn(Run(h).value, t, h[i].child)
  {
    if i == |h| - 1 {
      ForkIsOnlyChild(h, t);
    } else {
      var g := h[..|h| - 1];
      assert g[..i] == h[..i];
      assert g[i] == h[i];
      WaiterIsAlone(g, t, i);
      RunsAreSafe(g);
      OthersSpareChildren(Run(g).value, h[|h| - 1], t);
    }
  }

  lemma WaitStep(s: State, e: Event, t: Tid)
    requires Step(s, e).Some? && At(Step(s, e).value, t).Some? && At(Step(s, e).value, t).value.Waiting?
    ensures
      if ThreadOf(e) == Some(t) then e == Fork(t, At(Step(s, e).value, t).value.child)
      else At(s, t) == At(Step(s, e).value, t)
  {
  }

  /** A waiting thread's last event is the fork of the child it waits for. */
  lemma {:induction false} WaiterForked(h: seq<Event>, t: Tid) returns (i: nat)
    requires Run(h).Some? && At(Run(h).value, t).Some? && At(Run(h).value, t).value.Waiting?
    ensures i < |h| && h[i] == Fork(t, At(Run(h).value, t).value.child) && Quiet(h, t, i, |h|)
  {
    i := 0;
    if h != [] {
      var g, e := h[..|h| - 1], h[|h| - 1];
      WaitStep(Run(g).value, e, t);
      if ThreadOf(e) == Some(t) {
        i := |g|;
      } else {
        i := WaiterForked(g, t);
      }
    }
  }

  ghost predicate NoFork(h: seq<Event>, p: ChildPid, i: int) {
    forall k :: 0 <= k < |h| && i < k ==> !(h[k].Fork? && h[k].child == p)
  }

  lemma ChildStep(s: State, e: Event, p: ChildPid)
    requires Step(s, e).Some? && p in Step(s, e).value.children
    ensures var c := Step(s, e).value.children[p];
      || (e == Fork(c.owner, p) && c.ended.None?)
      || (p in s.children && c == s.children[p] && !(e.Fork? && e.child == p))
      || (p in s.children && c.owner == s.children[p].owner && c.ended.Some? && e == ChildEnds(p, c.ended.value))
  {
  }

  /** The child c under PID p was forked at i and, if it has ended, ended at j. */
  ghost predicate ForkedAt(h: seq<Event>, p: ChildPid, c: Child, i: nat, j: nat) {
    && i < |h| && h[i] == Fork(c.owner, p) && NoFork(h, p, i)
    && (c.ended.Some? ==> i < j < |h| && h[j] == ChildEnds(p, c.ended.value))
  }

  lemma ForkedSnoc(g: seq<Event>, e: Event, p: ChildPid, c: Child, i: nat, j: nat)
    requires ForkedAt(g, p, c, i, j) && !(e.Fork? && e.child == p)
    ensures ForkedAt(g + [e], p, c, i, j)
    ensures e.ChildEnds? && e.child == p ==> ForkedAt(g + [e], p, c.(ended := Some(e.script)), i, |g|)
  {
  }

  /** A child process: where it was forked and, if it has ended, where and how. */
  lemma {:induction false} ChildLogged(h: seq<Event>, p: ChildPid) returns (i: nat, j: nat)
    requires Run(h).Some? && p in Run(h).value.children
    ensures ForkedAt(h, p, Run(h).value.children[p], i, j)
  {
    i, j := 0, 0;
    if h != [] {
      var g, e := h[..|h| - 1], h[|h| - 1];
      assert h == g + [e];
      ChildStep(Run(g).value, e, p);
      if e.Fork? && e.child == p {
        i := |g|;
      } else {
        i, j := ChildLogged(g, p);
        ForkedSnoc(g, e, p, Run(g).value.children[p], i, j);
        if e.ChildEnds? && e.child == p {
          j := |g|;
        }
      }
    }
  }

  /** Thread t forked p, p ended as `script`, and t reaped p: all three by the same call, which did nothing since. */
  ghost predicate OwnScript(h: seq<Event>, t: Tid, p: ChildPid, script: Script, i: nat, j: nat, k: nat) {
    && i < j < k < |h|
    && h[i] == Fork(t, p) && h[j] == ChildEnds(p, script) && h[k] == Reap(t, p)
    && Quiet(h, t, i, k) && Quiet(h, t, k, |h|)
  }

  /** The fork of the call that t is in, if it has forked, found no child. */
  ghost predicate CleanCall(h: seq<Event>, t: Tid) {
    forall i :: 0 <= i < |h| && h[i].Fork? && h[i].t == t && Complete(t) !in h[i..] ==> ForkedAlone(h, t, i)
  }

  lemma CleanPrefix(h: seq<Event>, t: Tid)
    requires h != [] && CleanCall(h, t) && h[|h| - 1] != Complete(t)
    ensures CleanCall(h[..|h| - 1], t)
  {
    var g := h[..|h| - 1];
    forall i | 0 <= i < |g| && g[i].Fork? && g[i].t == t && Complete(t) !in g[i..]
      ensures ForkedAlone(g, t, i)
    {
      assert h[i..] == g[i..] + [h[|h| - 1]];
      assert ForkedAlone(h, t, i);
      assert g[..i] == h[..i];
    }
  }

  /** If its fork found no child, wait-for-any-child reaps the very child that the waiting call forked. */
  lemma ReapsOwnChild(h: seq<Event>, t: Tid, p: ChildPid) returns (i: nat, j: nat)
    requires Run(h).Some? && Step(Run(h).value, Reap(t, p)).Some? && CleanCall(h, t)
    ensures WaitsFor(Run(h).value, t, p)
    ensures p in Run(h).value.children && Run(h).value.children[p].ended.Some?
    ensures OwnScript(h + [Reap(t, p)], t, p, Run(h).value.children[p].ended.value, i, j, |h|)
  {
    i := WaiterForked(h, t);
    QuietCall(h, t, i);
    WaiterIsAlone(h, t, i);
    var f;
    f, j := ChildLogged(h, p);
    assert ThreadOf(h[f]) == Some(t) && f == i;
  }

  lemma QuietCall(h: seq<Event>, t: Tid, i: nat)
    requires i < |h| && h[i].Fork? && Quiet(h, t, i, |h|)
    ensures Complete(t) !in h[i..]
  {
    forall k | i <= k < |h|
      ensures h[k] != Complete(t)
    {
    }
  }

  lemma OwnScriptSnoc(h: seq<Event>, e: Event, t: Tid, p: ChildPid, script: Script, i: nat, j: nat, k: nat)
    requires OwnScript(h, t, p, script, i, j, k) && ThreadOf(e) != Some(t)
    ensures OwnScript(h + [e], t, p, script, i, j, k)
  {
  }

  lemma EndingStep(s: State, e: Event, t: Tid)
    requires Step(s, e).Some? && At(Step(s, e).value, t).Some? && At(Step(s, e).value, t).value.Ending?
    ensures var pc := At(Step(s, e).value, t).value;
      if ThreadOf(e) != Some(t) then At(s, t) == Some(pc) else
      || ((e.ForkFails? || e.CancelWait?) && pc.action == NeverRan)
      || (e.NoChild? && At(s, t).Some? && At(s, t).value.Waiting? && s.children == map[])
      || (e.Reap? && e.child in s.children && s.children[e.child].ended.Some?
          && pc.action == Ran(s.children[e.child].ended.value))
  {
  }

  lemma NeverWithoutChild(h: seq<Event>, t: Tid)
    requires Run(h).Some? && CleanCall(h, t) && At(Run(h).value, t).Some? && At(Run(h).value, t).value.Waiting?
    ensures Run(h).value.children != map[]
  {
    var i := WaiterForked(h, t);
    QuietCall(h, t, i);
    WaiterIsAlone(h, t, i);
    assert h[i].child in Run(h).value.children;
  }

  /** Why a routine did not run to the end of its script: at k thread t failed to fork or was cancelled. */
  ghost predicate GaveUp(h: seq<Event>, t: Tid, k: nat) {
    k < |h| && (h[k] == ForkFails(t) || h[k] == CancelWait(t)) && Quiet(h, t, k, |h|)
  }

  /**
   If its fork found no child, a routine that is about to settle could not fork, or was cancelled, or the
   action it reports is how its own script ended.
   */
  lemma {:induction false} EndsByOwnScript(h: seq<Event>, t: Tid)
    returns (p: ChildPid, i: nat, j: nat, k: nat)
    requires Run(h).Some? && CleanCall(h, t)
    requires At(Run(h).value, t).Some? && At(Run(h).value, t).value.Ending?
    ensures match At(Run(h).value, t).value.action
      case Ran(script) => OwnScript(h, t, p, script, i, j, k)
      case NeverRan => GaveUp(h, t, k)
  {
    p, i, j, k := 0, 0, 0, 0;
    if h != [] {
      var g, e := h[..|h| - 1], h[|h| - 1];
      assert h == g + [e];
      EndingStep(Run(g).value, e, t);
      CleanPrefix(h, t);
      if ThreadOf(e) != Some(t) {
        p, i, j, k := EndsByOwnScript(g, t);
        var a := At(Run(h).value, t).value.action;
        if a.Ran? {
          OwnScriptSnoc(g, e, t, p, a.script, i, j, k);
        }
      } else {
        k := |g|;
        if e.Reap? {
          p := e.child;
          i, j := ReapsOwnChild(g, t, p);
        } else if e.NoChild? {
          NeverWithoutChild(g, t);
        }
      }
    }
  }

  /**
   So, if its fork found no child, the FSM reaches the routine's final state exactly when the routine's own
   script exited with 0, and Fault when that script ended in any other way, never ran or was left alone.
   */
  lemma SettlesByOwnScript(h: seq<Event>, t: Tid)
    returns (p: ChildPid, i: nat, j: nat, k: nat)
    requires Run(h).Some? && Step(Run(h).value, Complete(t)).Some? && CleanCall(h, t)
    ensures At(Run(h).value, t).Some? && At(Run(h).value, t).value.Ending?
    ensures var pc := At(Run(h).value, t).value;
      var after := Step(Run(h).value, Complete(t)).value.fsm;
      match pc.action
      case Ran(script) =>
        && OwnScript(h, t, p, script, i, j, k)
        && after == Settle(if script == Exited(0) then Final(pc.routine) else Fault)
        && (after.state == Final(pc.routine) <==> script == Exited(0))
        && (Output(Run(h).value, Complete(t)) == Some(Done) <==> script == Exited(0))
      case NeverRan => GaveUp(h, t, k) && after == Settle(Fault) && Output(Run(h).value, Complete(t)) == Some(OsError)
  {
    p, i, j, k := EndsByOwnScript(h, t);
  }

  /**
   Over every run, cancelled waits or not: the client is told Done exactly when the FSM settles in the routine's
   final state, and a failure exactly when it settles in Fault.
   */
  lemma DoneMeansFinal(h: seq<Event>, t: Tid)
    requires Run(h).Some? && Step(Run(h).value, Complete(t)).Some?
    ensures At(Run(h).value, t).Some? && At(Run(h).value, t).value.Ending?
    ensures var pc := At(Run(h).value, t).value;
      var after := Step(Run(h).value, Complete(t)).value.fsm;
      var reply := Output(Run(h).value, Complete(t));
      && reply.Some? && after.routine.None?
      && (reply == Some(Done) <==> after.state == Final(pc.routine))
      && (reply == Some(Done) <==> pc.action == Ran(Exited(0)))
      && (after.state == Fault <==> reply.value.Error? || reply == Some(OsError))
      && (reply.value.Error? <==> pc.action.Ran? && pc.action.script != Exited(0))
      && (reply.value.Error? ==> reply.value.text == ScriptText(pc.action.script))
  {
  }

  // ---- When the fork finds no child ----

  /** In the continuation g of h, thread t forks `own` at i and its next event is to reap p. */
  ghost predicate ForksThenReaps(h: seq<Event>, g: seq<Event>, t: Tid, own: ChildPid, p: ChildPid, i: nat) {
    && Run(h + g).Some? && i + 1 < |g|
    && g[i] == Fork(t, own) && g[|g| - 1] == Reap(t, p)
    && Quiet(g, t, -1, i) && Quiet(g, t, i, |g| - 1)
  }

  lemma {:induction false} StaysAdmitted(h: seq<Event>, g: seq<Event>, t: Tid)
    requires Run(h).Some? && Run(h + g).Some? && IsAdmitted(Run(h).value, t) && Quiet(g, t, -1, |g|)
    ensures Run(h + g).value.children.Keys == Run(h).value.children.Keys && IsAdmitted(Run(h + g).value, t)
  {
    if g == [] {
      assert h + g == h;
    } else {
      var f, e := g[..|g| - 1], g[|g| - 1];
      assert (h + g)[..|h + g| - 1] == h + f;
      StaysAdmitted(h, f, t);
      RunsAreSafe(h + f);
      OthersSpareChildren(Run(h + f).value, e, t);
    }
  }

  /** The log up to the reap: the fork at i found no child, and t has been quiet since. */
  lemma ForkFindsNone(h: seq<Event>, g: seq<Event>, t: Tid, i: nat)
    requires Run(h).Some? && IsAdmitted(Run(h).value, t) && Run(h).value.children == map[]
    requires Run(h + g).Some? && i < |g| && g[i].Fork? && g[i].t == t && Quiet(g, t, -1, i) && Quiet(g, t, i, |g|)
    ensures ForkedAlone(h + g, t, |h| + i) && Quiet(h + g, t, |h| + i, |h + g|)
  {
    FoldPrefix(Step, INIT, h + g, |h| + i);
    assert (h + g)[..|h| + i] == h + g[..i];
    StaysAdmitted(h, g[..i], t);
    assert Run(h + g[..i]).value.children.Keys == {};
  }

  lemma NoLeftoverReapsOwn(h: seq<Event>, g: seq<Event>, t: Tid, own: ChildPid, p: ChildPid, i: nat)
    requires Run(h).Some? && IsAdmitted(Run(h).value, t) && Run(h).value.children == map[]
    requires ForksThenReaps(h, g, t, own, p, i)
    ensures p == own
  {
    var f := g[..|g| - 1];
    assert (h + g)[..|h + g| - 1] == h + f;
    assert Step(Run(h + f).value, Reap(t, p)).Some?;
    ForkFindsNone(h, f, t, i);
    WaiterIsAlone(h + f, t, |h| + i);
  }

  lemma FreshPid(m: map<ChildPid, Child>) returns (p: ChildPid)
    ensures p !in m
  {
    p := UpperBound(m.Keys);
  }

  /** What t does about a leftover child p: it forks, p ends if it has not yet, and t reaps p. */
  lemma LeftoverIsReaped(h: seq<Event>, t: Tid, p: ChildPid) returns (g: seq<Event>, own: ChildPid)
    requires Run(h).Some? && IsAdmitted(Run(h).value, t) && p in Run(h).value.children
    ensures ForksThenReaps(h, g, t, own, p, 0) && own != p
  {
    var s := Run(h).value;
    own := FreshPid(s.children);
    Extend(h, Fork(t, own));
    ForkStep(s, Fork(t, own));
    g := [Fork(t, own)];
    var u := Run(h + g).value;
    if u.children[p].ended.None? {
      Extend(h + g, ChildEnds(p, Killed));
      assert h + g + [ChildEnds(p, Killed)] == h + (g + [ChildEnds(p, Killed)]);
      g := g + [ChildEnds(p, Killed)];
    }
    Extend(h + g, Reap(t, p));
    assert h + g + [Reap(t, p)] == h + (g + [Reap(t, p)]);
    g := g + [Reap(t, p)];
  }

  /**
   The exact condition, which a caller can test before it forks: whatever happens next, an admitted call
   whose next step after its fork is to reap a child reaps its own, if and only if no child exists now.
   */
  lemma ReapsOwnIff(h: seq<Event>, t: Tid)
    requires Run(h).Some? && IsAdmitted(Run(h).value, t)
    ensures Run(h).value.children == map[] <==>
      forall g: seq<Event>, own: ChildPid, p: ChildPid, i: nat :: ForksThenReaps(h, g, t, own, p, i) ==> p == own
  {
    if Run(h).value.children == map[] {
      forall g: seq<Event>, own: ChildPid, p: ChildPid, i: nat | ForksThenReaps(h, g, t, own, p, i)
        ensures p == own
      {
        NoLeftoverReapsOwn(h, g, t, own, p, i);
      }
    } else {
      var p :| p in Run(h).value.children;
      var g, own := LeftoverIsReaped(h, t, p);
    }
  }

  ghost predicate NoCancels(h: seq<Event>) {
    forall k :: 0 <= k < |h| ==> !h[k].CancelWait?
  }

  /** A child exists exactly while the admitted thread waits for it, and then it is the only one. */
  predicate OwnChildren(s: State) {
    if s.actor.Some? && At(s, s.actor.value).Some? && At(s, s.actor.value).value.Waiting?
    then OnlyOwn(s, s.actor.value, At(s, s.actor.value).value.child)
    else s.children == map[]
  }

  lemma OthersKeepOwnChildren(s: State, e: Event)
    requires Exclusive(s) && OwnChildren(s) && !MovesActor(e) && Step(s, e).Some?
    ensures OwnChildren(Step(s, e).value)
  {
    OthersSpareActor(s, e);
  }

  lemma ActorKeepsOwnChildren(s: State, e: Event)
    requires Exclusive(s) && OwnChildren(s) && MovesActor(e) && !e.CancelWait? && Step(s, e).Some?
    ensures OwnChildren(Step(s, e).value)
  {
    if e.TryEnter? {
      assert s.actor != Some(e.t);
    } else {
      assert s.actor == Some(e.t);
    }
  }

  lemma {:induction false} ChildrenAreOwn(h: seq<Event>)
    requires Run(h).Some? && NoCancels(h)
    ensures OwnChildren(Run(h).value)
  {
    if h != [] {
      var g, e := h[..|h| - 1], h[|h| - 1];
      RunsAreSafe(g);
      ChildrenAreOwn(g);
      if MovesActor(e) {
        ActorKeepsOwnChildren(Run(g).value, e);
      } else {
        OthersKeepOwnChildren(Run(g).value, e);
      }
    }
  }

  /** Without thread cancellation every fork finds no child, so every call reaps its own. */
  lemma UncancelledCallsAreClean(h: seq<Event>, t: Tid)
    requires Run(h).Some? && NoCancels(h)
    ensures CleanCall(h, t)
  {
    forall i | 0 <= i < |h| && h[i].Fork? && h[i].t == t
      ensures ForkedAlone(h, t, i)
    {
      RunStep(h, i);
      ChildrenAreOwn(h[..i]);
      RunsAreSafe(h[..i]);
      ForkStep(Run(h[..i]).value, h[i]);
    }
  }

  /**
   So without thread cancellation the FSM settles in the routine's final state exactly when the routine's own
   script exited with 0, and in Fault when that script ended in any other way or could not be forked.
   */
  lemma UncancelledSettles(h: seq<Event>, t: Tid)
    returns (p: ChildPid, i: nat, j: nat, k: nat)
    requires Run(h).Some? && Step(Run(h).value, Complete(t)).Some? && NoCancels(h)
    ensures At(Run(h).value, t).Some? && At(Run(h).value, t).value.Ending?
    ensures var pc := At(Run(h).value, t).value;
      var after := Step(Run(h).value, Complete(t)).value.fsm;
      match pc.action
      case Ran(script) =>
        && OwnScript(h, t, p, script, i, j, k)
        && (after.state == Final(pc.routine) <==> script == Exited(0))
        && (after.state == Fault <==> script != Exited(0))
      case NeverRan => k < |h| && h[k] == ForkFails(t) && Quiet(h, t, k, |h|) && after.state == Fault
  {
    UncancelledCallsAreClean(h, t);
    p, i, j, k := SettlesByOwnScript(h, t);
  }

  // ---- Who held the port ----

  datatype PortChange = Took(user: User) | Gave

  /** The change of holder that an event makes, if it makes one. */
  function Change(s: State, e: Event): Option<PortChange> {
    match e
    case FinishConnect(t) =>
      (match At(s, t) case Some(ConnectChecked(user, _, _)) => Some(Took(user)) case _ => None)
    case Disconnect(_) => if s.acquired then Some(Gave) else None
    case _ => None
  }

  /** Successful Connects and Disconnects along a run. */
  function History(h: seq<Event>): seq<PortChange> {
    if h == [] then [] else
    var g, e := h[..|h| - 1], h[|h| - 1];
    match Run(g)
    case None => History(g)
    case Some(s) => (match Change(s, e) case None => History(g) case Some(c) => History(g) + [c])
  }

  predicate Alternates(x: seq<PortChange>) {
    forall i :: 0 <= i < |x| ==> (x[i].Took? <==> i % 2 == 0)
  }

  /** `x` is a proper history for a port in state `acquired`, held by `user` if it is held. */
  predicate Tells(x: seq<PortChange>, acquired: bool, user: User) {
    && Alternates(x)
    && (acquired <==> |x| % 2 == 1)
    && (acquired ==> x[|x| - 1] == Took(user))
  }

  lemma TellsSnoc(x: seq<PortChange>, acquired: bool, user: User, c: PortChange)
    requires Tells(x, acquired, user) && (c.Took? <==> !acquired)
    ensures Tells(x + [c], !acquired, if c.Took? then c.user else user)
  {
  }

  lemma PortStep(s: State, e: Event)
    requires Mutex(s) && Step(s, e).Some?
    ensures var u := Step(s, e).value;
      match Change(s, e)
      case None => u.acquired == s.acquired && u.user == s.user
      case Some(Took(user)) => !s.acquired && u.acquired && u.user == user
      case Some(Gave) => s.acquired && !u.acquired && u.user == s.user
  {
    if e.FinishConnect? {
      assert s.lock == Some(e.t);
    }
  }

  /** Successful Connects and Disconnects alternate, beginning with a Connect, and the last one tells the holder. */
  lemma {:induction false} ConnectsAlternate(h: seq<Event>)
    requires Run(h).Some?
    ensures Tells(History(h), Run(h).value.acquired, Run(h).value.user)
  {
    if h != [] {
      var g, e := h[..|h| - 1], h[|h| - 1];
      var s := Run(g).value;
      RunsAreSafe(g);
      ConnectsAlternate(g);
      PortStep(s, e);
      if Change(s, e).Some? {
        TellsSnoc(History(g), s.acquired, s.user, Change(s, e).value);
      }
    }
  }

  lemma StatusOutput(s: State, t: Tid, m: Message)
    requires Output(s, ReplyStatus(t)) == Some(Status(m))
    ensures m.ChipStatus? && m.acquired == s.acquired && m.user == s.user
    ensures At(s, t).Some? && At(s, t).value.StatusRead?
    ensures m.description == OneByteText(Description(At(s, t).value.seen))
  {
  }

  /**
   A status reply is told by the history of the port: it says "acquired" exactly when the last change was a
   successful Connect, and then carries the name and PID of that Connect.
   */
  lemma StatusTellsHolder(h: seq<Event>, t: Tid, m: Message)
    requires Run(h).Some? && Output(Run(h).value, ReplyStatus(t)) == Some(Status(m))
    ensures m.ChipStatus? && Tells(History(h), m.acquired, m.user)
  {
    ConnectsAlternate(h);
    StatusOutput(Run(h).value, t, m);
  }

  /** A Connect that fails, at whichever step, changes neither the holder nor the firmware. */
  lemma FailedConnectChangesNothing(s: State, e: Event)
    requires Step(s, e).Some? && (e.BeginConnect? || e.ReadState? || e.ClearFails?)
    ensures var u := Step(s, e).value; u.acquired == s.acquired && u.user == s.user && u.fsm == s.fsm
  {
  }
}
