/**
 The text of a rejected transition. `DoTransition` unlocks before it composes the text, so the state it names
 is read after the state that caused the rejection.
 */
module Rejections {
  import opened Bytes
  import opened Firmware
  import opened Arbitration
  import opened PortSafety
  import opened Transitions

  // ---- What a text tells ----

  /** Where a text names the state. */
  function NameAt(r: Routine): nat {
    42 + |Name(r)|
  }

  lemma TextShape(r: Routine, got: FWState)
    ensures NameAt(r) < |RejectedText(Name(r), got, Expected(r))|
    ensures RejectedText(Name(r), got, Expected(r))[NameAt(r)] == StateToStr(got)[0]
  {
    var head := "Inappropriate state for operation \"" + Name(r) + "\": ";
    var middle := "Got " + StateToStr(got) + ",";
    assert |head| == 38 + |Name(r)|;
    assert middle[4] == StateToStr(got)[0];
    assert RejectedHead(Name(r), got)[NameAt(r)] == middle[4];
  }

  lemma AsciiTells(a: string, b: string, k: nat)
    requires Ascii(a) == Ascii(b) && k < |a| && a[k] < 128 as char && b[k] < 128 as char
    ensures a[k] == b[k]
  {
    assert Ascii(a)[k] == Ascii(b)[k];
  }

  /** A rejection names one state only. */
  lemma RejectionTellsState(r: Routine, x: FWState, y: FWState)
    requires Rejection(r, x) == Rejection(r, y)
    ensures x == y
  {
    var a, b := RejectedText(Name(r), x, Expected(r)), RejectedText(Name(r), y, Expected(r));
    TextShape(r, x);
    TextShape(r, y);
    AsciiTells(a, b, NameAt(r));
    StatesTell(x, y);
  }

  // ---- When a rejected thread was rejected ----

  lemma RejectedStep(s: State, e: Event, t: Tid, r: Routine)
    requires Step(s, e).Some? && At(Step(s, e).value, t) == Some(Rejected(r))
    ensures
      if ThreadOf(e) == Some(t) then e == TryEnter(t) && !Admits(s.fsm, r) && Step(s, e).value.fsm == s.fsm
      else At(s, t) == Some(Rejected(r))
  {
  }

  /** Thread t was last seen at d, where the FSM turned its routine r away. */
  ghost predicate RejectedAt(h: seq<Event>, t: Tid, r: Routine, d: nat)
    requires Run(h).Some?
  {
    && d < |h| && h[d] == TryEnter(t) && Quiet(h, t, d, |h|)
    && FwAt(h, d) !in Expected(r) && FwAt(h, d + 1) == FwAt(h, d)
  }

  lemma RejectedLogStep(h: seq<Event>, t: Tid, r: Routine, k: nat)
    requires Run(h).Some? && k < |h| && Run(h[..k + 1]).Some? && At(Run(h[..k + 1]).value, t) == Some(Rejected(r))
    ensures Run(h[..k]).Some?
    ensures
      if ThreadOf(h[k]) == Some(t)
      then h[k] == TryEnter(t) && FwAt(h, k) !in Expected(r) && FwAt(h, k + 1) == FwAt(h, k)
      else At(Run(h[..k]).value, t) == Some(Rejected(r))
  {
    RunStep(h, k);
    RejectedStep(Run(h[..k]).value, h[k], t, r);
  }

  lemma {:induction false} LastRejection(h: seq<Event>, t: Tid, r: Routine, m: nat) returns (d: nat)
    requires Run(h).Some? && m <= |h| && Run(h[..m]).Some? && At(Run(h[..m]).value, t) == Some(Rejected(r))
    ensures d < m && h[d] == TryEnter(t) && Quiet(h, t, d, m)
    ensures FwAt(h, d) !in Expected(r) && FwAt(h, d + 1) == FwAt(h, d)
    decreases m
  {
    assert m > 0;
    d := m - 1;
    RejectedLogStep(h, t, r, d);
    if ThreadOf(h[d]) != Some(t) {
      d := LastRejection(h, t, r, d);
    }
  }

  lemma RejectionIsLogged(h: seq<Event>, t: Tid, r: Routine) returns (d: nat)
    requires Run(h).Some? && At(Run(h).value, t) == Some(Rejected(r))
    ensures RejectedAt(h, t, r, d)
  {
    assert h[..|h|] == h;
    d := LastRejection(h, t, r, |h|);
  }

  // ---- What happened to the FSM since ----

  /** At j a thread was admitted. */
  ghost predicate AdmittedAt(h: seq<Event>, j: nat)
    requires Run(h).Some? && j < |h|
  {
    h[j].TryEnter? && FwAt(h, j) != Transition && FwAt(h, j + 1) == Transition
  }

  /** Between d and m a routine settled, at k, in a state that r expects, and none was admitted from there to m. */
  ghost predicate SettledBy(h: seq<Event>, r: Routine, d: nat, k: nat, m: nat)
    requires Run(h).Some? && m <= |h|
  {
    && d < k < m && h[k].Complete? && FwAt(h, k + 1) in Expected(r)
    && forall j :: k < j < m ==> !AdmittedAt(h, j)
  }

  lemma FsmStep(s: State, e: Event)
    requires Exclusive(s) && Step(s, e).Some?
    ensures var u := Step(s, e).value;
      if e.Complete? then s.fsm.state == Transition && u.fsm.state != Transition
      else if e.TryEnter? && s.fsm.state != Transition && u.fsm.state == Transition then true
      else u.fsm.state == s.fsm.state
  {
  }

  /** Each event ends a transition, begins one or leaves the state alone. */
  lemma FwStep(h: seq<Event>, k: nat)
    requires Run(h).Some? && k < |h|
    ensures
      if h[k].Complete? then FwAt(h, k) == Transition && FwAt(h, k + 1) != Transition
      else AdmittedAt(h, k) || FwAt(h, k + 1) == FwAt(h, k)
  {
    RunStep(h, k);
    RunsAreSafe(h[..k]);
    FsmStep(Run(h[..k]).value, h[k]);
  }

  lemma TransitionUnexpected(r: Routine)
    ensures Transition !in Expected(r)
  {
  }

  /** From a state that r does not expect, the FSM gets into one only by a settling with no admission after it. */
  lemma {:induction false} SettlesFirst(h: seq<Event>, r: Routine, d: nat, m: nat) returns (k: nat)
    requires Run(h).Some? && d < m <= |h| && FwAt(h, d + 1) !in Expected(r) && FwAt(h, m) in Expected(r)
    ensures SettledBy(h, r, d, k, m)
    decreases m
  {
    k := m - 1;
    FwStep(h, k);
    if !h[k].Complete? {
      TransitionUnexpected(r);
      k := SettlesFirst(h, r, d, m - 1);
    }
  }

  /** After such a settling the state stays as it is: nothing can settle again before a next admission. */
  lemma {:induction false} StaysSettled(h: seq<Event>, r: Routine, d: nat, k: nat, m: nat)
    requires Run(h).Some? && m <= |h| && SettledBy(h, r, d, k, m)
    ensures FwAt(h, m) == FwAt(h, k + 1)
    decreases m
  {
    if k + 1 < m {
      StaysSettled(h, r, d, k, m - 1);
      FwStep(h, m - 1);
      TransitionUnexpected(r);
    }
  }

  lemma ExpectedIffSettled(h: seq<Event>, r: Routine, d: nat)
    requires Run(h).Some? && d < |h| && FwAt(h, d + 1) !in Expected(r)
    ensures FwAt(h, |h|) in Expected(r) <==> exists k: nat :: SettledBy(h, r, d, k, |h|)
  {
    if FwAt(h, |h|) in Expected(r) {
      var k := SettlesFirst(h, r, d, |h|);
    } else if k: nat :| SettledBy(h, r, d, k, |h|) {
      StaysSettled(h, r, d, k, |h|);
    }
  }

  /**
   For every run that ends with a thread turned away at d and about to report: its text names a state that
   the routine expects if and only if some routine settled in such a state after d and none was admitted
   since. So without a routine settling since d the text never names an expected state.
   */
  lemma RejectionNamesExpectedIff(h: seq<Event>, t: Tid, r: Routine) returns (d: nat)
    requires Run(h).Some? && At(Run(h).value, t) == Some(Rejected(r))
    ensures RejectedAt(h, t, r, d)
    ensures (exists got :: got in Expected(r) && Output(Run(h).value, ReportRejected(t)) == Some(Rejection(r, got)))
      <==> exists k: nat :: SettledBy(h, r, d, k, |h|)
    ensures (forall k :: d < k < |h| ==> !h[k].Complete?) ==>
      forall got :: got in Expected(r) ==> Output(Run(h).value, ReportRejected(t)) != Some(Rejection(r, got))
  {
    d := RejectionIsLogged(h, t, r);
    ExpectedIffSettled(h, r, d);
    assert h[..|h|] == h;
    var s := Run(h).value;
    assert Output(s, ReportRejected(t)) == Some(Rejection(r, s.fsm.state));
    forall got | Rejection(r, got) == Rejection(r, s.fsm.state)
      ensures got == s.fsm.state
    {
      RejectionTellsState(r, got, s.fsm.state);
    }
  }

  // ---- When the text names the very state that turned the thread away ----

  lemma {:induction false} UntouchedState(h: seq<Event>, d: nat, m: nat)
    requires Run(h).Some? && d <= m <= |h|
    requires forall k :: d <= k < m ==> !h[k].Complete? && !AdmittedAt(h, k)
    ensures FwAt(h, m) == FwAt(h, d)
    decreases m
  {
    if d < m {
      UntouchedState(h, d, m - 1);
      FwStep(h, m - 1);
    }
  }

  /** If nothing was admitted and nothing settled since d, the text names the state that turned the thread away. */
  lemma UndisturbedRejectionIsTrue(h: seq<Event>, t: Tid, r: Routine, d: nat)
    requires Run(h).Some? && At(Run(h).value, t) == Some(Rejected(r)) && RejectedAt(h, t, r, d)
    requires forall k :: d < k < |h| ==> !h[k].Complete? && !AdmittedAt(h, k)
    ensures Output(Run(h).value, ReportRejected(t)) == Some(Rejection(r, FwAt(h, d)))
  {
    UntouchedState(h, d + 1, |h|);
    assert h[..|h|] == h;
  }
}
