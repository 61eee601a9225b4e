/** The auxiliary parts of `Arbitration` only record; erasing them changes neither what can happen nor what is replied. */
module Erasure {
  import opened Bytes
  import opened Runs
  import opened Firmware
  import opened Arbitration
  import opened PortSafety

  function ErasePc(pc: Pc): Pc {
    match pc
    case Cleared(r, _) => Cleared(r, 0)
    case Admitted(r, _) => Admitted(r, Boot)
    case Waiting(r, _, _) => Waiting(r, Boot, 0)
    case Ending(r, _, a) => Ending(r, Boot, a)
    case ConnectLocked(user, _) => ConnectLocked(user, 0)
    case ConnectChecked(user, _, _) => ConnectChecked(user, 0, 0)
    case _ => pc
  }

  function EraseThreads(m: map<Tid, Pc>): map<Tid, Pc> {
    map t | t in m :: ErasePc(m[t])
  }

  function EraseChildren(m: map<ChildPid, Child>): map<ChildPid, Child> {
    map p | p in m :: m[p].(owner := 0)
  }

  function Erase(s: State): State {
    s.(threads := EraseThreads(s.threads), children := EraseChildren(s.children),
       now := 0, actor := None, grant := INIT.grant, lastReset := None)
  }

  function EraseOption(o: Option<State>): Option<State> {
    match o
    case None => None
    case Some(s) => Some(Erase(s))
  }

  lemma EraseThreadsAgain(m: map<Tid, Pc>)
    ensures EraseThreads(EraseThreads(m)) == EraseThreads(m)
  {
  }

  lemma EraseDropped(m: map<Tid, Pc>, t: Tid)
    ensures EraseThreads(EraseThreads(m) - {t}) == EraseThreads(m - {t})
  {
    assert (m - {t}).Keys == (EraseThreads(m) - {t}).Keys;
  }

  lemma ErasePut(m: map<Tid, Pc>, t: Tid, x: Pc, y: Pc)
    requires ErasePc(x) == ErasePc(y)
    ensures EraseThreads(EraseThreads(m)[t := y]) == EraseThreads(m[t := x])
  {
    assert m[t := x].Keys == EraseThreads(m)[t := y].Keys;
  }

  lemma EraseChildrenAgain(m: map<ChildPid, Child>)
    ensures EraseChildren(EraseChildren(m)) == EraseChildren(m)
    ensures EraseChildren(m) == map[] <==> m == map[]
  {
    assert EraseChildren(m).Keys == m.Keys;
  }

  lemma EraseReaped(m: map<ChildPid, Child>, p: ChildPid)
    ensures EraseChildren(EraseChildren(m) - {p}) == EraseChildren(m - {p})
  {
    assert (m - {p}).Keys == (EraseChildren(m) - {p}).Keys;
  }

  lemma ErasePutChild(m: map<ChildPid, Child>, p: ChildPid, c: Child, d: Child)
    requires c.ended == d.ended
    ensures EraseChildren(EraseChildren(m)[p := d]) == EraseChildren(m[p := c])
  {
    assert m[p := c].Keys == EraseChildren(m)[p := d].Keys;
  }

  predicate BeginsRoutine(e: Event) {
    e.BeginReset? || e.BeginFlash? || e.BeginStart?
  }

  lemma BeginRoutineErases(s: State, e: Event, r: Routine)
    requires BeginsRoutine(e) && e == BeginOf(r, e.t)
    ensures EraseOption(Step(Erase(s), e)) == EraseOption(Step(s, e))
  {
    EraseThreadsAgain(s.threads);
    EraseChildrenAgain(s.children);
    ErasePut(s.threads, e.t, Cleared(r, s.now), Cleared(r, 0));
  }

  lemma BeginConnectErases(s: State, e: Event)
    requires e.BeginConnect?
    ensures EraseOption(Step(Erase(s), e)) == EraseOption(Step(s, e))
  {
    EraseThreadsAgain(s.threads);
    EraseChildrenAgain(s.children);
    ErasePut(s.threads, e.t, ConnectLocked(e.user, s.now), ConnectLocked(e.user, 0));
  }

  lemma BeginStatusErases(s: State, e: Event)
    requires e.BeginStatus?
    ensures EraseOption(Step(Erase(s), e)) == EraseOption(Step(s, e))
  {
    EraseChildrenAgain(s.children);
    ErasePut(s.threads, e.t, StatusLocked, StatusLocked);
  }

  lemma DisconnectErases(s: State, e: Event)
    requires e.Disconnect?
    ensures EraseOption(Step(Erase(s), e)) == EraseOption(Step(s, e))
  {
    EraseThreadsAgain(s.threads);
    EraseChildrenAgain(s.children);
  }

  /** Events that end a call and do nothing else to a thread. */
  predicate Ends(e: Event) {
    e.ReportRejected? || e.Complete? || e.ClearFails? || e.FinishConnect? || e.ReplyStatus?
  }

  lemma EndErases(s: State, e: Event)
    requires Ends(e)
    ensures EraseOption(Step(Erase(s), e)) == EraseOption(Step(s, e))
  {
    EraseChildrenAgain(s.children);
    EraseDropped(s.threads, e.t);
  }

  lemma ReadStateErases(s: State, e: Event)
    requires e.ReadState?
    ensures EraseOption(Step(Erase(s), e)) == EraseOption(Step(s, e))
  {
    EraseChildrenAgain(s.children);
    match At(s, e.t)
    case Some(ConnectLocked(user, b)) =>
      if s.fsm.state == Running {
        ErasePut(s.threads, e.t, ConnectChecked(user, b, s.now), ConnectChecked(user, 0, 0));
      } else {
        EraseDropped(s.threads, e.t);
      }
    case _ =>
  }

  lemma ReadDescriptionErases(s: State, e: Event)
    requires e.ReadDescription?
    ensures EraseOption(Step(Erase(s), e)) == EraseOption(Step(s, e))
  {
    EraseChildrenAgain(s.children);
    ErasePut(s.threads, e.t, StatusRead(s.fsm), StatusRead(s.fsm));
  }

  lemma TryEnterErases(s: State, e: Event)
    requires e.TryEnter?
    ensures EraseOption(Step(Erase(s), e)) == EraseOption(Step(s, e))
  {
    EraseChildrenAgain(s.children);
    match At(s, e.t)
    case Some(Cleared(r, _)) =>
      ErasePut(s.threads, e.t, Admitted(r, s.fsm.state), Admitted(r, s.fsm.state));
      ErasePut(s.threads, e.t, Rejected(r), Rejected(r));
    case _ =>
  }

  lemma ForkFailsErases(s: State, e: Event)
    requires e.ForkFails?
    ensures EraseOption(Step(Erase(s), e)) == EraseOption(Step(s, e))
  {
    EraseChildrenAgain(s.children);
    match At(s, e.t)
    case Some(Admitted(r, f)) =>
      ErasePut(s.threads, e.t, Ending(r, f, NeverRan), Ending(r, Boot, NeverRan));
    case _ =>
  }

  lemma WaitFailsErases(s: State, e: Event)
    requires e.NoChild? || e.CancelWait?
    ensures EraseOption(Step(Erase(s), e)) == EraseOption(Step(s, e))
  {
    EraseChildrenAgain(s.children);
    match At(s, e.t)
    case Some(Waiting(r, f, _)) =>
      ErasePut(s.threads, e.t, Ending(r, f, NeverRan), Ending(r, Boot, NeverRan));
    case _ =>
  }

  lemma ForkErases(s: State, e: Event)
    requires e.Fork?
    ensures EraseOption(Step(Erase(s), e)) == EraseOption(Step(s, e))
  {
    match At(s, e.t)
    case Some(Admitted(r, f)) =>
      ErasePutChild(s.children, e.child, Child(e.t, None), Child(e.t, None));
      ErasePut(s.threads, e.t, Waiting(r, f, e.child), Waiting(r, Boot, e.child));
    case _ =>
  }

  lemma ReapErases(s: State, e: Event)
    requires e.Reap?
    ensures EraseOption(Step(Erase(s), e)) == EraseOption(Step(s, e))
  {
    EraseReaped(s.children, e.child);
    match At(s, e.t)
    case Some(Waiting(r, f, _)) =>
      if e.child in s.children && s.children[e.child].ended.Some? {
        var a := Ran(s.children[e.child].ended.value);
        ErasePut(s.threads, e.t, Ending(r, f, a), Ending(r, Boot, a));
      }
    case _ =>
  }

  lemma ChildEndErases(s: State, e: Event)
    requires e.ChildEnds?
    ensures EraseOption(Step(Erase(s), e)) == EraseOption(Step(s, e))
  {
    EraseThreadsAgain(s.threads);
    if e.child in s.children {
      var c := s.children[e.child];
      ErasePutChild(s.children, e.child, c.(ended := Some(e.script)), c.(owner := 0, ended := Some(e.script)));
    }
  }

  /** A step of an erased state is, up to what is recorded, the step of the state. */
  lemma StepErases(s: State, e: Event)
    ensures EraseOption(Step(Erase(s), e)) == EraseOption(Step(s, e))
  {
    if BeginsRoutine(e) {
      BeginRoutineErases(s, e, if e.BeginReset? then ChipReset else if e.BeginFlash? then FWFlashing else FWStarting);
    } else if Ends(e) {
      EndErases(s, e);
    } else {
      match e
      case BeginConnect(_, _) => BeginConnectErases(s, e);
      case BeginStatus(_) => BeginStatusErases(s, e);
      case Disconnect(_) => DisconnectErases(s, e);
      case ReadState(_) => ReadStateErases(s, e);
      case ReadDescription(_) => ReadDescriptionErases(s, e);
      case ForkFails(_) => ForkFailsErases(s, e);
      case NoChild(_) => WaitFailsErases(s, e);
      case CancelWait(_) => WaitFailsErases(s, e);
      case TryEnter(_) => TryEnterErases(s, e);
      case Fork(_, _) => ForkErases(s, e);
      case Reap(_, _) => ReapErases(s, e);
      case ChildEnds(_, _) => ChildEndErases(s, e);
    }
  }

  lemma OutputErases(s: State, e: Event)
    ensures Output(Erase(s), e) == Output(s, e)
  {
  }

  /** The machine that records nothing: it forgets all auxiliary parts after each step. */
  function PlainStep(s: State, e: Event): Option<State> {
    EraseOption(Step(s, e))
  }

  function PlainRun(h: seq<Event>): Option<State> {
    Fold(PlainStep, Erase(INIT), h)
  }

  /** Both machines have the same logs, the same states up to what is recorded, and the same replies. */
  lemma {:induction false} RecordingIsInvisible(h: seq<Event>, e: Event)
    ensures PlainRun(h) == EraseOption(Run(h))
    ensures Run(h).Some? ==> Output(PlainRun(h).value, e) == Output(Run(h).value, e)
  {
    if h != [] {
      var g := h[..|h| - 1];
      RecordingIsInvisible(g, e);
      if Run(g).Some? {
        StepErases(Run(g).value, h[|h| - 1]);
      }
    }
    if Run(h).Some? {
      OutputErases(Run(h).value, e);
    }
  }
}
