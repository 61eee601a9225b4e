/** File descriptors behind movable wrappers, and the search for a free port. */
module Descriptors {
  import opened Bytes
  import opened Runs

  const NO_FD := -1

  // ---- UniqueValue ----

  /** `UniqueValue<int, -1>`: moving out leaves -1, move assignment swaps. */
  class UniqueValue {
    var value: int

    constructor (v: int)
      ensures value == v
    {
      value := v;
    }

    constructor MoveFrom(rhs: UniqueValue)
      modifies rhs
      ensures value == old(rhs.value) && rhs.value == NO_FD
    {
      value := rhs.value;
      new;
      rhs.value := NO_FD;
    }

    /** Also right for `x = std::move(x)`, which changes nothing. */
    method Assign(rhs: UniqueValue)
      modifies this, rhs
      ensures value == old(rhs.value) && rhs.value == old(value)
    {
      var tmp := value;
      value := rhs.value;
      rhs.value := tmp;
    }
  }

  // ---- Any sequence of wrapper operations ----

  type Wrapper = nat

  /** The kernel's open descriptors, the live wrappers and their values, and what was ever opened and closed. */
  datatype Fds = Fds(open: set<nat>, wrappers: map<Wrapper, int>, wasOpened: multiset<nat>, wasClosed: multiset<nat>)

  datatype Op =
    | Wrap(w: Wrapper, fd: nat)              // a system call returns fd, and w is created over it
    | WrapNone(w: Wrapper)                   // w{-1}
    | MoveNew(w: Wrapper, from: Wrapper)     // w{std::move(from)}
    | MoveAssign(w: Wrapper, from: Wrapper)  // w = std::move(from)
    | Destroy(w: Wrapper)                    // close(w.Get())

  const NONE := Fds({}, map[], multiset{}, multiset{})

  /** The kernel gives out any descriptor that is not open; numbers are reused after a close. */
  function Step(s: Fds, op: Op): Option<Fds> {
    match op
    case Wrap(w, fd) =>
      if w in s.wrappers || fd in s.open then None else
      Some(Fds(s.open + {fd}, s.wrappers[w := fd], s.wasOpened + multiset{fd}, s.wasClosed))
    case WrapNone(w) =>
      if w in s.wrappers then None else Some(s.(wrappers := s.wrappers[w := NO_FD]))
    case MoveNew(w, from) =>
      if w in s.wrappers || from !in s.wrappers then None else
      Some(s.(wrappers := s.wrappers[w := s.wrappers[from]][from := NO_FD]))
    case MoveAssign(w, from) =>
      if w !in s.wrappers || from !in s.wrappers then None else
      Some(s.(wrappers := s.wrappers[w := s.wrappers[from]][from := s.wrappers[w]]))
    case Destroy(w) =>
      if w !in s.wrappers then None else
      var fd := s.wrappers[w];
      var rest := s.(wrappers := s.wrappers - {w});
      Some(if fd < 0 then rest else rest.(open := s.open - {fd}, wasClosed := s.wasClosed + multiset{fd}))
  }

  function Run(ops: seq<Op>): Option<Fds> {
    Fold(Step, NONE, ops)
  }

  /** What each operation does, and that it is possible exactly on wrappers that live, or do not live yet. */
  lemma OperationsDo(s: Fds, w: Wrapper, from: Wrapper, fd: nat)
    ensures Step(s, Wrap(w, fd)).Some? <==> w !in s.wrappers && fd !in s.open
    ensures Step(s, WrapNone(w)).Some? <==> w !in s.wrappers
    ensures Step(s, MoveNew(w, from)).Some? <==> w !in s.wrappers && from in s.wrappers
    ensures Step(s, MoveAssign(w, from)).Some? <==> w in s.wrappers && from in s.wrappers
    ensures Step(s, Destroy(w)).Some? <==> w in s.wrappers
    ensures Step(s, Wrap(w, fd)).Some? ==>
      Step(s, Wrap(w, fd)).value.wrappers == s.wrappers[w := fd] && Step(s, Wrap(w, fd)).value.open == s.open + {fd}
    ensures Step(s, MoveNew(w, from)).Some? ==>
      Step(s, MoveNew(w, from)).value.wrappers == s.wrappers[w := s.wrappers[from]][from := -1]
    ensures Step(s, MoveAssign(w, w)).Some? ==> Step(s, MoveAssign(w, w)).value == s
    ensures w in s.wrappers && from in s.wrappers ==>
      var u := Step(s, MoveAssign(w, from)).value.wrappers;
      u[w] == s.wrappers[from] && u[from] == s.wrappers[w]
  {
    if w in s.wrappers {
      assert s.wrappers[w := s.wrappers[w]] == s.wrappers;
    }
  }

  /** Every open descriptor has exactly one owner, and owners own open descriptors: `owner` inverts `wrappers`. */
  ghost predicate OwnedBy(s: Fds, owner: map<nat, Wrapper>) {
    && owner.Keys == s.open
    && (forall fd :: fd in owner ==> owner[fd] in s.wrappers && s.wrappers[owner[fd]] == fd)
    && (forall w :: w in s.wrappers && s.wrappers[w] != NO_FD ==> s.wrappers[w] >= 0 && s.wrappers[w] in owner && owner[s.wrappers[w] as nat] == w)
  }

  /** Descriptors opened = closed + still open, each counted as often as it happened. */
  ghost predicate Conserved(s: Fds) {
    s.wasOpened == s.wasClosed + multiset(s.open)
  }

  lemma OpenMultiset(open: set<nat>, fd: nat)
    ensures fd !in open ==> multiset(open + {fd}) == multiset(open) + multiset{fd}
    ensures fd in open ==> multiset(open) == multiset(open - {fd}) + multiset{fd}
  {
  }

  /** Who owns what after an operation. */
  function NewOwner(s: Fds, op: Op, owner: map<nat, Wrapper>): map<nat, Wrapper>
    requires Step(s, op).Some?
  {
    match op
    case Wrap(w, fd) => owner[fd := w]
    case WrapNone(w) => owner
    case MoveNew(w, from) => if s.wrappers[from] < 0 then owner else owner[s.wrappers[from] := w]
    case MoveAssign(w, from) =>
      var o := if s.wrappers[from] < 0 then owner else owner[s.wrappers[from] := w];
      if s.wrappers[w] < 0 then o else o[s.wrappers[w] := from]
    case Destroy(w) => if s.wrappers[w] < 0 then owner else owner - {s.wrappers[w]}
  }

  lemma StepKeepsOwned(s: Fds, op: Op, owner: map<nat, Wrapper>)
    requires OwnedBy(s, owner) && Step(s, op).Some?
    ensures OwnedBy(Step(s, op).value, NewOwner(s, op, owner))
  {
    match op
    case Wrap(w, fd) =>
    case WrapNone(w) =>
    case MoveNew(w, from) =>
    case MoveAssign(w, from) => SwapKeepsOwned(s, w, from, owner);
    case Destroy(w) =>
  }

  lemma SwapKeepsOwned(s: Fds, w: Wrapper, from: Wrapper, owner: map<nat, Wrapper>)
    requires OwnedBy(s, owner) && w in s.wrappers && from in s.wrappers
    ensures OwnedBy(Step(s, MoveAssign(w, from)).value, NewOwner(s, MoveAssign(w, from), owner))
  {
    var u, o := Step(s, MoveAssign(w, from)).value, NewOwner(s, MoveAssign(w, from), owner);
    assert o.Keys == owner.Keys;
    forall fd | fd in o
      ensures o[fd] in u.wrappers && u.wrappers[o[fd]] == fd
    {
    }
  }

  lemma StepKeepsConserved(s: Fds, op: Op, owner: map<nat, Wrapper>)
    requires OwnedBy(s, owner) && Conserved(s) && Step(s, op).Some?
    ensures Conserved(Step(s, op).value)
  {
    if op.Wrap? {
      OpenMultiset(s.open, op.fd);
    } else if op.Destroy? && s.wrappers[op.w] >= 0 {
      OpenMultiset(s.open, s.wrappers[op.w]);
    }
  }

  lemma {:induction false} RunsAreOwned(ops: seq<Op>) returns (owner: map<nat, Wrapper>)
    requires Run(ops).Some?
    ensures OwnedBy(Run(ops).value, owner) && Conserved(Run(ops).value)
  {
    owner := map[];
    if ops != [] {
      var s, op := Run(ops[..|ops| - 1]).value, ops[|ops| - 1];
      owner := RunsAreOwned(ops[..|ops| - 1]);
      StepKeepsOwned(s, op, owner);
      StepKeepsConserved(s, op, owner);
      owner := NewOwner(s, op, owner);
    }
  }

  /**
   For any sequence of creations, moves and destructions: no two wrappers hold one descriptor, a wrapper's
   destructor closes an open descriptor or nothing, none is closed more often than it was opened, and when
   all wrappers are gone each was closed exactly once per opening.
   */
  lemma ClosedExactlyOnce(ops: seq<Op>)
    requires Run(ops).Some?
    ensures var s := Run(ops).value;
      && s.wasClosed <= s.wasOpened
      && (forall w :: w in s.wrappers && s.wrappers[w] != NO_FD ==> s.wrappers[w] >= 0 && s.wrappers[w] in s.open)
      && (forall v, w :: v in s.wrappers && w in s.wrappers && v != w && s.wrappers[v] == s.wrappers[w] ==>
            s.wrappers[v] == NO_FD)
      && (s.wrappers == map[] ==> s.open == {} && s.wasClosed == s.wasOpened)
  {
    var owner := RunsAreOwned(ops);
    var s := Run(ops).value;
  }

  // ---- Server sockets ----

  /** How the system calls of one `ServerSocket` construction go. */
  datatype Attempt = SocketFails | BindFails | ListenFails | Succeeds

  const STARTING_PORT := 8080

  /** The ports handed out over a life of attempts: each attempt takes the next number, kept in 16 bits. */
  function Ports(tries: seq<Attempt>): seq<nat> {
    if tries == [] then [] else
    var rest := Ports(tries[..|tries| - 1]);
    if tries[|tries| - 1] == Succeeds then rest + [(STARTING_PORT + |tries|) % 0x1_0000] else rest
  }

  class SocketFactory {
    var currentPort: nat
    var open: set<nat>
    ghost var tries: seq<Attempt>   // every attempt so far
    ghost var made: seq<nat>        // ports of the sockets handed out so far

    ghost predicate Valid()
      reads this
    {
      currentPort == STARTING_PORT + |tries| && made == Ports(tries)
    }

    constructor ()
      ensures Valid() && tries == [] && made == [] && open == {}
    {
      currentPort, open, tries, made := STARTING_PORT, {}, [], [];
    }

    method Close(fd: int)
      modifies this`open
      ensures open == if fd >= 0 then old(open) - {fd} else old(open)
    {
      if fd >= 0 {
        open := open - {fd};
      }
    }

    /** The constructor: the member owns the descriptor before bind and listen can throw. */
    method NewServerSocket(port: nat, attempt: Attempt) returns (fd: int, serverPort: nat)
      modifies this`open
      ensures attempt == Succeeds ==> fd >= 0 && fd !in old(open) && open == old(open) + {fd}
      ensures attempt != Succeeds ==> open == old(open)
      ensures serverPort == port % 0x1_0000
    {
      var sockFd := new UniqueValue(NO_FD);
      serverPort := port % 0x1_0000;
      fd := NO_FD;
      if attempt == SocketFails {
        Close(sockFd.value);
        return;
      }
      FreshFd(open);
      var newFd: nat :| newFd !in open;
      open := open + {newFd};
      var temporary := new UniqueValue(newFd);
      sockFd.Assign(temporary);
      Close(temporary.value);
      if attempt != Succeeds {
        Close(sockFd.value);
        assert open == old(open);
        return;
      }
      fd := sockFd.value;
    }

    /**
     Tries port after port. `attempts` is how the tries go; None means that all of them failed and the
     search would go on.
     */
    method CreateHandlerSocket(attempts: seq<Attempt>) returns (r: Option<nat>)
      requires Valid()
      modifies this
      ensures Valid()
      ensures r.None? <==> Succeeds !in attempts
      ensures r.None? ==> open == old(open) && made == old(made) && tries == old(tries) + attempts
      ensures r.Some? ==>
        && made == old(made) + [r.value] && r.value == currentPort % 0x1_0000
        && old(currentPort) < currentPort <= old(currentPort) + |attempts|
        && var last := currentPort - old(currentPort) - 1;
        && attempts[last] == Succeeds && Succeeds !in attempts[..last]
        && tries == old(tries) + attempts[..last + 1]
        && exists fd: nat :: fd !in old(open) && open == old(open) + {fd}
    {
      assert attempts[..0] == [] && old(tries) + [] == old(tries);
      for i := 0 to |attempts|
        invariant Valid() && tries == old(tries) + attempts[..i]
        invariant open == old(open) && made == old(made)
        invariant Succeeds !in attempts[..i]
      {
        PortsSnoc(tries, attempts[i]);
        assert attempts[..i + 1] == attempts[..i] + [attempts[i]];
        currentPort := currentPort + 1;
        tries := tries + [attempts[i]];
        var fd, port := NewServerSocket(currentPort, attempts[i]);
        if attempts[i] == Succeeds {
          made := made + [port];
          return Some(port);
        }
      }
      assert attempts[..|attempts|] == attempts;
      r := None;
    }
  }

  lemma PortsSnoc(tries: seq<Attempt>, a: Attempt)
    ensures Ports(tries + [a]) ==
      if a == Succeeds then Ports(tries) + [(STARTING_PORT + |tries| + 1) % 0x1_0000] else Ports(tries)
  {
    assert (tries + [a])[..|tries + [a]| - 1] == tries;
  }

  /** All attempts that a sequence of calls can make. */
  function Total(calls: seq<seq<Attempt>>): nat {
    if calls == [] then 0 else Total(calls[..|calls| - 1]) + |calls[|calls| - 1]|
  }

  /** A server's life: one call of `CreateHandlerSocket` per client, each with its own pattern of failures. */
  method HandOut(calls: seq<seq<Attempt>>) returns (ports: seq<nat>, ghost tries: seq<Attempt>)
    ensures ports == Ports(tries) && |tries| <= Total(calls)
    ensures Total(calls) <= 57455 ==> AllAbove(ports) && AllDistinct(ports)
  {
    var f := new SocketFactory();
    ports := [];
    for i := 0 to |calls|
      invariant f.Valid() && fresh(f) && ports == f.made && |f.tries| <= Total(calls[..i])
    {
      var r := f.CreateHandlerSocket(calls[i]);
      assert calls[..i + 1][..i] == calls[..i];
      if r.Some? {
        ports := ports + [r.value];
      }
    }
    assert calls[..|calls|] == calls;
    tries := f.tries;
    if Total(calls) <= 57455 {
      PortsAreDistinct(tries);
      PortsAboveIff(tries);
    }
  }

  ghost predicate AllAbove(ports: seq<nat>) {
    forall i :: 0 <= i < |ports| ==> STARTING_PORT < ports[i] < 0x1_0000
  }

  ghost predicate AllDistinct(ports: seq<nat>) {
    forall i, j :: 0 <= i < j < |ports| ==> ports[i] != ports[j]
  }

  /** Each port handed out is that of one successful attempt. */
  lemma {:induction false} PortOfAttempt(tries: seq<Attempt>, i: nat) returns (k: nat)
    requires i < |Ports(tries)|
    ensures k < |tries| && tries[k] == Succeeds && Ports(tries)[i] == (STARTING_PORT + k + 1) % 0x1_0000
  {
    var rest := tries[..|tries| - 1];
    if i < |Ports(rest)| {
      k := PortOfAttempt(rest, i);
    } else {
      k := |tries| - 1;
    }
  }

  lemma {:induction false} AttemptHasPort(tries: seq<Attempt>, k: nat) returns (i: nat)
    requires k < |tries| && tries[k] == Succeeds
    ensures i < |Ports(tries)| && Ports(tries)[i] == (STARTING_PORT + k + 1) % 0x1_0000
  {
    var rest := tries[..|tries| - 1];
    if k < |rest| {
      i := AttemptHasPort(rest, k);
    } else {
      i := |Ports(rest)|;
    }
  }

  lemma NumbersDiffer(a: nat, b: nat)
    requires a < b < a + 0x1_0000
    ensures a % 0x1_0000 != b % 0x1_0000
  {
  }

  /** No port is handed out twice in the first 65536 attempts of the server's life. */
  lemma {:induction false} PortsAreDistinct(tries: seq<Attempt>)
    requires |tries| <= 0x1_0000
    ensures AllDistinct(Ports(tries))
  {
    if tries != [] {
      var rest, all := tries[..|tries| - 1], Ports(tries);
      PortsAreDistinct(rest);
      forall i, j | 0 <= i < j < |all|
        ensures all[i] != all[j]
      {
        if j == |Ports(rest)| {
          var k := PortOfAttempt(rest, i);
          NumbersDiffer(STARTING_PORT + k + 1, STARTING_PORT + |tries|);
        }
      }
    }
  }

  /** Of these attempts, exactly the first 57455 give ports above 8080; the next one gives port 0. */
  lemma AboveIff(k: nat)
    requires k < 0x1_0000
    ensures STARTING_PORT < (STARTING_PORT + k + 1) % 0x1_0000 <==> k < 57455
  {
  }

  /**
   Within the first 65536 attempts, all ports are above 8080, and so non-zero, if and only if none of them was
   handed out after the first 57455 attempts.
   */
  lemma PortsAboveIff(tries: seq<Attempt>)
    requires |tries| <= 0x1_0000
    ensures AllAbove(Ports(tries)) <==> forall k :: 57455 <= k < |tries| ==> tries[k] != Succeeds
  {
    if k :| 57455 <= k < |tries| && tries[k] == Succeeds {
      var i := AttemptHasPort(tries, k);
      AboveIff(k);
    } else {
      forall i | 0 <= i < |Ports(tries)|
        ensures STARTING_PORT < Ports(tries)[i] < 0x1_0000
      {
        var k := PortOfAttempt(tries, i);
        AboveIff(k);
      }
    }
  }

  lemma FreshFd(open: set<nat>)
    ensures exists fd: nat :: fd !in open
  {
    var m := UpperBound(open);
    assert m !in open;
  }
}
