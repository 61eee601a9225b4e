/**
 A whole client session over one connection. `PackError` already sends, and its callers then call
 `SendPackage`, so every error reply is on the stream twice.
 */
module Session {
  import opened Bytes
  import opened Runs
  import opened Codec
  import opened Rpc

  /** What a procedure did with a request: a response message, or an exception text. */
  datatype AnyOutcome = Replied(response: Message) | Threw(text: seq<Byte>)

  /** What becomes of an outcome: both sends work, the buffer is overrun, or the whole daemon ends. */
  datatype Fate = Delivered | Overruns | Ends

  /** A text that `PackError` refuses is thrown out of the handler's catch block and ends the process. */
  function FateOf(o: AnyOutcome): Fate {
    match o
    case Replied(m) => if |Encode(m)| <= 254 then Delivered else Overruns
    case Threw(t) => if |t| <= 254 then Delivered else if |t| == 255 then Overruns else Ends
  }

  /** Outcomes whose frame fits the buffer; see `Limits` for when a handler's do. */
  type Outcome = o: AnyOutcome | FateOf(o) == Delivered witness Threw([])

  function ReplyFrame(procId: Byte, o: Outcome): Frame
  {
    match o
    case Replied(m) => Frame(procId, Encode(m))
    case Threw(t) => Frame(ERR_CODE, t)
  }

  /** The frames one request puts on the stream. */
  function ReplyFrames(procId: Byte, o: Outcome): (r: seq<Frame>)
    ensures |r| == if o.Threw? then 2 else 1
    ensures forall k :: 0 <= k < |r| ==> r[k] == ReplyFrame(procId, o)
  {
    if o.Threw? then [ReplyFrame(procId, o), ReplyFrame(procId, o)] else [ReplyFrame(procId, o)]
  }

  // ---- The two halves, on the stateful connection ----

  datatype Served = Answered(request: Frame) | Left | Overran | Terminated

  predicate IsRequest(p: Option<(Frame, seq<Byte>)>) {
    p.Some? && p.value.0.procId != ERR_CODE
  }

  /** Packing an error, sending it and sending it again. */
  method SendError(rpc: RPCProvider, text: seq<Byte>) returns (r: Sending)
    requires rpc.Valid()
    modifies rpc.buffer, rpc.conn`outgoing
    ensures r.Refused? <==> |text| > 255
    ensures r.PastBuffer? <==> |text| == 255
    ensures rpc.conn.healthy ==> !r.Broken?
    ensures r.Sent? ==>
      rpc.conn.outgoing == old(rpc.conn.outgoing) + StreamOf([Frame(ERR_CODE, text), Frame(ERR_CODE, text)])
  {
    r := rpc.PackError(text);
    if r.Sent? {
      ghost var f := Frame(ERR_CODE, text);
      assert rpc.buffer[1] == rpc.buffer[..2 + |text|][1] == FrameBytes(f)[1];
      r := rpc.SendPackage();
      StreamOfOne(f);
      StreamOfSnoc([f], f);
      assert [f] + [f] == [f, f];
    }
  }

  /**
   What the client makes of the bytes of a reply, read by itself: a response under the request's procedure that
   deserializes to the message, or the error text twice.
   */
  ghost predicate Delivers(bytes: seq<Byte>, procId: Byte, o: AnyOutcome) {
    var (frames, rest) := ParseAll(bytes);
    && rest == []
    && match o
       case Replied(m) => |frames| == 1 && frames[0].procId == procId && Decode(KindOf(m), frames[0].payload) == Some(m)
       case Threw(t) => |t| <= 254 && frames == [Frame(0, t), Frame(0, t)]
  }

  lemma ReplyDelivers(procId: Byte, o: Outcome)
    ensures Delivers(StreamOf(ReplyFrames(procId, o)), procId, o)
  {
    ParseStream(ReplyFrames(procId, o), []);
    assert StreamOf(ReplyFrames(procId, o)) + [] == StreamOf(ReplyFrames(procId, o));
    if o.Replied? {
      RoundTrip(o.response, []);
      assert Encode(o.response) + [] == Encode(o.response);
    }
  }

  /**
   One turn of the handler loop: receive, dispatch, send; on an exception pack, send, send again. An
   exception out of that last part leaves the thread's function, which ends the process.
   */
  method ServeOne(rpc: RPCProvider, o: AnyOutcome) returns (r: Served)
    requires rpc.Valid()
    modifies rpc.buffer, rpc.conn
    ensures r.Answered? ==>
      && Parse(old(rpc.conn.incoming)) == Some((r.request, rpc.conn.incoming))
      && r.request.procId != ERR_CODE && FateOf(o) == Delivered
      && rpc.conn.outgoing == old(rpc.conn.outgoing) + StreamOf(ReplyFrames(r.request.procId, o))
    ensures r.Answered? ==>
      && old(rpc.conn.outgoing) <= rpc.conn.outgoing
      && Delivers(rpc.conn.outgoing[|old(rpc.conn.outgoing)|..], r.request.procId, o)
    ensures r.Left? && rpc.conn.healthy ==> rpc.conn.outgoing == old(rpc.conn.outgoing)
    ensures r.Overran? ==> FateOf(o) == Overruns
    ensures r.Terminated? ==> o.Threw? && (FateOf(o) == Ends || !rpc.conn.healthy)
    ensures rpc.conn.healthy ==>
      if !IsRequest(Parse(old(rpc.conn.incoming))) then r == Left else
      match FateOf(o) case Delivered => r.Answered? case Overruns => r == Overran case Ends => r == Terminated
  {
    var h := rpc.RecvPackage();
    if h.None? || !h.value.ok {
      return Left;
    }
    var request := h.value.frame;
    var sending;
    match o {
      case Replied(m) =>
        sending := SendMessage(rpc, request.procId, m);
        StreamOfOne(Frame(request.procId, if |Encode(m)| <= 254 then Encode(m) else []));
        r := if sending.Sent? then Answered(request) else if sending.PastBuffer? then Overran else Left;
      case Threw(t) =>
        sending := SendError(rpc, t);
        r := if sending.Sent? then Answered(request) else if sending.PastBuffer? then Overran else Terminated;
    }
    if r.Answered? {
      ReplyDelivers(request.procId, o);
      TailOf(old(rpc.conn.outgoing), StreamOf(ReplyFrames(request.procId, o)));
    }
  }

  lemma TailOf(a: seq<Byte>, b: seq<Byte>)
    ensures a <= a + b && (a + b)[|a|..] == b
  {
  }

  /** `response` is what `Deserialize` makes of the buffer; None means that it reads past the 256 bytes. */
  datatype CallResult =
    | Returned(reply: Frame, response: Option<Message>) | Raised(text: seq<Byte>) | NoReply | TooLong

  /** `Client::Call`: send the request, take whatever frame comes next, deserialize it as the procedure's response. */
  method Call(rpc: RPCProvider, p: Procedure, request: Message) returns (r: CallResult)
    requires rpc.Valid() && KindOf(request) == RequestKind(p)
    modifies rpc.buffer, rpc.conn
    ensures r.TooLong? <==> |Encode(request)| > 254
    ensures r.Returned? || r.Raised? ==>
      && rpc.conn.outgoing == old(rpc.conn.outgoing) + FrameBytes(Frame(IdOf(p), Encode(request)))
      && Parse(old(rpc.conn.incoming)).Some?
      && var next := Parse(old(rpc.conn.incoming)).value;
      && rpc.conn.incoming == next.1
      && (r.Returned? <==> next.0.procId != 0)
      && (r.Returned? ==> r.reply == next.0)
      && (r.Raised? ==> r.text == next.0.payload)
    ensures r.Returned? ==> forall m: Message ::
      KindOf(m) == ResponseKind(p) && r.reply.payload == Encode(m) && |Encode(m)| <= 254 ==> r.response == Some(m)
    ensures rpc.conn.healthy && !r.TooLong? ==> r.NoReply? == Parse(old(rpc.conn.incoming)).None?
  {
    var sending := SendMessage(rpc, IdOf(p), request);
    if sending.PastBuffer? {
      return TooLong;
    }
    if !sending.Sent? {
      return NoReply;
    }
    var h := rpc.RecvPackage();
    if h.None? {
      return NoReply;
    }
    if !h.value.ok {
      return Raised(h.value.msg);
    }
    var payload := h.value.frame.payload;
    r := Returned(h.value.frame, Decode(ResponseKind(p), rpc.buffer[..]));
    assert rpc.buffer[..] == payload + rpc.buffer[|payload|..];
    forall m: Message | KindOf(m) == ResponseKind(p) && payload == Encode(m) && |Encode(m)| <= 254
      ensures r.response == Some(m)
    {
      RoundTrip(m, rpc.buffer[|payload|..]);
    }
  }

  /** `SoftDisconnect` sends its error frame twice too. */
  method SoftDisconnect(rpc: RPCProvider) returns (sent: bool)
    requires rpc.Valid()
    modifies rpc.buffer, rpc.conn`outgoing
    ensures rpc.conn.healthy ==> sent
    ensures sent ==>
      rpc.conn.outgoing == old(rpc.conn.outgoing) + StreamOf(ReplyFrames(ERR_CODE, Threw(Ascii("Disconnect"))))
  {
    var r := SendError(rpc, Ascii("Disconnect"));
    sent := r.Sent?;
  }

  // ---- Whole sessions: client and server run at their own pace ----

  datatype Exchange = Exchange(request: Frame, outcome: Outcome)

  datatype State = State(
    toServer: seq<Byte>,      // request bytes not yet read by the server
    toClient: seq<Byte>,      // reply bytes not yet read by the client
    sent: seq<Frame>,         // requests of the calls made so far
    served: seq<Exchange>,    // requests served so far, with what came of them
    owed: seq<Frame>,         // an error frame that PackError has sent and SendPackage has not yet
    got: seq<Frame>)          // the frame each finished call returned with

  datatype Event =
    | Send(request: Frame)    // a call begins
    | Serve(outcome: Outcome) // the handler takes a request and sends its reply, or an error for the first time
    | SendAgain               // the handler sends the error again
    | Receive                 // a call returns

  const INIT := State([], [], [], [], [], [])

  function Step(s: State, e: Event): Option<State> {
    match e
    case Send(f) =>
      if |s.got| != |s.sent| || f.procId == ERR_CODE then None
      else Some(s.(toServer := s.toServer + FrameBytes(f), sent := s.sent + [f]))
    case Serve(o) =>
      if s.owed != [] then None else
      (match Parse(s.toServer)
       case None => None
       case Some(p) =>
         var frames := ReplyFrames(p.0.procId, o);
         Some(s.(toServer := p.1, served := s.served + [Exchange(p.0, o)],
                 toClient := s.toClient + FrameBytes(frames[0]), owed := frames[1..])))
    case SendAgain =>
      if s.owed == [] then None
      else Some(s.(toClient := s.toClient + FrameBytes(s.owed[0]), owed := s.owed[1..]))
    case Receive =>
      if |s.got| == |s.sent| then None else
      (match Parse(s.toClient)
       case None => None
       case Some(p) => Some(s.(toClient := p.1, got := s.got + [p.0])))
  }

  function Run(h: seq<Event>): Option<State> {
    Fold(Step, INIT, h)
  }

  /** All frames the served requests put on the stream. */
  function Replies(xs: seq<Exchange>): seq<Frame>
  {
    if xs == [] then [] else
    var last := xs[|xs| - 1];
    Replies(xs[..|xs| - 1]) + ReplyFrames(last.request.procId, last.outcome)
  }

  function Errors(xs: seq<Exchange>): nat {
    if xs == [] then 0 else
    Errors(xs[..|xs| - 1]) + if xs[|xs| - 1].outcome.Threw? then 1 else 0
  }

  /** The exchange that put the j-th frame on the stream. */
  function Owner(xs: seq<Exchange>, j: nat): nat
    requires j < |Replies(xs)|
  {
    if j < |Replies(xs[..|xs| - 1])| then Owner(xs[..|xs| - 1], j) else |xs| - 1
  }

  ghost predicate GoodRequests(s: State) {
    && |s.served| <= |s.sent|
    && (forall k :: 0 <= k < |s.served| ==> s.served[k].request == s.sent[k])
    && s.toServer == StreamOf(s.sent[|s.served|..])
  }

  /** All frames but those still owed. */
  function OnStream(s: State): seq<Frame> {
    var all := Replies(s.served);
    if |s.owed| <= |all| then all[..|all| - |s.owed|] else []
  }

  /** Of the frames put on it, the stream still carries those not yet got. */
  predicate Carries(on: seq<Frame>, got: seq<Frame>, stream: seq<Byte>) {
    got <= on && stream == StreamOf(on[|got|..])
  }

  ghost predicate GoodReplies(s: State) {
    && OnStream(s) + s.owed == Replies(s.served)
    && Carries(OnStream(s), s.got, s.toClient)
    && |s.sent| - 1 <= |s.got| <= |s.sent|
  }

  lemma PopStream(fs: seq<Frame>)
    ensures fs == [] ==> Parse(StreamOf(fs)).None?
    ensures fs != [] ==> Parse(StreamOf(fs)) == Some((fs[0], StreamOf(fs[1..])))
  {
    if fs != [] {
      ParseFrame(fs[0], StreamOf(fs[1..]));
    }
  }

  lemma StepKeepsRequests(s: State, e: Event)
    requires GoodRequests(s) && Step(s, e).Some?
    ensures GoodRequests(Step(s, e).value)
  {
    var t, pending := Step(s, e).value, s.sent[|s.served|..];
    match e
    case Send(f) =>
      StreamOfSnoc(pending, f);
      assert t.sent[|t.served|..] == pending + [f];
    case Serve(o) =>
      PopStream(pending);
      assert t.sent[|t.served|..] == pending[1..];
    case SendAgain =>
    case Receive =>
  }

  lemma RepliesSnoc(xs: seq<Exchange>, x: Exchange)
    ensures Replies(xs + [x]) == Replies(xs) + ReplyFrames(x.request.procId, x.outcome)
  {
    assert (xs + [x])[..|xs + [x]| - 1] == xs;
  }

  /** One more frame on the stream. */
  lemma AppendReply(on: seq<Frame>, f: Frame, n: nat)
    requires n <= |on|
    ensures (on + [f])[..n] == on[..n]
    ensures StreamOf((on + [f])[n..]) == StreamOf(on[n..]) + FrameBytes(f)
  {
    StreamOfSnoc(on[n..], f);
    assert (on + [f])[n..] == on[n..] + [f];
  }

  lemma TakeReply(all: seq<Frame>, n: nat)
    requires n <= |all| && Parse(StreamOf(all[n..])).Some?
    ensures n < |all|
    ensures Parse(StreamOf(all[n..])) == Some((all[n], StreamOf(all[n + 1..])))
    ensures all[..n] + [all[n]] == all[..n + 1]
  {
    PopStream(all[n..]);
    assert n < |all| ==> all[n..][1..] == all[n + 1..];
  }

  /** After a reply's first frame, all but its further frames are on the stream. */
  lemma ServeOnStream(s: State, u: State, x: Exchange)
    requires GoodReplies(s) && s.owed == [] && u.served == s.served + [x]
    requires u.owed == ReplyFrames(x.request.procId, x.outcome)[1..]
    ensures OnStream(u) == OnStream(s) + [ReplyFrame(x.request.procId, x.outcome)]
    ensures OnStream(u) + u.owed == Replies(u.served)
  {
    var all, frames := Replies(s.served), ReplyFrames(x.request.procId, x.outcome);
    RepliesSnoc(s.served, x);
    assert OnStream(s) == all;
    assert (all + frames)[..|all| + 1] == all + [frames[0]];
    assert all + [frames[0]] + frames[1..] == all + frames;
  }

  lemma ShiftOwed(on: seq<Frame>, owed: seq<Frame>)
    requires owed != []
    ensures (on + owed)[..|on| + 1] == on + [owed[0]]
    ensures on + [owed[0]] + owed[1..] == on + owed
  {
  }

  lemma AgainOnStream(s: State, u: State)
    requires GoodReplies(s) && s.owed != [] && u.served == s.served && u.owed == s.owed[1..]
    ensures OnStream(u) == OnStream(s) + [s.owed[0]]
    ensures OnStream(u) + u.owed == Replies(u.served)
  {
    ShiftOwed(OnStream(s), s.owed);
  }

  lemma CarriesOneMore(on: seq<Frame>, got: seq<Frame>, stream: seq<Byte>, f: Frame)
    requires Carries(on, got, stream)
    ensures Carries(on + [f], got, stream + FrameBytes(f))
  {
    AppendReply(on, f, |got|);
  }

  lemma CarriesOneLess(on: seq<Frame>, got: seq<Frame>, stream: seq<Byte>)
    requires Carries(on, got, stream) && Parse(stream).Some?
    ensures Carries(on, got + [Parse(stream).value.0], Parse(stream).value.1)
  {
    TakeReply(on, |got|);
  }

  lemma StepKeepsReplies(s: State, e: Event)
    requires GoodReplies(s) && Step(s, e).Some?
    ensures GoodReplies(Step(s, e).value)
  {
    var u := Step(s, e).value;
    match e
    case Send(f) =>
    case Serve(o) =>
      var x := u.served[|s.served|];
      ServeOnStream(s, u, x);
      CarriesOneMore(OnStream(s), s.got, s.toClient, ReplyFrame(x.request.procId, o));
    case SendAgain =>
      AgainOnStream(s, u);
      CarriesOneMore(OnStream(s), s.got, s.toClient, s.owed[0]);
    case Receive =>
      CarriesOneLess(OnStream(s), s.got, s.toClient);
  }

  lemma {:induction false} SessionsAreGood(h: seq<Event>)
    requires Run(h).Some?
    ensures GoodRequests(Run(h).value) && GoodReplies(Run(h).value)
  {
    if h != [] {
      SessionsAreGood(h[..|h| - 1]);
      StepKeepsRequests(Run(h[..|h| - 1]).value, h[|h| - 1]);
      StepKeepsReplies(Run(h[..|h| - 1]).value, h[|h| - 1]);
    }
  }

  /** In every state: who can move. A call returns as soon as a frame is there, whatever the server still owes. */
  lemma WhoCanMove(h: seq<Event>, f: Frame, o: Outcome)
    requires Run(h).Some?
    ensures var s := Run(h).value;
      && (Step(s, Send(f)).Some? <==> |s.got| == |s.sent| && f.procId != 0)
      && (Step(s, Serve(o)).Some? <==> s.owed == [] && |s.served| < |s.sent|)
      && (Step(s, SendAgain).Some? <==> s.owed != [])
      && (Step(s, Receive).Some? <==> |s.got| < |s.sent| && |s.got| + |s.owed| < |Replies(s.served)|)
  {
    SessionsAreGood(h);
    var s := Run(h).value;
    PopStream(s.sent[|s.served|..]);
    PopStream(OnStream(s)[|s.got|..]);
  }

  /** So no call hangs: with a call open, it can return, or the server can send. */
  lemma NoCallHangs(h: seq<Event>, o: Outcome)
    requires Run(h).Some? && |Run(h).value.got| < |Run(h).value.sent|
    ensures var s := Run(h).value; Step(s, Receive).Some? || Step(s, SendAgain).Some? || Step(s, Serve(o)).Some?
  {
    var s := Run(h).value;
    WhoCanMove(h, Frame(1, []), o);
    SessionsAreGood(h);
    RepliesCount(s.served);
  }

  /** Successes are on the stream once and errors twice. */
  lemma {:induction false} RepliesCount(xs: seq<Exchange>)
    ensures |Replies(xs)| == |xs| + Errors(xs)
  {
    if xs != [] {
      RepliesCount(xs[..|xs| - 1]);
    }
  }

  lemma {:induction false} OwnerFrame(xs: seq<Exchange>, j: nat)
    requires j < |Replies(xs)|
    ensures Owner(xs, j) < |xs|
    ensures var x := xs[Owner(xs, j)]; Replies(xs)[j] == ReplyFrame(x.request.procId, x.outcome)
  {
    var prev, last := xs[..|xs| - 1], xs[|xs| - 1];
    if j < |Replies(prev)| {
      OwnerFrame(prev, j);
    } else {
      assert Replies(xs)[j] == ReplyFrames(last.request.procId, last.outcome)[j - |Replies(prev)|];
    }
  }

  /** A frame lags behind its place on the stream exactly when an earlier request failed. */
  lemma {:induction false} OwnerLags(xs: seq<Exchange>, j: nat)
    requires j < |Replies(xs)|
    ensures Owner(xs, j) <= j
    ensures Owner(xs, j) == j <==> j < |xs| && Errors(xs[..j]) == 0
  {
    var prev := xs[..|xs| - 1];
    RepliesCount(prev);
    if j < |Replies(prev)| {
      OwnerLags(prev, j);
      if j < |prev| {
        assert prev[..j] == xs[..j];
      } else if j == |prev| {
        assert xs[..j] == prev;
      }
    } else if j < |xs| {
      assert xs[..j] == prev;
    }
  }

  /**
   Over any session the j-th call returns with the j-th frame of the stream. That frame answers a
   request made no later than the call's own, and it answers the call's own request exactly when no
   earlier request failed; so every call up to and including the first failing one gets its own reply.
   */
  lemma CallGetsOwnReply(h: seq<Event>, j: nat)
    requires Run(h).Some? && j < |Run(h).value.got|
    ensures var s := Run(h).value;
      && |s.got| + |s.owed| <= |Replies(s.served)| && |s.served| <= |s.sent|
      && var o := Owner(s.served, j);
      && o <= j && o < |s.served|
      && s.served[o].request == s.sent[o]
      && s.got[j] == Replies(s.served)[j] == ReplyFrame(s.sent[o].procId, s.served[o].outcome)
      && (o == j <==> j < |s.served| && Errors(s.served[..j]) == 0)
  {
    SessionsAreGood(h);
    OwnerFrame(Run(h).value.served, j);
    OwnerLags(Run(h).value.served, j);
  }

  /** What a frame says to a client that called procedure `procId`: the response, or the error text. */
  ghost predicate Tells(f: Frame, procId: Byte, o: Outcome) {
    match o
    case Replied(m) => f.procId == procId && Decode(KindOf(m), f.payload) == Some(m)
    case Threw(t) => f.procId == 0 && f.payload == t
  }

  lemma FrameTells(procId: Byte, o: Outcome)
    ensures Tells(ReplyFrame(procId, o), procId, o)
  {
    if o.Replied? {
      RoundTrip(o.response, []);
      assert Encode(o.response) + [] == Encode(o.response);
    }
  }

  /**
   So over any session the j-th call is told what came of the request that owns the j-th frame: the response
   itself under that request's procedure, or the text of its error. Without an earlier error that is its own.
   */
  lemma CallIsTold(h: seq<Event>, j: nat)
    requires Run(h).Some? && j < |Run(h).value.got|
    ensures var s := Run(h).value;
      && j < |Replies(s.served)|
      && var o := Owner(s.served, j);
      && o < |s.served| && o < |s.sent| && Tells(s.got[j], s.sent[o].procId, s.served[o].outcome)
    ensures var s := Run(h).value;
      j < |s.served| && Errors(s.served[..j]) == 0 ==>
        j < |s.sent| && s.served[j].request == s.sent[j] && Tells(s.got[j], s.sent[j].procId, s.served[j].outcome)
  {
    CallGetsOwnReply(h, j);
    var s := Run(h).value;
    var o := Owner(s.served, j);
    FrameTells(s.sent[o].procId, s.served[o].outcome);
  }

  /** The frames of the exchange o are the ones from its place on: as many as all before it put on the stream. */
  lemma {:induction false} OwnerIsExact(xs: seq<Exchange>, j: nat)
    requires j < |Replies(xs)|
    ensures var o := Owner(xs, j);
      o < |xs| && |Replies(xs[..o])| <= j < |Replies(xs[..o])| + if xs[o].outcome.Threw? then 2 else 1
  {
    var prev := xs[..|xs| - 1];
    if j < |Replies(prev)| {
      OwnerIsExact(prev, j);
      assert prev[..Owner(prev, j)] == xs[..Owner(prev, j)];
    }
  }

  lemma UnreadIsParsed(on: seq<Frame>, got: seq<Frame>, stream: seq<Byte>)
    requires Carries(on, got, stream)
    ensures ParseAll(stream).1 == [] && got + ParseAll(stream).0 == on
  {
    var rest := on[|got|..];
    ParseStream(rest, []);
    assert StreamOf(rest) + [] == stream;
    assert got + rest == on;
  }

  /**
   In every state the frames still on the stream are the rest of the replies, less an error frame the handler is
   about to send again: as many as requests served, plus errors served, less calls returned. Once every request is
   served and every call has returned, one unread frame is left per error.
   */
  lemma UnreadFrames(h: seq<Event>)
    requires Run(h).Some?
    ensures var s := Run(h).value;
      var p := ParseAll(s.toClient);
      && p.1 == [] && s.got + p.0 + s.owed == Replies(s.served)
      && |p.0| + |s.owed| == |s.served| + Errors(s.served) - |s.got|
      && (|s.got| == |s.sent| == |s.served| ==> |p.0| + |s.owed| == Errors(s.served))
  {
    SessionsAreGood(h);
    var s := Run(h).value;
    RepliesCount(s.served);
    UnreadIsParsed(OnStream(s), s.got, s.toClient);
  }

  /**
   A concrete session in which replies no longer match: the first request fails, the second succeeds, and
   the second call still returns with the first request's error.
   */
  lemma StaleReply(request: Frame, text: seq<Byte>)
    requires request.procId != ERR_CODE && |text| <= 254
    ensures exists h, s ::
      && Run(h) == Some(s) && |s.got| == |s.served| == 2
      && s.served[1].outcome == Replied(Empty) && s.got[1] == Frame(ERR_CODE, text)
  {
    var h, s := SecondServed(request, text);
    ParseFrame(Frame(ERR_CODE, text), FrameBytes(ReplyFrame(request.procId, Replied(Empty))));
    Next(h, s, Receive);
  }

  /** The second request is answered behind the first error's second frame. */
  lemma SecondServed(request: Frame, text: seq<Byte>) returns (h: seq<Event>, s: State)
    requires request.procId != ERR_CODE && |text| <= 254
    ensures Run(h) == Some(s) && |s.got| == 1 && |s.served| == |s.sent| == 2
    ensures s.served[1].outcome == Replied(Empty)
    ensures s.toClient == FrameBytes(Frame(ERR_CODE, text)) + FrameBytes(ReplyFrame(request.procId, Replied(Empty)))
  {
    var good: Outcome, f := Replied(Empty), FrameBytes(request);
    h, s := FirstCallFails(request, text);
    Next(h, s, Send(request));
    h, s := h + [Send(request)], Step(s, Send(request)).value;
    assert s.toServer == f && f + [] == f;
    ParseFrame(request, []);
    Next(h, s, Serve(good));
    h, s := h + [Serve(good)], Step(s, Serve(good)).value;
  }

  lemma Next(h: seq<Event>, s: State, e: Event)
    requires Run(h) == Some(s)
    ensures Run(h + [e]) == Step(s, e)
  {
    FoldSnoc(Step, INIT, h, e);
  }

  /** The first request is taken and its error sent once. */
  lemma FirstErrorSent(request: Frame, text: seq<Byte>) returns (h: seq<Event>, s: State)
    requires request.procId != ERR_CODE && |text| <= 254
    ensures Run(h) == Some(s) && |s.served| == |s.sent| == 1 && s.got == [] && s.toServer == []
    ensures var err := Frame(ERR_CODE, text); s.owed == [err] && s.toClient == FrameBytes(err)
  {
    var bad: Outcome := Threw(text);
    var f := FrameBytes(request);
    Next([], INIT, Send(request));
    s := Step(INIT, Send(request)).value;
    assert s.toServer == f && f + [] == f;
    ParseFrame(request, []);
    h := [] + [Send(request)];
    Next(h, s, Serve(bad));
    h, s := h + [Serve(bad)], Step(s, Serve(bad)).value;
  }

  lemma FirstCallFails(request: Frame, text: seq<Byte>) returns (h: seq<Event>, s: State)
    requires request.procId != ERR_CODE && |text| <= 254
    ensures Run(h) == Some(s) && |s.got| == |s.served| == |s.sent| == 1
    ensures s.toServer == [] && s.owed == [] && s.toClient == FrameBytes(Frame(ERR_CODE, text))
  {
    var err := Frame(ERR_CODE, text);
    h, s := FirstErrorSent(request, text);
    Next(h, s, SendAgain);
    h, s := h + [SendAgain], Step(s, SendAgain).value;
    assert s.toClient == FrameBytes(err) + FrameBytes(err);
    ParseFrame(err, FrameBytes(err));
    Next(h, s, Receive);
    h, s := h + [Receive], Step(s, Receive).value;
  }
}
