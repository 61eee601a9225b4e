/**
 Frames over a byte stream that the kernel cuts into arbitrary chunks, sent and received
 through one 256-byte buffer.
 */
module Rpc {
  import opened Bytes
  import opened Codec

  const BUF_SIZE := 256
  const ERR_CODE: Byte := 0

  /** The procedures of the protocol. */
  datatype Procedure =
    | Flash | Start | Connect | Disconnect | Reset | GetStatus | Shutdown | Ping | DebugThrow | DebugBlock

  function IdOf(p: Procedure): Byte {
    match p
    case Flash => 1
    case Start => 2
    case Connect => 3
    case Disconnect => 4
    case Reset => 5
    case GetStatus => 8
    case Shutdown => 9
    case Ping => 10
    case DebugThrow => 11
    case DebugBlock => 12
  }

  function RequestKind(p: Procedure): Kind {
    match p
    case Flash => StringKind
    case Connect => UserKind
    case _ => EmptyKind
  }

  function ResponseKind(p: Procedure): Kind {
    match p
    case GetStatus => StatusKind
    case Connect => StringKind
    case _ => EmptyKind
  }

  /** A frame tells its procedure, and an error frame is no procedure's; which message each asks and answers with. */
  lemma IdsTell(p: Procedure, q: Procedure)
    ensures IdOf(p) == IdOf(q) <==> p == q
    ensures IdOf(p) != ERR_CODE && ERR_CODE == 0
    ensures [IdOf(Flash), IdOf(Start), IdOf(Connect), IdOf(Disconnect), IdOf(Reset)] == [1, 2, 3, 4, 5]
    ensures [IdOf(GetStatus), IdOf(Shutdown), IdOf(Ping), IdOf(DebugThrow), IdOf(DebugBlock)] == [8, 9, 10, 11, 12]
    ensures ResponseKind(p) == StatusKind <==> p == GetStatus
    ensures ResponseKind(p) == StringKind <==> p == Connect
    ensures RequestKind(p) == UserKind <==> p == Connect
    ensures RequestKind(p) == StringKind <==> p == Flash
    ensures ResponseKind(p) != UserKind && RequestKind(p) != StatusKind
  {
  }

  type Payload = p: seq<Byte> | |p| <= 255

  datatype Frame = Frame(procId: Byte, payload: Payload)

  function FrameBytes(f: Frame): (r: seq<Byte>)
    ensures |r| == 2 + |f.payload|
  {
    [f.procId, |f.payload| as Byte] + f.payload
  }

  /** A frame on the wire: procedure, size of the payload, payload. */
  lemma FrameLayout(f: Frame)
    ensures FrameBytes(f)[0] == f.procId && FrameBytes(f)[1] == |f.payload| && FrameBytes(f)[2..] == f.payload
  {
  }

  function StreamOf(fs: seq<Frame>): seq<Byte> {
    if fs == [] then [] else FrameBytes(fs[0]) + StreamOf(fs[1..])
  }

  /** The first frame of a stream and what follows it, if it has arrived completely. */
  function Parse(s: seq<Byte>): Option<(Frame, seq<Byte>)> {
    if |s| < 2 || |s| < 2 + s[1] as int then None
    else var end := 2 + s[1] as int; Some((Frame(s[0], s[2..end]), s[end..]))
  }

  function ParseAll(s: seq<Byte>): (seq<Frame>, seq<Byte>)
    decreases |s|
  {
    match Parse(s)
    case None => ([], s)
    case Some(first) => var r := ParseAll(first.1); ([first.0] + r.0, r.1)
  }

  lemma ParseFrame(f: Frame, rest: seq<Byte>)
    ensures Parse(FrameBytes(f) + rest) == Some((f, rest))
  {
    var s := FrameBytes(f) + rest;
    assert s[2..2 + |f.payload|] == f.payload;
    assert s[2 + |f.payload|..] == rest;
  }

  /** Parsing undoes framing for every sequence of frames, and leaves an unfinished tail alone. */
  lemma {:induction false} ParseStream(fs: seq<Frame>, tail: seq<Byte>)
    requires Parse(tail).None?
    ensures ParseAll(StreamOf(fs) + tail) == (fs, tail)
  {
    if fs == [] {
      assert StreamOf(fs) + tail == tail;
    } else {
      var rest := StreamOf(fs[1..]) + tail;
      assert StreamOf(fs) + tail == FrameBytes(fs[0]) + rest;
      ParseFrame(fs[0], rest);
      ParseStream(fs[1..], tail);
      assert [fs[0]] + fs[1..] == fs;
    }
  }

  lemma {:induction false} StreamOfConcat(a: seq<Frame>, b: seq<Frame>)
    ensures StreamOf(a + b) == StreamOf(a) + StreamOf(b)
  {
    if a == [] {
      assert a + b == b;
    } else {
      StreamOfConcat(a[1..], b);
      assert (a + b)[1..] == a[1..] + b;
    }
  }

  lemma StreamOfOne(f: Frame)
    ensures StreamOf([f]) == FrameBytes(f)
  {
    assert [f][1..] == [];
    assert StreamOf([f]) == FrameBytes(f) + [];
  }

  lemma StreamOfSnoc(a: seq<Frame>, f: Frame)
    ensures StreamOf(a + [f]) == StreamOf(a) + FrameBytes(f)
  {
    StreamOfConcat(a, [f]);
    StreamOfOne(f);
  }

  /** One endpoint of a TCP connection: what can still be read, and what has been written. */
  class Connection {
    var incoming: seq<Byte>
    var outgoing: seq<Byte>
    const healthy: bool  // no system call on it fails

    constructor (incoming: seq<Byte>, healthy: bool)
      ensures this.incoming == incoming && outgoing == [] && this.healthy == healthy
    {
      this.incoming, outgoing, this.healthy := incoming, [], healthy;
    }

    /** `recv`: any non-empty chunk of what is there, 0 at the end of the stream, or an error. */
    method Recv(buf: array<Byte>, off: nat, n: nat) returns (ret: int)
      requires 0 < n && off + n <= buf.Length
      modifies this`incoming, buf
      ensures -1 <= ret <= n && ret <= |old(incoming)|
      ensures ret == 0 ==> old(incoming) == []
      ensures ret <= 0 ==> incoming == old(incoming) && buf[..] == old(buf[..])
      ensures ret > 0 ==> incoming == old(incoming)[ret..]
      ensures ret > 0 ==> buf[..] == Splice(old(buf[..]), off, old(incoming)[..ret])
      ensures healthy ==> ret >= 0
    {
      if !healthy {
        if * { return -1; }
      }
      if incoming == [] { return 0; }
      var k :| 1 <= k <= n && k <= |incoming|;
      var chunk := incoming[..k];
      incoming := incoming[k..];
      for i := 0 to k
        invariant incoming == old(incoming)[k..]
        invariant buf[..] == Splice(old(buf[..]), off, chunk[..i])
      {
        buf[off + i] := chunk[i];
      }
      assert chunk[..k] == chunk;
      ret := k;
    }

    /** `send`: accepts any non-empty prefix of the data, or fails. */
    method Send(data: seq<Byte>) returns (ret: int)
      requires data != []
      modifies this`outgoing
      ensures -1 <= ret <= |data| && ret != 0
      ensures outgoing == old(outgoing) + if ret > 0 then data[..ret] else []
      ensures healthy ==> ret > 0
    {
      if !healthy {
        if * { return -1; }
      }
      var k :| 1 <= k <= |data|;
      outgoing := outgoing + data[..k];
      ret := k;
    }
  }

  datatype Header = Header(ok: bool, msg: seq<Byte>, frame: Frame)

  function HeaderOf(f: Frame): Header {
    Header(f.procId != ERR_CODE, if f.procId != ERR_CODE then Ascii("OK") else f.payload, f)
  }

  /**
   How sending went. `PastBuffer` means that the source reads or writes behind its 256 bytes; nothing is said
   about what happens then.
   */
  datatype Sending = Sent | Refused | Broken | PastBuffer

  class RPCProvider {
    const conn: Connection
    const buffer: array<Byte>

    ghost predicate Valid() {
      buffer.Length == BUF_SIZE
    }

    constructor (conn: Connection)
      ensures Valid() && this.conn == conn && fresh(buffer)
    {
      this.conn := conn;
      buffer := new Byte[BUF_SIZE](_ => 0);
    }

    /** Fills exactly the first `size` bytes of the buffer, however the stream is cut. */
    method RecvToBuffer(size: nat) returns (ok: bool)
      requires Valid() && size <= BUF_SIZE
      modifies conn`incoming, buffer
      ensures conn.healthy ==> ok == (size <= |old(conn.incoming)|)
      ensures ok ==> size <= |old(conn.incoming)| && conn.incoming == old(conn.incoming)[size..]
      ensures ok ==> buffer[..] == Splice(old(buffer[..]), 0, old(conn.incoming)[..size])
    {
      var total := 0;
      while total < size
        invariant 0 <= total <= size && total <= |old(conn.incoming)|
        invariant conn.incoming == old(conn.incoming)[total..]
        invariant buffer[..] == Splice(old(buffer[..]), 0, old(conn.incoming)[..total])
      {
        ghost var got := conn.incoming;
        var ret := conn.Recv(buffer, total, size - total);
        if ret <= 0 {
          return false;
        }
        SpliceTwice(old(buffer[..]), 0, old(conn.incoming)[..total], got[..ret]);
        assert old(conn.incoming)[..total] + got[..ret] == old(conn.incoming)[..total + ret];
        total := total + ret;
      }
      ok := true;
    }

    method SendFromBuffer(size: nat) returns (ok: bool)
      requires Valid() && size <= BUF_SIZE
      modifies conn`outgoing
      ensures conn.healthy ==> ok
      ensures ok ==> conn.outgoing == old(conn.outgoing) + buffer[..size]
      ensures old(conn.outgoing) <= conn.outgoing
    {
      var total := 0;
      while total < size
        invariant 0 <= total <= size
        invariant conn.outgoing == old(conn.outgoing) + buffer[..total]
      {
        var ret := conn.Send(buffer[total..size]);
        if ret < 0 {
          return false;
        }
        assert buffer[..total] + buffer[total..size][..ret] == buffer[..total + ret];
        total := total + ret;
      }
      ok := true;
    }

    /** Writes a header and a payload; both fit the buffer exactly when the payload has at most 254 bytes. */
    method PackMsg(procId: Byte, m: Message) returns (pastBuffer: bool)
      requires Valid()
      modifies buffer
      ensures pastBuffer <==> |Encode(m)| > 254
      ensures !pastBuffer ==> buffer[..2 + |Encode(m)|] == FrameBytes(Frame(procId, Encode(m)))
    {
      PackedSizeExact(m);
      pastBuffer := 2 + |Encode(m)| > BUF_SIZE;
      if pastBuffer {
        return;
      }
      buffer[0] := procId;
      buffer[1] := PackedSize(m);
      Serialize(buffer, 2, m);
    }

    /**
     Packs an error text and sends it. Texts over 255 bytes are refused; a text of exactly 255
     bytes is not, although header and text then need 257 bytes.
     */
    method PackError(msg: seq<Byte>) returns (r: Sending)
      requires Valid()
      modifies buffer, conn`outgoing
      ensures r.Refused? <==> |msg| > 255
      ensures r.PastBuffer? <==> |msg| == 255
      ensures r.Refused? ==> buffer[..] == old(buffer[..]) && conn.outgoing == old(conn.outgoing)
      ensures conn.healthy ==> !r.Broken?
      ensures |msg| <= 254 ==> buffer[..2 + |msg|] == FrameBytes(Frame(ERR_CODE, msg))
      ensures r.Sent? ==> conn.outgoing == old(conn.outgoing) + FrameBytes(Frame(ERR_CODE, msg))
    {
      if |msg| > 255 {
        return Refused;
      }
      if 2 + |msg| > BUF_SIZE {
        return PastBuffer;
      }
      buffer[0] := ERR_CODE;
      buffer[1] := |msg|;
      for i := 0 to |msg|
        invariant buffer[0] == ERR_CODE && buffer[1] == |msg|
        invariant buffer[2..2 + i] == msg[..i]
        invariant conn.outgoing == old(conn.outgoing)
      {
        buffer[2 + i] := msg[i];
      }
      assert buffer[..2 + |msg|] == [buffer[0], buffer[1]] + buffer[2..2 + |msg|];
      var ok := SendFromBuffer(2 + |msg|);
      r := if ok then Sent else Broken;
    }

    /** Takes exactly the next frame off the stream and never writes past the buffer. */
    method RecvPackage() returns (h: Option<Header>)
      requires Valid()
      modifies conn`incoming, buffer
      ensures conn.healthy ==> h.Some? == Parse(old(conn.incoming)).Some?
      ensures h.Some? ==> Parse(old(conn.incoming)) == Some((h.value.frame, conn.incoming))
      ensures h.Some? ==> h.value == HeaderOf(h.value.frame)
      ensures h.Some? ==> buffer[..|h.value.frame.payload|] == h.value.frame.payload
    {
      ghost var s := conn.incoming;
      var ok := RecvToBuffer(2);
      if !ok {
        return None;
      }
      var procId, size: nat := buffer[0], buffer[1] as int;
      assert procId == s[0] && size == s[1];
      ok := RecvToBuffer(size);
      if !ok {
        return None;
      }
      assert s[2..][..size] == s[2..2 + size] && s[2..][size..] == s[2 + size..];
      var payload := buffer[..size];
      assert payload == s[2..2 + size];
      h := Some(Header(procId != ERR_CODE, if procId != ERR_CODE then Ascii("OK") else payload,
                       Frame(procId, payload)));
    }

    /** Sends whatever frame the buffer holds; its length is read back from the header byte. */
    method SendPackage() returns (r: Sending)
      requires Valid()
      modifies conn`outgoing
      ensures !r.Refused?
      ensures r.PastBuffer? <==> buffer[1] == 255
      ensures conn.healthy ==> !r.Broken?
      ensures r.Sent? ==> conn.outgoing == old(conn.outgoing) + buffer[..2 + buffer[1] as int]
      ensures old(conn.outgoing) <= conn.outgoing
    {
      var size := buffer[1] as int + 2;
      if size > BUF_SIZE {
        return PastBuffer;
      }
      var ok := SendFromBuffer(size);
      r := if ok then Sent else Broken;
    }
  }

  lemma StreamGrows(before: seq<Byte>, fs: seq<Frame>, i: nat)
    requires i < |fs|
    ensures before + StreamOf(fs[..i]) + FrameBytes(fs[i]) == before + StreamOf(fs[..i + 1])
  {
    StreamOfSnoc(fs[..i], fs[i]);
    assert fs[..i + 1] == fs[..i] + [fs[i]];
  }

  /** Packing and sending one message appends exactly its frame. */
  method SendMessage(rpc: RPCProvider, procId: Byte, m: Message) returns (r: Sending)
    requires rpc.Valid()
    modifies rpc.buffer, rpc.conn`outgoing
    ensures !r.Refused?
    ensures r.PastBuffer? <==> |Encode(m)| > 254
    ensures rpc.conn.healthy ==> !r.Broken?
    ensures r.Sent? ==> rpc.conn.outgoing == old(rpc.conn.outgoing) + FrameBytes(Frame(procId, Encode(m)))
  {
    var past := rpc.PackMsg(procId, m);
    if past {
      return PastBuffer;
    }
    ghost var f := FrameBytes(Frame(procId, Encode(m)));
    assert rpc.buffer[..|f|] == f;
    assert rpc.buffer[1] == rpc.buffer[..|f|][1] == f[1];
    r := rpc.SendPackage();
  }

  /** Sending any messages in order puts exactly their frames on the stream. */
  method SendAll(rpc: RPCProvider, msgs: seq<(Byte, Message)>)
    requires rpc.Valid() && rpc.conn.healthy
    requires forall k :: 0 <= k < |msgs| ==> |Encode(msgs[k].1)| <= 254
    modifies rpc.buffer, rpc.conn`outgoing
    ensures rpc.conn.outgoing == old(rpc.conn.outgoing) + StreamOf(FramesOf(msgs))
  {
    ghost var fs := FramesOf(msgs);
    for i := 0 to |msgs|
      invariant rpc.conn.outgoing == old(rpc.conn.outgoing) + StreamOf(fs[..i])
    {
      var r := SendMessage(rpc, msgs[i].0, msgs[i].1);
      StreamGrows(old(rpc.conn.outgoing), fs, i);
    }
    assert fs[..|msgs|] == fs;
  }

  function FramesOf(msgs: seq<(Byte, Message)>): (r: seq<Frame>)
    requires forall k :: 0 <= k < |msgs| ==> |Encode(msgs[k].1)| <= 254
  {
    seq(|msgs|, k requires 0 <= k < |msgs| => Frame(msgs[k].0, Encode(msgs[k].1)))
  }

  /** Receiving gives back exactly the frames that were sent, in order, and leaves the rest on the stream. */
  method ReceiveAll(rpc: RPCProvider, n: nat, ghost sent: seq<Frame>, ghost tail: seq<Byte>)
    returns (frames: seq<Frame>)
    requires rpc.Valid() && rpc.conn.healthy && n <= |sent|
    requires rpc.conn.incoming == StreamOf(sent) + tail
    modifies rpc.buffer, rpc.conn`incoming
    ensures frames == sent[..n]
    ensures rpc.conn.incoming == StreamOf(sent[n..]) + tail
  {
    frames := [];
    for i := 0 to n
      invariant frames == sent[..i]
      invariant rpc.conn.incoming == StreamOf(sent[i..]) + tail
    {
      assert StreamOf(sent[i..]) == FrameBytes(sent[i]) + StreamOf(sent[i..][1..]);
      assert sent[i..][1..] == sent[i + 1..];
      assert rpc.conn.incoming == FrameBytes(sent[i]) + (StreamOf(sent[i + 1..]) + tail);
      ParseFrame(sent[i], StreamOf(sent[i + 1..]) + tail);
      var h := rpc.RecvPackage();
      frames := frames + [h.value.frame];
    }
  }
}
