/**
 Messages of the RPC protocol and their byte form. Sizes are computed in one byte, as in the
 source, and pointers move by these one-byte sizes.
 */
module Codec {
  import opened Bytes

  /** `String`: its `Size` field is one byte. */
  type Text = s: seq<Byte> | |s| <= 255

  /** `pid_t`: 32 bits, two's complement. */
  type Pid = p: int | -0x8000_0000 <= p < 0x8000_0000

  datatype User = User(name: Text, pid: Pid)

  datatype Message =
    | Empty
    | String(text: Text)
    | UserData(user: User)
    | ChipStatus(description: Text, acquired: bool, user: User)

  datatype Kind = EmptyKind | StringKind | UserKind | StatusKind

  function KindOf(m: Message): Kind {
    match m
    case Empty => EmptyKind
    case String(_) => StringKind
    case UserData(_) => UserKind
    case ChipStatus(_, _, _) => StatusKind
  }

  // ---- Sizes ----

  function StringSize(s: Text): Byte {
    (|s| + 1) % 256
  }

  function UserSize(u: User): Byte {
    (StringSize(u.name) + 4) % 256
  }

  /** `GetPackedSize`, truncated to one byte at every level. */
  function PackedSize(m: Message): Byte {
    match m
    case Empty => 0
    case String(s) => StringSize(s)
    case UserData(u) => UserSize(u)
    case ChipStatus(d, _, u) => (StringSize(d) + 1 + UserSize(u)) % 256
  }

  function Encode(m: Message): seq<Byte> {
    match m
    case Empty => []
    case String(s) => StringBytes(s)
    case UserData(u) => UserBytes(u)
    case ChipStatus(d, a, u) => StringBytes(d) + [if a then 1 else 0] + UserBytes(u)
  }

  lemma ModAdd(a: nat, b: nat)
    ensures (a % 256 + b) % 256 == (a + b) % 256
  {
  }

  lemma UserSizeExact(u: User)
    ensures UserSize(u) == (|u.name| + 5) % 256
  {
    ModAdd(|u.name| + 1, 4);
  }

  lemma StatusSizeExact(d: Text, a: bool, u: User)
    ensures PackedSize(ChipStatus(d, a, u)) == (|d| + |u.name| + 7) % 256
  {
    UserSizeExact(u);
    ModAdd(|d| + 1, 1 + UserSize(u));
    ModAdd(|u.name| + 5, |d| + 2);
  }

  /** The one-byte size is the true size modulo 256 however deep the nesting. */
  lemma PackedSizeExact(m: Message)
    ensures PackedSize(m) == |Encode(m)| % 256
    ensures PackedSize(m) == |Encode(m)| <==> |Encode(m)| <= 255
    ensures 2 + |Encode(m)| <= 256 <==> |Encode(m)| <= 254
  {
    match m
    case Empty =>
    case String(s) =>
    case UserData(u) =>
      UserSizeExact(u);
    case ChipStatus(d, a, u) =>
      StatusSizeExact(d, a, u);
  }

  // ---- Bytes ----

  function StringBytes(s: Text): (r: seq<Byte>)
    ensures |r| == |s| + 1
  {
    [|s| as Byte] + s
  }

  function PidBytes(p: Pid): (r: seq<Byte>)
    ensures |r| == 4
  {
    var u := if p < 0 then p + 0x1_0000_0000 else p;
    [u % 256, u / 256 % 256, u / 0x1_0000 % 256, u / 0x100_0000]
  }

  function PidValue(b: seq<Byte>): Pid
    requires |b| == 4
  {
    var b0: int, b1: int, b2: int, b3: int := b[0], b[1], b[2], b[3];
    var u := b0 + 256 * b1 + 0x1_0000 * b2 + 0x100_0000 * b3;
    if u >= 0x8000_0000 then u - 0x1_0000_0000 else u
  }

  lemma PidRoundTrip(p: Pid)
    ensures PidValue(PidBytes(p)) == p
  {
    var u := if p < 0 then p + 0x1_0000_0000 else p;
    assert u == u % 256 + 256 * (u / 256);
    assert u / 256 == u / 256 % 256 + 256 * (u / 0x1_0000);
    assert u / 0x1_0000 == u / 0x1_0000 % 256 + 256 * (u / 0x100_0000);
  }

  function UserBytes(u: User): (r: seq<Byte>)
    ensures |r| == |u.name| + 5
  {
    StringBytes(u.name) + PidBytes(u.pid)
  }

  /** The number a PID is stored as: 32 bits, two's complement. */
  function Unsigned(p: Pid): nat {
    if p < 0 then p + 0x1_0000_0000 else p
  }

  function Pow256(k: nat): (r: nat)
    ensures r > 0
  {
    if k == 0 then 1 else 256 * Pow256(k - 1)
  }

  /** PIDs go lowest byte first. */
  lemma PidIsLittleEndian(p: Pid, k: nat)
    requires k < 4
    ensures PidBytes(p)[k] == Unsigned(p) / Pow256(k) % 256
  {
    assert Pow256(1) == 256 && Pow256(2) == 0x1_0000 && Pow256(3) == 0x100_0000;
  }

  lemma UserHead(u: User)
    ensures UserBytes(u)[0] == |u.name| && UserBytes(u)[1..1 + |u.name|] == u.name
  {
    var b := StringBytes(u.name);
    assert b[1..1 + |u.name|] == u.name;
    assert UserBytes(u)[..1 + |u.name|] == b;
    assert UserBytes(u)[1..1 + |u.name|] == UserBytes(u)[..1 + |u.name|][1..1 + |u.name|];
  }

  lemma UserTail(u: User)
    ensures UserBytes(u)[1 + |u.name|..] == PidBytes(u.pid)
  {
    assert |StringBytes(u.name)| == 1 + |u.name|;
  }

  lemma StatusParts(d: Text, flag: Byte, rest: seq<Byte>)
    ensures var b := StringBytes(d) + [flag] + rest;
      b[0] == |d| && b[1..1 + |d|] == d && b[1 + |d|] == flag && b[2 + |d|..] == rest
  {
    var head := StringBytes(d) + [flag];
    assert |head| == 2 + |d|;
    assert head[1..1 + |d|] == d;
    assert (head + rest)[1..1 + |d|] == head[1..1 + |d|];
  }

  /** The wire form, byte by byte: sizes lead their texts, then come flag, user name and PID. */
  lemma WireLayout(m: Message)
    ensures m.Empty? ==> Encode(m) == []
    ensures m.String? ==> Encode(m)[0] == |m.text| && Encode(m)[1..] == m.text
    ensures m.UserData? ==>
      && Encode(m)[0] == |m.user.name| && Encode(m)[1..1 + |m.user.name|] == m.user.name
      && Encode(m)[1 + |m.user.name|..] == PidBytes(m.user.pid)
    ensures m.ChipStatus? ==>
      && Encode(m)[0] == |m.description| && Encode(m)[1..1 + |m.description|] == m.description
      && Encode(m)[1 + |m.description|] == (if m.acquired then 1 else 0)
      && Encode(m)[2 + |m.description|..] == Encode(UserData(m.user))
  {
    match m
    case Empty =>
    case String(s) =>
    case UserData(u) =>
      UserHead(u);
      UserTail(u);
    case ChipStatus(d, a, u) =>
      StatusParts(d, if a then 1 else 0, UserBytes(u));
  }

  // ---- Deserialize: reads through a pointer `p` into the bytes `d`, None past the end ----

  function DecodeString(d: seq<Byte>, p: nat): Option<Text> {
    if p < |d| && p + 1 + d[p] <= |d| then Some(d[p + 1..p + 1 + d[p]]) else None
  }

  function DecodeUser(d: seq<Byte>, p: nat): Option<User> {
    match DecodeString(d, p)
    case None => None
    case Some(name) =>
      var q := p + StringSize(name);
      if q + 4 <= |d| then Some(User(name, PidValue(d[q..q + 4]))) else None
  }

  function DecodeStatus(d: seq<Byte>): Option<Message> {
    match DecodeString(d, 0)
    case None => None
    case Some(description) =>
      var q := StringSize(description);
      if q >= |d| then None else
      match DecodeUser(d, q + 1)
      case None => None
      case Some(user) => Some(ChipStatus(description, d[q] != 0, user))
  }

  function Decode(k: Kind, d: seq<Byte>): Option<Message> {
    match k
    case EmptyKind => Some(Empty)
    case StringKind =>
      (match DecodeString(d, 0) case None => None case Some(s) => Some(String(s)))
    case UserKind =>
      (match DecodeUser(d, 0) case None => None case Some(u) => Some(UserData(u)))
    case StatusKind => DecodeStatus(d)
  }

  lemma DecodeStringAt(pre: seq<Byte>, s: Text, post: seq<Byte>)
    ensures DecodeString(pre + StringBytes(s) + post, |pre|) == Some(s)
  {
    var d := pre + StringBytes(s) + post;
    assert d[|pre|] == |s|;
    assert d[|pre| + 1..|pre| + 1 + |s|] == s;
  }

  lemma DecodeUserAt(pre: seq<Byte>, u: User, post: seq<Byte>)
    requires |u.name| <= 254
    ensures DecodeUser(pre + UserBytes(u) + post, |pre|) == Some(u)
  {
    var d := pre + UserBytes(u) + post;
    DecodeStringAt(pre, u.name, PidBytes(u.pid) + post);
    assert d == pre + StringBytes(u.name) + (PidBytes(u.pid) + post);
    var q := |pre| + StringSize(u.name);
    assert d[q..q + 4] == PidBytes(u.pid);
    PidRoundTrip(u.pid);
  }

  /** The head of a status, for any bytes `ub` in the place of the user. */
  lemma StatusHead(t: Text, flag: Byte, ub: seq<Byte>, post: seq<Byte>)
    ensures var d := StringBytes(t) + [flag] + ub + post;
            DecodeString(d, 0) == Some(t) && d[|t| + 1] == flag
  {
    var d := StringBytes(t) + [flag] + ub + post;
    assert d[0] == |t|;
    assert d[1..1 + |t|] == t;
  }

  lemma DecodeStatusFrom(d: seq<Byte>, t: Text, a: bool, user: Option<User>)
    requires |t| <= 253 && |t| + 1 < |d| && DecodeString(d, 0) == Some(t)
    requires (d[|t| + 1] != 0) == a && DecodeUser(d, |t| + 2) == user
    ensures DecodeStatus(d) == if user.Some? then Some(ChipStatus(t, a, user.value)) else None
  {
  }

  lemma RoundTripStatus(t: Text, a: bool, u: User, post: seq<Byte>)
    requires |t| + |u.name| + 7 <= 254
    ensures DecodeStatus(Encode(ChipStatus(t, a, u)) + post) == Some(ChipStatus(t, a, u))
  {
    var flag: Byte := if a then 1 else 0;
    StatusHead(t, flag, UserBytes(u), post);
    DecodeUserAt(StringBytes(t) + [flag], u, post);
    DecodeStatusFrom(StringBytes(t) + [flag] + UserBytes(u) + post, t, a, Some(u));
  }

  /** Deserializing a packed message gives it back whatever follows it in the buffer. */
  lemma RoundTrip(m: Message, post: seq<Byte>)
    requires |Encode(m)| <= 254
    ensures Decode(KindOf(m), Encode(m) + post) == Some(m)
  {
    match m
    case Empty =>
    case String(s) =>
      DecodeStringAt([], s, post);
      assert Encode(m) + post == [] + StringBytes(s) + post;
    case UserData(u) =>
      DecodeUserAt([], u, post);
      assert Encode(m) + post == [] + UserBytes(u) + post;
    case ChipStatus(t, a, u) =>
      RoundTripStatus(t, a, u, post);
  }

  /** Deserializing needs every packed byte: on any shorter prefix it runs off the end. */
  lemma NeedsEveryByte(m: Message, k: nat)
    requires k < |Encode(m)| <= 254
    ensures Decode(KindOf(m), Encode(m)[..k]) == None
  {
    match m
    case String(s) =>
    case UserData(u) =>
      NeedsEveryUserByte([], u, k);
      assert [] + UserBytes(u) == Encode(m);
    case ChipStatus(t, a, u) =>
      NeedsEveryStatusByte(t, a, u, k);
  }

  lemma NeedsEveryStatusByte(t: Text, a: bool, u: User, k: nat)
    requires |t| + |u.name| + 7 <= 254 && k < |t| + |u.name| + 7
    ensures DecodeStatus(Encode(ChipStatus(t, a, u))[..k]) == None
  {
    var flag: Byte := if a then 1 else 0;
    var pre := StringBytes(t) + [flag];
    if |pre| <= k {
      NeedsEveryUserByte(pre, u, k);
      StatusPrefix(t, flag, UserBytes(u), k);
      DecodeStatusFrom((pre + UserBytes(u))[..k], t, a, None);
    } else {
      StatusShort(t, flag, UserBytes(u), k);
    }
  }

  lemma StatusPrefix(t: Text, flag: Byte, ub: seq<Byte>, k: nat)
    requires |t| + 2 <= k <= |t| + 2 + |ub|
    ensures var d := (StringBytes(t) + [flag] + ub)[..k];
            DecodeString(d, 0) == Some(t) && d[|t| + 1] == flag
  {
    var d := (StringBytes(t) + [flag] + ub)[..k];
    assert d[0] == |t|;
    assert d[1..1 + |t|] == t;
  }

  lemma StatusShort(t: Text, flag: Byte, ub: seq<Byte>, k: nat)
    requires |t| <= 253 && k < |t| + 2
    ensures DecodeStatus((StringBytes(t) + [flag] + ub)[..k]) == None
  {
    var d := (StringBytes(t) + [flag] + ub)[..k];
    if k > 0 {
      assert d[0] == |t|;
    }
  }

  lemma SliceOfPrefix(pre: seq<Byte>, x: seq<Byte>, k: nat, i: nat, j: nat)
    requires i <= j && |pre| + j <= k <= |pre| + |x|
    ensures (pre + x)[..k][|pre| + i..|pre| + j] == x[i..j]
  {
    var a, b := (pre + x)[..k][|pre| + i..|pre| + j], x[i..j];
    assert |a| == |b| == j - i;
    forall n | 0 <= n < j - i
      ensures a[n] == b[n]
    {
      assert a[n] == (pre + x)[..k][|pre| + i + n] == (pre + x)[|pre| + i + n] == x[i + n];
    }
  }

  lemma NeedsEveryUserByte(pre: seq<Byte>, u: User, k: nat)
    requires |pre| <= k < |pre + UserBytes(u)| && |u.name| <= 254
    ensures DecodeUser((pre + UserBytes(u))[..k], |pre|) == None
  {
    var d, n := (pre + UserBytes(u))[..k], |u.name|;
    UserHead(u);
    if k > |pre| {
      assert d[|pre|] == UserBytes(u)[0];
      if |pre| + 1 + n <= k {
        SliceOfPrefix(pre, UserBytes(u), k, 1, 1 + n);
        assert DecodeString(d, |pre|) == Some(u.name);
      }
    }
  }

  // ---- Serialize: writes through a pointer into the buffer ----

  method SerializeString(buf: array<Byte>, ptr: nat, s: Text)
    requires |s| < 255 && ptr + 1 + |s| <= buf.Length
    modifies buf
    ensures buf[..] == Splice(old(buf[..]), ptr, StringBytes(s))
  {
    buf[ptr] := |s|;
    for i := 0 to |s|
      invariant buf[..] == Splice(old(buf[..]), ptr, StringBytes(s)[..1 + i])
    {
      buf[ptr + 1 + i] := s[i];
    }
    assert StringBytes(s)[..1 + |s|] == StringBytes(s);
  }

  method SerializePid(buf: array<Byte>, ptr: nat, p: Pid)
    requires ptr + 4 <= buf.Length
    modifies buf
    ensures buf[..] == Splice(old(buf[..]), ptr, PidBytes(p))
  {
    var b := PidBytes(p);
    buf[ptr], buf[ptr + 1], buf[ptr + 2], buf[ptr + 3] := b[0], b[1], b[2], b[3];
  }

  method SerializeUser(buf: array<Byte>, start: nat, u: User)
    requires |u.name| < 255 && start + |u.name| + 5 <= buf.Length
    modifies buf
    ensures buf[..] == Splice(old(buf[..]), start, UserBytes(u))
  {
    var ptr := start;
    SerializeString(buf, ptr, u.name);
    ptr := ptr + StringSize(u.name);
    SerializePid(buf, ptr, u.pid);
    SpliceTwice(old(buf[..]), start, StringBytes(u.name), PidBytes(u.pid));
  }

  method SerializeFlag(buf: array<Byte>, ptr: nat, acquired: bool)
    requires ptr < buf.Length
    modifies buf
    ensures buf[..] == Splice(old(buf[..]), ptr, [if acquired then 1 else 0])
  {
    buf[ptr] := if acquired then 1 else 0;
  }

  method SerializeStatus(buf: array<Byte>, start: nat, description: Text, acquired: bool, u: User)
    requires |description| < 255 && |u.name| < 255
    requires start + |description| + |u.name| + 7 <= buf.Length
    modifies buf
    ensures buf[..] == Splice(old(buf[..]), start, Encode(ChipStatus(description, acquired, u)))
  {
    ghost var before, text := buf[..], StringBytes(description);
    ghost var flag: seq<Byte> := [if acquired then 1 else 0];
    var ptr := start;
    SerializeString(buf, ptr, description);
    ptr := ptr + StringSize(description);
    SerializeFlag(buf, ptr, acquired);
    ptr := ptr + 1;
    assert buf[..] == Splice(before, start, text + flag) by {
      SpliceTwice(before, start, text, flag);
    }
    SerializeUser(buf, ptr, u);
    assert buf[..] == Splice(before, start, text + flag + UserBytes(u)) by {
      SpliceTwice(before, start, text + flag, UserBytes(u));
    }
  }

  /** `Serialize` of any message writes exactly its packed bytes at `start` and nothing else. */
  method Serialize(buf: array<Byte>, start: nat, m: Message)
    requires |Encode(m)| <= 254 && start + |Encode(m)| <= buf.Length
    modifies buf
    ensures buf[..] == Splice(old(buf[..]), start, Encode(m))
  {
    match m
    case Empty =>
      assert Splice(buf[..], start, []) == buf[..];
    case String(s) =>
      SerializeString(buf, start, s);
    case UserData(u) =>
      SerializeUser(buf, start, u);
    case ChipStatus(d, a, u) =>
      SerializeStatus(buf, start, d, a, u);
  }
}
