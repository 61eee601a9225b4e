/** Bytes on the wire. `char` is taken as an unsigned byte, as under the usual ARM ABI. */
module Bytes {
  type Byte = b: int | 0 <= b < 256

  datatype Option<+T> = None | Some(value: T)

  /** The bytes of an ASCII literal of the source. */
  function Ascii(s: string): (r: seq<Byte>)
    ensures |r| == |s|
  {
    seq(|s|, i requires 0 <= i < |s| => s[i] as int % 256)
  }

  /** `b` with the bytes from position `p` on overwritten by `x`. */
  function Splice(b: seq<Byte>, p: nat, x: seq<Byte>): (r: seq<Byte>)
    requires p + |x| <= |b|
    ensures |r| == |b|
    ensures forall i :: 0 <= i < |b| ==> r[i] == if p <= i < p + |x| then x[i - p] else b[i]
  {
    seq(|b|, i requires 0 <= i < |b| => if p <= i < p + |x| then x[i - p] else b[i])
  }

  /** Writing `x` and then `y` right behind it writes `x + y`. */
  lemma SpliceTwice(b: seq<Byte>, p: nat, x: seq<Byte>, y: seq<Byte>)
    requires p + |x| + |y| <= |b|
    ensures Splice(Splice(b, p, x), p + |x|, y) == Splice(b, p, x + y)
  {
    var twice, once := Splice(Splice(b, p, x), p + |x|, y), Splice(b, p, x + y);
    forall i | 0 <= i < |b|
      ensures twice[i] == once[i]
    {
    }
  }

  /** Above any finite set there is a number the kernel can still give out, as a descriptor or a PID. */
  lemma {:induction false} UpperBound(taken: set<nat>) returns (m: nat)
    ensures forall n :: n in taken ==> n < m
  {
    m := 0;
    if x :| x in taken {
      var n := UpperBound(taken - {x});
      m := if x < n then n else x + 1;
      forall k | k in taken
        ensures k < m
      {
        assert k == x || k in taken - {x};
      }
    }
  }
}
