/**
 The firmware packet encoder: pages of 1024 bytes, each 32-bit word reversed, padded with 0xFF and printed
 in hex; and the acknowledged send loop.
 */
module Flash {
  import opened Bytes
  import opened Numerals

  const PAGE := 1024
  const MAX_PAGES := 4096

  // ---- What is sent ----

  function PadAt(image: seq<Byte>, a: nat): Byte {
    if a < |image| then image[a] else 0xFF
  }

  function Pages(n: nat): nat {
    n / PAGE + if n % PAGE > 0 then 1 else 0
  }

  /** The image padded with 0xFF to whole pages. */
  function Padded(image: seq<Byte>): seq<Byte> {
    seq(PAGE * Pages(|image|), a requires 0 <= a => PadAt(image, a))
  }

  /** `hex(n)[2:].zfill(width).upper()` */
  function Hex(n: nat, width: nat): string {
    ZFill(Digits(n, Sixteen), width)
  }

  /** Two hex digits per byte. */
  function HexString(bs: seq<Byte>): (s: string)
    ensures |s| == 2 * |bs|
  {
    seq(2 * |bs|, i requires 0 <= i < 2 * |bs| => DigitChar(if i % 2 == 0 then bs[i / 2] / 16 else bs[i / 2] % 16))
  }

  /** The byte of a word sequence that is sent at place m: every word goes last byte first. */
  function Swap(m: nat): nat {
    m - m % 4 + (3 - m % 4)
  }

  /** The bytes of the q words from address `a` on, in the order they are sent. */
  function Sent(image: seq<Byte>, a: nat, q: nat): (r: seq<Byte>)
    ensures |r| == 4 * q
  {
    seq(4 * q, m requires 0 <= m < 4 * q => PadAt(image, a + Swap(m)))
  }

  function Format(offset: string, size: string, value: string): string {
    "CMD:WRITE:" + offset + ":" + size + ">" + value + "\r\n"
  }

  function WriteCommand(offset: nat, value: string): string {
    Format(Hex(offset, 8), Hex(PAGE, 8), value)
  }

  function Command(image: seq<Byte>, i: nat): string {
    WriteCommand(PAGE * i, HexString(Sent(image, PAGE * i, 256)))
  }

  // ---- The encoder ----

  /** Fills one word. `base` is `i + curr_offset` of the source. */
  method FillWord(image: seq<Byte>, base: nat, word: array<Byte>)
    requires word.Length == 4
    modifies word
    ensures forall k :: 0 <= k < 4 ==> word[k] == PadAt(image, base + 3 - k)
  {
    for n := 0 to 4 {
      word[n] := 0xFF;
    }
    for k := 0 to 4
      invariant forall j :: 0 <= j < k ==> word[j] == PadAt(image, base + 3 - j)
    {
      var index := base + (4 - (k + 1));
      if index >= |image| {
        word[k] := 0xFF;
      } else {
        word[k] := image[index];
      }
    }
  }

  lemma HexTwo(b: Byte)
    ensures Hex(b, 2) == HexString([b])
  {
    if b < 16 {
      assert Digits(b, Sixteen) == [DigitChar(b)];
      assert ZFill([DigitChar(b)], 2) == ['0'] + ZFill([DigitChar(b)], 1);
    } else {
      assert Digits(b, Sixteen) == [DigitChar(b / 16)] + [DigitChar(b % 16)];
    }
  }

  lemma HexStringConcat(x: seq<Byte>, y: seq<Byte>)
    ensures HexString(x + y) == HexString(x) + HexString(y)
  {
  }

  lemma HexWord(a: Byte, b: Byte, c: Byte, d: Byte)
    ensures Hex(a, 2) + Hex(b, 2) + Hex(c, 2) + Hex(d, 2) == HexString([a, b, c, d])
  {
    HexTwo(a);
    HexTwo(b);
    HexTwo(c);
    HexTwo(d);
    HexStringConcat([a], [b]);
    HexStringConcat([a] + [b], [c]);
    HexStringConcat([a] + [b] + [c], [d]);
    assert [a] + [b] + [c] + [d] == [a, b, c, d];
  }

  lemma SentNext(image: seq<Byte>, a: nat, q: nat)
    ensures var b := a + 4 * q;
      Sent(image, a, q + 1) ==
      Sent(image, a, q) + [PadAt(image, b + 3), PadAt(image, b + 2), PadAt(image, b + 1), PadAt(image, b)]
  {
  }

  /** One more word printed. */
  lemma PrintWord(image: seq<Byte>, a: nat, q: nat, w: seq<Byte>)
    requires |w| == 4 && forall k :: 0 <= k < 4 ==> w[k] == PadAt(image, a + 4 * q + 3 - k)
    ensures HexString(Sent(image, a, q)) + (Hex(w[0], 2) + Hex(w[1], 2) + Hex(w[2], 2) + Hex(w[3], 2)) ==
            HexString(Sent(image, a, q + 1))
  {
    HexWord(w[0], w[1], w[2], w[3]);
    SentNext(image, a, q);
    HexStringConcat(Sent(image, a, q), [w[0], w[1], w[2], w[3]]);
  }

  /** Builds one page: 256 words, each four bytes further than the last. */
  method BuildPage(image: seq<Byte>, i: nat, offset: int) returns (value: string, newOffset: int)
    requires i + offset == PAGE * i
    ensures value == HexString(Sent(image, PAGE * i, 256))
    ensures newOffset == offset + PAGE
  {
    var word := new Byte[4];
    ghost var a := PAGE * i;
    value, newOffset := "", offset;
    for q := 0 to 256
      invariant i + newOffset == a + 4 * q
      invariant value == HexString(Sent(image, a, q))
    {
      FillWord(image, i + newOffset, word);
      PrintWord(image, a, q, word[..]);
      value := value + (Hex(word[0], 2) + Hex(word[1], 2) + Hex(word[2], 2) + Hex(word[3], 2));
      newOffset := newOffset + 4;
    }
  }

  /**
   Builds all commands. The running offset loses 1 per page, and the page number is added back; the list
   has 4096 places, and one page more raises an IndexError (None).
   */
  method BuildCommands(image: seq<Byte>) returns (r: Option<seq<string>>)
    ensures r.Some? <==> |image| <= 4096 * 1024
    ensures r.Some? ==> |r.value| == Pages(|image|)
    ensures r.Some? ==> forall i :: 0 <= i < |r.value| ==> r.value[i] == Command(image, i)
  {
    var parts := |image| / PAGE;
    if |image| % PAGE > 0 {
      parts := parts + 1;
    }
    var list := new string[MAX_PAGES](_ => "");
    var currOffset, binOffset := 0, 0;
    for i := 0 to parts
      invariant i <= MAX_PAGES
      invariant i + currOffset == PAGE * i && binOffset == PAGE * i
      invariant forall j :: 0 <= j < i ==> list[j] == Command(image, j)
    {
      var offset := binOffset;
      var value;
      value, currOffset := BuildPage(image, i, currOffset);
      binOffset := binOffset + PAGE;
      if i >= MAX_PAGES {
        return None;
      }
      list[i] := WriteCommand(offset, value);
      currOffset := currOffset - 1;
    }
    r := Some(list[..parts]);
  }

  // ---- A reference decoder: what a board must understand a command to be ----

  datatype Write = Write(offset: nat, bytes: seq<Byte>)

  /** The k-th byte of a hex string. */
  function HexAt(s: string, k: nat): Byte
    requires 2 * k + 1 < |s|
  {
    16 * DigitValue(s[2 * k]) + DigitValue(s[2 * k + 1])
  }

  predicate AllHex(s: string) {
    AllDigits(s, Sixteen)
  }

  function Unhex(s: string): (bs: seq<Byte>)
    requires |s| % 2 == 0
    ensures |bs| == |s| / 2
  {
    seq<Byte>(|s| / 2, k requires 0 <= k < |s| / 2 => HexAt(s, k))
  }

  /** Reverses every word. */
  function Unswap(bs: seq<Byte>): (r: seq<Byte>)
    requires |bs| % 4 == 0
    ensures |r| == |bs|
  {
    seq<Byte>(|bs|, j requires 0 <= j < |bs| => bs[Swap(j)])
  }

  function Payload(s: string): seq<Byte>
    requires |s| % 8 == 0
  {
    assert |s| / 2 % 4 == 0;
    Unswap(Unhex(s))
  }

  /** Parses a WRITE command; anything not exactly in the format is refused. */
  function DecodeCommand(c: string): Option<Write> {
    if |c| < 30 || c[..10] != "CMD:WRITE:" || c[18] != ':' || c[27] != '>' || c[|c| - 2..] != "\r\n" then None else
    var value := c[28..|c| - 2];
    if !AllHex(c[10..18]) || !AllHex(c[19..27]) || !AllHex(value) || |value| % 8 != 0 then None else
    if Value(c[19..27], Sixteen) != |value| / 2 then None else
    Some(Write(Value(c[10..18], Sixteen), Payload(value)))
  }

  // ---- Decoding undoes encoding ----

  lemma HexStringIsHex(bs: seq<Byte>)
    ensures AllHex(HexString(bs))
  {
    forall i: nat | i < 2 * |bs|
      ensures IsDigit(HexString(bs)[i], Sixteen)
    {
      DigitRoundTrip(if i % 2 == 0 then bs[i / 2] / 16 else bs[i / 2] % 16, Sixteen);
    }
  }

  lemma HexStringDigits(bs: seq<Byte>, k: nat)
    requires k < |bs|
    ensures HexString(bs)[2 * k] == DigitChar(bs[k] / 16) && HexString(bs)[2 * k + 1] == DigitChar(bs[k] % 16)
  {
    assert 2 * k / 2 == k && (2 * k + 1) / 2 == k && (2 * k) % 2 == 0 && (2 * k + 1) % 2 == 1;
  }

  lemma HexStringAt(bs: seq<Byte>, k: nat)
    requires k < |bs|
    ensures HexAt(HexString(bs), k) == bs[k]
  {
    HexStringDigits(bs, k);
    DigitRoundTrip(bs[k] / 16, Sixteen);
    DigitRoundTrip(bs[k] % 16, Sixteen);
  }

  lemma UnhexHexString(bs: seq<Byte>)
    ensures Unhex(HexString(bs)) == bs
  {
    forall k: nat | k < |bs|
      ensures Unhex(HexString(bs))[k] == bs[k]
    {
      HexStringAt(bs, k);
    }
  }

  lemma HexField(n: nat)
    requires n < 0x1_0000_0000
    ensures |Hex(n, 8)| == 8 && Value(Hex(n, 8), Sixteen) == n && AllHex(Hex(n, 8))
  {
    assert Pow(Sixteen, 4) == 0x1_0000;
    assert Pow(Sixteen, 8) == 0x1_0000_0000;
    DigitsLength(n, Sixteen, 8);
    ValueOfDigits(n, Sixteen);
    ValueOfZFill(Digits(n, Sixteen), 8, Sixteen);
    DigitsAreDigits(n, Sixteen);
    ZFillAreDigits(Digits(n, Sixteen), 8, Sixteen);
  }

  /** The bytes at addresses a, a + 1, ..., padded. */
  function Memory(image: seq<Byte>, a: nat, n: nat): (r: seq<Byte>)
    ensures |r| == n
  {
    seq<Byte>(n, j requires 0 <= j < n => PadAt(image, a + j))
  }

  /** Swapping back: the sent words are the memory they came from. */
  lemma UnswapSent(image: seq<Byte>, a: nat, q: nat)
    ensures Unswap(Sent(image, a, q)) == Memory(image, a, 4 * q)
  {
    forall j: nat | j < 4 * q
      ensures Unswap(Sent(image, a, q))[j] == PadAt(image, a + j)
    {
      SwapTwice(j, q);
    }
  }

  lemma SwapTwice(j: nat, q: nat)
    requires j < 4 * q
    ensures Swap(j) < 4 * q && Swap(Swap(j)) == j
  {
  }

  lemma FormatHead(offset: string, size: string, value: string)
    requires |offset| == 8 && |size| == 8
    ensures var c := Format(offset, size, value);
      && |c| == 30 + |value| && c[..10] == "CMD:WRITE:" && c[18] == ':' && c[27] == '>'
      && c[10..18] == offset && c[19..27] == size
  {
    var c := Format(offset, size, value);
    assert c == "CMD:WRITE:" + (offset + ":" + size + ">" + value + "\r\n");
    assert c[10..18] == offset;
    assert c[19..27] == size;
  }

  lemma FormatTail(offset: string, size: string, value: string)
    requires |offset| == 8 && |size| == 8
    ensures var c := Format(offset, size, value);
      |c| == 30 + |value| && c[28..|c| - 2] == value && c[|c| - 2..] == "\r\n"
  {
    var head := "CMD:WRITE:" + offset + ":" + size + ">";
    assert |head| == 28;
    assert Format(offset, size, value) == head + value + "\r\n";
  }

  /** Decoding a command built from its three fields. */
  lemma DecodeFields(c: string, offset: string, size: string, value: string)
    requires |offset| == 8 && |size| == 8 && AllHex(offset) && AllHex(size) && AllHex(value)
    requires |value| % 8 == 0 && Value(size, Sixteen) == |value| / 2
    requires c == Format(offset, size, value)
    ensures |c| == 30 + |value| && DecodeCommand(c) == Some(Write(Value(offset, Sixteen), Payload(value)))
  {
    FormatHead(offset, size, value);
    FormatTail(offset, size, value);
  }

  lemma PageOfPadded(image: seq<Byte>, i: nat)
    requires i < Pages(|image|)
    ensures PAGE * (i + 1) <= |Padded(image)|
    ensures Memory(image, PAGE * i, PAGE) == Padded(image)[PAGE * i..PAGE * (i + 1)]
  {
  }

  /** A command for `q` words at address `a` decodes to the padded bytes there. */
  lemma DecodeWords(image: seq<Byte>, a: nat, q: nat)
    requires a < 0x1_0000_0000 && 4 * q == PAGE
    ensures var c := WriteCommand(a, HexString(Sent(image, a, q)));
      |c| == 30 + 8 * q && DecodeCommand(c) == Some(Write(a, Memory(image, a, 4 * q)))
  {
    HexField(a);
    HexField(PAGE);
    HexStringIsHex(Sent(image, a, q));
    UnhexHexString(Sent(image, a, q));
    UnswapSent(image, a, q);
    DecodeFields(WriteCommand(a, HexString(Sent(image, a, q))), Hex(a, 8), Hex(PAGE, 8), HexString(Sent(image, a, q)));
  }

  /** Every command is 2078 characters long and decodes to its page of the padded image, at its offset. */
  lemma CommandRoundTrip(image: seq<Byte>, i: nat)
    requires |image| <= MAX_PAGES * PAGE && i < Pages(|image|)
    ensures |Command(image, i)| == 2078
    ensures PAGE * (i + 1) <= |Padded(image)|
    ensures DecodeCommand(Command(image, i)) == Some(Write(PAGE * i, Padded(image)[PAGE * i..PAGE * (i + 1)]))
  {
    DecodeWords(image, PAGE * i, 256);
    PageOfPadded(image, i);
  }

  function Decoded(cmds: seq<string>): seq<Option<Write>> {
    seq(|cmds|, i requires 0 <= i < |cmds| => DecodeCommand(cmds[i]))
  }

  /** The memory a sequence of writes describes when each begins where the last one ended. */
  function Assemble(ws: seq<Option<Write>>): Option<seq<Byte>> {
    if ws == [] then Some([]) else
    match (Assemble(ws[..|ws| - 1]), ws[|ws| - 1])
    case (Some(m), Some(w)) => if w.offset == |m| then Some(m + w.bytes) else None
    case _ => None
  }

  lemma {:induction false} AssemblePages(p: seq<Byte>, ws: seq<Option<Write>>)
    requires PAGE * |ws| <= |p|
    requires forall i :: 0 <= i < |ws| ==> ws[i] == Some(Write(PAGE * i, p[PAGE * i..PAGE * (i + 1)]))
    ensures Assemble(ws) == Some(p[..PAGE * |ws|])
  {
    if ws != [] {
      var n := |ws| - 1;
      AssemblePages(p, ws[..n]);
      assert p[..PAGE * n] + p[PAGE * n..PAGE * (n + 1)] == p[..PAGE * (n + 1)];
    }
  }

  /** For every image that fits the list, decoding the commands gives exactly the padded image. */
  lemma DecodeUndoesEncode(image: seq<Byte>, cmds: seq<string>)
    requires |image| <= MAX_PAGES * PAGE && |cmds| == Pages(|image|)
    requires forall i :: 0 <= i < |cmds| ==> cmds[i] == Command(image, i)
    ensures Assemble(Decoded(cmds)) == Some(Padded(image))
    ensures image <= Padded(image)
  {
    var p, ws := Padded(image), Decoded(cmds);
    forall i | 0 <= i < |ws|
      ensures ws[i] == Some(Write(PAGE * i, p[PAGE * i..PAGE * (i + 1)]))
    {
      CommandRoundTrip(image, i);
    }
    AssemblePages(p, ws);
    assert p[..PAGE * |ws|] == p;
    PaddedKeepsImage(image);
  }

  lemma PaddedKeepsImage(image: seq<Byte>)
    ensures image <= Padded(image)
    ensures forall a :: |image| <= a < |Padded(image)| ==> Padded(image)[a] == 0xFF
    ensures |image| <= |Padded(image)| < |image| + PAGE
  {
  }

  // ---- Sending ----

  /** What `readline` gives for a package: a line, or an exception (timeout, decoding). */
  datatype Answer = Line(text: string) | Raises

  const OK := Line("OK\r\n")

  predicate AllOk(answers: nat -> Answer, n: nat) {
    forall k: nat :: k < n ==> answers(k) == OK
  }

  /**
   The send loop. `answers(k)` is the board's answer to the k-th package, `lastLine` whether the closing
   line could be read.
   */
  method SendPackages(cmds: seq<string>, answers: nat -> Answer, lastLine: bool)
    returns (exitCode: nat, sent: seq<string>)
    ensures exitCode == 0 <==> (forall k: nat :: k < |cmds| ==> answers(k) == Line("OK\r\n")) && lastLine
    ensures exitCode != 0 ==> exitCode == 1
    ensures sent <= cmds
    ensures exitCode == 0 ==> sent == cmds
    ensures forall k :: 0 <= k < |sent| - 1 ==> answers(k) == Line("OK\r\n")
    ensures |sent| < |cmds| ==> sent != [] && answers(|sent| - 1) != Line("OK\r\n")
  {
    sent := [];
    for pkg := 0 to |cmds|
      invariant sent == cmds[..pkg] && AllOk(answers, pkg)
    {
      sent := sent + [cmds[pkg]];
      var response := answers(pkg);
      if response != OK {
        return 1, sent;
      }
    }
    exitCode := if lastLine then 0 else 1;
  }

  // ---- The board ----

  /** `mems(k, a)` is the board's memory at address a after k packages. */
  type Memories = (nat, nat) -> Byte

  /** Between moments k and next the board wrote exactly w. */
  ghost predicate Wrote(mems: Memories, k: nat, next: nat, w: Write) {
    forall a: nat :: mems(next, a) ==
      if w.offset <= a < w.offset + |w.bytes| then w.bytes[a - w.offset] else mems(k, a)
  }

  /** A board that has written a package, and nothing else, by the time it answers OK to it. */
  ghost predicate Honest(mems: Memories, cmds: seq<string>, answers: nat -> Answer) {
    forall k: nat :: k < |cmds| && answers(k) == OK && DecodeCommand(cmds[k]).Some? ==>
      Wrote(mems, k, k + 1, DecodeCommand(cmds[k]).value)
  }

  ghost predicate Holds(mems: Memories, k: nat, p: seq<Byte>) {
    forall a: nat :: a < |p| ==> mems(k, a) == p[a]
  }

  lemma HoldsMore(mems: Memories, k: nat, next: nat, p: seq<Byte>, lo: nat, hi: nat)
    requires lo <= hi <= |p| && Holds(mems, k, p[..lo]) && Wrote(mems, k, next, Write(lo, p[lo..hi]))
    ensures Holds(mems, next, p[..hi])
  {
    forall a: nat | a < hi
      ensures mems(next, a) == p[a]
    {
      assert a < lo ==> mems(k, a) == p[..lo][a];
    }
  }

  lemma {:induction false} BoardFollows(
      image: seq<Byte>, cmds: seq<string>, answers: nat -> Answer, mems: Memories, n: nat)
    requires |image| <= MAX_PAGES * PAGE && n <= |cmds| == Pages(|image|)
    requires forall i :: 0 <= i < |cmds| ==> cmds[i] == Command(image, i)
    requires AllOk(answers, n) && Honest(mems, cmds, answers)
    ensures PAGE * n <= |Padded(image)| && Holds(mems, n, Padded(image)[..PAGE * n])
  {
    if n > 0 {
      var m := n - 1;
      BoardFollows(image, cmds, answers, mems, m);
      CommandRoundTrip(image, m);
      assert answers(m) == OK;
      HoldsMore(mems, m, n, Padded(image), PAGE * m, PAGE * n);
    }
  }

  /** The whole script, from building the commands to the exit code. */
  method FlashImage(image: seq<Byte>, answers: nat -> Answer, lastLine: bool, ghost mems: Memories)
    returns (exitCode: nat, sent: seq<string>)
    ensures exitCode == 0 ==> |image| <= MAX_PAGES * PAGE && |sent| == Pages(|image|)
    ensures exitCode == 0 ==> Assemble(Decoded(sent)) == Some(Padded(image))
    ensures exitCode == 0 && Honest(mems, sent, answers) ==> Holds(mems, |sent|, Padded(image))
    ensures |image| > MAX_PAGES * PAGE ==> exitCode == 1 && sent == []
    ensures |image| <= MAX_PAGES * PAGE ==> (exitCode == 0 <==> AllOk(answers, Pages(|image|)) && lastLine)
  {
    var cmds := BuildCommands(image);
    if cmds.None? {
      return 1, [];
    }
    exitCode, sent := SendPackages(cmds.value, answers, lastLine);
    if exitCode == 0 {
      DecodeUndoesEncode(image, sent);
      if Honest(mems, sent, answers) {
        BoardFollows(image, sent, answers, mems, |sent|);
        assert Padded(image)[..PAGE * |sent|] == Padded(image);
      }
    }
  }
}
