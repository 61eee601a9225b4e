/** The words of the program: every text a client can be sent, letter by letter. */
module Wording {
  import opened Bytes
  import opened Codec
  import opened Numerals
  import opened Firmware

  lemma AsciiConcat(a: string, b: string)
    ensures Ascii(a + b) == Ascii(a) + Ascii(b)
  {
  }

  lemma DescriptionWords(f: Fsm)
    requires WellFormed(f)
    ensures f.state == Boot ==> Description(f) == "Boot"
    ensures f.state == Running ==> Description(f) == "Running"
    ensures f.state == Fault ==> Description(f) == "Fault"
    ensures f.routine == Some(ChipReset) ==> Description(f) == "Chip reset"
    ensures f.routine == Some(FWFlashing) ==> Description(f) == "Firmware flashing"
    ensures f.routine == Some(FWStarting) ==> Description(f) == "Firmware starting"
  {
  }

  lemma ScriptWords(s: Script)
    ensures s == Killed ==> ScriptText(s) == Ascii("Execute: Flashing script terminated abnormally")
    ensures s.Exited? ==>
      ScriptText(s) == Ascii("Execute: Flashing script exited with non-zero code ") + Ascii(Decimal(s.code))
  {
    if s.Exited? {
      AsciiConcat("Execute: Flashing script exited with non-zero code ", Decimal(s.code));
    }
  }

  lemma AsciiDecimalTells(c: Byte, d: Byte)
    requires Ascii(Decimal(c)) == Ascii(Decimal(d))
    ensures c == d
  {
    var x, y := Decimal(c), Decimal(d);
    forall k | 0 <= k < |x|
      ensures x[k] == y[k]
    {
      DecimalCharacter(c, k);
      DecimalCharacter(d, k);
      assert Ascii(x)[k] == Ascii(y)[k];
    }
    assert x == y;
    DecimalTells(c, d);
  }

  lemma SameHead(head: seq<Byte>, x: seq<Byte>, y: seq<Byte>)
    requires head + x == head + y
    ensures x == y
  {
    assert (head + x)[|head|..] == x && (head + y)[|head|..] == y;
  }

  lemma KilledOrExited(c: Byte)
    ensures ScriptText(Killed) != ScriptText(Exited(c))
  {
    var a, b := "Execute: Flashing script terminated abnormally", "Execute: Flashing script exited with non-zero code ";
    ScriptWords(Killed);
    ScriptWords(Exited(c));
    assert a[25] == 't' && b[25] == 'e';
    assert ScriptText(Killed)[25] == Ascii(a)[25] && ScriptText(Exited(c))[25] == Ascii(b)[25];
  }

  /** An error text tells how the script ended. */
  lemma ScriptTextTells(s: Script, t: Script)
    ensures ScriptText(s) == ScriptText(t) <==> s == t
  {
    if ScriptText(s) == ScriptText(t) {
      if s.Exited? && t.Exited? {
        ScriptWords(s);
        ScriptWords(t);
        SameHead(Ascii("Execute: Flashing script exited with non-zero code "), Ascii(Decimal(s.code)), Ascii(Decimal(t.code)));
        AsciiDecimalTells(s.code, t.code);
      } else if s.Exited? {
        KilledOrExited(s.code);
      } else if t.Exited? {
        KilledOrExited(t.code);
      }
    }
  }

  lemma RefusalWords(procedure: string, user: User)
    ensures AcquiredText(procedure, user) ==
      Ascii("Can't do ") + Ascii(procedure) + Ascii(": Port is acquired by ") + user.name +
      Ascii(" at PID ") + Ascii(Decimal(user.pid))
  {
    AsciiConcat("Can't do ", procedure);
    AsciiConcat("Can't do " + procedure, ": Port is acquired by ");
    AsciiConcat(" at PID ", Decimal(user.pid));
  }

  lemma JoinWords(r: Routine)
    ensures Join(Expected(r)) == if r == ChipReset then "Boot, Running, Fault" else "Boot"
  {
    if r == ChipReset {
      var x := Expected(r);
      assert x[1..] == [Running, Fault] && x[1..][1..] == [Fault];
      assert Join([Fault]) == "Fault" && Join([Running, Fault]) == "Running" + ", " + "Fault";
    }
  }

  /** The text of a rejection, for each routine and each state it may name. */
  lemma RejectionWords(r: Routine, got: FWState)
    ensures var operation := match r
        case ChipReset => "Chip reset" case FWFlashing => "Firmware flashing" case FWStarting => "Firmware starting";
      var name := match got
        case Boot => "Boot" case Running => "Running" case Transition => "Transition" case Fault => "Fault";
      RejectedText(Name(r), got, Expected(r)) ==
        "Inappropriate state for operation \"" + operation + "\": " + ("Got " + name + ",") +
        " Expected one of: " + if r == ChipReset then "Boot, Running, Fault" else "Boot"
  {
    JoinWords(r);
  }
}
