/** Printed numbers: C++ `std::to_string` and Python `hex(n)[2:].zfill(w).upper()`. */
module Numerals {
  datatype Base = Ten | Sixteen

  function Radix(b: Base): nat {
    if b.Ten? then 10 else 16
  }

  function Quotient(n: nat, b: Base): nat {
    if b.Ten? then n / 10 else n / 16
  }

  function Remainder(n: nat, b: Base): (r: nat)
    ensures r < 16
  {
    if b.Ten? then n % 10 else n % 16
  }

  function DigitValue(c: char): (d: nat)
    ensures d < 16
  {
    if '0' <= c <= '9' then (c - '0') as int else if 'A' <= c <= 'F' then 10 + (c - 'A') as int else 0
  }

  predicate IsDigit(c: char, b: Base) {
    ('0' <= c <= '9' || 'A' <= c <= 'F') && DigitValue(c) < Radix(b)
  }

  function DigitChar(d: nat): char
    requires d < 16
  {
    "0123456789ABCDEF"[d]
  }

  lemma DigitRoundTrip(d: nat, b: Base)
    requires d < 16
    ensures DigitValue(DigitChar(d)) == d
    ensures d < Radix(b) ==> IsDigit(DigitChar(d), b)
  {
  }

  function Pow(b: Base, k: nat): nat {
    if k == 0 then 1 else if b.Ten? then 10 * Pow(b, k - 1) else 16 * Pow(b, k - 1)
  }

  /** Digits of `n` without leading zeros, most significant first. */
  function Digits(n: nat, b: Base): (s: string)
    ensures s != []
  {
    if n < Radix(b) then [DigitChar(n)] else Digits(Quotient(n, b), b) + [DigitChar(Remainder(n, b))]
  }

  function Value(s: string, b: Base): nat {
    if s == [] then 0 else
    var high := Value(s[..|s| - 1], b);
    (if b.Ten? then 10 * high else 16 * high) + DigitValue(s[|s| - 1])
  }

  function ZFill(s: string, width: nat): string {
    if |s| >= width then s else ['0'] + ZFill(s, width - 1)
  }

  lemma ValueSnoc(s: string, c: char, b: Base)
    ensures Value(s + [c], b) == (if b.Ten? then 10 * Value(s, b) else 16 * Value(s, b)) + DigitValue(c)
  {
    assert (s + [c])[..|s + [c]| - 1] == s;
  }

  lemma {:induction false} ValueOfDigits(n: nat, b: Base)
    ensures Value(Digits(n, b), b) == n
  {
    if n < Radix(b) {
      DigitRoundTrip(n, b);
      ValueSnoc([], DigitChar(n), b);
      assert Digits(n, b) == [] + [DigitChar(n)];
    } else {
      ValueOfDigits(Quotient(n, b), b);
      DigitRoundTrip(Remainder(n, b), b);
      ValueSnoc(Digits(Quotient(n, b), b), DigitChar(Remainder(n, b)), b);
    }
  }

  lemma {:induction false} LeadingZero(s: string, b: Base)
    ensures Value(['0'] + s, b) == Value(s, b)
  {
    var z := ['0'] + s;
    if s == [] {
      assert z[..0] == [];
    } else {
      assert z[..|z| - 1] == ['0'] + s[..|s| - 1];
      LeadingZero(s[..|s| - 1], b);
    }
  }

  lemma {:induction false} ValueOfZFill(s: string, width: nat, b: Base)
    ensures Value(ZFill(s, width), b) == Value(s, b)
    ensures |ZFill(s, width)| == if |s| >= width then |s| else width
    decreases width
  {
    if |s| < width {
      ValueOfZFill(s, width - 1, b);
      LeadingZero(ZFill(s, width - 1), b);
    }
  }

  lemma {:induction false} DigitsLength(n: nat, b: Base, k: nat)
    requires 1 <= k && n < Pow(b, k)
    ensures |Digits(n, b)| <= k
  {
    if n >= Radix(b) {
      assert Quotient(n, b) < Pow(b, k - 1);
      if k > 1 {
        DigitsLength(Quotient(n, b), b, k - 1);
      }
    }
  }

  predicate AllDigits(s: string, b: Base) {
    forall i :: 0 <= i < |s| ==> IsDigit(s[i], b)
  }

  lemma AllDigitsConcat(s: string, t: string, b: Base)
    requires AllDigits(s, b) && AllDigits(t, b)
    ensures AllDigits(s + t, b)
  {
  }

  lemma OneDigit(d: nat, b: Base)
    requires d < 16 && d < Radix(b)
    ensures AllDigits([DigitChar(d)], b)
  {
    DigitRoundTrip(d, b);
  }

  lemma {:induction false} DigitsAreDigits(n: nat, b: Base)
    ensures AllDigits(Digits(n, b), b)
  {
    if n >= Radix(b) {
      DigitsAreDigits(Quotient(n, b), b);
      OneDigit(Remainder(n, b), b);
      AllDigitsConcat(Digits(Quotient(n, b), b), [DigitChar(Remainder(n, b))], b);
    } else {
      OneDigit(n, b);
    }
  }

  lemma {:induction false} ZFillAreDigits(s: string, width: nat, b: Base)
    requires AllDigits(s, b)
    ensures AllDigits(ZFill(s, width), b)
    decreases width
  {
    if |s| < width {
      ZFillAreDigits(s, width - 1, b);
      AllDigitsConcat(['0'], ZFill(s, width - 1), b);
    }
  }

  /** `std::to_string` of a signed number. */
  function Decimal(n: int): string {
    if n < 0 then "-" + Digits(-n, Ten) else Digits(n, Ten)
  }

  lemma DecimalCharacter(n: int, k: nat)
    requires k < |Decimal(n)|
    ensures Decimal(n)[k] == '-' || '0' <= Decimal(n)[k] <= '9'
  {
    if n < 0 {
      DigitsAreDigits(-n, Ten);
      assert k > 0 ==> Decimal(n)[k] == Digits(-n, Ten)[k - 1];
    } else {
      DigitsAreDigits(n, Ten);
    }
  }

  /** No two numbers print alike. */
  lemma DecimalTells(m: int, n: int)
    requires Decimal(m) == Decimal(n)
    ensures m == n
  {
    var x, y := if m < 0 then -m else m, if n < 0 then -n else n;
    DigitsAreDigits(x, Ten);
    DigitsAreDigits(y, Ten);
    assert m < 0 ==> Decimal(m)[0] == '-' && Decimal(m)[1..] == Digits(x, Ten);
    assert n < 0 ==> Decimal(n)[0] == '-' && Decimal(n)[1..] == Digits(y, Ten);
    ValueOfDigits(x, Ten);
    ValueOfDigits(y, Ten);
  }

  /** Most significant digit first, and a sign only below zero. */
  lemma DecimalReads(n: int)
    requires n >= 0
    ensures n >= 10 ==> Decimal(n) == Decimal(n / 10) + Decimal(n % 10)
    ensures n < 10 ==> Decimal(n) == [('0' as int + n) as char]
    ensures n > 0 ==> Decimal(-n) == "-" + Decimal(n)
  {
    if n < 10 {
      DigitRoundTrip(n, Ten);
    }
  }

  /** A printed 32-bit number has at most 11 characters, and the smallest one has exactly 11. */
  lemma DecimalLength(n: int)
    requires -0x8000_0000 <= n < 0x8000_0000
    ensures 1 <= |Decimal(n)| <= 11
    ensures n == -0x8000_0000 ==> |Decimal(n)| == 11
  {
    assert Pow(Ten, 5) == 100_000;
    assert Pow(Ten, 10) == 10_000_000_000;
    DigitsLength(if n < 0 then -n else n, Ten, 10);
    if n == -0x8000_0000 {
      assert |Digits(0x8000_0000, Ten)| == 10;
    }
  }
}
