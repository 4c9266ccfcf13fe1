/** Numbers written with decimal and hexadecimal digits, and the parsing steps that read them. */
module Numerals {

  const WORD32 := 0x1_0000_0000
  const WORD64 := 0x1_0000_0000_0000_0000

  predicate IsDigit(c: char) {
    '0' <= c <= '9'
  }

  /** `isUpperCaseHexDigit` */
  predicate IsHexDigit(c: char) {
    '0' <= c <= '9' || 'A' <= c <= 'F'
  }

  function DigitChar(v: nat): char
    requires v < 16
  {
    if v < 10 then '0' + v as char else 'A' + (v - 10) as char
  }

  function DigitValue(c: char): nat
    requires IsHexDigit(c)
  {
    if c <= '9' then (c - '0') as nat else 10 + (c - 'A') as nat
  }

  predicate AllDigits(s: string) {
    forall i :: 0 <= i < |s| ==> IsDigit(s[i])
  }

  predicate AllHex(s: string) {
    forall i :: 0 <= i < |s| ==> IsHexDigit(s[i])
  }

  lemma DigitCharValue(v: nat)
    requires v < 16
    ensures IsHexDigit(DigitChar(v)) && DigitValue(DigitChar(v)) == v && (v < 10 ==> IsDigit(DigitChar(v)))
  {
  }

  lemma DigitValueChar(c: char)
    requires IsHexDigit(c)
    ensures DigitValue(c) < 16 && DigitChar(DigitValue(c)) == c && (IsDigit(c) <==> DigitValue(c) < 10)
  {
  }

  /** The number a string of digits in base `b` stands for. */
  function Value(s: string, b: nat): nat
    requires AllHex(s)
  {
    if |s| == 0 then 0 else Value(s[..|s| - 1], b) * b + DigitValue(s[|s| - 1])
  }

  /** Decimal notation without leading zeros. */
  function Dec(v: nat): string {
    if v < 10 then [DigitChar(v)] else Dec(v / 10) + [DigitChar(v % 10)]
  }

  /** `%0nX`, for numbers that fit. */
  function Hex(v: nat, n: nat): (s: string)
    ensures |s| == n
  {
    if n == 0 then "" else Hex(v / 16, n - 1) + [DigitChar(v % 16)]
  }

  function Pow16(n: nat): nat {
    if n == 0 then 1 else 16 * Pow16(n - 1)
  }

  lemma {:induction false} HexValue(v: nat, n: nat)
    requires v < Pow16(n)
    ensures AllHex(Hex(v, n)) && Value(Hex(v, n), 16) == v
    decreases n
  {
    if n > 0 {
      HexValue(v / 16, n - 1);
      DigitCharValue(v % 16);
      var s := Hex(v, n);
      assert s[..|s| - 1] == Hex(v / 16, n - 1);
    }
  }

  lemma LastDigit(v: nat, b: nat, d: nat)
    requires d < b && (b == 10 || b == 16)
    ensures (v * b + d) / b == v && (v * b + d) % b == d
  {
  }

  lemma ValueLast(s: string, b: nat)
    requires |s| > 0 && AllHex(s)
    ensures AllHex(s[..|s| - 1]) && Value(s, b) == Value(s[..|s| - 1], b) * b + DigitValue(s[|s| - 1])
  {
    hide DigitValue;
  }

  lemma SplitLast(s: string)
    requires |s| > 0
    ensures s == s[..|s| - 1] + [s[|s| - 1]]
  {
  }

  /** One digit more at the end of a hexadecimal number. */
  lemma HexLast(v: nat, n: nat, d: nat)
    requires d < 16
    ensures Hex(v * 16 + d, n + 1) == Hex(v, n) + [DigitChar(d)]
  {
    LastDigit(v, 16, d);
    hide DigitChar;
  }

  lemma PowLast(v: nat, n: nat, d: nat)
    requires v < Pow16(n) && d < 16
    ensures v * 16 + d < Pow16(n + 1)
  {
  }

  lemma {:induction false} ValueHex(s: string)
    requires AllHex(s)
    ensures Value(s, 16) < Pow16(|s|) && Hex(Value(s, 16), |s|) == s
  {
    if |s| > 0 {
      hide Value, DigitChar, DigitValue, AllHex, Hex, Pow16;
      var front, c := s[..|s| - 1], s[|s| - 1];
      ValueLast(s, 16);
      SplitLast(s);
      ValueHex(front);
      DigitValueChar(c);
      HexLast(Value(front, 16), |front|, DigitValue(c));
      PowLast(Value(front, 16), |front|, DigitValue(c));
    }
  }

  lemma {:induction false} DecValue(v: nat)
    ensures AllDigits(Dec(v)) && AllHex(Dec(v)) && Value(Dec(v), 10) == v
    ensures |Dec(v)| > 0 && (v > 0 ==> Dec(v)[0] != '0')
  {
    var s := Dec(v);
    if v < 10 {
      DigitCharValue(v);
      assert s[..0] == "" && Value("", 10) == 0;
    } else {
      DecValue(v / 10);
      DigitCharValue(v % 10);
      assert s[..|s| - 1] == Dec(v / 10);
    }
  }

  /** One digit more at the end of a decimal number. */
  lemma DecLast(v: nat, d: nat)
    requires d < 10
    ensures Dec(v * 10 + d) == (if v == 0 then "" else Dec(v)) + [DigitChar(d)]
  {
    LastDigit(v, 10, d);
    hide DigitChar;
  }

  lemma {:induction false} ValueDec(s: string)
    requires |s| > 0 && AllDigits(s) && AllHex(s) && s[0] != '0'
    ensures Value(s, 10) > 0 && Dec(Value(s, 10)) == s
  {
    var front, c := s[..|s| - 1], s[|s| - 1];
    ValueLast(s, 10);
    SplitLast(s);
    DigitValueChar(c);
    DecLast(Value(front, 10), DigitValue(c));
    if |front| == 0 {
      assert Value(front, 10) == 0;
    } else {
      hide Value, DigitChar, DigitValue, Dec;
      ValueDec(front);
    }
  }

  // ----- Parsing steps.

  /** A parse: a result, a name that is refused, or a failed assertion. */
  datatype Outcome<T> = Ok(value: T) | Invalid | Abort {
    predicate IsFailure() {
      !Ok?
    }

    function PropagateFailure<U>(): Outcome<U>
      requires IsFailure()
    {
      if Invalid? then Outcome<U>.Invalid else Outcome<U>.Abort
    }

    function Extract(): T
      requires !IsFailure()
    {
      value
    }
  }

  /** `consume` of a string */
  function Expect(s: string, text: string): (r: Outcome<string>)
    ensures !r.Abort?
  {
    if |text| <= |s| && s[..|text|] == text then Ok(s[|text|..]) else Invalid
  }

  /** `consume` of a run of (hex) digits: its length. */
  function Run(s: string, hex: bool): (n: nat)
    ensures n <= |s| && AllHex(s[..n]) && (!hex ==> AllDigits(s[..n]))
    ensures n < |s| ==> !(if hex then IsHexDigit(s[n]) else IsDigit(s[n]))
  {
    if |s| == 0 || !(if hex then IsHexDigit(s[0]) else IsDigit(s[0])) then 0
    else
      var n := Run(s[1..], hex);
      assert s[..n + 1] == [s[0]] + s[1..][..n];
      n + 1
  }

  lemma ExpectText(text: string, rest: string)
    ensures Expect(text + rest, text) == Ok(rest)
  {
  }

  lemma {:induction false} RunOf(d: string, rest: string, hex: bool)
    requires if hex then AllHex(d) else AllDigits(d)
    requires |rest| > 0 && !(if hex then IsHexDigit(rest[0]) else IsDigit(rest[0]))
    ensures Run(d + rest, hex) == |d|
  {
    if |d| > 0 {
      RunOf(d[1..], rest, hex);
      assert (d + rest)[1..] == d[1..] + rest;
    }
  }
}
