/** Decimal text: what `fmt.Sprintf("%d", n)` prints and what `strconv.ParseInt(s, 10, 64)` reads back. */
module Decimal {

  const MAX_INT64: int := 0x7FFF_FFFF_FFFF_FFFF

  predicate IsDigit(c: char) {
    '0' <= c <= '9'
  }

  predicate AllDigits(s: string) {
    forall i :: 0 <= i < |s| ==> IsDigit(s[i])
  }

  function DigitChar(d: nat): (c: char)
    requires d < 10
    ensures IsDigit(c) && DigitValue(c) == d
  {
    (('0' as int) + d) as char
  }

  function DigitValue(c: char): nat
    requires IsDigit(c)
  {
    c as int - '0' as int
  }

  function Pow10(k: nat): nat {
    if k == 0 then 1 else 10 * Pow10(k - 1)
  }

  /** The number a digit string denotes. */
  function Value(s: string): nat
    requires AllDigits(s)
  {
    if s == [] then 0 else 10 * Value(s[..|s| - 1]) + DigitValue(s[|s| - 1])
  }

  /** The digits of a non-negative number. */
  function Digits(n: nat): string {
    if n < 10 then [DigitChar(n)] else Digits(n / 10) + [DigitChar(n % 10)]
  }

  /** `%d` of any integer. */
  function Print(n: int): string {
    if n < 0 then "-" + Digits(-n) else Digits(n)
  }

  /** Reading the digits back gives the number. */
  lemma {:induction false} DigitsRead(n: nat)
    ensures |Digits(n)| > 0 && AllDigits(Digits(n)) && Value(Digits(n)) == n
  {
    if n >= 10 {
      DigitsRead(n / 10);
      assert Digits(n)[..|Digits(n)| - 1] == Digits(n / 10);
    }
  }

  /** No two integers print alike. */
  lemma PrintInjective(a: int, b: int)
    requires Print(a) == Print(b)
    ensures a == b
  {
    DigitsRead(if a < 0 then -a else a);
    DigitsRead(if b < 0 then -b else b);
    assert a < 0 ==> Print(a)[0] == '-' && Print(a)[1..] == Digits(-a);
    assert b < 0 ==> Print(b)[0] == '-' && Print(b)[1..] == Digits(-b);
    assert a >= 0 ==> IsDigit(Print(a)[0]);
    assert b >= 0 ==> IsDigit(Print(b)[0]);
  }

  datatype Parsed = NotANumber | Number(value: int)

  /** `ParseInt(s, 10, 64)` of a digit string: out of range is an error. */
  function ParseDigits(s: string): Parsed {
    if s == "" || !AllDigits(s) || Value(s) > MAX_INT64 then NotANumber else Number(Value(s))
  }

  lemma ShiftAndAdd(a: nat, p: nat, v: nat, d: nat)
    ensures 10 * (a * p + v) + d == a * (10 * p) + (10 * v + d)
  {
    assert a * (10 * p) == 10 * (a * p);
  }

  /** Writing digits after digits shifts the first number and adds the second. */
  lemma {:induction false} ValueConcat(a: string, b: string)
    requires AllDigits(a) && AllDigits(b)
    ensures AllDigits(a + b)
    ensures Value(a + b) == Value(a) * Pow10(|b|) + Value(b)
  {
    if b == [] {
      assert a + b == a;
    } else {
      var front := b[..|b| - 1];
      ValueConcat(a, front);
      assert (a + b)[..|a + b| - 1] == a + front;
      ShiftAndAdd(Value(a), Pow10(|front|), Value(front), DigitValue(b[|b| - 1]));
    }
  }
}

/** The names the agent derives from an AS number. */
module Names {
  import opened Decimal

  function InterfaceName(asn: int): string {
    "dn42" + Print(asn)
  }

  function ProtocolName(asn: int): string {
    "dn42_" + Print(asn)
  }

  function BirdFileName(asn: int): string {
    "dn42_" + Print(asn) + ".conf"
  }

  /** Two AS numbers never share a default interface, protocol or BIRD file. */
  lemma NamesInjective(a: int, b: int)
    requires InterfaceName(a) == InterfaceName(b) || ProtocolName(a) == ProtocolName(b) ||
               BirdFileName(a) == BirdFileName(b)
    ensures a == b
  {
    assert InterfaceName(a)[4..] == Print(a) && InterfaceName(b)[4..] == Print(b);
    assert ProtocolName(a)[5..] == Print(a) && ProtocolName(b)[5..] == Print(b);
    if BirdFileName(a) == BirdFileName(b) {
      assert |Print(a)| == |BirdFileName(a)| - 10 == |Print(b)|;
      assert BirdFileName(a)[5..5 + |Print(a)|] == Print(a);
      assert BirdFileName(b)[5..5 + |Print(b)|] == Print(b);
    }
    PrintInjective(a, b);
  }
}
