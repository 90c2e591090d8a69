/** Numbers as lower-case hexadecimal text. */
module Hexadecimal {
  import opened Arithmetic
  import opened Basics

  predicate IsLowerHex(c: char) { '0' <= c <= '9' || 'a' <= c <= 'f' }

  function HexDigit(d: nat): (c: char)
    requires d < 16
    ensures IsLowerHex(c)
  {
    if d < 10 then '0' + d as char else 'a' + (d - 10) as char
  }

  lemma HexDigitsAre(d: nat)
    requires d < 16
    ensures HexDigit(d) == "0123456789abcdef"[d] && HexValue(HexDigit(d)) == d
  {}

  // `digits` hexadecimal digits of n.
  function Hex(n: nat, digits: nat): (s: string)
    ensures |s| == digits && forall i :: 0 <= i < digits ==> IsLowerHex(s[i])
  {
    if digits == 0 then "" else Hex(n / 16, digits - 1) + [HexDigit(n % 16)]
  }

  predicate AllHex(s: string) {
    forall i :: 0 <= i < |s| ==> IsLowerHex(s[i])
  }

  function HexValue(c: char): (v: nat)
    requires IsLowerHex(c)
    ensures v < 16
  {
    if c <= '9' then c as int - '0' as int else c as int - 'a' as int + 10
  }

  // High-order digit first.
  function Number(s: string): (v: nat)
    requires AllHex(s)
    ensures v < Power(16, |s|)
  {
    if s == "" then 0 else 16 * Number(s[..|s| - 1]) + HexValue(s[|s| - 1])
  }

  lemma {:induction false} NumberOfText(v: nat, n: nat)
    requires v < Power(16, n)
    ensures Number(Hex(v, n)) == v
  {
    hide Number, Power, Hex;
    PowerStep(16, n);
    HexStep(v, n);
    NumberStep(Hex(v, n));
    if n > 0 {
      NumberOfText(v / 16, n - 1);
      assert Hex(v, n)[..n - 1] == Hex(v / 16, n - 1);
    }
  }

  lemma HexStep(v: nat, n: nat)
    ensures Hex(v, n) == if n == 0 then "" else Hex(v / 16, n - 1) + [HexDigit(v % 16)]
    ensures HexValue(HexDigit(v % 16)) == v % 16
  {}

  lemma NumberStep(s: string)
    requires AllHex(s)
    ensures Number(s) == if s == "" then 0 else 16 * Number(s[..|s| - 1]) + HexValue(s[|s| - 1])
  {}

  lemma {:induction false} TextOfNumber(s: string)
    requires AllHex(s)
    ensures Hex(Number(s), |s|) == s
  {
    if s != "" {
      var front, last := s[..|s| - 1], s[|s| - 1];
      TextOfNumber(front);
      DivModUnique(Number(s), Number(front), HexValue(last), 16);
      HexDigitOf(last);
    }
  }

  lemma HexDigitOf(c: char)
    requires IsLowerHex(c)
    ensures HexDigit(HexValue(c)) == c
  {}

  // Four more digits.
  lemma HexFour(v: nat, n: nat, a: nat, b: nat, c: nat, d: nat)
    requires a < 16 && b < 16 && c < 16 && d < 16
    ensures Hex(v * 0x1_0000 + a * 0x1000 + b * 0x100 + c * 0x10 + d, n + 4)
         == Hex(v, n) + [HexDigit(a), HexDigit(b), HexDigit(c), HexDigit(d)]
  {
    hide Hex, HexDigit;
    HexOne(v, n, a);
    HexOne(v * 0x10 + a, n + 1, b);
    HexOne(v * 0x100 + a * 0x10 + b, n + 2, c);
    HexOne(v * 0x1000 + a * 0x100 + b * 0x10 + c, n + 3, d);
    assert Hex(v, n) + [HexDigit(a)] + [HexDigit(b)] + [HexDigit(c)] + [HexDigit(d)]
        == Hex(v, n) + [HexDigit(a), HexDigit(b), HexDigit(c), HexDigit(d)];
  }

  lemma HexOne(v: nat, n: nat, d: nat)
    requires d < 16
    ensures Hex(v * 0x10 + d, n + 1) == Hex(v, n) + [HexDigit(d)]
  {
    DivModUnique(v * 0x10 + d, v, d, 0x10);
  }

  lemma HexNothing(v: nat)
    ensures Hex(v, 0) == ""
  {}
}
