/** ds/bigint.cc: decimal numbers of any length as deques of digits. */
module BigInts {
  import opened Arithmetic
  import opened Basics

  type i8 = x: int | -128 <= x < 128

  // High-order digit first.
  function Value(s: seq<int>): int {
    Evaluate(10, s)
  }

  predicate AreDigits(s: seq<int>) {
    forall i :: 0 <= i < |s| ==> 0 <= s[i] <= 9
  }

  lemma {:induction false} ValueBound(s: seq<int>)
    requires AreDigits(s)
    ensures 0 <= Value(s) < Power(10, |s|)
  {
    if s != [] {
      ValueBound(s[1..]);
      MulMonotone(s[0], 9, Power(10, |s| - 1));
      MulMonotone(0, s[0], Power(10, |s| - 1));
    }
  }

  // Digits of a given length are determined by their value.
  lemma {:induction false} DigitsUnique(a: seq<int>, b: seq<int>)
    requires AreDigits(a) && AreDigits(b) && |a| == |b| && Value(a) == Value(b)
    ensures a == b
  {
    if a != [] {
      var p := Power(10, |a| - 1);
      ValueBound(a[1..]);
      ValueBound(b[1..]);
      DivModUnique(Value(a), a[0], Value(a[1..]), p);
      DivModUnique(Value(b), b[0], Value(b[1..]), p);
      DigitsUnique(a[1..], b[1..]);
      assert a == [a[0]] + a[1..] && b == [b[0]] + b[1..];
    }
  }

  // ---------- text ----------

  predicate IsNumeric(str: string) {
    forall i :: 0 <= i < |str| ==> '0' <= str[i] <= '9'
  }

  // The constructor from a string; None is the std::domain_error.
  function FromString(str: string): (r: Option<seq<int>>)
    ensures r.Some? <==> IsNumeric(str)
    ensures r.Some? ==> AreDigits(r.value) && |r.value| == |str|
  {
    if !IsNumeric(str) then None
    else Some(seq(|str|, i requires 0 <= i < |str| => str[i] as int - 0x30))
  }

  // One character for each digit.
  function ToString(s: seq<int>): (str: string)
    requires AreDigits(s)
    ensures |str| == |s|
  {
    seq(|s|, i requires 0 <= i < |s| => '0' + s[i] as char)
  }

  lemma TextRoundTrip(str: string)
    requires IsNumeric(str)
    ensures ToString(FromString(str).value) == str
  {
    var d := FromString(str).value;
    forall i | 0 <= i < |str| ensures ToString(d)[i] == str[i] {}
    assert ToString(d) == str;
  }

  lemma DigitsRoundTrip(s: seq<int>)
    requires AreDigits(s)
    ensures FromString(ToString(s)) == Some(s)
  {
    forall i | 0 <= i < |s| ensures FromString(ToString(s)).value[i] == s[i] {}
    assert FromString(ToString(s)).value == s;
  }

  // The loop of the constructor: digits pushed in front, from the last character on.
  method DigitsOf(str: string) returns (r: Option<seq<i8>>)
    ensures r == FromString(str)
  {
    if !IsNumeric(str) {
      return None;
    }
    var digits: seq<i8> := [];
    var it := |str|;
    while it > 0
      invariant 0 <= it <= |str| && |digits| == |str| - it
      invariant forall i :: it <= i < |str| ==> digits[i - it] == str[i] as int - 0x30
    {
      it := it - 1;
      digits := [str[it] as int - 0x30] + digits;
    }
    assert digits == FromString(str).value;
    return Some(digits);
  }

  // ---------- addition ----------

  // Exactly the sum, in the length of the longer operand or, with a last carry, one more.
  predicate IsSum(r: seq<int>, a: seq<int>, b: seq<int>) {
    var n := if |a| > |b| then |a| else |b|;
    && AreDigits(r) && Value(r) == Value(a) + Value(b)
    && |r| == (if Value(a) + Value(b) < Power(10, n) then n else n + 1)
  }

  // The digits of a sum are determined, and do not depend on the order of the operands.
  lemma SumCommutes(r: seq<int>, r': seq<int>, a: seq<int>, b: seq<int>)
    requires IsSum(r, a, b) && IsSum(r', b, a)
    ensures r == r'
  {
    DigitsUnique(r, r');
  }

  // The number a deque holds when `digit` is pushed in front.
  lemma ValuePushFront(digit: int, s: seq<int>)
    ensures Value([digit] + s) == digit * Power(10, |s|) + Value(s)
  {
    assert ([digit] + s)[1..] == s;
  }

  // The digits of s from position k on.
  lemma ValueFrom(s: seq<int>, k: nat)
    requires k < |s|
    ensures Value(s[k..]) == s[k] * Power(10, |s| - k - 1) + Value(s[k + 1..])
  {
    assert s[k..][1..] == s[k + 1..];
  }

  class BigInt {
    const digits: seq<i8>

    constructor (digits: seq<i8>)
      ensures this.digits == digits
    {
      this.digits := digits;
    }

    // ToString: the digits written one by one.
    method Print() returns (str: string)
      requires AreDigits(digits)
      ensures str == ToString(digits)
    {
      str := "";
      for i := 0 to |digits|
        invariant str == ToString(digits[..i])
      {
        str := str + ['0' + digits[i] as char];
      }
      assert digits[..|digits|] == digits;
    }

    // operator+
    method Plus(other: BigInt) returns (r: BigInt)
      requires AreDigits(digits) && AreDigits(other.digits)
      ensures IsSum(r.digits, digits, other.digits)
    {
      var smaller := if |other.digits| < |digits| then other.digits else digits;
      var bigger := if |other.digits| >= |digits| then other.digits else digits;
      var sums := AddDigits(smaller, bigger);
      var ret, carry := ApplyCarry(sums);
      if carry == 1 {
        ValuePushFront(carry, ret);
        ret := [carry] + ret;
      }
      SumLength(ret, carry, |bigger|);
      r := new BigInt(ret);
    }
  }

  lemma SumLength(ret: seq<int>, carry: int, n: nat)
    requires AreDigits(ret) && 0 <= carry <= 1 && |ret| == n + carry
    requires carry == 1 ==> ret[0] == 1
    ensures Value(ret) < Power(10, n) <==> carry == 0
  {
    ValueBound(ret);
    if carry == 1 {
      ValueBound(ret[1..]);
    }
  }

  // Adds digit to digit from the low-order end, without carries.
  method AddDigits(smaller: seq<i8>, bigger: seq<i8>) returns (ret: seq<i8>)
    requires AreDigits(smaller) && AreDigits(bigger) && |smaller| <= |bigger|
    ensures |ret| == |bigger| && forall i :: 0 <= i < |ret| ==> 0 <= ret[i] <= 18
    ensures Value(ret) == Value(smaller) + Value(bigger)
  {
    ret := [];
    var small, big := |smaller|, |bigger|;
    assert smaller[small..] == [] && bigger[big..] == [];
    while big > 0
      invariant 0 <= big <= |bigger| && 0 <= small <= |smaller|
      invariant |ret| == |bigger| - big && (small > 0 ==> |smaller| - small == |bigger| - big)
      invariant |smaller| - small <= |bigger| - big
      invariant forall i :: 0 <= i < |ret| ==> 0 <= ret[i] <= 18
      invariant Value(ret) == Value(smaller[small..]) + Value(bigger[big..])
    {
      big := big - 1;
      var b, s: i8 := bigger[big], 0;
      ValueFrom(bigger, big);
      if small > 0 {
        small := small - 1;
        s := smaller[small];
        ValueFrom(smaller, small);
      }
      ValuePushFront(b + s, ret);
      SumOfProducts(b, s, Power(10, |ret|));
      ret := [b + s] + ret;
    }
    assert bigger[0..] == bigger && smaller[0..] == smaller;
  }

  lemma SumOfProducts(b: int, s: int, p: int)
    ensures (b + s) * p == b * p + s * p
  {}

  // One pass of carries from the low-order end, in place.
  method ApplyCarry(sums: seq<i8>) returns (ret: seq<i8>, carry: i8)
    requires forall i :: 0 <= i < |sums| ==> 0 <= sums[i] <= 18
    ensures |ret| == |sums| && AreDigits(ret) && 0 <= carry <= 1
    ensures carry * Power(10, |ret|) + Value(ret) == Value(sums)
  {
    ret, carry := sums, 0;
    var it := |ret|;
    assert ret[it..] == [];
    while it > 0
      invariant 0 <= it <= |ret| == |sums| && 0 <= carry <= 1
      invariant ret[..it] == sums[..it] && AreDigits(ret[it..])
      invariant carry * Power(10, |ret| - it) + Value(ret[it..]) == Value(sums[it..])
    {
      it := it - 1;
      ValueFrom(sums, it);
      ghost var before, tail := carry, ret[it + 1..];
      assert ret[it] == sums[it];
      ret := ret[it := ret[it] + carry];
      carry := 0;
      if ret[it] >= 10 {
        carry := 1;
        ret := ret[it := ret[it] - 10];
      }
      assert ret[it + 1..] == tail;
      ValueFrom(ret, it);
      assert ret[it..] == [ret[it]] + tail;
      CarryStep(sums[it], before, ret[it], carry, Power(10, |ret| - it - 1));
    }
    assert ret[0..] == ret && sums[0..] == sums;
  }

  lemma CarryStep(sum: int, carry: int, digit: int, next: int, p: int)
    requires sum + carry == digit + 10 * next
    ensures next * (10 * p) + digit * p == sum * p + carry * p
  {}

  // ---------- the value of a text ----------

  // Texts are read as decimal numbers, high-order digit first.
  lemma TextValue(str: string, c: char)
    requires IsNumeric(str + [c])
    ensures IsNumeric(str) && '0' <= c <= '9'
    ensures Value(FromString("").value) == 0
    ensures Value(FromString(str + [c]).value) == 10 * Value(FromString(str).value) + (c as int - '0' as int)
  {
    assert forall i :: 0 <= i < |str| ==> str[i] == (str + [c])[i];
    assert c == (str + [c])[|str|];
    var s, d := FromString(str).value, c as int - 0x30;
    assert FromString(str + [c]).value == s + [d];
    EvaluateConcat(10, s, [d]);
    OneDigit(d);
  }

  lemma OneDigit(d: int)
    ensures Evaluate(10, [d]) == d && Power(10, 1) == 10
  {
    assert Power(10, 0) == 1;
    assert [d][1..] == [];
  }
}
