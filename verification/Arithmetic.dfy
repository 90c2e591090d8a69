/** Facts about division and remainder that the solver needs spelled out. */
module Arithmetic {

  lemma MulMonotone(k: int, q: int, m: int)
    requires m > 0 && k <= q
    ensures k * m <= q * m
  {}

  lemma {:induction false} DivModUnique(n: int, q: int, r: int, m: int)
    requires 0 <= r < m && n == q * m + r
    ensures n / m == q && n % m == r
  {
    var q', r' := n / m, n % m;
    assert n == q' * m + r';
    if q' < q {
      MulMonotone(q' + 1, q, m);
    } else if q < q' {
      MulMonotone(q + 1, q', m);
    }
  }

  lemma DivModShift(k: int, a: int, m: int)
    requires m > 0
    ensures (k * m + a) / m == k + a / m && (k * m + a) % m == a % m
  {
    assert k * m + a == (k + a / m) * m + a % m;
    DivModUnique(k * m + a, k + a / m, a % m, m);
  }

  // Two numbers agree modulo m exactly when they differ by a multiple of m.
  lemma ModEqual(a: int, b: int, m: int)
    requires m > 0
    ensures a % m == b % m <==> exists k :: a == b + k * m
  {
    if a % m == b % m {
      assert a == b + (a / m - b / m) * m;
    }
    forall k | a == b + k * m ensures a % m == b % m {
      DivModShift(k, b, m);
    }
  }

  lemma ModSmall(x: int, m: int)
    requires 0 <= x < m
    ensures x % m == x
  {}

  lemma AddMod(a: int, b: int, m: int)
    requires m > 0
    ensures (a % m + b) % m == (a + b) % m
  {
    DivModShift(a / m, a % m + b, m);
  }

  lemma Distribute(x: int, p: int, r: int, q: int)
    ensures (x * p + r) * q == x * (p * q) + r * q
  {}

  // ---------- powers and numerals ----------

  function Power(k: int, n: nat): (p: int)
    ensures k > 0 ==> p > 0
  {
    if n == 0 then 1 else k * Power(k, n - 1)
  }

  // The number with these digits in base k, high-order digit first.
  function Evaluate(k: int, s: seq<int>): int {
    if s == [] then 0 else s[0] * Power(k, |s| - 1) + Evaluate(k, s[1..])
  }

  lemma {:induction false} PowerAdds(k: int, m: nat, n: nat)
    ensures Power(k, m + n) == Power(k, m) * Power(k, n)
  {
    hide Power;
    PowerStep(k, 0);
    if m > 0 {
      PowerAdds(k, m - 1, n);
      PowerStep(k, m);
      PowerStep(k, m + n);
      MulAssociates(k, Power(k, m - 1), Power(k, n));
    }
  }

  lemma PowerStep(k: int, n: nat)
    ensures Power(k, n) == if n == 0 then 1 else k * Power(k, n - 1)
  {}

  lemma MulAssociates(a: int, b: int, c: int)
    ensures a * (b * c) == (a * b) * c
  {}

  lemma {:induction false} EvaluateConcat(k: int, a: seq<int>, b: seq<int>)
    ensures Evaluate(k, a + b) == Evaluate(k, a) * Power(k, |b|) + Evaluate(k, b)
  {
    if a == [] {
      assert a + b == b;
    } else {
      hide Power;
      assert (a + b)[1..] == a[1..] + b && (a + b)[0] == a[0];
      EvaluateConcat(k, a[1..], b);
      PowerAdds(k, |a| - 1, |b|);
      Distribute(a[0], Power(k, |a| - 1), Evaluate(k, a[1..]), Power(k, |b|));
    }
  }

  lemma {:induction false} PowerGrows(k: int, m: nat, n: nat)
    requires k > 0 && m <= n
    ensures Power(k, m) <= Power(k, n)
  {
    if m < n {
      PowerGrows(k, m, n - 1);
      MulMonotone(1, k, Power(k, n - 1));
    }
  }

  lemma Power2OfBytes()
    ensures Power(2, 8) == 0x100 && Power(2, 16) == 0x1_0000
    ensures Power(2, 24) == 0x100_0000 && Power(2, 32) == 0x1_0000_0000
    ensures Power(2, 40) == 0x100_0000_0000 && Power(2, 48) == 0x1_0000_0000_0000
    ensures Power(2, 56) == 0x100_0000_0000_0000 && Power(2, 64) == 0x1_0000_0000_0000_0000
  {}

  // ---------- sums ----------

  function Total(s: seq<int>): int {
    if s == [] then 0 else s[0] + Total(s[1..])
  }

  lemma {:induction false} TotalConcat(a: seq<int>, b: seq<int>)
    ensures Total(a + b) == Total(a) + Total(b)
  {
    if a == [] {
      assert a + b == b;
    } else {
      assert (a + b)[1..] == a[1..] + b;
      TotalConcat(a[1..], b);
    }
  }

  lemma TotalOne(x: int)
    ensures Total([x]) == x
  {}

  lemma TotalNothing()
    ensures Total([]) == 0
  {}

  // ---------- bitwise or ----------

  function BitOr(x: nat, y: nat): nat
    decreases x + y
  {
    if x == 0 then y else if y == 0 then x
    else (if x % 2 == 1 || y % 2 == 1 then 1 else 0) + 2 * BitOr(x / 2, y / 2)
  }

  // Where the fields do not overlap, `|` adds.
  lemma {:induction false} OrAdds(hi: nat, lo: nat, k: nat)
    requires lo < Power(2, k)
    ensures BitOr(hi * Power(2, k), lo) == hi * Power(2, k) + lo
    decreases k
  {
    hide BitOr, Power;
    PowerStep(2, k);
    if k == 0 {
      OrStep(hi * Power(2, k), lo);
    } else {
      var half := hi * Power(2, k - 1);
      MulTwice(hi, Power(2, k - 1));
      OrAdds(hi, lo / 2, k - 1);
      OrHalves(half, lo);
    }
  }

  lemma OrStep(x: nat, y: nat)
    ensures BitOr(x, y) == if x == 0 then y else if y == 0 then x
                           else (if x % 2 == 1 || y % 2 == 1 then 1 else 0) + 2 * BitOr(x / 2, y / 2)
  {}

  lemma OrHalves(half: nat, lo: nat)
    requires BitOr(half, lo / 2) == half + lo / 2
    ensures BitOr(2 * half, lo) == 2 * half + lo
  {
    hide BitOr;
    OrStep(2 * half, lo);
  }

  lemma MulTwice(a: int, b: int)
    ensures a * (2 * b) == 2 * (a * b)
  {}

  lemma {:induction false} OrCommutes(x: nat, y: nat)
    ensures BitOr(x, y) == BitOr(y, x)
    decreases x + y
  {
    if x > 0 && y > 0 {
      OrCommutes(x / 2, y / 2);
    }
  }

  lemma OrAbove(lo: nat, hi: nat, k: nat)
    requires lo < Power(2, k)
    ensures BitOr(lo, hi * Power(2, k)) == lo + hi * Power(2, k)
  {
    OrCommutes(lo, hi * Power(2, k));
    OrAdds(hi, lo, k);
  }
}
