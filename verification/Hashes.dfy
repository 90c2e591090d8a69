/** ds/hashes.cc: polynomial and Fletcher hashes, and the changes that they detect. */
module Hashes {
  import opened Arithmetic
  import opened Basics

  // The polynomial hash with multiplier k, on top of a seed.
  function PolyHash(k: int, seed: int, s: seq<u8>): u64 {
    (seed * Power(k, |s|) + Evaluate(k, s)) % TWO_64
  }

  // ---------- concatenation ----------

  lemma MulMod(a: int, b: int, m: int)
    requires m > 0
    ensures (a % m * b) % m == (a * b) % m
  {
    assert a * b == (a / m * b) * m + a % m * b;
    DivModShift(a / m * b, a % m * b, m);
  }

  // Hashing goes on from the hash of the part already seen.
  lemma HashConcat(k: int, seed: int, a: seq<u8>, b: seq<u8>)
    ensures PolyHash(k, seed, a + b) == PolyHash(k, PolyHash(k, seed, a), b)
  {
    hide Power, Evaluate;
    var p, q, d, e := Power(k, |a|), Power(k, |b|), Evaluate(k, a), Evaluate(k, b);
    EvaluateConcat(k, a, b);
    PowerAdds(k, |a|, |b|);
    Distribute(seed, p, d, q);
    var h := seed * p + d;
    MulMod(h, q, TWO_64);
    AddMod(h * q, e, TWO_64);
    AddMod(h % TWO_64 * q, e, TWO_64);
  }

  lemma HashOne(k: int, seed: int, x: u8)
    ensures PolyHash(k, seed, [x]) == (seed * k + x) % TWO_64
  {
    assert Power(k, 0) == 1 && Power(k, 1) == k;
    assert Evaluate(k, [x]) == x * 1 + 0;
  }

  // ---------- the code ----------

  method Djb2(bytes: seq<u8>) returns (hash: u64)
    ensures hash == PolyHash(33, 5381, bytes)
  {
    hash := 5381;
    for i := 0 to |bytes|
      invariant hash == PolyHash(33, 5381, bytes[..i])
    {
      NextByte(33, 5381, bytes, i);
      AddMod(hash * 32, hash + bytes[i], TWO_64);
      hash := (hash * 32 % TWO_64 + hash + bytes[i]) % TWO_64;
    }
    assert bytes[..|bytes|] == bytes;
  }

  // 2^6 + 2^16 - 1 == 65599.
  method Sdbm(bytes: seq<u8>) returns (hash: u64)
    ensures hash == PolyHash(65599, 0, bytes)
  {
    hash := 0;
    for i := 0 to |bytes|
      invariant hash == PolyHash(65599, 0, bytes[..i])
    {
      NextByte(65599, 0, bytes, i);
      var low, high := hash * 64 % TWO_64, hash * 65536 % TWO_64;
      AddMod(hash * 64, high + bytes[i] - hash, TWO_64);
      AddMod(hash * 65536, hash * 64 + bytes[i] - hash, TWO_64);
      hash := (bytes[i] + low + high - hash) % TWO_64;
    }
    assert bytes[..|bytes|] == bytes;
  }

  lemma NextByte(k: int, seed: int, bytes: seq<u8>, i: nat)
    requires i < |bytes|
    ensures PolyHash(k, seed, bytes[..i + 1]) == (PolyHash(k, seed, bytes[..i]) * k + bytes[i]) % TWO_64
  {
    assert bytes[..i + 1] == bytes[..i] + [bytes[i]];
    HashConcat(k, seed, bytes[..i], [bytes[i]]);
    HashOne(k, PolyHash(k, seed, bytes[..i]), bytes[i]);
  }

  // ---------- changes of a single byte ----------

  lemma OddTimesOdd(d: int, k: int)
    requires d % 2 == 1 && k % 2 == 1
    ensures d * k % 2 == 1
  {
    var a, b := d / 2, k / 2;
    assert d * k == (2 * a + 1) * (2 * b + 1) == 2 * (2 * a * b + a + b) + 1;
  }

  // An odd factor cancels modulo a power of two.
  lemma {:induction false} OddCancels(d: int, k: int, q: int, n: nat)
    requires k % 2 == 1 && d * k == q * Power(2, n)
    ensures d % Power(2, n) == 0
    decreases n
  {
    if n > 0 {
      assert q * Power(2, n) == 2 * (q * Power(2, n - 1));
      if d % 2 == 1 { OddTimesOdd(d, k); }
      var half := d / 2;
      assert d == 2 * half;
      assert half * k == q * Power(2, n - 1);
      OddCancels(half, k, q, n - 1);
      var r := half / Power(2, n - 1);
      assert d == r * Power(2, n);
      DivModUnique(d, r, 0, Power(2, n));
    }
  }

  lemma {:induction false} OddPower(k: int, n: nat)
    requires k % 2 == 1
    ensures Power(k, n) % 2 == 1
  {
    if n > 0 {
      OddPower(k, n - 1);
      OddTimesOdd(k, Power(k, n - 1));
    }
  }

  lemma DigitsUpdate(k: int, s: seq<u8>, i: nat, x: u8)
    requires i < |s|
    ensures Evaluate(k, s[i := x]) - Evaluate(k, s) == (x - s[i]) * Power(k, |s| - 1 - i)
  {
    var a, b := s[..i], s[i + 1..];
    var p := Power(k, |b|);
    assert s == a + ([s[i]] + b) && s[i := x] == a + ([x] + b);
    assert ([s[i]] + b)[1..] == b && ([x] + b)[1..] == b;
    EvaluateConcat(k, a, [s[i]] + b);
    EvaluateConcat(k, a, [x] + b);
    assert x * p - s[i] * p == (x - s[i]) * p;
  }

  // With an odd multiplier - 33 of djb2 and 65599 of sdbm - every change of one byte changes
  // the hash.
  lemma ByteChangeDetected(k: int, seed: int, s: seq<u8>, i: nat, x: u8)
    requires k % 2 == 1 && i < |s| && x != s[i]
    ensures PolyHash(k, seed, s[i := x]) != PolyHash(k, seed, s)
  {
    hide Power, Evaluate;
    var d, p := x as int - s[i] as int, Power(k, |s| - 1 - i);
    if PolyHash(k, seed, s[i := x]) == PolyHash(k, seed, s) {
      var base := seed * Power(k, |s|);
      var u, v := base + Evaluate(k, s[i := x]), base + Evaluate(k, s);
      ModEqual(u, v, TWO_64);
      var q :| u == v + q * TWO_64;
      DigitsUpdate(k, s, i, x);
      OddPower(k, |s| - 1 - i);
      Power2OfBytes();
      OddCancels(d, p, q, 64);
      ModSmall(if d < 0 then d + TWO_64 else d, TWO_64);
      DivModShift(1, d, TWO_64);
    }
  }

  // ---------- Fletcher ----------

  // The two accumulators after the bytes: their sum, and the sum of the running sums.
  function Sum(s: seq<u8>): nat {
    if s == [] then 0 else Sum(s[..|s| - 1]) + s[|s| - 1]
  }

  function SumOfSums(s: seq<u8>): nat {
    if s == [] then 0 else SumOfSums(s[..|s| - 1]) + Sum(s)
  }

  // The checksum with accumulators modulo m, the second in the high-order half.
  function Fletcher(s: seq<u8>, m: nat): nat
    requires m > 0
  {
    Sum(s) % m + m * (SumOfSums(s) % m)
  }

  method Fletcher16(bytes: seq<u8>) returns (r: u16)
    ensures r == Fletcher(bytes, 0x100)
  {
    var c0: u8, c1: u8 := 0, 0;
    for i := 0 to |bytes|
      invariant c0 == Sum(bytes[..i]) % 0x100 && c1 == SumOfSums(bytes[..i]) % 0x100
    {
      assert bytes[..i + 1][..i] == bytes[..i];
      AddMod(Sum(bytes[..i]), bytes[i], 0x100);
      AddMod(SumOfSums(bytes[..i]), Sum(bytes[..i + 1]) % 0x100, 0x100);
      AddMod(Sum(bytes[..i + 1]), SumOfSums(bytes[..i]), 0x100);
      c0 := (c0 + bytes[i]) % 0x100;
      c1 := (c1 + c0) % 0x100;
    }
    assert bytes[..|bytes|] == bytes;
    Power2OfBytes();
    OrAbove(c0, c1, 8);
    r := BitOr(c0, c1 * 0x100);
  }

  method Fletcher32(bytes: seq<u8>) returns (r: u32)
    ensures r == Fletcher(bytes, 0x1_0000)
  {
    var c0: u16, c1: u16 := 0, 0;
    for i := 0 to |bytes|
      invariant c0 == Sum(bytes[..i]) % 0x1_0000 && c1 == SumOfSums(bytes[..i]) % 0x1_0000
    {
      assert bytes[..i + 1][..i] == bytes[..i];
      AddMod(Sum(bytes[..i]), bytes[i], 0x1_0000);
      AddMod(SumOfSums(bytes[..i]), Sum(bytes[..i + 1]) % 0x1_0000, 0x1_0000);
      AddMod(Sum(bytes[..i + 1]), SumOfSums(bytes[..i]), 0x1_0000);
      c0 := (c0 + bytes[i]) % 0x1_0000;
      c1 := (c1 + c0) % 0x1_0000;
    }
    assert bytes[..|bytes|] == bytes;
    Power2OfBytes();
    OrAbove(c0, c1, 16);
    r := BitOr(c0, c1 * 0x1_0000);
  }

  // The plain sum, to compare with.
  method LoseLose(bytes: seq<u8>) returns (hash: u64)
    ensures hash == Sum(bytes) % TWO_64
  {
    hash := 0;
    for i := 0 to |bytes|
      invariant hash == Sum(bytes[..i]) % TWO_64
    {
      assert bytes[..i + 1][..i] == bytes[..i];
      AddMod(Sum(bytes[..i]), bytes[i], TWO_64);
      hash := (hash + bytes[i]) % TWO_64;
    }
    assert bytes[..|bytes|] == bytes;
  }

  // Changing byte i changes the sum by the difference, and the sum of the sums by the
  // difference once for each later running sum.
  lemma {:induction false} SumsUpdate(s: seq<u8>, i: nat, x: u8)
    requires i < |s|
    ensures Sum(s[i := x]) - Sum(s) == x - s[i]
    ensures SumOfSums(s[i := x]) - SumOfSums(s) == (|s| - i) * (x - s[i])
    decreases |s|
  {
    hide Sum, SumOfSums;
    var n, t := |s| - 1, s[i := x];
    SumsLast(s);
    SumsLast(t);
    if i == n {
      assert t[..n] == s[..n];
    } else {
      assert t[..n] == s[..n][i := x];
      SumsUpdate(s[..n], i, x);
      OneShareMore(n - i, x as int - s[i] as int);
    }
  }

  lemma SumsLast(s: seq<u8>)
    requires s != []
    ensures Sum(s) == Sum(s[..|s| - 1]) + s[|s| - 1] && SumOfSums(s) == SumOfSums(s[..|s| - 1]) + Sum(s)
  {}

  lemma OneShareMore(w: int, d: int)
    ensures (w + 1) * d == w * d + d
  {}

  lemma ModDiffers(a: int, b: int, m: int)
    requires m > 0 && 0 < a - b < m
    ensures a % m != b % m
  {
    if a % m == b % m {
      var k := a / m - b / m;
      assert a - b == k * m;
      if k > 0 { MulMonotone(1, k, m); } else { MulMonotone(k, 0, m); }
    }
  }

  lemma HalvesDecide(a0: nat, a1: nat, b0: nat, b1: nat, m: nat)
    requires m > 0 && a0 < m && b0 < m && a0 + m * a1 == b0 + m * b1
    ensures a0 == b0 && a1 == b1
  {
    DivModUnique(a0 + m * a1, a1, a0, m);
    DivModUnique(b0 + m * b1, b1, b0, m);
  }

  // Both checksums detect every change of one byte.
  lemma FletcherDetectsChange(s: seq<u8>, i: nat, x: u8, m: nat)
    requires m >= 0x100 && i < |s| && x != s[i]
    ensures Fletcher(s[i := x], m) != Fletcher(s, m)
  {
    var t := s[i := x];
    SumsUpdate(s, i, x);
    if Sum(t) > Sum(s) { ModDiffers(Sum(t), Sum(s), m); } else { ModDiffers(Sum(s), Sum(t), m); }
    if Fletcher(t, m) == Fletcher(s, m) {
      HalvesDecide(Sum(t) % m, SumOfSums(t) % m, Sum(s) % m, SumOfSums(s) % m, m);
    }
  }

  lemma OneShareLeft(w: int, d: int)
    ensures (w - 1) * d + w * -d == -d
  {}

  // And every swap of two different neighbours, which a plain sum does not see.
  lemma FletcherDetectsSwap(s: seq<u8>, i: nat, m: nat)
    requires m >= 0x100 && i + 1 < |s| && s[i] != s[i + 1]
    ensures Sum(s[i := s[i + 1]][i + 1 := s[i]]) == Sum(s)
    ensures Fletcher(s[i := s[i + 1]][i + 1 := s[i]], m) != Fletcher(s, m)
  {
    hide Sum, SumOfSums;
    var x, y := s[i], s[i + 1];
    var half := s[i := y];
    var t := half[i + 1 := x];
    SumsUpdate(s, i, y);
    SumsUpdate(half, i + 1, x);
    var w: int, d: int := |s| - i, x as int - y as int;
    OneShareLeft(w, d);
    assert SumOfSums(t) - SumOfSums(s) == (w - 1) * d + w * -d;
    if d > 0 { ModDiffers(SumOfSums(s), SumOfSums(t), m); } else { ModDiffers(SumOfSums(t), SumOfSums(s), m); }
    if Fletcher(t, m) == Fletcher(s, m) {
      HalvesDecide(Sum(t) % m, SumOfSums(t) % m, Sum(s) % m, SumOfSums(s) % m, m);
    }
  }

  // ---------- known values ----------

  lemma PolyNext(k: int, seed: int, s: seq<u8>, x: u8)
    ensures PolyHash(k, seed, s + [x]) == (PolyHash(k, seed, s) * k + x) % TWO_64
  {
    HashConcat(k, seed, s, [x]);
    HashOne(k, PolyHash(k, seed, s), x);
  }

  lemma PolyStep(k: int, seed: u64, s: seq<u8>, x: u8, h: u64, h': u64, t: seq<u8>)
    requires PolyHash(k, seed, s) == h && h' == (h * k + x) % TWO_64 && t == s + [x]
    ensures PolyHash(k, seed, t) == h'
  {
    hide PolyHash;
    PolyNext(k, seed, s, x);
  }

  lemma PolyOfFive(k: int, seed: u64, h1: u64, h2: u64, h3: u64, h4: u64, h5: u64)
    requires h1 == (seed * k + 1) % TWO_64 && h2 == (h1 * k + 2) % TWO_64 && h3 == (h2 * k + 3) % TWO_64
    requires h4 == (h3 * k + 4) % TWO_64 && h5 == (h4 * k + 5) % TWO_64
    ensures PolyHash(k, seed, [1, 2, 3, 4, 5]) == h5
  {
    hide PolyHash;
    HashOne(k, seed, 1);
    PolyStep(k, seed, [1], 2, h1, h2, [1, 2]);
    PolyStep(k, seed, [1, 2], 3, h2, h3, [1, 2, 3]);
    PolyStep(k, seed, [1, 2, 3], 4, h3, h4, [1, 2, 3, 4]);
    PolyStep(k, seed, [1, 2, 3, 4], 5, h4, h5, [1, 2, 3, 4, 5]);
  }

  lemma KnownPolynomials()
    ensures PolyHash(33, 5381, [1, 2, 3, 4, 5]) == 210588810932
    ensures PolyHash(65599, 0, [1, 2, 3, 4, 5]) == 71598627968528387
  {
    hide PolyHash;
    PolyOfFive(33, 5381, 177574, 5859944, 193378155, 6381479119, 210588810932);
    PolyOfFive(65599, 0, 1, 65601, 4303360002, 282296112771202, 71598627968528387);
  }

  lemma {:induction false} SumsOfZeros(n: nat)
    ensures var s := seq(n, _ => 0); Sum(s) == 0 && SumOfSums(s) == 0
  {
    var s := seq(n, _ => 0);
    if n > 0 {
      SumsOfZeros(n - 1);
      assert s[..n - 1] == seq(n - 1, _ => 0);
    }
  }

  // The first accumulator is in the low-order half: with 1 and 2 it is 3, and the second 1 + 3.
  lemma KnownFletcher()
    ensures Fletcher([1, 2], 0x100) == 0x0403
    ensures Fletcher([1, 2, 3, 4, 5], 0x1_0000) == 0x23_000f
  {
    hide Sum, SumOfSums;
    SumsOfZeros(0);
    var none: seq<u8> := [];
    assert none == seq(0, _ => 0);
    SumsAppend([], 1);
    SumsAppend([1], 2);
    SumsAppend([1, 2], 3);
    SumsAppend([1, 2, 3], 4);
    SumsAppend([1, 2, 3, 4], 5);
    assert none + [1] == [1] && [1] + [2] == [1, 2] && [1, 2] + [3] == [1, 2, 3];
    assert [1, 2, 3] + [4] == [1, 2, 3, 4] && [1, 2, 3, 4] + [5] == [1, 2, 3, 4, 5];
  }

  lemma SumsAppend(s: seq<u8>, x: u8)
    ensures Sum(s + [x]) == Sum(s) + x && SumOfSums(s + [x]) == SumOfSums(s) + Sum(s) + x
  {
    hide Sum, SumOfSums;
    SumsLast(s + [x]);
    assert (s + [x])[..|s|] == s;
  }
}
