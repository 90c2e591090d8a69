/** MD5 as RFC 1321 sections 3.1 to 3.4 describe it: padding, and a fold over blocks of 64
    steps driven by tables of shifts, message indices and sine values. */
module Md5Spec {
  import opened Basics
  import opened Codec

  // The four registers in the order in which a step reads them.
  datatype Regs = Regs(a: bv32, b: bv32, c: bv32, d: bv32)

  const INITIAL := Regs(0x67452301, 0xefcdab89, 0x98badcfe, 0x10325476)

  // T[i + 1] of section 3.4.
  function Sine(i: nat): bv32
    requires i < 64
  {
    if i < 16 then Sine1(i) else if i < 32 then Sine2(i) else if i < 48 then Sine3(i) else Sine4(i)
  }

  function Pick(i: nat, t0: bv32, t1: bv32, t2: bv32, t3: bv32): bv32 {
    if i % 4 == 0 then t0 else if i % 4 == 1 then t1 else if i % 4 == 2 then t2 else t3
  }

  function Sine1(i: nat): bv32 {
    if i < 4 then Pick(i, 0xd76aa478, 0xe8c7b756, 0x242070db, 0xc1bdceee)
    else if i < 8 then Pick(i, 0xf57c0faf, 0x4787c62a, 0xa8304613, 0xfd469501)
    else if i < 12 then Pick(i, 0x698098d8, 0x8b44f7af, 0xffff5bb1, 0x895cd7be)
    else Pick(i, 0x6b901122, 0xfd987193, 0xa679438e, 0x49b40821)
  }

  function Sine2(i: nat): bv32 {
    if i < 20 then Pick(i, 0xf61e2562, 0xc040b340, 0x265e5a51, 0xe9b6c7aa)
    else if i < 24 then Pick(i, 0xd62f105d, 0x02441453, 0xd8a1e681, 0xe7d3fbc8)
    else if i < 28 then Pick(i, 0x21e1cde6, 0xc33707d6, 0xf4d50d87, 0x455a14ed)
    else Pick(i, 0xa9e3e905, 0xfcefa3f8, 0x676f02d9, 0x8d2a4c8a)
  }

  function Sine3(i: nat): bv32 {
    if i < 36 then Pick(i, 0xfffa3942, 0x8771f681, 0x6d9d6122, 0xfde5380c)
    else if i < 40 then Pick(i, 0xa4beea44, 0x4bdecfa9, 0xf6bb4b60, 0xbebfbc70)
    else if i < 44 then Pick(i, 0x289b7ec6, 0xeaa127fa, 0xd4ef3085, 0x04881d05)
    else Pick(i, 0xd9d4d039, 0xe6db99e5, 0x1fa27cf8, 0xc4ac5665)
  }

  function Sine4(i: nat): bv32 {
    if i < 52 then Pick(i, 0xf4292244, 0x432aff97, 0xab9423a7, 0xfc93a039)
    else if i < 56 then Pick(i, 0x655b59c3, 0x8f0ccc92, 0xffeff47d, 0x85845dd1)
    else if i < 60 then Pick(i, 0x6fa87e4f, 0xfe2ce6e0, 0xa3014314, 0x4e0811a1)
    else Pick(i, 0xf7537e82, 0xbd3af235, 0x2ad7d2bb, 0xeb86d391)
  }

  function LeftRotate(value: bv32, shift: bv32): bv32
    requires 0 < shift < 32
  {
    (value << shift) | (value >> (32 - shift))
  }

  function F(x: bv32, y: bv32, z: bv32): bv32 { (x & y) | ((!x) & z) }
  function G(x: bv32, y: bv32, z: bv32): bv32 { (x & z) | (y & (!z)) }
  function H(x: bv32, y: bv32, z: bv32): bv32 { x ^ y ^ z }
  function I(x: bv32, y: bv32, z: bv32): bv32 { y ^ (x | (!z)) }

  // The function of the round of step i.
  function Nonlinear(i: nat, x: bv32, y: bv32, z: bv32): bv32 {
    if i < 16 then F(x, y, z) else if i < 32 then G(x, y, z) else if i < 48 then H(x, y, z) else I(x, y, z)
  }

  // The word that step i reads.
  function WordIndex(i: nat): (k: nat)
    ensures k < 16
  {
    if i < 16 then i
    else if i < 32 then (5 * i + 1) % 16
    else if i < 48 then (3 * i + 5) % 16
    else (7 * i) % 16
  }

  // The rotation of step i.
  function Shift(i: nat): (s: bv32)
    ensures 0 < s < 32
  {
    if i < 16 then Pick(i, 7, 12, 17, 22)
    else if i < 32 then Pick(i, 5, 9, 14, 20)
    else if i < 48 then Pick(i, 4, 11, 16, 23)
    else Pick(i, 6, 10, 15, 21)
  }

  // Addition of 32-bit words wraps around.
  function Add(x: bv32, y: bv32): bv32 { x + y }

  lemma AddCommutes(a: bv32, b: bv32)
    ensures Add(a, b) == Add(b, a)
  {}

  // b + ((a + f + x + t) <<< s), where f is the value of the round's function.
  function Mix(f: bv32, a: bv32, b: bv32, x: bv32, s: bv32, t: bv32): bv32
    requires 0 < s < 32
  {
    Add(b, LeftRotate(Add(a, Add(Add(f, x), t)), s))
  }

  function Step(r: Regs, x: seq<bv32>, i: nat): Regs
    requires |x| == 16 && i < 64
  {
    Regs(r.d, Mix(Nonlinear(i, r.b, r.c, r.d), r.a, r.b, x[WordIndex(i)], Shift(i), Sine(i)), r.b, r.c)
  }

  // Steps lo, lo + 1, ..., hi - 1.
  function Steps(r: Regs, x: seq<bv32>, lo: nat, hi: nat): Regs
    requires |x| == 16 && lo <= hi <= 64
    decreases hi - lo
  {
    if lo == hi then r else Step(Steps(r, x, lo, hi - 1), x, hi - 1)
  }

  function Feed(r: Regs, s: Regs): Regs {
    Regs(Add(r.a, s.a), Add(r.b, s.b), Add(r.c, s.c), Add(r.d, s.d))
  }

  function Widen(b: u8): (w: bv32)
    ensures w < 0x100
  {
    b as bv32
  }

  // Low-order byte first.
  function Word(b0: u8, b1: u8, b2: u8, b3: u8): bv32 {
    Widen(b0) + 0x100 * Widen(b1) + 0x1_0000 * Widen(b2) + 0x100_0000 * Widen(b3)
  }

  function Words(block: seq<u8>): seq<bv32>
    requires |block| == 64
  {
    seq(16, k requires 0 <= k < 16 => Word(block[4 * k], block[4 * k + 1], block[4 * k + 2], block[4 * k + 3]))
  }

  function Blocks(r: Regs, padded: seq<u8>): Regs
    decreases |padded|
  {
    if |padded| < 64 then r
    else Blocks(Feed(r, Steps(r, Words(padded[..64]), 0, 64)), padded[64..])
  }

  // ---------- padding ----------

  // std::vector::max_size() of a vector of bytes.
  const MAX_MESSAGE: nat := 0x7fff_ffff_ffff_ffff

  function Zeros(n: nat): (s: seq<u8>)
    ensures |s| == n
  {
    seq(n, _ => 0)
  }

  function Pad(message: seq<u8>): seq<u8> {
    message + [0x80] + Zeros((55 - |message|) % 64) + LittleEndian(8 * |message| % TWO_64, 8)
  }

  // The padded size is the least multiple of 64 with room for the byte 0x80 and the length.
  lemma PaddedSizeIsLeast(message: seq<u8>, size: int)
    requires size % 64 == 0
    ensures |Pad(message)| % 64 == 0
    ensures size >= |message| + 9 <==> size >= |Pad(message)|
  {
    hide Zeros, LittleEndian;
    var blocks := 1 - (55 - |message|) / 64;
    assert |Pad(message)| == 64 * blocks;
    assert size == 64 * (size / 64);
  }

  function Md5(message: seq<u8>): Regs {
    Blocks(INITIAL, Pad(message))
  }
}

/** ds/md5.cc: the unrolled code, proved equal to the specification. */
module Md5Code {
  import opened Basics
  import opened Codec
  import opened Md5Spec

  const S11: bv32 := 7
  const S12: bv32 := 12
  const S13: bv32 := 17
  const S14: bv32 := 22
  const S21: bv32 := 5
  const S22: bv32 := 9
  const S23: bv32 := 14
  const S24: bv32 := 20
  const S31: bv32 := 4
  const S32: bv32 := 11
  const S33: bv32 := 16
  const S34: bv32 := 23
  const S41: bv32 := 6
  const S42: bv32 := 10
  const S43: bv32 := 15
  const S44: bv32 := 21

  method FF(a0: bv32, b: bv32, c: bv32, d: bv32, x: bv32, s: bv32, ac: bv32)
    returns (a: bv32)
    requires 0 < s < 32
    ensures a == Mix(F(b, c, d), a0, b, x, s, ac)
  {
    hide LeftRotate, Add, F;
    a := Add(a0, Add(Add(F(b, c, d), x), ac));
    a := LeftRotate(a, s);
    AddCommutes(a, b);
    a := Add(a, b);
  }

  method GG(a0: bv32, b: bv32, c: bv32, d: bv32, x: bv32, s: bv32, ac: bv32)
    returns (a: bv32)
    requires 0 < s < 32
    ensures a == Mix(G(b, c, d), a0, b, x, s, ac)
  {
    hide LeftRotate, Add, G;
    a := Add(a0, Add(Add(G(b, c, d), x), ac));
    a := LeftRotate(a, s);
    AddCommutes(a, b);
    a := Add(a, b);
  }

  method HH(a0: bv32, b: bv32, c: bv32, d: bv32, x: bv32, s: bv32, ac: bv32)
    returns (a: bv32)
    requires 0 < s < 32
    ensures a == Mix(H(b, c, d), a0, b, x, s, ac)
  {
    hide LeftRotate, Add, H;
    a := Add(a0, Add(Add(H(b, c, d), x), ac));
    a := LeftRotate(a, s);
    AddCommutes(a, b);
    a := Add(a, b);
  }

  method II(a0: bv32, b: bv32, c: bv32, d: bv32, x: bv32, s: bv32, ac: bv32)
    returns (a: bv32)
    requires 0 < s < 32
    ensures a == Mix(I(b, c, d), a0, b, x, s, ac)
  {
    hide LeftRotate, Add, I;
    a := Add(a0, Add(Add(I(b, c, d), x), ac));
    a := LeftRotate(a, s);
    AddCommutes(a, b);
    a := Add(a, b);
  }

  // Four steps bring the registers back to their own names.
  function Four(r: Regs, x: seq<bv32>, i: nat): Regs
    requires |x| == 16 && i + 4 <= 64
  {
    Step(Step(Step(Step(r, x, i), x, i + 1), x, i + 2), x, i + 3)
  }

  function Sixteen(r: Regs, x: seq<bv32>, i: nat): Regs
    requires |x| == 16 && i + 16 <= 64
  {
    Four(Four(Four(Four(r, x, i), x, i + 4), x, i + 8), x, i + 12)
  }

  lemma FourIsSteps(r: Regs, x: seq<bv32>, lo: nat, i: nat)
    requires |x| == 16 && lo <= i && i + 4 <= 64
    ensures Four(Steps(r, x, lo, i), x, i) == Steps(r, x, lo, i + 4)
  {
    hide Step;
    assert Steps(r, x, lo, i + 2) == Step(Step(Steps(r, x, lo, i), x, i), x, i + 1);
  }

  lemma SixteenIsSteps(r: Regs, x: seq<bv32>, i: nat)
    requires |x| == 16 && i + 16 <= 64
    ensures Sixteen(r, x, i) == Steps(r, x, i, i + 16)
  {
    hide Four;
    FourIsSteps(r, x, i, i);
    FourIsSteps(r, x, i, i + 4);
    FourIsSteps(r, x, i, i + 8);
    FourIsSteps(r, x, i, i + 12);
  }

  // The literals of one line of the unrolled code: message index, rotation, sine value.
  predicate TableRow(i: nat, k: nat, s: bv32, t: bv32)
    requires i < 64
  {
    WordIndex(i) == k && Shift(i) == s && Sine(i) == t
  }

  lemma Table1First()
    ensures TableRow(0, 0, S11, 0xd76aa478) && TableRow(1, 1, S12, 0xe8c7b756)
    ensures TableRow(2, 2, S13, 0x242070db) && TableRow(3, 3, S14, 0xc1bdceee)
    ensures TableRow(4, 4, S11, 0xf57c0faf) && TableRow(5, 5, S12, 0x4787c62a)
    ensures TableRow(6, 6, S13, 0xa8304613) && TableRow(7, 7, S14, 0xfd469501)
  {}

  lemma Table1Second()
    ensures TableRow(8, 8, S11, 0x698098d8) && TableRow(9, 9, S12, 0x8b44f7af)
    ensures TableRow(10, 10, S13, 0xffff5bb1) && TableRow(11, 11, S14, 0x895cd7be)
    ensures TableRow(12, 12, S11, 0x6b901122) && TableRow(13, 13, S12, 0xfd987193)
    ensures TableRow(14, 14, S13, 0xa679438e) && TableRow(15, 15, S14, 0x49b40821)
  {}

  method Round1(a0: bv32, b0: bv32, c0: bv32, d0: bv32, x: array<bv32>)
    returns (a: bv32, b: bv32, c: bv32, d: bv32)
    requires x.Length == 16
    ensures Regs(a, b, c, d) == Steps(Regs(a0, b0, c0, d0), x[..], 0, 16)
  {
    hide Mix, F, G, H, I, WordIndex, Shift, Sine;
    Table1First();
    Table1Second();
    a, b, c, d := a0, b0, c0, d0;
    a := FF(a, b, c, d, x[0], S11, 0xd76aa478);
    d := FF(d, a, b, c, x[1], S12, 0xe8c7b756);
    c := FF(c, d, a, b, x[2], S13, 0x242070db);
    b := FF(b, c, d, a, x[3], S14, 0xc1bdceee);
    a := FF(a, b, c, d, x[4], S11, 0xf57c0faf);
    d := FF(d, a, b, c, x[5], S12, 0x4787c62a);
    c := FF(c, d, a, b, x[6], S13, 0xa8304613);
    b := FF(b, c, d, a, x[7], S14, 0xfd469501);
    a := FF(a, b, c, d, x[8], S11, 0x698098d8);
    d := FF(d, a, b, c, x[9], S12, 0x8b44f7af);
    c := FF(c, d, a, b, x[10], S13, 0xffff5bb1);
    b := FF(b, c, d, a, x[11], S14, 0x895cd7be);
    a := FF(a, b, c, d, x[12], S11, 0x6b901122);
    d := FF(d, a, b, c, x[13], S12, 0xfd987193);
    c := FF(c, d, a, b, x[14], S13, 0xa679438e);
    b := FF(b, c, d, a, x[15], S14, 0x49b40821);
    SixteenIsSteps(Regs(a0, b0, c0, d0), x[..], 0);
  }

  lemma Table2First()
    ensures TableRow(16, 1, S21, 0xf61e2562) && TableRow(17, 6, S22, 0xc040b340)
    ensures TableRow(18, 11, S23, 0x265e5a51) && TableRow(19, 0, S24, 0xe9b6c7aa)
    ensures TableRow(20, 5, S21, 0xd62f105d) && TableRow(21, 10, S22, 0x2441453)
    ensures TableRow(22, 15, S23, 0xd8a1e681) && TableRow(23, 4, S24, 0xe7d3fbc8)
  {}

  lemma Table2Second()
    ensures TableRow(24, 9, S21, 0x21e1cde6) && TableRow(25, 14, S22, 0xc33707d6)
    ensures TableRow(26, 3, S23, 0xf4d50d87) && TableRow(27, 8, S24, 0x455a14ed)
    ensures TableRow(28, 13, S21, 0xa9e3e905) && TableRow(29, 2, S22, 0xfcefa3f8)
    ensures TableRow(30, 7, S23, 0x676f02d9) && TableRow(31, 12, S24, 0x8d2a4c8a)
  {}

  method Round2(a0: bv32, b0: bv32, c0: bv32, d0: bv32, x: array<bv32>)
    returns (a: bv32, b: bv32, c: bv32, d: bv32)
    requires x.Length == 16
    ensures Regs(a, b, c, d) == Steps(Regs(a0, b0, c0, d0), x[..], 16, 32)
  {
    hide Mix, F, G, H, I, WordIndex, Shift, Sine;
    Table2First();
    Table2Second();
    a, b, c, d := a0, b0, c0, d0;
    a := GG(a, b, c, d, x[1], S21, 0xf61e2562);
    d := GG(d, a, b, c, x[6], S22, 0xc040b340);
    c := GG(c, d, a, b, x[11], S23, 0x265e5a51);
    b := GG(b, c, d, a, x[0], S24, 0xe9b6c7aa);
    a := GG(a, b, c, d, x[5], S21, 0xd62f105d);
    d := GG(d, a, b, c, x[10], S22, 0x2441453);
    c := GG(c, d, a, b, x[15], S23, 0xd8a1e681);
    b := GG(b, c, d, a, x[4], S24, 0xe7d3fbc8);
    a := GG(a, b, c, d, x[9], S21, 0x21e1cde6);
    d := GG(d, a, b, c, x[14], S22, 0xc33707d6);
    c := GG(c, d, a, b, x[3], S23, 0xf4d50d87);
    b := GG(b, c, d, a, x[8], S24, 0x455a14ed);
    a := GG(a, b, c, d, x[13], S21, 0xa9e3e905);
    d := GG(d, a, b, c, x[2], S22, 0xfcefa3f8);
    c := GG(c, d, a, b, x[7], S23, 0x676f02d9);
    b := GG(b, c, d, a, x[12], S24, 0x8d2a4c8a);
    SixteenIsSteps(Regs(a0, b0, c0, d0), x[..], 16);
  }

  lemma Table3First()
    ensures TableRow(32, 5, S31, 0xfffa3942) && TableRow(33, 8, S32, 0x8771f681)
    ensures TableRow(34, 11, S33, 0x6d9d6122) && TableRow(35, 14, S34, 0xfde5380c)
    ensures TableRow(36, 1, S31, 0xa4beea44) && TableRow(37, 4, S32, 0x4bdecfa9)
    ensures TableRow(38, 7, S33, 0xf6bb4b60) && TableRow(39, 10, S34, 0xbebfbc70)
  {}

  lemma Table3Second()
    ensures TableRow(40, 13, S31, 0x289b7ec6) && TableRow(41, 0, S32, 0xeaa127fa)
    ensures TableRow(42, 3, S33, 0xd4ef3085) && TableRow(43, 6, S34, 0x4881d05)
    ensures TableRow(44, 9, S31, 0xd9d4d039) && TableRow(45, 12, S32, 0xe6db99e5)
    ensures TableRow(46, 15, S33, 0x1fa27cf8) && TableRow(47, 2, S34, 0xc4ac5665)
  {}

  method Round3(a0: bv32, b0: bv32, c0: bv32, d0: bv32, x: array<bv32>)
    returns (a: bv32, b: bv32, c: bv32, d: bv32)
    requires x.Length == 16
    ensures Regs(a, b, c, d) == Steps(Regs(a0, b0, c0, d0), x[..], 32, 48)
  {
    hide Mix, F, G, H, I, WordIndex, Shift, Sine;
    Table3First();
    Table3Second();
    a, b, c, d := a0, b0, c0, d0;
    a := HH(a, b, c, d, x[5], S31, 0xfffa3942);
    d := HH(d, a, b, c, x[8], S32, 0x8771f681);
    c := HH(c, d, a, b, x[11], S33, 0x6d9d6122);
    b := HH(b, c, d, a, x[14], S34, 0xfde5380c);
    a := HH(a, b, c, d, x[1], S31, 0xa4beea44);
    d := HH(d, a, b, c, x[4], S32, 0x4bdecfa9);
    c := HH(c, d, a, b, x[7], S33, 0xf6bb4b60);
    b := HH(b, c, d, a, x[10], S34, 0xbebfbc70);
    a := HH(a, b, c, d, x[13], S31, 0x289b7ec6);
    d := HH(d, a, b, c, x[0], S32, 0xeaa127fa);
    c := HH(c, d, a, b, x[3], S33, 0xd4ef3085);
    b := HH(b, c, d, a, x[6], S34, 0x4881d05);
    a := HH(a, b, c, d, x[9], S31, 0xd9d4d039);
    d := HH(d, a, b, c, x[12], S32, 0xe6db99e5);
    c := HH(c, d, a, b, x[15], S33, 0x1fa27cf8);
    b := HH(b, c, d, a, x[2], S34, 0xc4ac5665);
    SixteenIsSteps(Regs(a0, b0, c0, d0), x[..], 32);
  }

  lemma Table4First()
    ensures TableRow(48, 0, S41, 0xf4292244) && TableRow(49, 7, S42, 0x432aff97)
    ensures TableRow(50, 14, S43, 0xab9423a7) && TableRow(51, 5, S44, 0xfc93a039)
    ensures TableRow(52, 12, S41, 0x655b59c3) && TableRow(53, 3, S42, 0x8f0ccc92)
    ensures TableRow(54, 10, S43, 0xffeff47d) && TableRow(55, 1, S44, 0x85845dd1)
  {}

  lemma Table4Second()
    ensures TableRow(56, 8, S41, 0x6fa87e4f) && TableRow(57, 15, S42, 0xfe2ce6e0)
    ensures TableRow(58, 6, S43, 0xa3014314) && TableRow(59, 13, S44, 0x4e0811a1)
    ensures TableRow(60, 4, S41, 0xf7537e82) && TableRow(61, 11, S42, 0xbd3af235)
    ensures TableRow(62, 2, S43, 0x2ad7d2bb) && TableRow(63, 9, S44, 0xeb86d391)
  {}

  method Round4(a0: bv32, b0: bv32, c0: bv32, d0: bv32, x: array<bv32>)
    returns (a: bv32, b: bv32, c: bv32, d: bv32)
    requires x.Length == 16
    ensures Regs(a, b, c, d) == Steps(Regs(a0, b0, c0, d0), x[..], 48, 64)
  {
    hide Mix, F, G, H, I, WordIndex, Shift, Sine;
    Table4First();
    Table4Second();
    a, b, c, d := a0, b0, c0, d0;
    a := II(a, b, c, d, x[0], S41, 0xf4292244);
    d := II(d, a, b, c, x[7], S42, 0x432aff97);
    c := II(c, d, a, b, x[14], S43, 0xab9423a7);
    b := II(b, c, d, a, x[5], S44, 0xfc93a039);
    a := II(a, b, c, d, x[12], S41, 0x655b59c3);
    d := II(d, a, b, c, x[3], S42, 0x8f0ccc92);
    c := II(c, d, a, b, x[10], S43, 0xffeff47d);
    b := II(b, c, d, a, x[1], S44, 0x85845dd1);
    a := II(a, b, c, d, x[8], S41, 0x6fa87e4f);
    d := II(d, a, b, c, x[15], S42, 0xfe2ce6e0);
    c := II(c, d, a, b, x[6], S43, 0xa3014314);
    b := II(b, c, d, a, x[13], S44, 0x4e0811a1);
    a := II(a, b, c, d, x[4], S41, 0xf7537e82);
    d := II(d, a, b, c, x[11], S42, 0xbd3af235);
    c := II(c, d, a, b, x[2], S43, 0x2ad7d2bb);
    b := II(b, c, d, a, x[9], S44, 0xeb86d391);
    SixteenIsSteps(Regs(a0, b0, c0, d0), x[..], 48);
  }

  lemma {:induction false} StepsJoin(r: Regs, x: seq<bv32>, lo: nat, mid: nat, hi: nat)
    requires |x| == 16 && lo <= mid <= hi <= 64
    ensures Steps(Steps(r, x, lo, mid), x, mid, hi) == Steps(r, x, lo, hi)
    decreases hi
  {
    hide Step;
    if mid < hi {
      StepsJoin(r, x, lo, mid, hi - 1);
    }
  }

  lemma RoundsJoin(r: Regs, x: seq<bv32>)
    requires |x| == 16
    ensures Steps(Steps(Steps(Steps(r, x, 0, 16), x, 16, 32), x, 32, 48), x, 48, 64) == Steps(r, x, 0, 64)
  {
    StepsJoin(r, x, 0, 16, 32);
    StepsJoin(r, x, 0, 32, 48);
    StepsJoin(r, x, 0, 48, 64);
  }

  // ---------- blocks ----------

  lemma WordIsOr(b0: u8, b1: u8, b2: u8, b3: u8)
    ensures Widen(b0) | (Widen(b1) << 8) | (Widen(b2) << 16) | (Widen(b3) << 24) == Word(b0, b1, b2, b3)
  {
    hide Widen;
    OrIsSum(Widen(b0), Widen(b1), Widen(b2), Widen(b3));
  }

  // Bytes shifted to different places do not overlap.
  lemma OrIsSum(b0: bv32, b1: bv32, b2: bv32, b3: bv32)
    requires b0 < 0x100 && b1 < 0x100 && b2 < 0x100 && b3 < 0x100
    ensures b0 | (b1 << 8) | (b2 << 16) | (b3 << 24) == b0 + 0x100 * b1 + 0x1_0000 * b2 + 0x100_0000 * b3
  {}

  method ExtractChunk(message: seq<u8>, from: nat, to: nat, chunk: array<bv32>)
    requires to == from + 64 <= |message| && chunk.Length == 16
    modifies chunk
    ensures chunk[..] == Words(message[from..to])
  {
    hide Word, Widen;
    var count := 0;
    var i := from;
    while i < to
      invariant i == from + 4 * count && count <= 16
      invariant forall k :: 0 <= k < count ==> chunk[k] == Words(message[from..to])[k]
    {
      WordIsOr(message[i], message[i + 1], message[i + 2], message[i + 3]);
      chunk[count] := Widen(message[i]) | (Widen(message[i + 1]) << 8)
                      | (Widen(message[i + 2]) << 16) | (Widen(message[i + 3]) << 24);
      i, count := i + 4, count + 1;
    }
  }

  // ((n + 8) >> 6) + 1 blocks hold the message, one byte 0x80, the zeros and the length.
  method PadMessage(message: seq<u8>) returns (padded: seq<u8>)
    requires |message| <= MAX_MESSAGE
    ensures padded == Pad(message)
  {
    hide LittleEndian;
    var msgSize := |message|;
    var numBlocks := (msgSize + 8) / 64 + 1;
    var totalLen := numBlocks * 64 - msgSize;
    var surplusBytes := totalLen - 8 - 1;
    SurplusIsZeroCount(msgSize);
    padded := message + [0x80];
    for i := 0 to surplusBytes
      invariant padded == message + [0x80] + Zeros(i)
    {
      assert Zeros(i + 1) == Zeros(i) + [0];
      padded := padded + [0];
    }
    var msgSize64: u64 := msgSize * 8 % TWO_64;
    var hi: u32 := msgSize64 / TWO_32;
    var lo: u32 := msgSize64 % TWO_32;
    ghost var body := padded;
    padded := padded + [lo % 256];
    padded := padded + [lo / 0x100 % 256];
    padded := padded + [lo / 0x1_0000 % 256];
    padded := padded + [lo / 0x100_0000 % 256];
    assert padded == body + FourBytes(lo);
    padded := padded + [hi % 256];
    padded := padded + [hi / 0x100 % 256];
    padded := padded + [hi / 0x1_0000 % 256];
    padded := padded + [hi / 0x100_0000 % 256];
    assert padded == body + (FourBytes(lo) + FourBytes(hi));
    EightBytesAre(msgSize64);
  }

  lemma SurplusIsZeroCount(n: nat)
    ensures ((n + 8) / 64 + 1) * 64 - n - 9 == (55 - n) % 64
  {}

  lemma BlocksUnfold(r: Regs, padded: seq<u8>, i: nat, x: seq<bv32>)
    requires i + 64 <= |padded| && x == Words(padded[i..i + 64])
    ensures Blocks(r, padded[i..]) == Blocks(Feed(r, Steps(r, x, 0, 64)), padded[i + 64..])
  {
    hide Feed, Steps, Words;
    var rest := padded[i..];
    assert padded[i..i + 64] == rest[..64];
    assert padded[i + 64..] == rest[64..];
  }

  lemma BlocksOfNothing(r: Regs)
    ensures Blocks(r, []) == r
  {}

  // The u32 block counter of Digest after some turns of the loop.
  function Counter(turns: nat): u32 {
    if turns == 0 then 0 else (Counter(turns - 1) + 64) % TWO_32
  }

  lemma CounterStep(turns: nat)
    ensures Counter(0) == 0 && Counter(turns + 1) == (Counter(turns) + 64) % TWO_32
  {}

  // The block counter of Digest is a u32, so it needs a padded size below 2^32.
  method Digest(message: seq<u8>) returns (digest: Regs)
    requires |Pad(message)| < TWO_32
    ensures digest == Md5(message)
  {
    hide Steps, Add, Words, Pad, Blocks, Counter;
    PaddedSizeIsLeast(message, 0);
    PaddedSizeIsLeast(message, |Pad(message)|);
    CounterStep(0);
    var padded := PadMessage(message);
    var A0, B0, C0, D0 := INITIAL.a, INITIAL.b, INITIAL.c, INITIAL.d;
    var x := new bv32[16](_ => 0);
    var i: u32 := 0;
    ghost var turns: nat := 0;
    while i < |padded|
      invariant i == Counter(turns)
      invariant i % 64 == 0 && |padded| % 64 == 0 && i <= |padded| < TWO_32
      invariant Blocks(Regs(A0, B0, C0, D0), padded[i..]) == Md5(message)
      decreases |padded| - i
    {
      ghost var r := Regs(A0, B0, C0, D0);
      ExtractChunk(padded, i, i + 64, x);
      BlocksUnfold(r, padded, i, x[..]);
      var a, b, c, d := Round1(A0, B0, C0, D0, x);
      a, b, c, d := Round2(a, b, c, d, x);
      a, b, c, d := Round3(a, b, c, d, x);
      a, b, c, d := Round4(a, b, c, d, x);
      RoundsJoin(r, x[..]);
      A0, B0, C0, D0 := Add(A0, a), Add(B0, b), Add(C0, c), Add(D0, d);
      CounterStep(turns);
      i, turns := (i + 64) % TWO_32, turns + 1;
    }
    digest := Regs(A0, B0, C0, D0);
    BlocksOfNothing(digest);
    assert padded[i..] == [];
  }
}

/** What the four functions do bit by bit, and in which order the words come, without the formulas. */
module Md5Functions {
  import opened Arithmetic
  import opened Basics
  import opened Md5Spec

  // F chooses y where x is set, and z elsewhere.
  lemma FChooses(x: bv32, y: bv32, z: bv32)
    ensures F(x, y, z) & x == y & x
    ensures F(x, y, z) & !x == z & !x
  {}

  // G chooses x where z is set, and y elsewhere.
  lemma GChooses(x: bv32, y: bv32, z: bv32)
    ensures G(x, y, z) & z == x & z
    ensures G(x, y, z) & !z == y & !z
  {}

  // H flips with each of its arguments.
  lemma HIs(x: bv32, y: bv32, z: bv32)
    ensures H(x, y, z) == x ^ y ^ z
  {}

  lemma HSwaps(x: bv32, y: bv32, z: bv32)
    ensures H(x, y, z) == H(y, x, z)
  {}

  lemma HFlipsFirst(x: bv32, y: bv32, z: bv32)
    ensures H(!x, y, z) == !H(x, y, z)
  {
    hide H;
    HSwaps(!x, y, z);
    HFlipsSecond(y, x, z);
    HSwaps(x, y, z);
  }

  lemma XorFlipsSecond(x: bv32, y: bv32, z: bv32)
    ensures x ^ !y ^ z == !(x ^ y ^ z)
  {}

  lemma HFlipsSecond(x: bv32, y: bv32, z: bv32)
    ensures H(x, !y, z) == !H(x, y, z)
  {
    hide H;
    HIs(x, !y, z);
    HIs(x, y, z);
    XorFlipsSecond(x, y, z);
  }

  lemma XorFlipsThird(x: bv32, y: bv32, z: bv32)
    ensures x ^ y ^ !z == !(x ^ y ^ z)
  {}

  lemma HFlipsThird(x: bv32, y: bv32, z: bv32)
    ensures H(x, y, !z) == !H(x, y, z)
  {
    hide H;
    HIs(x, y, !z);
    HIs(x, y, z);
    XorFlipsThird(x, y, z);
  }

  lemma HFlips(x: bv32, y: bv32, z: bv32)
    ensures H(!x, y, z) == H(x, !y, z) == H(x, y, !z) == !H(x, y, z)
    ensures H(0, 0, 0) == 0
  {
    HFlipsOfZero();
    hide H;
    HFlipsFirst(x, y, z);
    HFlipsSecond(x, y, z);
    HFlipsThird(x, y, z);
  }

  lemma HFlipsOfZero()
    ensures H(0, 0, 0) == 0
  {}

  // Each round goes through all words, from its first in its own stride.
  lemma WordsInOrder(i: nat)
    requires i < 64 && i % 16 > 0
    ensures WordIndex(0) == WordIndex(48) == 0 && WordIndex(16) == 1 && WordIndex(32) == 5
    ensures var stride := if i < 16 then 1 else if i < 32 then 5 else if i < 48 then 3 else 7;
            WordIndex(i) == (WordIndex(i - 1) + stride) % 16
  {
    FirstWords();
    hide WordIndex;
    if 16 < i < 32 {
      SecondStride(i);
    } else if 32 < i < 48 {
      ThirdStride(i);
    } else if i > 48 {
      FourthStride(i);
    } else {
      FirstStride(i);
    }
  }

  lemma FirstWords()
    ensures WordIndex(0) == WordIndex(48) == 0 && WordIndex(16) == 1 && WordIndex(32) == 5
  {}

  lemma FirstStride(i: nat)
    requires 0 < i < 16
    ensures WordIndex(i) == (WordIndex(i - 1) + 1) % 16
  {}

  lemma SecondStride(i: nat)
    requires 16 < i < 32
    ensures WordIndex(i) == (WordIndex(i - 1) + 5) % 16
  {
    AddMod(5 * (i - 1) + 1, 5, 16);
  }

  lemma ThirdStride(i: nat)
    requires 32 < i < 48
    ensures WordIndex(i) == (WordIndex(i - 1) + 3) % 16
  {
    AddMod(3 * (i - 1) + 5, 3, 16);
  }

  lemma FourthStride(i: nat)
    requires 48 < i < 64
    ensures WordIndex(i) == (WordIndex(i - 1) + 7) % 16
  {
    AddMod(7 * (i - 1), 7, 16);
  }

  // I is the complement of y where x is set or z is not, and y elsewhere.
  lemma IComplements(x: bv32, y: bv32, z: bv32)
    ensures I(x, y, z) & x == !y & x
    ensures I(x, y, z) & !z == !y & !z
    ensures I(x, y, z) & !x & z == y & !x & z
  {}
}

/** What the padding and the steps guarantee. */
module Md5Theorems {
  import opened Arithmetic
  import opened Basics
  import opened Codec
  import opened Md5Code
  import opened Md5Spec

  // ---------- padding ----------

  // The message is a prefix of the padded message, and its bit length modulo 2^64 the tail.
  lemma PadCarriesMessageAndLength(message: seq<u8>)
    ensures message <= Pad(message)
    ensures FromLittleEndian(Pad(message)[|Pad(message)| - 8..]) == 8 * |message| % TWO_64
  {
    hide Zeros, LittleEndian;
    var v := 8 * |message| % TWO_64;
    assert Pad(message)[|Pad(message)| - 8..] == LittleEndian(v, 8);
    EightBytes();
    DecodeEncode(v, 8);
  }

  // Between the message and the length stand the byte 0x80 and zeros.
  lemma PadFillsWithZeros(message: seq<u8>, i: nat)
    requires |message| <= i < |Pad(message)| - 8
    ensures Pad(message)[i] == if i == |message| then 0x80 else 0
  {
    hide LittleEndian;
  }

  // Padding is injective on messages of any length: where the bit length wraps around, the
  // padded size still tells messages of different lengths apart.
  lemma PadIsInjective(m1: seq<u8>, m2: seq<u8>)
    requires Pad(m1) == Pad(m2)
    ensures m1 == m2
  {
    hide Pad;
    PadCarriesMessageAndLength(m1);
    PadCarriesMessageAndLength(m2);
    SameSizeIsClose(m1, m2);
    SameLength(|m1|, |m2|);
    assert m1 == Pad(m1)[..|m1|] && m2 == Pad(m2)[..|m2|];
  }

  lemma SameSizeIsClose(m1: seq<u8>, m2: seq<u8>)
    requires |Pad(m1)| == |Pad(m2)|
    ensures -64 < |m1| - |m2| < 64
  {
    hide Pad;
    PaddedSizeIsLeast(m1, 0);
    var size := |Pad(m1)|;
    PaddedSizeIsLeast(m1, size);
    PaddedSizeIsLeast(m2, size);
    PaddedSizeIsLeast(m1, size - 64);
    PaddedSizeIsLeast(m2, size - 64);
  }

  lemma SameLength(n1: nat, n2: nat)
    requires -64 < n1 - n2 < 64 && 8 * n1 % TWO_64 == 8 * n2 % TWO_64
    ensures n1 == n2
  {
    var q1, q2 := 8 * n1 / TWO_64, 8 * n2 / TWO_64;
    assert 8 * (n1 - n2) == (q1 - q2) * TWO_64;
  }

  // ---------- blocks ----------

  // Each block adds what its steps make of the registers to them.
  lemma BlockAdds(r: Regs, block: seq<u8>)
    requires |block| == 64
    ensures var s := Steps(r, Words(block), 0, 64);
            Blocks(r, block) == Regs(Add(r.a, s.a), Add(r.b, s.b), Add(r.c, s.c), Add(r.d, s.d))
  {
    hide Steps;
    var s := Steps(r, Words(block), 0, 64);
    hide Add, Words;
    assert block[..64] == block && block[64..] == [];
    BlocksOfNothing(Feed(r, s));
  }

  // Further blocks go on from the registers that the blocks before them leave.
  lemma {:induction false} BlocksJoin(r: Regs, a: seq<u8>, b: seq<u8>)
    requires |a| % 64 == 0
    ensures Blocks(r, a + b) == Blocks(Blocks(r, a), b)
    decreases |a|
  {
    hide Steps, Feed;
    if a == [] {
      assert a + b == b;
    } else {
      assert (a + b)[..64] == a[..64] && (a + b)[64..] == a[64..] + b;
      BlocksJoin(Feed(r, Steps(r, Words(a[..64]), 0, 64)), a[64..], b);
    }
  }

  // ---------- the block counter ----------

  lemma {:induction false} CounterIs(turns: nat)
    ensures Counter(turns) == 64 * turns % TWO_32
  {
    if turns > 0 {
      CounterIs(turns - 1);
      AddMod(64 * (turns - 1), 64, TWO_32);
    }
  }

  // The loop of Digest is left exactly when the padded size is below 2^32 - otherwise the
  // counter wraps before it reaches the size -, that is for messages up to 2^32 - 73 bytes.
  lemma DigestLoopEnds(message: seq<u8>)
    ensures (exists turns :: Counter(turns) >= |Pad(message)|) <==> |Pad(message)| < TWO_32
    ensures |Pad(message)| < TWO_32 <==> |message| <= TWO_32 - 73
  {
    hide Pad, Counter;
    PaddedSizeIsLeast(message, 0);
    PaddedSizeIsLeast(message, TWO_32 - 64);
    var size := |Pad(message)|;
    if size < TWO_32 {
      CounterIs(size / 64);
      assert Counter(size / 64) >= size;
    }
  }

  lemma LongMessageNeverEnds(turns: nat)
    ensures Counter(turns) < |Pad(Zeros(TWO_32 - 72))|
  {
    hide Pad, Counter;
    DigestLoopEnds(Zeros(TWO_32 - 72));
  }

  // ---------- the steps are a bijection ----------

  function RightRotate(value: bv32, shift: bv32): bv32
    requires 0 < shift < 32
  {
    (value >> shift) | (value << (32 - shift))
  }

  // Rotations by a fixed amount are inverse.
  lemma Rotate4(v: bv32)
    ensures RightRotate(LeftRotate(v, 4), 4) == v == LeftRotate(RightRotate(v, 4), 4)
  {}

  lemma Rotate5(v: bv32)
    ensures RightRotate(LeftRotate(v, 5), 5) == v == LeftRotate(RightRotate(v, 5), 5)
  {}

  lemma Rotate6(v: bv32)
    ensures RightRotate(LeftRotate(v, 6), 6) == v == LeftRotate(RightRotate(v, 6), 6)
  {}

  lemma Rotate7(v: bv32)
    ensures RightRotate(LeftRotate(v, 7), 7) == v == LeftRotate(RightRotate(v, 7), 7)
  {}

  lemma Rotate9(v: bv32)
    ensures RightRotate(LeftRotate(v, 9), 9) == v == LeftRotate(RightRotate(v, 9), 9)
  {}

  lemma Rotate10(v: bv32)
    ensures RightRotate(LeftRotate(v, 10), 10) == v == LeftRotate(RightRotate(v, 10), 10)
  {}

  lemma Rotate11(v: bv32)
    ensures RightRotate(LeftRotate(v, 11), 11) == v == LeftRotate(RightRotate(v, 11), 11)
  {}

  lemma Rotate12(v: bv32)
    ensures RightRotate(LeftRotate(v, 12), 12) == v == LeftRotate(RightRotate(v, 12), 12)
  {}

  lemma Rotate14(v: bv32)
    ensures RightRotate(LeftRotate(v, 14), 14) == v == LeftRotate(RightRotate(v, 14), 14)
  {}

  lemma Rotate15(v: bv32)
    ensures RightRotate(LeftRotate(v, 15), 15) == v == LeftRotate(RightRotate(v, 15), 15)
  {}

  lemma Rotate16(v: bv32)
    ensures RightRotate(LeftRotate(v, 16), 16) == v == LeftRotate(RightRotate(v, 16), 16)
  {}

  lemma Rotate17(v: bv32)
    ensures RightRotate(LeftRotate(v, 17), 17) == v == LeftRotate(RightRotate(v, 17), 17)
  {}

  lemma Rotate20(v: bv32)
    ensures RightRotate(LeftRotate(v, 20), 20) == v == LeftRotate(RightRotate(v, 20), 20)
  {}

  lemma Rotate21(v: bv32)
    ensures RightRotate(LeftRotate(v, 21), 21) == v == LeftRotate(RightRotate(v, 21), 21)
  {}

  lemma Rotate22(v: bv32)
    ensures RightRotate(LeftRotate(v, 22), 22) == v == LeftRotate(RightRotate(v, 22), 22)
  {}

  lemma Rotate23(v: bv32)
    ensures RightRotate(LeftRotate(v, 23), 23) == v == LeftRotate(RightRotate(v, 23), 23)
  {}

  lemma RotateInverse(v: bv32, i: nat)
    ensures RightRotate(LeftRotate(v, Shift(i)), Shift(i)) == v
    ensures LeftRotate(RightRotate(v, Shift(i)), Shift(i)) == v
  {
    hide LeftRotate, RightRotate;
    Rotate7(v); Rotate12(v); Rotate17(v); Rotate22(v);
    Rotate5(v); Rotate9(v); Rotate14(v); Rotate20(v);
    Rotate4(v); Rotate11(v); Rotate16(v); Rotate23(v);
    Rotate6(v); Rotate10(v); Rotate15(v); Rotate21(v);
  }

  function Sub(x: bv32, y: bv32): bv32 { x - y }

  // Subtraction undoes addition and addition subtraction.
  lemma SubUndoes(x: bv32, y: bv32)
    ensures Sub(Add(x, y), y) == x
  {
    hide Add, Sub;
    AddIs(x, y);
    SubOfSum(x, y);
  }

  lemma AddUndoes(x: bv32, y: bv32)
    ensures Add(Sub(x, y), y) == x
  {
    hide Add, Sub;
    SubIs(x, y);
    AddOfDifference(x, y);
  }

  lemma AddIs(x: bv32, y: bv32)
    ensures Add(x, y) == x + y
  {}

  lemma SubIs(x: bv32, y: bv32)
    ensures Sub(x, y) == x - y
  {}

  lemma SubOfSum(x: bv32, y: bv32)
    ensures Sub(x + y, y) == x
  {}

  lemma AddOfDifference(x: bv32, y: bv32)
    ensures Add(x - y, y) == x
  {}

  // Takes back step i.
  function Unstep(r: Regs, x: seq<bv32>, i: nat): Regs
    requires |x| == 16 && i < 64
  {
    var b, c, d := r.c, r.d, r.a;
    var addend := Add(Add(Nonlinear(i, b, c, d), x[WordIndex(i)]), Sine(i));
    Regs(Sub(RightRotate(Sub(r.b, b), Shift(i)), addend), b, c, d)
  }

  lemma UnstepInverse(r: Regs, x: seq<bv32>, i: nat)
    requires |x| == 16 && i < 64
    ensures Unstep(Step(r, x, i), x, i) == r && Step(Unstep(r, x, i), x, i) == r
  {
    hide LeftRotate, RightRotate, Shift, WordIndex, Sine, Nonlinear, Add, Sub;
    var addend := Add(Add(Nonlinear(i, r.b, r.c, r.d), x[WordIndex(i)]), Sine(i));
    var rotated := LeftRotate(Add(r.a, addend), Shift(i));
    AddCommutes(r.b, rotated);
    SubUndoes(rotated, r.b);
    RotateInverse(Add(r.a, addend), i);
    SubUndoes(r.a, addend);

    var b, c, d := r.c, r.d, r.a;
    var sum := RightRotate(Sub(r.b, b), Shift(i));
    AddUndoes(sum, Add(Add(Nonlinear(i, b, c, d), x[WordIndex(i)]), Sine(i)));
    RotateInverse(Sub(r.b, b), i);
    AddUndoes(r.b, b);
    AddCommutes(b, Sub(r.b, b));
  }

  // Takes back steps hi - 1, ..., lo.
  function Unsteps(r: Regs, x: seq<bv32>, lo: nat, hi: nat): Regs
    requires |x| == 16 && lo <= hi <= 64
    decreases hi - lo
  {
    if lo == hi then r else Unsteps(Unstep(r, x, hi - 1), x, lo, hi - 1)
  }

  // For every block of 16 words, any run of steps is a bijection on the four registers.
  lemma {:induction false} StepsAreBijective(r: Regs, x: seq<bv32>, lo: nat, hi: nat)
    requires |x| == 16 && lo <= hi <= 64
    ensures Unsteps(Steps(r, x, lo, hi), x, lo, hi) == r
    ensures Steps(Unsteps(r, x, lo, hi), x, lo, hi) == r
    decreases hi
  {
    hide Step, Unstep;
    if lo < hi {
      UnstepInverse(Steps(r, x, lo, hi - 1), x, hi - 1);
      StepsAreBijective(r, x, lo, hi - 1);
      UnstepInverse(r, x, hi - 1);
      StepsAreBijective(Unstep(r, x, hi - 1), x, lo, hi - 1);
    }
  }

  // Before the feed-forward, different states never meet under the same block.
  lemma CompressionIsInjective(r: Regs, s: Regs, block: seq<u8>)
    requires |block| == 64 && Steps(r, Words(block), 0, 64) == Steps(s, Words(block), 0, 64)
    ensures r == s
  {
    StepsAreBijective(r, Words(block), 0, 64);
    StepsAreBijective(s, Words(block), 0, 64);
  }
}

/** The text of a digest: section 3.5 of RFC 1321. */
module Md5Text {
  import opened Basics
  import opened Md5Spec

  function NibbleDigit(d: bv32): char
    requires d < 16
  {
    match d
    case 0 => '0' case 1 => '1' case 2 => '2' case 3 => '3'
    case 4 => '4' case 5 => '5' case 6 => '6' case 7 => '7'
    case 8 => '8' case 9 => '9' case 10 => 'a' case 11 => 'b'
    case 12 => 'c' case 13 => 'd' case 14 => 'e' case _ => 'f'
  }

  // `%02x`.
  function HexByte(b: bv32): (s: string)
    requires b < 0x100
    ensures |s| == 2
  {
    [NibbleDigit(b >> 4), NibbleDigit(b & 0xf)]
  }

  function ByteOf(w: bv32, k: nat): (b: bv32)
    requires k < 4
    ensures b < 0x100
  {
    if k == 0 then w & 0xff
    else if k == 1 then (w & 0xff00) >> 8
    else if k == 2 then (w & 0xff_0000) >> 16
    else (w & 0xff00_0000) >> 24
  }

  function WordText(w: bv32): (s: string)
    ensures |s| == 8
  {
    HexByte(ByteOf(w, 0)) + HexByte(ByteOf(w, 1)) + HexByte(ByteOf(w, 2)) + HexByte(ByteOf(w, 3))
  }

  function DigestToString(digest: Regs): (s: string)
    ensures |s| == 32
  {
    WordText(digest.a) + WordText(digest.b) + WordText(digest.c) + WordText(digest.d)
  }

  // A word's text begins with its low-order byte.
  lemma TextBeginsWithLowByte(b0: u8, b1: u8, b2: u8, b3: u8)
    ensures WordText(Word(b0, b1, b2, b3))
         == HexByte(Widen(b0)) + HexByte(Widen(b1)) + HexByte(Widen(b2)) + HexByte(Widen(b3))
  {
    hide Widen, HexByte, ByteOf, Word;
    BytesOfWord(b0, b1, b2, b3);
  }

  lemma BytesOfWord(b0: u8, b1: u8, b2: u8, b3: u8)
    ensures var w := Word(b0, b1, b2, b3);
            && ByteOf(w, 0) == Widen(b0) && ByteOf(w, 1) == Widen(b1)
            && ByteOf(w, 2) == Widen(b2) && ByteOf(w, 3) == Widen(b3)
  {
    hide Widen, ByteOf;
    BytesOfSum(Widen(b0), Widen(b1), Widen(b2), Widen(b3));
  }

  lemma BytesOfSum(b0: bv32, b1: bv32, b2: bv32, b3: bv32)
    requires b0 < 0x100 && b1 < 0x100 && b2 < 0x100 && b3 < 0x100
    ensures var w := b0 + 0x100 * b1 + 0x1_0000 * b2 + 0x100_0000 * b3;
            ByteOf(w, 0) == b0 && ByteOf(w, 1) == b1 && ByteOf(w, 2) == b2 && ByteOf(w, 3) == b3
  {}

  lemma WordsAt(block: seq<u8>, k: nat)
    requires |block| == 64 && k < 16
    ensures |Words(block)| == 16
    ensures Words(block)[k] == Word(block[4 * k], block[4 * k + 1], block[4 * k + 2], block[4 * k + 3])
  {
    hide Word;
  }

  // Every byte of a block is in its word, and in its place there.
  lemma WordsHoldBytes(block: seq<u8>, i: nat)
    requires |block| == 64 && i < 64
    ensures |Words(block)| == 16 && ByteOf(Words(block)[i / 4], i % 4) == Widen(block[i])
  {
    hide Word, ByteOf, Widen;
    var k := i / 4;
    hide Words;
    WordsAt(block, k);
    BytesOfWord(block[4 * k], block[4 * k + 1], block[4 * k + 2], block[4 * k + 3]);
    assert i == 4 * k + i % 4;
  }

  lemma DigitsDiffer(d: bv32, e: bv32)
    requires d < 16 && e < 16 && NibbleDigit(d) == NibbleDigit(e)
    ensures d == e
  {}

  lemma ByteTextsDiffer(b: bv32, c: bv32)
    requires b < 0x100 && c < 0x100 && HexByte(b) == HexByte(c)
    ensures b == c
  {
    hide NibbleDigit;
    assert HexByte(b)[0] == HexByte(c)[0] && HexByte(b)[1] == HexByte(c)[1];
    DigitsDiffer(b >> 4, c >> 4);
    DigitsDiffer(b & 0xf, c & 0xf);
    NibblesDiffer(b, c);
  }

  lemma NibblesDiffer(b: bv32, c: bv32)
    requires b >> 4 == c >> 4 && b & 0xf == c & 0xf
    ensures b == c
  {}

  lemma WordBytesDiffer(v: bv32, w: bv32)
    requires ByteOf(v, 0) == ByteOf(w, 0) && ByteOf(v, 1) == ByteOf(w, 1)
    requires ByteOf(v, 2) == ByteOf(w, 2) && ByteOf(v, 3) == ByteOf(w, 3)
    ensures v == w
  {}

  lemma WordTextsDiffer(v: bv32, w: bv32)
    requires WordText(v) == WordText(w)
    ensures v == w
  {
    hide HexByte, ByteOf;
    ConcatSplits(HexByte(ByteOf(v, 0)) + HexByte(ByteOf(v, 1)) + HexByte(ByteOf(v, 2)), HexByte(ByteOf(v, 3)),
                 HexByte(ByteOf(w, 0)) + HexByte(ByteOf(w, 1)) + HexByte(ByteOf(w, 2)), HexByte(ByteOf(w, 3)));
    ConcatSplits(HexByte(ByteOf(v, 0)) + HexByte(ByteOf(v, 1)), HexByte(ByteOf(v, 2)),
                 HexByte(ByteOf(w, 0)) + HexByte(ByteOf(w, 1)), HexByte(ByteOf(w, 2)));
    ConcatSplits(HexByte(ByteOf(v, 0)), HexByte(ByteOf(v, 1)), HexByte(ByteOf(w, 0)), HexByte(ByteOf(w, 1)));
    ByteTextsDiffer(ByteOf(v, 0), ByteOf(w, 0));
    ByteTextsDiffer(ByteOf(v, 1), ByteOf(w, 1));
    ByteTextsDiffer(ByteOf(v, 2), ByteOf(w, 2));
    ByteTextsDiffer(ByteOf(v, 3), ByteOf(w, 3));
    WordBytesDiffer(v, w);
  }

  // Different digests have different texts.
  lemma DigestTextsDiffer(d: Regs, e: Regs)
    requires DigestToString(d) == DigestToString(e)
    ensures d == e
  {
    hide WordText;
    ConcatSplits(WordText(d.a) + WordText(d.b) + WordText(d.c), WordText(d.d),
                 WordText(e.a) + WordText(e.b) + WordText(e.c), WordText(e.d));
    ConcatSplits(WordText(d.a) + WordText(d.b), WordText(d.c), WordText(e.a) + WordText(e.b), WordText(e.c));
    ConcatSplits(WordText(d.a), WordText(d.b), WordText(e.a), WordText(e.b));
    WordTextsDiffer(d.a, e.a);
    WordTextsDiffer(d.b, e.b);
    WordTextsDiffer(d.c, e.c);
    WordTextsDiffer(d.d, e.d);
  }
}
