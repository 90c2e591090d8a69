/** common/codec.cc: unsigned integers as bytes, low-order byte first. */
module Codec {
  import opened Arithmetic
  import opened Basics

  // The n low-order bytes of v, low-order byte first.
  function LittleEndian(v: nat, n: nat): (s: seq<u8>)
    ensures |s| == n
  {
    if n == 0 then [] else [v % 256] + LittleEndian(v / 256, n - 1)
  }

  function FromLittleEndian(s: seq<u8>): nat {
    if s == [] then 0 else s[0] + 256 * FromLittleEndian(s[1..])
  }

  lemma EightBytes()
    ensures Power(256, 8) == TWO_64
  {
    assert Power(256, 4) == TWO_32;
    assert Power(256, 6) == 0x1_0000 * TWO_32;
  }

  lemma {:induction false} DecodeEncode(v: nat, n: nat)
    requires v < Power(256, n)
    ensures FromLittleEndian(LittleEndian(v, n)) == v
  {
    if n > 0 {
      DecodeEncode(v / 256, n - 1);
      assert LittleEndian(v, n)[1..] == LittleEndian(v / 256, n - 1);
    }
  }

  lemma {:induction false} EncodeDecode(s: seq<u8>)
    ensures FromLittleEndian(s) < Power(256, |s|) && LittleEndian(FromLittleEndian(s), |s|) == s
  {
    if s != [] {
      EncodeDecode(s[1..]);
      DivModUnique(FromLittleEndian(s), FromLittleEndian(s[1..]), s[0], 256);
    }
  }

  // ---------- a number as four bytes ----------

  lemma DropBytes(v: nat)
    ensures v / 0x100 / 0x100 == v / 0x1_0000
    ensures v / 0x1_0000 / 0x100 == v / 0x100_0000
    ensures v / 0x100_0000 / 0x100 == v / TWO_32
  {}

  function FourBytes(v: nat): seq<u8> {
    [v % 256, v / 0x100 % 256, v / 0x1_0000 % 256, v / 0x100_0000 % 256]
  }

  lemma FourSteps(v: nat, n: nat)
    ensures LittleEndian(v, n + 4) == FourBytes(v) + LittleEndian(v / TWO_32, n)
  {
    DropBytes(v);
    var w := v / 0x1_0000;
    assert LittleEndian(w, n + 2) == [w % 256] + ([v / 0x100_0000 % 256] + LittleEndian(v / TWO_32, n));
    assert LittleEndian(v, n + 4) == [v % 256] + ([v / 0x100 % 256] + LittleEndian(w, n + 2));
  }

  // Reducing modulo 2^32 keeps the four low-order bytes.
  lemma LowBytes(v: nat)
    ensures FourBytes(v % TWO_32) == FourBytes(v)
  {
    var hi, lo := v / TWO_32, v % TWO_32;
    assert v == hi * TWO_32 + lo;
    LowByte(hi * 0x100_0000, lo, 0x1);
    LowByte(hi * 0x1_0000, lo, 0x100);
    LowByte(hi * 0x100, lo, 0x1_0000);
    LowByte(hi, lo, 0x100_0000);
  }

  lemma LowByte(hi: nat, lo: nat, m: nat)
    requires m > 0
    ensures (hi * 256 * m + lo) / m % 256 == lo / m % 256
  {
    DivModShift(hi * 256, lo, m);
    DivModShift(hi, lo / m, 256);
  }

  lemma EightBytesAre(v: u64)
    ensures LittleEndian(v, 8) == FourBytes(v % TWO_32) + FourBytes(v / TWO_32)
  {
    FourSteps(v, 4);
    FourSteps(v / TWO_32, 0);
    LowBytes(v);
  }

  lemma DecodeFour(s: seq<u8>)
    requires |s| >= 4
    ensures FromLittleEndian(s)
         == (s[0] as int) + (s[1] as int) * 0x100 + (s[2] as int) * 0x1_0000 + (s[3] as int) * 0x100_0000
            + TWO_32 * FromLittleEndian(s[4..])
  {
    assert s[1..][1..] == s[2..] && s[2..][1..] == s[3..] && s[3..][1..] == s[4..];
    assert FromLittleEndian(s[3..]) == s[3] + 256 * FromLittleEndian(s[4..]);
    assert FromLittleEndian(s[2..]) == s[2] + 256 * FromLittleEndian(s[3..]);
    assert FromLittleEndian(s[1..]) == s[1] + 256 * FromLittleEndian(s[2..]);
  }

  // ---------- byte by byte ----------

  lemma {:induction false} LittleEndianAt(v: nat, n: nat, i: nat)
    requires i < n
    ensures LittleEndian(v, n)[i] == v / Power(256, i) % 256
  {
    if i > 0 {
      LittleEndianAt(v / 256, n - 1, i - 1);
      DivTwice(v, Power(256, i - 1));
    }
  }

  lemma DivTwice(v: nat, p: int)
    requires p > 0
    ensures v / 256 / p == v / (256 * p)
    ensures v % (256 * p) == 256 * (v / 256 % p) + v % 256
  {
    var q, r := v / 256, v % 256;
    var a, b := q / p, q % p;
    assert q == a * p + b && v == 256 * q + r;
    assert 256 * (a * p) == a * (256 * p);
    DivModUnique(v, a, 256 * b + r, 256 * p);
  }

  // The first bytes are the number modulo a power of 256.
  lemma {:induction false} PrefixValue(v: nat, n: nat, k: nat)
    requires k <= n
    ensures FromLittleEndian(LittleEndian(v, n)[..k]) == v % Power(256, k)
  {
    if k > 0 {
      var s := LittleEndian(v, n);
      PrefixValue(v / 256, n - 1, k - 1);
      assert s[..k][1..] == LittleEndian(v / 256, n - 1)[..k - 1];
      DivTwice(v, Power(256, k - 1));
    }
  }

  lemma KnownBytes()
    ensures LittleEndian(0xaabb_ccdd_eeff_0011, 8) == [0x11, 0x00, 0xff, 0xee, 0xdd, 0xcc, 0xbb, 0xaa]
  {
    hide LittleEndian, FourBytes;
    EightBytesAre(0xaabb_ccdd_eeff_0011);
    KnownHalves();
    assert [0x11, 0x00, 0xff, 0xee] + [0xdd, 0xcc, 0xbb, 0xaa] == [0x11, 0x00, 0xff, 0xee, 0xdd, 0xcc, 0xbb, 0xaa];
  }

  lemma KnownHalves()
    ensures FourBytes(0xeeff_0011) == [0x11, 0x00, 0xff, 0xee]
    ensures FourBytes(0xaabb_ccdd) == [0xdd, 0xcc, 0xbb, 0xaa]
  {}
}
