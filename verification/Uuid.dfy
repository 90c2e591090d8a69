/** uuid/uuid.cc: 128-bit identifiers and their text. */
module Uuids {
  import opened Arithmetic
  import opened Basics
  import opened Hexadecimal

  datatype Uuid = Uuid(hi: u64, lo: u64)

  datatype Error =
    | BadCharacter   // "non uuid character"
    | BadSize        // "malformed uuid"
    | BadHyphens     // "malformed uuid (check hyphens)"
    | OutOfBounds    // the iterator passes the end of the string

  // ---------- FromString ----------

  predicate KnownCharacters(s: string) {
    forall i :: 0 <= i < |s| ==> IsLowerHex(s[i]) || s[i] == '-'
  }

  // `std::stoull(curr, 0, 16)` of two known characters of which the first is a digit: a
  // hyphen in second place ends the number.
  function PairValue(a: char, b: char): (v: u8)
    requires IsLowerHex(a)
  {
    if IsLowerHex(b) then 16 * HexValue(a) + HexValue(b) else HexValue(a)
  }

  // Shifts a byte into the word that `count` selects.
  function PushByte(u: Uuid, v: u8, count: nat): Uuid {
    if count >= 8 then u.(lo := (u.lo * 256 + v) % TWO_64) else u.(hi := (u.hi * 256 + v) % TWO_64)
  }

  // The loop: hyphens are skipped, other characters taken in pairs.
  function Pairs(s: string, u: Uuid, count: nat): Result<Uuid, Error>
    requires KnownCharacters(s)
    decreases |s|
  {
    if s == "" then Success(u)
    else if s[0] == '-' then Pairs(s[1..], u, count)
    else if |s| == 1 then Failure(OutOfBounds)
    else Pairs(s[2..], PushByte(u, PairValue(s[0], s[1]), count), count + 1)
  }

  function FromString(s: string): Result<Uuid, Error> {
    if !KnownCharacters(s) then Failure(BadCharacter)
    else if |s| != 36 then Failure(BadSize)
    else if s[8] != '-' || s[13] != '-' || s[18] != '-' || s[23] != '-' then Failure(BadHyphens)
    else Pairs(s, Uuid(0, 0), 0)
  }

  // ---------- String ----------

  function Insert(s: string, at: nat, c: char): string
    requires at <= |s|
  {
    s[..at] + [c] + s[at..]
  }

  // The four hyphens, each inserted into the text that already holds the earlier ones.
  function Hyphenated(s: string): string
    requires |s| == 32
  {
    Insert(Insert(Insert(Insert(s, 8, '-'), 8 + 4 + 1, '-'), 8 + 4 + 4 + 2, '-'), 8 + 4 + 4 + 4 + 3, '-')
  }

  // Both words in hexadecimal, 16 digits each.
  function String(u: Uuid): string {
    Hyphenated(Hex(u.hi, 16) + Hex(u.lo, 16))
  }

  // The text form of section 3 of RFC 4122: groups of 8, 4, 4, 4 and 12 digits.
  predicate WellFormed(s: string) {
    && |s| == 36
    && s[8] == '-' && s[13] == '-' && s[18] == '-' && s[23] == '-'
    && AllHex(s[..8]) && AllHex(s[9..13]) && AllHex(s[14..18]) && AllHex(s[19..23]) && AllHex(s[24..])
  }

  function Bare(s: string): string
    requires |s| == 36
  {
    s[..8] + s[9..13] + s[14..18] + s[19..23] + s[24..]
  }

  // Inserting leaves what is before the place alone and moves what is behind it by one.
  lemma InsertMoves(s: string, at: nat, c: char)
    requires at <= |s|
    ensures var r := Insert(s, at, c);
            && |r| == |s| + 1 && r[at] == c
            && (forall n :: 0 <= n < at ==> r[n] == s[n])
            && (forall n :: at < n <= |s| ==> r[n] == s[n - 1])
  {}

  lemma HyphenatedAt(d: string)
    requires |d| == 32
    ensures var s := Hyphenated(d);
            && |s| == 36 && s[8] == '-' && s[13] == '-' && s[18] == '-' && s[23] == '-'
            && (forall n :: 0 <= n < 8 ==> s[n] == d[n])
            && (forall n :: 9 <= n < 13 ==> s[n] == d[n - 1])
            && (forall n :: 14 <= n < 18 ==> s[n] == d[n - 2])
            && (forall n :: 19 <= n < 23 ==> s[n] == d[n - 3])
            && (forall n :: 24 <= n < 36 ==> s[n] == d[n - 4])
  {
    var s1 := Insert(d, 8, '-');
    var s2 := Insert(s1, 13, '-');
    var s3 := Insert(s2, 18, '-');
    hide Insert;
    InsertMoves(d, 8, '-');
    InsertMoves(s1, 13, '-');
    InsertMoves(s2, 18, '-');
    InsertMoves(s3, 23, '-');
  }

  lemma HyphenatedGroups(d: string)
    requires |d| == 32
    ensures var s := Hyphenated(d);
            && |s| == 36 && s[8] == '-' && s[13] == '-' && s[18] == '-' && s[23] == '-'
            && s[..8] == d[..8] && s[9..13] == d[8..12] && s[14..18] == d[12..16]
            && s[19..23] == d[16..20] && s[24..] == d[20..]
  {
    hide Hyphenated;
    HyphenatedAt(d);
  }

  lemma HyphenatedBare(s: string)
    requires |s| == 36 && s[8] == '-' && s[13] == '-' && s[18] == '-' && s[23] == '-'
    ensures |Bare(s)| == 32 && Hyphenated(Bare(s)) == s
  {
    hide Hyphenated;
    var d := Bare(s);
    HyphenatedAt(d);
    var h := Hyphenated(d);
    forall n | 0 <= n < 36 ensures h[n] == s[n] {}
  }

  // ---------- digits into words ----------

  // The two words after the digits t: sixteen digits fill the first.
  function Words(t: string): Uuid
    requires |t| <= 32 && AllHex(t)
  {
    NumberFits(if |t| <= 16 then t else t[..16]);
    NumberFits(if |t| <= 16 then t else t[16..]);
    if |t| <= 16 then Uuid(Number(t), 0) else Uuid(Number(t[..16]), Number(t[16..]))
  }

  lemma SixteenDigits()
    ensures Power(16, 16) == TWO_64
  {
    assert Power(16, 4) == 0x1_0000;
    assert Power(16, 8) == 0x1_0000_0000;
    assert Power(16, 12) == 0x1_0000_0000_0000;
  }

  lemma NumberOfPair(t: string, a: char, b: char)
    requires AllHex(t) && IsLowerHex(a) && IsLowerHex(b)
    ensures AllHex(t + [a, b])
    ensures Number(t + [a, b]) == 256 * Number(t) + PairValue(a, b)
  {
    var s := t + [a, b];
    assert s[..|s| - 1] == t + [a];
    assert (t + [a])[..|t|] == t;
  }

  lemma PushIsWords(t: string, a: char, b: char)
    requires |t| % 2 == 0 && |t| < 32 && AllHex(t) && IsLowerHex(a) && IsLowerHex(b)
    ensures AllHex(t + [a, b])
    ensures PushByte(Words(t), PairValue(a, b), |t| / 2) == Words(t + [a, b])
  {
    hide Power, Number, PairValue;
    var s := t + [a, b];
    if |t| < 16 {
      NumberOfPair(t, a, b);
      NumberFits(s);
      ModSmall(Number(s), TWO_64);
    } else {
      var u := t[16..];
      NumberOfPair(u, a, b);
      assert s[16..] == u + [a, b];
      assert s[..16] == t[..16];
      NumberFits(s[16..]);
      ModSmall(Number(s[16..]), TWO_64);
      if |t| == 16 {
        assert t[..16] == t && u == "";
        EmptyIsZero();
      }
    }
  }

  lemma NumberFits(s: string)
    requires |s| <= 16 && AllHex(s)
    ensures Number(s) < TWO_64
  {
    SixteenDigits();
    PowerGrows(16, |s|, 16);
  }

  lemma EmptyIsZero()
    ensures Number("") == 0
  {}

  lemma {:induction false} PairsOfGroup(g: string, rest: string, t: string)
    requires |g| % 2 == 0 && |t| % 2 == 0 && |t| + |g| <= 32
    requires AllHex(g) && AllHex(t) && KnownCharacters(rest)
    ensures Pairs(g + rest, Words(t), |t| / 2) == Pairs(rest, Words(t + g), |t + g| / 2)
    decreases |g|
  {
    hide Words, Number, PushByte, PairValue;
    if g == "" {
      assert g + rest == rest && t + g == t;
    } else {
      var s := g + rest;
      assert s[2..] == g[2..] + rest;
      PushIsWords(t, g[0], g[1]);
      PairsOfGroup(g[2..], rest, t + [g[0], g[1]]);
      assert t + [g[0], g[1]] + g[2..] == t + g;
    }
  }

  lemma PairsOfHyphenated(d: string)
    requires |d| == 32 && AllHex(d)
    ensures FromString(Hyphenated(d)) == Success(Words(d))
  {
    HyphenatedGroups(d);
    var s := Hyphenated(d);
    HyphenatedIsKnown(d);
    GroupStep(s, 0, d, 0, 8);
    GroupStep(s, 9, d, 8, 12);
    GroupStep(s, 14, d, 12, 16);
    GroupStep(s, 19, d, 16, 20);
    assert s[0..] == s;
    var last := s[24..];
    assert last == d[20..32] + "";
    PairsOfGroup(d[20..32], "", d[..20]);
    assert d[..20] + d[20..32] == d;
  }

  lemma HyphenatedIsKnown(d: string)
    requires |d| == 32 && AllHex(d)
    ensures KnownCharacters(Hyphenated(d))
  {
    hide Hyphenated;
    HyphenatedAt(d);
  }

  // One group of digits and the hyphen behind it.
  lemma GroupStep(s: string, i: nat, d: string, from: nat, to: nat)
    requires KnownCharacters(s) && |d| == 32 && AllHex(d)
    requires from <= to < 32 && from % 2 == 0 && to % 2 == 0
    requires i + (to - from) < |s| && s[i..i + (to - from)] == d[from..to] && s[i + (to - from)] == '-'
    ensures Pairs(s[i..], Words(d[..from]), from / 2) == Pairs(s[i + (to - from) + 1..], Words(d[..to]), to / 2)
  {
    hide Pairs, Words;
    var g, rest := d[from..to], s[i + (to - from)..];
    assert s[i..] == g + rest;
    assert rest[1..] == s[i + (to - from) + 1..];
    assert d[..from] + g == d[..to];
    PairsOfGroup(g, rest, d[..from]);
    PairsOfHyphen(rest, Words(d[..to]), to / 2);
  }

  lemma PairsOfHyphen(s: string, u: Uuid, count: nat)
    requires s != "" && s[0] == '-' && KnownCharacters(s)
    ensures Pairs(s, u, count) == Pairs(s[1..], u, count)
  {
  }

  // ---------- the two are mutually inverse ----------

  lemma WordsOfText(u: Uuid)
    ensures Words(Hex(u.hi, 16) + Hex(u.lo, 16)) == u
  {
    SixteenDigits();
    NumberOfText(u.hi, 16);
    NumberOfText(u.lo, 16);
    var d := Hex(u.hi, 16) + Hex(u.lo, 16);
    assert d[..16] == Hex(u.hi, 16) && d[16..] == Hex(u.lo, 16);
  }

  lemma TextOfWords(d: string)
    requires |d| == 32 && AllHex(d)
    ensures Hex(Words(d).hi, 16) + Hex(Words(d).lo, 16) == d
  {
    TextOfNumber(d[..16]);
    TextOfNumber(d[16..]);
    assert d[..16] + d[16..] == d;
  }

  // Every identifier survives being printed and read.
  lemma StringIsRead(u: Uuid)
    ensures WellFormed(String(u))
    ensures FromString(String(u)) == Success(u)
  {
    var d := Hex(u.hi, 16) + Hex(u.lo, 16);
    HyphenatedGroups(d);
    PairsOfHyphenated(d);
    WordsOfText(u);
  }

  // The texts that are read and printed back unchanged are exactly the well-formed ones.
  lemma ReadIsString(s: string)
    ensures WellFormed(s) <==> FromString(s).Success? && String(FromString(s).value) == s
  {
    if WellFormed(s) {
      HyphenatedBare(s);
      PairsOfHyphenated(Bare(s));
      TextOfWords(Bare(s));
    } else if FromString(s).Success? {
      StringIsRead(FromString(s).value);
    }
  }

  // The check looks at four places only: a text of 36 hyphens is accepted too, as zero.
  lemma HyphensAreZero()
    ensures var s := seq(36, _ => '-');
            !WellFormed(s) && FromString(s) == Success(Uuid(0, 0))
  {
    var s := seq(36, _ => '-');
    HyphensAreSkipped(s, Uuid(0, 0), 0);
    assert !IsLowerHex(s[..8][0]);
  }

  lemma {:induction false} HyphensAreSkipped(s: string, u: Uuid, count: nat)
    requires forall i :: 0 <= i < |s| ==> s[i] == '-'
    ensures KnownCharacters(s) && Pairs(s, u, count) == Success(u)
  {
    if s != "" {
      HyphensAreSkipped(s[1..], u, count);
    }
  }

  // After `word <<= 8` the low byte is clear, so `word |= value` adds the value.
  lemma ShiftLeavesRoom(word: u64, value: u8)
    ensures BitOr(word * 256 % TWO_64, value) == (word * 256 + value) % TWO_64
  {
    var m := 0x100_0000_0000_0000;
    var q, r := word / m, word % m;
    assert word * 256 == q * TWO_64 + r * 256;
    DivModUnique(word * 256, q, r * 256, TWO_64);
    DivModUnique(word * 256 + value, q, r * 256 + value, TWO_64);
    Power2OfBytes();
    OrAdds(r, value, 8);
  }

  // The loop of FromString over the iterator, the byte counter and the array of two words.
  method Parse(s: string) returns (r: Result<Uuid, Error>)
    ensures r == FromString(s)
  {
    if !KnownCharacters(s) {
      return Failure(BadCharacter);
    }
    if |s| != 36 {
      return Failure(BadSize);
    }
    if s[8] != '-' || s[13] != '-' || s[18] != '-' || s[23] != '-' {
      return Failure(BadHyphens);
    }
    var arr: array<u64> := new u64[2][0, 0];
    var count, it := 0, 0;
    assert s[it..] == s;
    while it < |s|
      invariant 0 <= it <= |s| && 0 <= count
      invariant Pairs(s, Uuid(0, 0), 0) == Pairs(s[it..], Uuid(arr[0], arr[1]), count)
    {
      ghost var rest := s[it..];
      if s[it] == '-' {
        assert rest[1..] == s[it + 1..];
        it := it + 1;
      } else if it + 1 == |s| {
        return Failure(OutOfBounds);
      } else {
        assert rest[2..] == s[it + 2..];
        var value := PairValue(s[it], s[it + 1]);
        it := it + 2;
        var idx := if count >= 8 then 1 else 0;
        ShiftLeavesRoom(arr[idx], value);
        ghost var before := Uuid(arr[0], arr[1]);
        arr[idx] := arr[idx] * 256 % TWO_64;
        arr[idx] := BitOr(arr[idx], value);
        assert Uuid(arr[0], arr[1]) == PushByte(before, value, count);
        count := count + 1;
      }
    }
    return Success(Uuid(arr[0], arr[1]));
  }

  // ---------- a known identifier ----------

  lemma KnownHighWord()
    ensures Hex(0xf81d_4fae_7dec_11d0, 16) == "f81d4fae7dec11d0"
  {
    hide Hex;
    HexNothing(0);
    HexFour(0, 0, 0xf, 0x8, 0x1, 0xd);
    HexFour(0xf81d, 4, 0x4, 0xf, 0xa, 0xe);
    HexFour(0xf81d_4fae, 8, 0x7, 0xd, 0xe, 0xc);
    HexFour(0xf81d_4fae_7dec, 12, 0x1, 0x1, 0xd, 0x0);
  }

  lemma KnownLowWord()
    ensures Hex(0xa765_00a0_c91e_6bf6, 16) == "a76500a0c91e6bf6"
  {
    hide Hex;
    HexNothing(0);
    HexFour(0, 0, 0xa, 0x7, 0x6, 0x5);
    HexFour(0xa765, 4, 0x0, 0x0, 0xa, 0x0);
    HexFour(0xa765_00a0, 8, 0xc, 0x9, 0x1, 0xe);
    HexFour(0xa765_00a0_c91e, 12, 0x6, 0xb, 0xf, 0x6);
  }

  // The example of section 3 of RFC 4122, read and printed.
  lemma KnownUuid()
    ensures String(Uuid(0xf81d_4fae_7dec_11d0, 0xa765_00a0_c91e_6bf6)) == "f81d4fae-7dec-11d0-a765-00a0c91e6bf6"
    ensures FromString("f81d4fae-7dec-11d0-a765-00a0c91e6bf6")
         == Success(Uuid(0xf81d_4fae_7dec_11d0, 0xa765_00a0_c91e_6bf6))
  {
    hide Hex, FromString;
    KnownHighWord();
    KnownLowWord();
    KnownText();
    StringIsRead(Uuid(0xf81d_4fae_7dec_11d0, 0xa765_00a0_c91e_6bf6));
  }

  lemma KnownText()
    ensures Hyphenated("f81d4fae7dec11d0" + "a76500a0c91e6bf6") == "f81d4fae-7dec-11d0-a765-00a0c91e6bf6"
  {
    var d, s := "f81d4fae7dec11d0" + "a76500a0c91e6bf6", "f81d4fae-7dec-11d0-a765-00a0c91e6bf6";
    HyphenatedAt(d);
    hide Hyphenated;
    forall n | 0 <= n < 36 ensures Hyphenated(d)[n] == s[n] {}
  }

  // What is refused, and with which message.
  lemma Refusals(s: string)
    ensures FromString(s) == Failure(BadCharacter) <==> exists i :: 0 <= i < |s| && s[i] !in "0123456789abcdef-"
    ensures KnownCharacters(s) ==> (FromString(s) == Failure(BadSize) <==> |s| != 36)
    ensures KnownCharacters(s) && |s| == 36 ==>
              (FromString(s) == Failure(BadHyphens)
               <==> s[8] != '-' || s[13] != '-' || s[18] != '-' || s[23] != '-')
  {
    if KnownCharacters(s) {
      PairsFailure(s, Uuid(0, 0), 0);
    }
    forall i | 0 <= i < |s| ensures (IsLowerHex(s[i]) || s[i] == '-') <==> s[i] in "0123456789abcdef-" {
      KnownCharacter(s[i]);
    }
  }

  lemma KnownCharacter(c: char)
    ensures (IsLowerHex(c) || c == '-') <==> c in "0123456789abcdef-"
  {}

  lemma {:induction false} PairsFailure(s: string, u: Uuid, count: nat)
    requires KnownCharacters(s)
    ensures Pairs(s, u, count).Failure? ==> Pairs(s, u, count) == Failure(OutOfBounds)
    decreases |s|
  {
    hide PushByte, PairValue;
    if s != "" {
      if s[0] == '-' {
        PairsFailure(s[1..], u, count);
      } else if |s| > 1 {
        PairsFailure(s[2..], PushByte(u, PairValue(s[0], s[1]), count), count + 1);
      }
    }
  }
}
