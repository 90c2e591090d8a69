/** The instructions that the assembler supports, how they are written, their words in the
    LC-3 format, and the proof that writing, assembling and decoding a program gives it back. */
module TvmRoundTrip {
  import opened Arithmetic
  import opened Basics
  import opened Hexadecimal
  import opened TvmTokens
  import opened TvmAssembler
  import opened TvmTables

  datatype Source = Reg(r: nat) | Imm(v: int)

  // The condition codes that the mnemonics name; BR itself names none.
  datatype Condition = Bare | N | Z | P | NP | NZ | ZP

  datatype Instr =
    | Add(dr: nat, sr: nat, src: Source)
    | And(dr: nat, sr: nat, src: Source)
    | Not(dr: nat, sr: nat)
    | Branch(cond: Condition, off: int)
    | Ld(dr: nat, off: int)
    | Lea(dr: nat, off: int)
    | Puts
    | Halt

  datatype Program = Program(origin: u16, instrs: seq<Instr>)

  // Only R0 to R3 are classified as registers, but any of the eight is one as an operand; literals
  // have five bits, offsets nine.
  predicate ValidSource(src: Source) {
    match src case Reg(r) => r < 8 case Imm(v) => -16 <= v < 16
  }

  predicate ValidOffset(off: int) {
    -256 <= off < 256
  }

  predicate Valid(i: Instr) {
    match i
    case Add(dr, sr, src) => dr < 8 && sr < 8 && ValidSource(src)
    case And(dr, sr, src) => dr < 8 && sr < 8 && ValidSource(src)
    case Not(dr, sr) => dr < 8 && sr < 8
    case Branch(_, off) => ValidOffset(off)
    case Ld(dr, off) => dr < 8 && ValidOffset(off)
    case Lea(dr, off) => dr < 8 && ValidOffset(off)
    case Puts => true
    case Halt => true
  }

  predicate ValidProgram(p: Program) {
    |p.instrs| < 0xffff && forall k :: 0 <= k < |p.instrs| ==> Valid(p.instrs[k])
  }

  // ---------- the words, field by field ----------

  function SourceField(src: Source): nat
    requires ValidSource(src)
  {
    match src case Reg(r) => r case Imm(v) => 0x20 + v % 0x20
  }

  function ConditionBits(c: Condition): nat {
    match c case Bare => 0 case P => 1 case Z => 2 case ZP => 3 case N => 4 case NP => 5 case NZ => 6
  }

  function WordOf(i: Instr): nat
    requires Valid(i)
  {
    match i
    case Add(dr, sr, src) => 1 * 0x1000 + dr * 0x200 + sr * 0x40 + SourceField(src)
    case And(dr, sr, src) => 5 * 0x1000 + dr * 0x200 + sr * 0x40 + SourceField(src)
    case Not(dr, sr) => 9 * 0x1000 + dr * 0x200 + sr * 0x40 + 0x3f
    case Branch(c, off) => ConditionBits(c) * 0x200 + off % 0x200
    case Ld(dr, off) => 2 * 0x1000 + dr * 0x200 + off % 0x200
    case Lea(dr, off) => 14 * 0x1000 + dr * 0x200 + off % 0x200
    case Puts => 0xf022
    case Halt => 0xf025
  }

  // ---------- the decoder ----------

  function SignExtend(v: int, size: int): int {
    if 2 * v >= size then v - size else v
  }

  function DecodeSource(w: nat): Source {
    if w / 0x20 % 2 == 1 then Imm(SignExtend(w % 0x20, 0x20)) else Reg(w % 8)
  }

  function DecodeCondition(bits: nat): Option<Condition> {
    match bits
    case 0 => Some(Bare) case 1 => Some(P) case 2 => Some(Z) case 3 => Some(ZP)
    case 4 => Some(N) case 5 => Some(NP) case 6 => Some(NZ) case _ => None
  }

  function Decode(w: nat): Option<Instr> {
    var op, dr, sr, off := w / 0x1000, w / 0x200 % 8, w / 0x40 % 8, SignExtend(w % 0x200, 0x200);
    if op == 1 then Some(Add(dr, sr, DecodeSource(w)))
    else if op == 5 then Some(And(dr, sr, DecodeSource(w)))
    else if op == 9 then Some(Not(dr, sr))
    else if op == 0 then
      match DecodeCondition(dr) case None => None case Some(c) => Some(Branch(c, off))
    else if op == 2 then Some(Ld(dr, off))
    else if op == 14 then Some(Lea(dr, off))
    else if w == 0xf022 then Some(Puts)
    else if w == 0xf025 then Some(Halt)
    else None
  }

  function DecodeAll(words: seq<nat>): Option<seq<Instr>> {
    if words == [] then Some([])
    else
      match (Decode(words[0]), DecodeAll(words[1..]))
      case (Some(i), Some(rest)) => Some([i] + rest)
      case _ => None
  }

  function DecodeImage(words: seq<nat>): Option<Program> {
    if words == [] || words[0] >= TWO_16 then None
    else match DecodeAll(words[1..]) case None => None case Some(instrs) => Some(Program(words[0], instrs))
  }

  lemma SignExtendInverse(v: int, size: int)
    requires size > 0 && -size <= 2 * v < size
    ensures SignExtend(v % size, size) == v
  {
    if v < 0 {
      DivModUnique(v, -1, v + size, size);
    } else {
      DivModUnique(v, 0, v, size);
    }
  }

  // Splits op * 0x1000 + dr * 0x200 + low into its fields.
  lemma Fields(op: nat, dr: nat, low: nat)
    requires dr < 8 && low < 0x200
    ensures var w := op * 0x1000 + dr * 0x200 + low;
            w / 0x1000 == op && w / 0x200 % 8 == dr && w % 0x200 == low
            && w / 0x40 % 8 == low / 0x40 && w / 0x20 % 2 == low / 0x20 % 2
            && w % 0x20 == low % 0x20 && w % 8 == low % 8
  {
    var w := op * 0x1000 + dr * 0x200 + low;
    DivModUnique(w, op, dr * 0x200 + low, 0x1000);
    DivModUnique(w, op * 8 + dr, low, 0x200);
    DivModUnique(op * 8 + dr, op, dr, 8);
    DivModShift(op * 0x40 + dr * 8, low, 0x40);
    DivModShift(op * 8 + dr, low / 0x40, 8);
    DivModShift(op * 0x80 + dr * 0x10, low, 0x20);
    DivModShift(op * 0x40 + dr * 8, low / 0x20, 2);
    DivModShift(op * 0x200 + dr * 0x40, low, 8);
  }

  lemma SourceDecodes(sr: nat, src: Source)
    requires sr < 8 && ValidSource(src)
    ensures var low := sr * 0x40 + SourceField(src);
            && low < 0x200 && low / 0x40 == sr
            && (low / 0x20 % 2 == 1 <==> src.Imm?) && low % 8 == SourceField(src) % 8
            && (src.Imm? ==> low % 0x20 == src.v % 0x20)
  {
    var field := SourceField(src);
    var low := sr * 0x40 + field;
    DivModUnique(low, sr, field, 0x40);
    DivModShift(sr * 2, field, 0x20);
    DivModShift(sr, field / 0x20, 2);
    DivModShift(sr * 8, field, 8);
    if src.Imm? {
      DivModUnique(field, 1, src.v % 0x20, 0x20);
    }
  }

  lemma DecodeInverse(i: Instr)
    requires Valid(i)
    ensures Decode(WordOf(i)) == Some(i)
  {
    match i
    case Add(dr, sr, src) => DecodeArithmetic(1, dr, sr, src);
    case And(dr, sr, src) => DecodeArithmetic(5, dr, sr, src);
    case Not(dr, sr) =>
      DivModUnique(sr * 0x40 + 0x3f, sr, 0x3f, 0x40);
      Fields(9, dr, sr * 0x40 + 0x3f);
    case Branch(c, off) =>
      Fields(0, ConditionBits(c), off % 0x200);
      SignExtendInverse(off, 0x200);
    case Ld(dr, off) =>
      Fields(2, dr, off % 0x200);
      SignExtendInverse(off, 0x200);
    case Lea(dr, off) =>
      Fields(14, dr, off % 0x200);
      SignExtendInverse(off, 0x200);
    case Puts =>
    case Halt =>
  }

  lemma DecodeArithmetic(op: nat, dr: nat, sr: nat, src: Source)
    requires (op == 1 || op == 5) && dr < 8 && sr < 8 && ValidSource(src)
    ensures Decode(op * 0x1000 + dr * 0x200 + sr * 0x40 + SourceField(src))
         == Some(if op == 1 then Add(dr, sr, src) else And(dr, sr, src))
  {
    SourceDecodes(sr, src);
    var w := op * 0x1000 + dr * 0x200 + sr * 0x40 + SourceField(src);
    Fields(op, dr, sr * 0x40 + SourceField(src));
    assert DecodeSource(w) == src by {
      if src.Imm? {
        SignExtendInverse(src.v, 0x20);
      }
    }
    hide DecodeSource, SignExtend, SourceField;
  }

  // ---------- the text ----------

  function Digit(d: nat): char
    requires d < 10
  {
    '0' + d as char
  }

  function Decimal(n: nat): (s: string)
    ensures s != ""
  {
    if n < 10 then [Digit(n)] else Decimal(n / 10) + [Digit(n % 10)]
  }

  function RegText(r: nat): string
    requires r < 10
  {
    ['R', Digit(r)]
  }

  function NumText(v: int): string {
    if v < 0 then "#-" + Decimal(-v) else "#" + Decimal(v)
  }

  function SourceText(src: Source): string
    requires ValidSource(src)
  {
    match src case Reg(r) => RegText(r) case Imm(v) => NumText(v)
  }

  function BranchText(c: Condition): string {
    match c
    case Bare => "BR" case N => "BRn" case Z => "BRz" case P => "BRp"
    case NP => "BRnp" case NZ => "BRnz" case ZP => "BRzp"
  }

  // The mnemonic and the operands.
  function Parts(i: Instr): (ws: seq<string>)
    requires Valid(i)
    ensures ws != []
  {
    match i
    case Add(dr, sr, src) => ["ADD", RegText(dr), RegText(sr), SourceText(src)]
    case And(dr, sr, src) => ["AND", RegText(dr), RegText(sr), SourceText(src)]
    case Not(dr, sr) => ["NOT", RegText(dr), RegText(sr)]
    case Branch(c, off) => [BranchText(c), NumText(off)]
    case Ld(dr, off) => ["LD", RegText(dr), NumText(off)]
    case Lea(dr, off) => ["LEA", RegText(dr), NumText(off)]
    case Puts => ["PUTS"]
    case Halt => ["HALT"]
  }

  // Operands are separated by a comma and a space, the mnemonic by a space.
  function Operands(ws: seq<string>): string {
    if ws == [] then "\n" else if |ws| == 1 then ws[0] + "\n" else ws[0] + ", " + Operands(ws[1..])
  }

  function Line(ws: seq<string>): string
    requires ws != []
  {
    if |ws| == 1 then ws[0] + "\n" else ws[0] + " " + Operands(ws[1..])
  }

  function Lines(instrs: seq<Instr>): string
    requires forall k :: 0 <= k < |instrs| ==> Valid(instrs[k])
  {
    if instrs == [] then "" else Line(Parts(instrs[0])) + Lines(instrs[1..])
  }

  function Print(p: Program): string
    requires ValidProgram(p)
  {
    Line([".ORIG", "x" + Hex(p.origin, 4)]) + Lines(p.instrs)
  }

  // ---------- tokenizing the text ----------

  // No character of the word means anything to the tokenizer.
  predicate Plain(w: string) {
    forall i :: 0 <= i < |w| ==> w[i] != ';' && w[i] != '"' && w[i] != ':' && w[i] != '\n' && w[i] != ','
                                 && w[i] != ' ' && w[i] != '\t'
  }

  predicate PlainWords(ws: seq<string>) {
    forall i :: 0 <= i < |ws| ==> ws[i] != "" && Plain(ws[i])
  }

  function LineTokens(ws: seq<string>, line: nat): (ts: seq<Token>)
    ensures |ts| == |ws|
  {
    seq(|ws|, i requires 0 <= i < |ws| => MakeToken(ws[i], line))
  }

  lemma {:induction false} ScanWord(w: string, s: string, buffer: string, line: nat)
    requires Plain(w)
    ensures Scan(w + s, buffer, line) == Scan(s, buffer + w, line)
  {
    if w == "" {
      assert w + s == s && buffer + w == buffer;
    } else {
      assert (w + s)[1..] == w[1..] + s;
      ScanWord(w[1..], s, buffer + [w[0]], line);
      assert buffer + [w[0]] + w[1..] == buffer + w;
    }
  }

  // A word in front of a separator becomes a token.
  lemma ScanSeparated(w: string, separator: char, s: string, line: nat)
    requires Plain(w) && w != "" && (separator == ' ' || separator == ',' || separator == '\n')
    ensures Scan(w + [separator] + s, "", line)
         == Prepend([MakeToken(w, line)], Scan(s, "", if separator == '\n' then line + 1 else line))
  {
    ConcatAssociates(w, [separator], s);
    ScanWord(w, [separator] + s, "", line);
    ConcatEmpty(w);
    ScanSeparator(w, separator, s, line);
  }

  lemma ScanSeparator(buffer: string, separator: char, s: string, line: nat)
    requires buffer != "" && (separator == ' ' || separator == ',' || separator == '\n')
    ensures Scan([separator] + s, buffer, line)
         == Prepend([MakeToken(buffer, line)], Scan(s, "", if separator == '\n' then line + 1 else line))
  {
    hide Classify, Prepend;
    assert ([separator] + s)[1..] == s;
  }

  lemma ScanBlank(s: string, line: nat)
    ensures Scan(" " + s, "", line) == Scan(s, "", line)
  {
    assert (" " + s)[1..] == s;
    PrependNothing(Scan(s, "", line));
  }

  lemma {:induction false} ScanOperands(ws: seq<string>, s: string, line: nat)
    requires PlainWords(ws) && ws != []
    ensures Scan(Operands(ws) + s, "", line) == Prepend(LineTokens(ws, line), Scan(s, "", line + 1))
  {
    hide Plain, MakeToken, Scan, Prepend;
    var w := ws[0];
    if |ws| == 1 {
      ScanSeparated(w, '\n', s, line);
      assert LineTokens(ws, line) == [MakeToken(w, line)];
    } else {
      var rest := Operands(ws[1..]) + s;
      assert Operands(ws) + s == w + [','] + (" " + rest);
      ScanSeparated(w, ',', " " + rest, line);
      ScanBlank(rest, line);
      ScanOperands(ws[1..], s, line);
      PrependTwice([MakeToken(w, line)], LineTokens(ws[1..], line), Scan(s, "", line + 1));
      assert LineTokens(ws, line) == [MakeToken(w, line)] + LineTokens(ws[1..], line);
    }
  }

  lemma ScanLine(ws: seq<string>, s: string, line: nat)
    requires PlainWords(ws) && ws != []
    ensures Scan(Line(ws) + s, "", line) == Prepend(LineTokens(ws, line), Scan(s, "", line + 1))
  {
    hide Plain, MakeToken, Scan, Prepend;
    var w := ws[0];
    if |ws| == 1 {
      ScanSeparated(w, '\n', s, line);
      assert LineTokens(ws, line) == [MakeToken(w, line)];
    } else {
      var rest := Operands(ws[1..]) + s;
      ConcatAssociates(w, " ", Operands(ws[1..]));
      ConcatAssociates(w + " ", Operands(ws[1..]), s);
      ScanSeparated(w, ' ', rest, line);
      ScanOperands(ws[1..], s, line);
      PrependTwice([MakeToken(w, line)], LineTokens(ws[1..], line), Scan(s, "", line + 1));
      assert LineTokens(ws, line) == [MakeToken(w, line)] + LineTokens(ws[1..], line);
    }
  }

  // ---------- reading the numbers back ----------

  predicate AllDigits(s: string, base: nat) {
    forall i :: 0 <= i < |s| ==> DigitValue(s[i], base) < base
  }

  lemma {:induction false} DigitsAppend(s: string, c: char, base: nat, read: nat)
    requires AllDigits(s, base) && DigitValue(c, base) < base
    ensures DigitsValue(s + [c], base, read) == DigitsValue(s, base, read) * base + DigitValue(c, base)
  {
    if s == "" {
      assert s + [c] == [c] && [c][1..] == "";
    } else {
      assert (s + [c])[1..] == s[1..] + [c];
      DigitsAppend(s[1..], c, base, read * base + DigitValue(s[0], base));
    }
  }

  lemma {:induction false} DecimalReads(n: nat)
    ensures AllDigits(Decimal(n), 10) && DigitsValue(Decimal(n), 10, 0) == n
    ensures forall i :: 0 <= i < |Decimal(n)| ==> IsDigit(Decimal(n)[i])
    ensures n > 0 ==> Decimal(n)[0] != '0'
  {
    if n < 10 {
      assert [Digit(n)][1..] == "";
    } else {
      DecimalReads(n / 10);
      assert DigitValue(Digit(n % 10), 10) == n % 10;
      DigitsAppend(Decimal(n / 10), Digit(n % 10), 10, 0);
      assert Decimal(n)[0] == Decimal(n / 10)[0];
      assert forall i :: 0 <= i < |Decimal(n / 10)| ==> Decimal(n)[i] == Decimal(n / 10)[i];
    }
  }

  lemma {:induction false} HexReads(n: nat, digits: nat)
    requires n < Power(16, digits)
    ensures AllDigits(Hex(n, digits), 16) && DigitsValue(Hex(n, digits), 16, 0) == n
    ensures forall i :: 0 <= i < |Hex(n, digits)| ==> IsHexDigit(Hex(n, digits)[i]) && !IsUpper(Hex(n, digits)[i])
  {
    if digits > 0 {
      HexReads(n / 16, digits - 1);
      DigitsAppend(Hex(n / 16, digits - 1), HexDigit(n % 16), 16, 0);
    }
  }

  // Reading stops at the first character that is no digit.
  lemma {:induction false} DigitsEnd(s: string, rest: string, base: nat, read: nat)
    requires AllDigits(s, base) && (rest != "" ==> DigitValue(rest[0], base) == base)
    ensures DigitsValue(s + rest, base, read) == DigitsValue(s, base, read)
  {
    if s == "" {
      assert s + rest == rest;
    } else {
      assert (s + rest)[1..] == s[1..] + rest;
      DigitsEnd(s[1..], rest, base, read * base + DigitValue(s[0], base));
    }
  }

  predicate IsSign(sign: string) {
    sign == "" || sign == "+" || sign == "-"
  }

  // 16 bits of a number: too large a value gives the maximum, a minus the two's complement.
  function Saturated(sign: string, n: nat): u16 {
    if n > 65535 then 65535 else if sign == "-" && n > 0 then 65536 - n else n
  }

  lemma DecimalExtracted(sign: string, n: nat, rest: string)
    requires IsSign(sign) && (rest != "" ==> !('0' <= rest[0] <= '9'))
    ensures ExtractU16(sign + (Decimal(n) + rest), 10) == Saturated(sign, n)
  {
    hide DigitsValue, Decimal, AllDigits;
    DecimalReads(n);
    DigitsEnd(Decimal(n), rest, 10, 0);
    var digits := Decimal(n) + rest;
    assert digits[0] == Decimal(n)[0];
    assert (sign + digits)[|sign|..] == digits;
  }

  // A literal of any size.
  lemma LiteralReads(sign: string, n: nat, line: nat)
    requires sign == "" || sign == "-"
    ensures var t := MakeToken("#" + (sign + Decimal(n)), line);
            t.kind == NumberLiteral && LitValue(t) == Saturated(sign, n)
  {
    hide Classify, Decimal, ExtractU16;
    var digits := Decimal(n);
    var text := "#" + (sign + digits);
    DecimalReads(n);
    ConcatEmpty(digits);
    DecimalExtracted(sign, n, "");
    assert Tail(text) == sign + digits;
    assert IsNumberLiteral(text) by {
      assert Without(text, '#') == sign + digits;
      assert Without(sign + digits, '-') == digits;
      if n == 0 {
        DecimalZero();
      }
    }
    ClassOfNumber(text, line);
  }

  lemma NumTextReads(v: int, line: nat)
    requires ValidOffset(v)
    ensures var t := MakeToken(NumText(v), line); t.kind == NumberLiteral && LitValue(t) == v % TWO_16
    ensures NumText(v) != "" && Plain(NumText(v))
  {
    hide MakeToken, LitValue, Decimal;
    var n, sign := if v < 0 then -v else v, if v < 0 then "-" else "";
    assert NumText(v) == "#" + (sign + Decimal(n));
    LiteralReads(sign, n, line);
    NegatedModulo(v);
    DecimalReads(n);
  }

  lemma NegatedModulo(v: int)
    requires -TWO_16 <= v < TWO_16
    ensures v % TWO_16 == if v < 0 then TWO_16 + v else v
  {
    if v < 0 {
      DivModUnique(v, -1, TWO_16 + v, TWO_16);
    } else {
      ModSmall(v, TWO_16);
    }
  }

  lemma DecimalZero()
    ensures Decimal(0) == "0"
  {}

  lemma ClassOfNumber(v: string, line: nat)
    requires IsNumberLiteral(v) && v != "" && v[0] == '#'
    ensures MakeToken(v, line).kind == NumberLiteral
  {}

  lemma RegTextReads(r: nat, line: nat)
    requires r < 8
    ensures var t := MakeToken(RegText(r), line);
            && t.kind == (if r < 4 then Register else Unknown)
            && StringToRegister(Some(t)) == Success(r)
    ensures RegText(r) != "" && Plain(RegText(r))
  {
    var v := RegText(r);
    assert v[0] == 'R' && v[1] == Digit(r);
  }

  lemma OriginReads(origin: u16, line: nat)
    ensures var t := MakeToken("x" + Hex(origin, 4), line); t.kind == HexNumber && HexToU16(t) == origin
    ensures Plain("x" + Hex(origin, 4))
  {
    hide DigitsValue, Hex;
    assert Power(16, 4) == TWO_16 by { assert Power(16, 2) == 0x100; }
    HexReads(origin, 4);
    var v := "x" + Hex(origin, 4);
    assert forall i :: 1 <= i < |v| ==> v[i] == Hex(origin, 4)[i - 1];
    assert Tail(v) == Hex(origin, 4);
  }

  // ---------- from tokens to rows ----------

  function RowOf(ts: seq<Token>): Row
    requires ts != []
  {
    Row(None, Some(ts[0]), At(ts, 1), At(ts, 2), At(ts, 3))
  }

  // One instruction's tokens make one row, whatever follows.
  lemma InstructionLine(ws: seq<string>, line: nat, more: seq<Token>)
    requires ws != [] && Classify(ws[0]) == Instruction && Arity(ws[0]) == Some(|ws| - 1) && |ws| <= 4
    ensures ParseRow(LineTokens(ws, line) + more) == Success((Some(RowOf(LineTokens(ws, line))), more))
  {
    hide Classify, Arity;
    var ts := LineTokens(ws, line) + more;
    assert Drop(ts, |ws|) == more;
    assert forall i :: 0 <= i < |ws| ==> ts[i] == LineTokens(ws, line)[i];
  }

  lemma OriginLine(origin: string, line: nat, more: seq<Token>)
    ensures ParseRow(LineTokens([".ORIG", origin], line) + more)
         == Success((Some(RowOf(LineTokens([".ORIG", origin], line))), more))
  {
    var ts := LineTokens([".ORIG", origin], line) + more;
    assert Drop(ts, 2) == more;
    assert ts[0] == MakeToken(".ORIG", line) && ts[1] == MakeToken(origin, line);
    assert Classify(".ORIG") == Segment;
  }

  // What the assembler needs to know of a mnemonic with n operands.
  predicate Mnemonic(v: string, n: nat) {
    v != "" && Plain(v) && Classify(v) == Instruction && Arity(v) == Some(n)
  }

  lemma ArithmeticMnemonics()
    ensures Mnemonic("ADD", 3) && Mnemonic("AND", 3) && Mnemonic("NOT", 2)
  {}

  lemma LoadMnemonics()
    ensures Mnemonic("LD", 2) && Mnemonic("LEA", 2)
  {}

  lemma TrapMnemonics()
    ensures Mnemonic("PUTS", 0) && Mnemonic("HALT", 0)
  {}

  lemma BranchMnemonic(c: Condition)
    ensures Mnemonic(BranchText(c), 1)
  {
    assert IsBranch(BranchText(c));
  }

  lemma PartsMnemonic(i: Instr)
    requires Valid(i)
    ensures Mnemonic(Parts(i)[0], |Parts(i)| - 1) && |Parts(i)| <= 4
  {
    hide Mnemonic;
    ArithmeticMnemonics();
    LoadMnemonics();
    TrapMnemonics();
    if i.Branch? { BranchMnemonic(i.cond); }
  }

  // The operands of a well-formed instruction are plain words.
  lemma PartsPlain(i: Instr)
    requires Valid(i)
    ensures PlainWords(Parts(i))
  {
    hide Plain, NumText, RegText, SourceText, Mnemonic, BranchText, MakeToken, LitValue, StringToRegister;
    PartsMnemonic(i);
    MnemonicPlain(Parts(i)[0], |Parts(i)| - 1);
    match i
    case Add(dr, sr, src) => RegTextReads(dr, 0); RegTextReads(sr, 0); SourcePlain(src);
    case And(dr, sr, src) => RegTextReads(dr, 0); RegTextReads(sr, 0); SourcePlain(src);
    case Not(dr, sr) => RegTextReads(dr, 0); RegTextReads(sr, 0);
    case Branch(c, off) => NumTextReads(off, 0);
    case Ld(dr, off) => RegTextReads(dr, 0); NumTextReads(off, 0);
    case Lea(dr, off) => RegTextReads(dr, 0); NumTextReads(off, 0);
    case Puts =>
    case Halt =>
  }

  lemma MnemonicPlain(v: string, n: nat)
    requires Mnemonic(v, n)
    ensures v != "" && Plain(v)
  {}

  lemma SourcePlain(src: Source)
    requires ValidSource(src)
    ensures SourceText(src) != "" && Plain(SourceText(src))
  {
    match src
    case Reg(r) => RegTextReads(r, 0);
    case Imm(v) => NumTextReads(v, 0);
  }

  // ---------- from rows to words ----------

  lemma OrFields(hi: nat, lo: nat, m: nat)
    requires lo < m && (m == 0x1000 || m == 0x200 || m == 0x40 || m == 0x20)
    ensures BitOr(hi * m, lo) == hi * m + lo
  {
    assert Power(2, 5) == 0x20 && Power(2, 6) == 0x40;
    assert Power(2, 9) == 0x200 by { assert Power(2, 7) == 0x80; }
    assert Power(2, 12) == 0x1000 by { assert Power(2, 10) == 0x400; }
    OrAdds(hi, lo, if m == 0x1000 then 12 else if m == 0x200 then 9 else if m == 0x40 then 6 else 5);
  }

  // Three-register and immediate forms.
  lemma ArithmeticWord(op: nat, dr: nat, sr: nat, third: nat)
    requires op < 16 && dr < 8 && sr < 8 && third < 0x40
    ensures BitOr(BitOr(BitOr(op * 0x1000, AsDR(dr)), AsSR1(sr)), third) == op * 0x1000 + dr * 0x200 + sr * 0x40 + third
  {
    hide BitOr;
    OrFields(op, dr * 0x200, 0x1000);
    OrFields(op * 8 + dr, sr * 0x40, 0x200);
    OrFields(op * 0x40 + dr * 8 + sr, third, 0x40);
  }

  lemma LoadWord(op: nat, dr: nat, low: nat)
    requires op < 16 && dr < 8 && low < 0x200
    ensures BitOr(BitOr(op * 0x1000, AsDR(dr)), low) == op * 0x1000 + dr * 0x200 + low
  {
    hide BitOr;
    OrFields(op, dr * 0x200, 0x1000);
    OrFields(op * 8 + dr, low, 0x200);
  }

  // Reducing modulo 2^16 first does not change the low bits that the encoder keeps.
  lemma LowBitsKept(v: int, m: int)
    requires m == 0x20 || m == 0x200
    ensures v % TWO_16 % m == v % m
  {
    var k := TWO_16 / m;
    assert v == v / TWO_16 * k * m + v % TWO_16;
    DivModShift(v / TWO_16 * k, v % TWO_16, m);
  }

  lemma SourceEncodes(src: Source, line: nat)
    requires ValidSource(src)
    ensures ThirdOperand(Some(MakeToken(SourceText(src), line))) == Success(SourceField(src))
    ensures SourceField(src) < 0x40
  {
    hide MakeToken, LitValue, BitOr, StringToRegister;
    match src
    case Reg(r) => RegTextReads(r, line);
    case Imm(v) =>
      NumTextReads(v, line);
      LowBitsKept(v, 0x20);
      OrFields(1, v % 0x20, 0x20);
  }

  lemma ArithmeticRow(name: string, op: nat, dr: nat, sr: nat, src: Source, line: nat)
    requires dr < 8 && sr < 8 && ValidSource(src) && op < 16
    ensures var row := RowOf(LineTokens([name, RegText(dr), RegText(sr), SourceText(src)], line));
            ThreeOperands(op * 0x1000, row) == Success(op * 0x1000 + dr * 0x200 + sr * 0x40 + SourceField(src))
  {
    hide MakeToken, ThirdOperand, BitOr, StringToRegister, RegText, SourceText, AsDR, AsSR1;
    RegTextReads(dr, line);
    RegTextReads(sr, line);
    SourceEncodes(src, line);
    ArithmeticWord(op, dr, sr, SourceField(src));
  }

  lemma LoadRow(name: string, op: nat, dr: nat, off: int, line: nat)
    requires dr < 8 && ValidOffset(off) && op < 16
    ensures Load(op * 0x1000, RowOf(LineTokens([name, RegText(dr), NumText(off)], line)))
         == Success(op * 0x1000 + dr * 0x200 + off % 0x200)
  {
    hide MakeToken, BitOr, StringToRegister, RegText, NumText, AsDR, LitValue;
    RegTextReads(dr, line);
    NumTextReads(off, line);
    LowBitsKept(off, 0x200);
    LoadWord(op, dr, off % 0x200);
  }

  lemma BranchRow(c: Condition, off: int, line: nat)
    requires ValidOffset(off)
    ensures BranchWord(BranchText(c)) == Some(ConditionBits(c) * 0x200)
    ensures BitOr(ConditionBits(c) * 0x200, LitValue(MakeToken(NumText(off), line)) % 0x200)
         == ConditionBits(c) * 0x200 + off % 0x200
  {
    hide MakeToken, BitOr, NumText, LitValue;
    NumTextReads(off, line);
    LowBitsKept(off, 0x200);
    OrFields(ConditionBits(c), off % 0x200, 0x200);
  }

  // Which branch of the encoder a mnemonic takes.
  lemma EncodeAddAnd(row: Row)
    requires row.op.Some?
    ensures row.op.value.value == "ADD" ==> EncodeRow(row) == Word(ThreeOperands(ADD_OP, row))
    ensures row.op.value.value == "AND" ==> EncodeRow(row) == Word(ThreeOperands(AND_OP, row))
  {
    hide ThreeOperands, Load, StringToRegister, BitOr;
  }

  lemma EncodeLoads(row: Row)
    requires row.op.Some?
    ensures row.op.value.value == "LD" ==> EncodeRow(row) == Word(Load(LD_OP, row))
    ensures row.op.value.value == "LEA" ==> EncodeRow(row) == Word(Load(LEA_OP, row))
  {
    hide ThreeOperands, Load, StringToRegister, BitOr, BranchWord;
  }

  lemma EncodeTraps(row: Row)
    requires row.op.Some?
    ensures row.op.value.value == "PUTS" ==> EncodeRow(row) == Success(Some(0xf022))
    ensures row.op.value.value == "HALT" ==> EncodeRow(row) == Success(Some(0xf025))
  {
    hide ThreeOperands, Load, StringToRegister, BitOr, BranchWord;
  }

  lemma EncodeBranches(row: Row, c: Condition)
    requires row.op.Some? && row.a.Some? && row.op.value.value == BranchText(c)
    ensures EncodeRow(row) == Success(Some(BitOr(BranchWord(BranchText(c)).value, LitValue(row.a.value) % 0x200)))
  {
    hide ThreeOperands, Load, StringToRegister, BitOr, LitValue;
  }

  lemma EncodeNot(row: Row, dr: nat, sr: nat)
    requires row.op.Some? && row.op.value.value == "NOT" && dr < 8 && sr < 8
    requires StringToRegister(row.a) == Success(dr) && StringToRegister(row.b) == Success(sr)
    ensures EncodeRow(row) == Success(Some(9 * 0x1000 + dr * 0x200 + sr * 0x40 + 0x3f))
  {
    hide StringToRegister, BitOr, AsDR, AsSR1;
    ArithmeticWord(9, dr, sr, 0x3f);
  }

  // The encoder gives every instruction its word.
  lemma InstructionEncodes(i: Instr, line: nat)
    requires Valid(i)
    ensures EncodeRow(RowOf(LineTokens(Parts(i), line))) == Success(Some(WordOf(i)))
  {
    hide EncodeRow, ThreeOperands, Load, BitOr, StringToRegister;
    hide RegText, NumText, SourceText, BranchText, LitValue, Classify;
    var row := RowOf(LineTokens(Parts(i), line));
    match i
    case Add(dr, sr, src) => ArithmeticRow("ADD", 1, dr, sr, src, line); EncodeAddAnd(row);
    case And(dr, sr, src) => ArithmeticRow("AND", 5, dr, sr, src, line); EncodeAddAnd(row);
    case Not(dr, sr) => RegTextReads(dr, line); RegTextReads(sr, line); EncodeNot(row, dr, sr);
    case Branch(c, off) => BranchRow(c, off, line); EncodeBranches(row, c);
    case Ld(dr, off) => LoadRow("LD", 2, dr, off, line); EncodeLoads(row);
    case Lea(dr, off) => LoadRow("LEA", 14, dr, off, line); EncodeLoads(row);
    case Puts => EncodeTraps(row);
    case Halt => EncodeTraps(row);
  }

  // ---------- whole programs ----------

  predicate AllValid(instrs: seq<Instr>) {
    forall k :: 0 <= k < |instrs| ==> Valid(instrs[k])
  }

  function ProgramTokens(instrs: seq<Instr>, line: nat): seq<Token>
    requires AllValid(instrs)
  {
    if instrs == [] then [] else LineTokens(Parts(instrs[0]), line) + ProgramTokens(instrs[1..], line + 1)
  }

  function ProgramRows(instrs: seq<Instr>, line: nat): (rows: seq<Row>)
    requires AllValid(instrs)
    ensures |rows| == |instrs|
  {
    seq(|instrs|, k requires 0 <= k < |instrs| => RowOf(LineTokens(Parts(instrs[k]), line + k)))
  }

  function ProgramWords(instrs: seq<Instr>): (words: seq<nat>)
    requires AllValid(instrs)
    ensures |words| == |instrs|
  {
    seq(|instrs|, k requires 0 <= k < |instrs| => WordOf(instrs[k]))
  }

  lemma {:induction false} TokenizeLines(instrs: seq<Instr>, line: nat)
    requires AllValid(instrs)
    ensures Scan(Lines(instrs), "", line) == Success(ProgramTokens(instrs, line))
  {
    hide Parts, Line, LineTokens, PlainWords, Valid;
    if instrs != [] {
      PartsPlain(instrs[0]);
      ScanLine(Parts(instrs[0]), Lines(instrs[1..]), line);
      TokenizeLines(instrs[1..], line + 1);
    }
  }

  lemma {:induction false} ParseLines(instrs: seq<Instr>, line: nat)
    requires AllValid(instrs)
    ensures Rows(ProgramTokens(instrs, line)) == Success(ProgramRows(instrs, line))
  {
    hide Parts, ParseRow, RowOf, Valid;
    if instrs != [] {
      var ws, more := Parts(instrs[0]), ProgramTokens(instrs[1..], line + 1);
      PartsMnemonic(instrs[0]);
      InstructionLine(ws, line, more);
      ParseLines(instrs[1..], line + 1);
      var row, rows := RowOf(LineTokens(ws, line)), ProgramRows(instrs[1..], line + 1);
      assert Rows(LineTokens(ws, line) + more) == Success([row] + rows);
      assert [row] + rows == ProgramRows(instrs, line);
    }
  }

  lemma {:induction false} EncodeWords(first: Row, instrs: seq<Instr>, line: nat, origin: nat)
    requires AllValid(instrs) && |instrs| < IMAGE_SIZE && EncodeRow(first) == Success(Some(origin))
    ensures Encode([first] + ProgramRows(instrs, line)) == Success([origin] + ProgramWords(instrs))
    decreases |instrs|
  {
    hide EncodeRow, RowOf, Parts, WordOf, Valid;
    var rows, n := [first] + ProgramRows(instrs, line), |instrs|;
    if instrs == [] {
      assert rows == [first] && rows[..0] == [];
      assert [origin] + ProgramWords(instrs) == [origin];
      assert Encode(rows[..|rows| - 1]) == Success([]);
      var none: seq<nat> := [];
      assert rows[|rows| - 1] == first && none + [origin] == [origin];
    } else {
      var before := instrs[..n - 1];
      EncodeWords(first, before, line, origin);
      InstructionEncodes(instrs[n - 1], line + n - 1);
      assert rows[..|rows| - 1] == [first] + ProgramRows(before, line);
      assert rows[|rows| - 1] == RowOf(LineTokens(Parts(instrs[n - 1]), line + n - 1));
      assert [origin] + ProgramWords(instrs) == ([origin] + ProgramWords(before)) + [WordOf(instrs[n - 1])];
    }
  }

  lemma {:induction false} DecodeWords(instrs: seq<Instr>)
    requires AllValid(instrs)
    ensures DecodeAll(ProgramWords(instrs)) == Some(instrs)
  {
    hide Decode, WordOf, Valid;
    if instrs != [] {
      DecodeInverse(instrs[0]);
      DecodeWords(instrs[1..]);
      assert ProgramWords(instrs)[1..] == ProgramWords(instrs[1..]);
      assert instrs == [instrs[0]] + instrs[1..];
    }
  }

  lemma OriginEncodes(origin: u16, line: nat)
    ensures EncodeRow(RowOf(LineTokens([".ORIG", "x" + Hex(origin, 4)], line))) == Success(Some(origin))
  {
    hide Hex, HexToU16, Classify;
    OriginReads(origin, line);
  }

  // The parser turns the text's tokens into the program's rows.
  lemma ProgramParses(p: Program)
    requires ValidProgram(p)
    ensures TokensOf(Print(p)).Success? && Parse(TokensOf(Print(p)).value).Success?
    ensures Parse(TokensOf(Print(p)).value).value
         == [RowOf(LineTokens([".ORIG", "x" + Hex(p.origin, 4)], 1))] + ProgramRows(p.instrs, 2)
  {
    hide Parts, Line, LineTokens, RowOf, ParseRow, Hex, Plain, Valid, ProgramTokens, ProgramRows, BuildSymtab;
    var ws := [".ORIG", "x" + Hex(p.origin, 4)];
    OriginReads(p.origin, 1);
    OriginPlain();
    ScanLine(ws, Lines(p.instrs), 1);
    TokenizeLines(p.instrs, 2);
    var more, rows := ProgramTokens(p.instrs, 2), ProgramRows(p.instrs, 2);
    OriginLine(ws[1], 1, more);
    ParseLines(p.instrs, 2);
    var first := RowOf(LineTokens(ws, 1));
    assert Rows(LineTokens(ws, 1) + more) == Success([first] + rows);
    ProgramSymtab(ws[1], p.instrs);
  }

  lemma OriginPlain()
    ensures ".ORIG" != "" && Plain(".ORIG")
  {}

  lemma ProgramSymtab(origin: string, instrs: seq<Instr>)
    requires AllValid(instrs)
    ensures BuildSymtab([RowOf(LineTokens([".ORIG", origin], 1))] + ProgramRows(instrs, 2)).Success?
  {
    hide Classify, Valid;
    var rows := [RowOf(LineTokens([".ORIG", origin], 1))] + ProgramRows(instrs, 2);
    forall k | 0 <= k < |rows|
      ensures IsComplete(rows[k])
    {
      if k > 0 {
        var ws := Parts(instrs[k - 1]);
        assert rows[k] == RowOf(LineTokens(ws, 2 + (k - 1)));
        PartsMnemonic(instrs[k - 1]);
        NotOrigin(ws[0], |ws| - 1);
      }
    }
    TableBuilds(rows);
  }

  lemma NotOrigin(v: string, n: nat)
    requires Mnemonic(v, n)
    ensures v != ".ORIG"
  {
    assert Classify(".ORIG") == Segment;
  }

  // Writing a supported program, assembling the text and decoding the image gives the program back.
  lemma AssembleInverse(p: Program)
    requires ValidProgram(p)
    ensures Assemble(Print(p)) == Success([p.origin as nat] + ProgramWords(p.instrs))
    ensures DecodeImage([p.origin as nat] + ProgramWords(p.instrs)) == Some(p)
  {
    hide Parse, TokensOf, Print, RowOf, EncodeRow, Encode, Decode, WordOf, Valid, ProgramRows;
    ProgramParses(p);
    OriginEncodes(p.origin, 1);
    EncodeWords(RowOf(LineTokens([".ORIG", "x" + Hex(p.origin, 4)], 1)), p.instrs, 2, p.origin);
    DecodeWords(p.instrs);
    var words := [p.origin as nat] + ProgramWords(p.instrs);
    assert words[1..] == ProgramWords(p.instrs);
  }
}
