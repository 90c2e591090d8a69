/** Images, classes and tokens of known texts for tvm/tvm.cc. */
module TvmValues {
  import opened Arithmetic
  import opened Basics
  import opened Hexadecimal
  import opened TvmTokens
  import opened TvmAssembler
  import opened TvmLayout
  import opened TvmRoundTrip

  // ---------- images ----------

  const ARITHMETIC: string :=
    ".ORIG x3000\n" + ("ADD R0, R1, R2\n" + ("ADD R0, R1, #4\n" + ("ADD R0, R1, #-1\n" + "HALT\n")))

  lemma ArithmeticText()
    ensures var p := Program(0x3000, [Add(0, 1, Reg(2)), Add(0, 1, Imm(4)), Add(0, 1, Imm(-1)), Halt]);
            ValidProgram(p) && Print(p) == ARITHMETIC
  {
    hide Lines, Line, Hex;
    OriginWord();
    ArithmeticLines();
    var i1, i2, i3, i4 := Add(0, 1, Reg(2)), Add(0, 1, Imm(4)), Add(0, 1, Imm(-1)), Halt;
    LinesStep(i4, []);
    LinesStep(i3, [i4]);
    LinesStep(i2, [i3, i4]);
    LinesStep(i1, [i2, i3, i4]);
    assert [i1] + [i2, i3, i4] == [i1, i2, i3, i4] && [i2] + [i3, i4] == [i2, i3, i4];
    assert [i3] + [i4] == [i3, i4];
    assert [i4] + [] == [i4];
    NoLines();
    ConcatEmpty("HALT\n");
  }

  lemma LinesStep(i: Instr, rest: seq<Instr>)
    requires Valid(i) && forall k :: 0 <= k < |rest| ==> Valid(rest[k])
    ensures forall k :: 0 <= k < |[i] + rest| ==> Valid(([i] + rest)[k])
    ensures Lines([i] + rest) == Line(Parts(i)) + Lines(rest)
  {
    hide Line, Parts;
    assert ([i] + rest)[1..] == rest;
  }

  lemma NoLines()
    ensures Lines([]) == ""
  {}

  lemma ArithmeticLines()
    ensures Line([".ORIG", "x3000"]) == ".ORIG x3000\n" && Line(Parts(Halt)) == "HALT\n"
    ensures Line(Parts(Add(0, 1, Reg(2)))) == "ADD R0, R1, R2\n"
    ensures Line(Parts(Add(0, 1, Imm(4)))) == "ADD R0, R1, #4\n"
    ensures Line(Parts(Add(0, 1, Imm(-1)))) == "ADD R0, R1, #-1\n"
  {
    OneOperand(".ORIG", "x3000");
    OperandTexts();
    ThreeOperandLine("ADD", "R0", "R1", "R2");
    ThreeOperandLine("ADD", "R0", "R1", "#4");
    ThreeOperandLine("ADD", "R0", "R1", "#-1");
    hide Line, Decimal;
    LineOfOne("HALT");
  }

  lemma OperandTexts()
    ensures RegText(0) == "R0" && RegText(1) == "R1" && RegText(2) == "R2"
    ensures NumText(4) == "#4" && NumText(-1) == "#-1"
  {}

  lemma LineOfOne(m: string)
    ensures Line([m]) == m + "\n"
  {}

  lemma OneOperand(m: string, a: string)
    ensures Line([m, a]) == m + " " + (a + "\n")
  {
    assert [m, a][1..] == [a];
  }

  lemma ThreeOperandLine(m: string, a: string, b: string, c: string)
    ensures Line([m, a, b, c]) == m + " " + (a + ", " + (b + ", " + (c + "\n")))
  {
    assert [m, a, b, c][1..] == [a, b, c] && [a, b, c][1..] == [b, c] && [b, c][1..] == [c];
    assert Operands([b, c]) == b + ", " + Operands([c]);
  }

  // The words of tvm/test/data/arithmetic.asm.
  lemma ArithmeticImage()
    ensures Assemble(ARITHMETIC)
         == Success([0x3000, 0x1042, 0x1064, 0x107f, 0xf025])
  {
    hide Assemble, Print;
    ArithmeticText();
    var p := Program(0x3000, [Add(0, 1, Reg(2)), Add(0, 1, Imm(4)), Add(0, 1, Imm(-1)), Halt]);
    AssembleInverse(p);
    assert [p.origin as nat] + ProgramWords(p.instrs) == [0x3000, 0x1042, 0x1064, 0x107f, 0xf025];
  }

  // And those of tvm/test/data/ands.asm.
  lemma AndWords()
    ensures WordOf(And(1, 2, Reg(3))) == 0x5283 && WordOf(And(3, 2, Reg(1))) == 0x5681
    ensures WordOf(And(1, 2, Imm(1))) == 0x52a1
  {}

  // One word of each other kind, with its fields in the places of the LC-3 format.
  lemma OtherWords()
    ensures WordOf(Not(1, 2)) == 0x92bf && WordOf(Ld(2, 5)) == 0x2405 && WordOf(Lea(3, -1)) == 0xe7ff
    ensures WordOf(Branch(Bare, 1)) == 0x0001 && WordOf(Branch(N, 1)) == 0x0801 && WordOf(Branch(Z, 1)) == 0x0401
    ensures WordOf(Branch(P, 1)) == 0x0201 && WordOf(Branch(NP, 1)) == 0x0a01 && WordOf(Branch(NZ, 1)) == 0x0c01
    ensures WordOf(Branch(ZP, 1)) == 0x0601 && WordOf(Branch(N, -1)) == 0x09ff
    ensures WordOf(Puts) == 0xf022 && WordOf(Halt) == 0xf025
  {}

  // The operations that the encoder knows besides, on rows that the parser does not make.
  lemma RemainingWords(row: Row)
    requires row.op.Some?
    ensures row.op.value.value == "GETC" ==> EncodeRow(row) == Success(Some(0xf020))
    ensures row.op.value.value == "OUT" ==> EncodeRow(row) == Success(Some(0xf021))
    ensures row.op.value.value == "IN" ==> EncodeRow(row) == Success(Some(0xf023))
    ensures row.op.value.value == "PUTSP" ==> EncodeRow(row) == Success(Some(0xf024))
    ensures row.op.value.value == "RET" ==> EncodeRow(row) == Success(Some(0xc1c0))
  {
    hide ThreeOperands, Load, StringToRegister, BitOr, LitValue;
  }

  // LDI has the form of LD, and ST puts its first operand into both its fields.
  lemma IndirectWords(dr: nat, off: int, line: nat)
    requires dr < 8 && ValidOffset(off)
    ensures EncodeRow(RowOf(LineTokens(["LDI", RegText(dr), NumText(off)], line)))
         == Success(Some(0xa000 + dr * 0x200 + off % 0x200))
    ensures EncodeRow(RowOf(LineTokens(["ST", RegText(dr)], line))) == Success(Some(0x3000 + dr * 0x40 + dr))
  {
    hide ThreeOperands, Load, BitOr, StringToRegister, RegText, NumText, LitValue, Classify, ExtractU16;
    LoadRow("LDI", 10, dr, off, line);
    RegTextReads(dr, line);
    RegisterNumber(dr, line);
    OrFields(3, dr * 0x40, 0x1000);
    OrFields(0xc0 + dr, dr, 0x40);
  }

  // The literal that a register would be.
  lemma RegisterNumber(r: nat, line: nat)
    requires r < 8
    ensures LitValue(MakeToken(RegText(r), line)) == r
  {
    hide ExtractU16, Classify, DigitsValue;
    assert Tail(RegText(r)) == Decimal(r);
    ConcatEmpty(Decimal(r));
    DecimalExtracted("", r, "");
  }

  // ---------- classes ----------

  lemma CapitalIs(c: char)
    ensures c in "ABCDEFGHIJKLMNOPQRSTUVWXYZ" <==> IsUpper(c)
  {}

  lemma DigitIs(c: char)
    ensures c in "0123456789" <==> IsDigit(c)
    ensures c in "123456789" <==> '1' <= c <= '9'
  {}

  lemma HexDigitIs(c: char)
    ensures c in "0123456789abcdefABCDEF" <==> IsHexDigit(c)
  {}

  // The first character tells the classes apart, but for mnemonics, registers and labels.
  lemma FirstCharacters(v: string)
    ensures IsSegment(v) ==> |v| >= 3 && v[0] == '.'
    ensures IsInstruction(v) || IsRegister(v) ==> v != "" && IsUpper(v[0])
    ensures IsLabel(v) ==> v != "" && (IsUpper(v[0]) || v[0] == '_')
    ensures IsHexNumber(v) ==> v != "" && v[0] == 'x'
    ensures IsNumberLiteral(v) ==> v != "" && (v[0] == '#' || v[0] == '-' || IsDigit(v[0]))
    ensures IsPunct(v) ==> |v| == 1 && (v[0] == ',' || v[0] == '.' || v[0] == ':' || v[0] == ';')
    ensures IsString(v) ==> v != "" && v[0] == '"'
  {}

  lemma ClassIs(v: string)
    ensures Classify(v) == Segment <==> IsSegment(v)
    ensures Classify(v) == Instruction <==> IsInstruction(v)
    ensures Classify(v) == Register <==> IsRegister(v)
    ensures Classify(v) == Label <==> IsLabel(v) && !IsInstruction(v)
    ensures Classify(v) == HexNumber <==> IsHexNumber(v)
    ensures Classify(v) == NumberLiteral <==> IsNumberLiteral(v)
    ensures Classify(v) == Punct <==> IsPunct(v)
    ensures Classify(v) == String <==> IsString(v)
  {
    FirstCharacters(v);
    assert IsRegister(v) ==> !IsInstruction(v);
    assert IsRegister(v) ==> !IsLabel(v);
    hide IsSegment, IsInstruction, IsRegister, IsLabel, IsHexNumber, IsNumberLiteral, IsPunct, IsString;
  }

  // A dot, a capital, and at least one more capital or digit.
  lemma SegmentClass(v: string)
    ensures Classify(v) == Segment
      <==> |v| >= 3 && v[0] == '.' && v[1] in "ABCDEFGHIJKLMNOPQRSTUVWXYZ"
           && forall i :: 2 <= i < |v| ==> v[i] in "ABCDEFGHIJKLMNOPQRSTUVWXYZ" || v[i] in "0123456789"
  {
    hide Classify, IsUpper, IsDigit;
    ClassIs(v);
    forall c ensures c in "ABCDEFGHIJKLMNOPQRSTUVWXYZ" <==> IsUpper(c) {
      CapitalIs(c);
    }
    forall c ensures c in "0123456789" <==> IsDigit(c) {
      DigitIs(c);
    }
  }

  lemma InstructionClass(v: string)
    ensures Classify(v) == Instruction
      <==> v in {"AND", "ADD", "BR", "BRn", "BRzp", "BRnz", "BRp", "BRz", "BRnp", "HALT", "JMP", "LD", "LDI", "LEA",
                 "LDR", "PUTS", "ST", "NOT"}
  {
    ClassIs(v);
  }

  lemma RegisterClass(v: string)
    ensures Classify(v) == Register <==> v in {"R0", "R1", "R2", "R3"}
  {
    ClassIs(v);
    if IsRegister(v) {
      assert v == [v[0], v[1]] && v[1] in "0123";
    }
  }

  // A capital other than R, or an underscore, and then capitals, digits and underscores.
  lemma LabelClass(v: string)
    ensures Classify(v) == Label
      <==> && |v| >= 2 && ((v[0] in "ABCDEFGHIJKLMNOPQRSTUVWXYZ" && v[0] != 'R') || v[0] == '_')
           && (forall i :: 1 <= i < |v| ==>
                 v[i] in "ABCDEFGHIJKLMNOPQRSTUVWXYZ" || v[i] in "0123456789" || v[i] == '_')
           && v !in {"AND", "ADD", "BR", "HALT", "JMP", "LD", "LDI", "LEA", "LDR", "PUTS", "ST", "NOT"}
  {
    hide Classify, IsUpper, IsDigit;
    ClassIs(v);
    BranchIsNoLabel(v);
    forall c ensures c in "ABCDEFGHIJKLMNOPQRSTUVWXYZ" <==> IsUpper(c) {
      CapitalIs(c);
    }
    forall c ensures c in "0123456789" <==> IsDigit(c) {
      DigitIs(c);
    }
  }

  lemma BranchIsNoLabel(v: string)
    ensures IsBranch(v) && IsLabel(v) ==> v == "BR"
  {
    if IsBranch(v) && v != "BR" {
      assert !IsUpper(v[2]) && !IsDigit(v[2]) && v[2] != '_';
    }
  }

  // An x and hexadecimal digits of either case.
  lemma HexClass(v: string)
    ensures Classify(v) == HexNumber
      <==> |v| >= 2 && v[0] == 'x' && forall i :: 1 <= i < |v| ==> v[i] in "0123456789abcdefABCDEF"
  {
    hide Classify, IsHexDigit;
    ClassIs(v);
    forall c ensures c in "0123456789abcdefABCDEF" <==> IsHexDigit(c) {
      HexDigitIs(c);
    }
  }

  predicate IsDecimal(d: string) {
    d == "0" || (d != "" && d[0] in "123456789" && forall i :: 0 <= i < |d| ==> d[i] in "0123456789")
  }

  // A decimal number without leading zeros behind a hash, a minus, both, or neither.
  lemma NumberClass(v: string)
    ensures Classify(v) == NumberLiteral
      <==> || IsDecimal(v)
           || (v != "" && (v[0] == '#' || v[0] == '-') && IsDecimal(v[1..]))
           || (|v| > 1 && v[0] == '#' && v[1] == '-' && IsDecimal(v[2..]))
  {
    hide Classify, IsDecimal, IsDigit;
    ClassIs(v);
    DecimalIs(v);
    if v != "" {
      DecimalIs(v[1..]);
      if |v| > 1 {
        DecimalIs(v[2..]);
        assert v[1..][1..] == v[2..];
      }
    }
  }

  lemma DecimalIs(d: string)
    ensures IsDecimal(d)
      <==> d == "0" || (d != "" && '1' <= d[0] <= '9' && forall i :: 1 <= i < |d| ==> IsDigit(d[i]))
    ensures IsDecimal(d) ==> d != "" && d[0] != '#' && d[0] != '-'
  {
    hide IsDigit;
    if d != "" {
      DigitIs(d[0]);
    }
    forall c ensures c in "0123456789" <==> IsDigit(c) {
      DigitIs(c);
    }
  }

  lemma PunctClass(v: string)
    ensures Classify(v) == Punct <==> v in {",", ".", ":", ";"}
  {
    ClassIs(v);
  }

  // Visible characters, spaces and tabs in quotes.
  lemma StringClass(v: string)
    ensures Classify(v) == String
      <==> |v| >= 2 && v[0] == '"' && v[|v| - 1] == '"'
           && forall i :: 0 <= i < |v| ==> ' ' <= v[i] <= '~' || v[i] == '\t'
  {
    ClassIs(v);
  }

  // ---------- comments, strings and colons ----------

  lemma {:induction false} CommentLengthIs(c: string, rest: string)
    requires '\n' !in c && (rest != "" ==> rest[0] == '\n')
    ensures CommentLength(c + rest) == |c|
  {
    if c == "" {
      assert c + rest == rest;
    } else {
      assert (c + rest)[1..] == c[1..] + rest;
      CommentLengthIs(c[1..], rest);
    }
  }

  // From a semicolon to the end of the line nothing is read, and what stands before it is joined
  // to what begins the next line.
  lemma CommentIsSkipped(c: string, s: string, buffer: string, line: nat)
    requires '\n' !in c
    ensures Scan(";" + (c + ("\n" + s)), buffer, line) == Scan(s, buffer, line + 1)
  {
    var behind := c + ("\n" + s);
    assert (";" + behind)[1..] == behind;
    CommentLengthIs(c, "\n" + s);
    assert behind[|c| + 1..] == s;
  }

  lemma CommentEndsText(c: string, buffer: string, line: nat)
    requires '\n' !in c
    ensures Scan(";" + c, buffer, line) == Success(if buffer == "" then [] else [MakeToken(buffer, line)])
  {
    hide MakeToken;
    assert (";" + c)[1..] == c;
    ConcatEmpty(c);
    CommentLengthIs(c, "");
  }

  lemma {:induction false} QuotedLengthIs(q: string, rest: string)
    requires '\n' !in q && '"' !in q && (rest != "" ==> rest[0] == '\n' || rest[0] == '"')
    ensures QuotedLength(q + rest) == |q|
  {
    if q == "" {
      assert q + rest == rest;
    } else {
      assert (q + rest)[1..] == q[1..] + rest;
      QuotedLengthIs(q[1..], rest);
    }
  }

  // A string in quotes is one token, with its quotes, whatever it holds but quotes and newlines.
  lemma StringIsOneToken(q: string, s: string, line: nat)
    requires '\n' !in q && '"' !in q
    ensures Scan("\"" + (q + ("\"" + s)), "", line)
         == Prepend([MakeToken("\"" + q + "\"", line)], Scan(s, "", line))
  {
    hide MakeToken, Prepend;
    var behind := q + ("\"" + s);
    assert ("\"" + behind)[1..] == behind;
    QuotedLengthIs(q, "\"" + s);
    assert behind[..|q|] == q && behind[|q|] == '"' && behind[|q| + 1..] == s;
    assert "" + ['"'] + q == "\"" + q;
  }

  // A newline in it is an error.
  lemma NewlineInString(q: string, s: string, buffer: string, line: nat)
    requires '\n' !in q && '"' !in q
    ensures Scan("\"" + (q + ("\n" + s)), buffer, line) == Failure(UnterminatedString)
  {
    var behind := q + ("\n" + s);
    assert ("\"" + behind)[1..] == behind;
    QuotedLengthIs(q, "\n" + s);
    assert behind[|q|] == '\n';
  }

  // When the end of the text cuts it off it is a token as far as it goes; a last quote is taken
  // twice.
  lemma StringIsCutOff(q: string, line: nat)
    requires '\n' !in q && '"' !in q
    ensures Scan("\"" + q, "", line) == Success([MakeToken(if q == "" then "\"\"" else "\"" + q, line)])
  {
    hide MakeToken;
    assert ("\"" + q)[1..] == q;
    ConcatEmpty(q);
    QuotedLengthIs(q, "");
    assert q[..|q|] == q;
    assert "" + ['"'] + "" + ['"'] == "\"\"";
    assert "" + ['"'] + q == "\"" + q;
  }

  lemma ColonIsToken(s: string, line: nat)
    ensures Scan(":" + s, "", line) == Prepend([MakeToken(":", line)], Scan(s, "", line))
  {
    assert (":" + s)[1..] == s;
    ConcatEmpty([MakeToken(":", line)]);
    hide MakeToken, Prepend;
  }
}
