/** What the encoder of tvm/tvm.cc makes of any operands: numbers of any size, missing operands,
    operands that are no registers; and what whole images hold. */
module TvmOperands {
  import opened Arithmetic
  import opened Basics
  import opened Hexadecimal
  import opened TvmTokens
  import opened TvmAssembler
  import opened TvmRoundTrip

  // ---------- numbers ----------

  lemma DigitValues(c: char)
    ensures DigitValue(c, 10) == if '0' <= c <= '9' then c as int - 0x30 else 10
    ensures DigitValue(c, 16) == if '0' <= c <= '9' then c as int - 0x30
                                 else if 'A' <= c <= 'F' then c as int - 0x37
                                 else if 'a' <= c <= 'f' then c as int - 0x57 else 16
  {}

  // A text of base 16 without its prefix.
  function AfterPrefix(t: string): string {
    if |t| >= 2 && t[0] == '0' && (t[1] == 'x' || t[1] == 'X') then t[2..] else t
  }

  lemma HexDigitsOf(prefix: string, n: nat, digits: nat)
    requires prefix == "" || prefix == "0x" || prefix == "0X"
    requires n < Power(16, digits) && digits > 0
    ensures DigitsValue(AfterPrefix(prefix + Hex(n, digits)), 16, 0) == n
    ensures IsHexDigit((prefix + Hex(n, digits))[0])
  {
    hide DigitsValue, Hex, Power;
    HexReads(n, digits);
    var text := Hex(n, digits);
    ConcatDrops(prefix, text);
    if prefix == "" {
      assert |text| > 1 ==> IsHexDigit(text[1]);
    }
  }

  lemma SignIsRead(sign: string, t: string)
    requires IsSign(sign) && t != "" && IsHexDigit(t[0])
    ensures ExtractU16(sign + t, 16) == Saturated(sign, DigitsValue(AfterPrefix(t), 16, 0))
  {
    hide DigitsValue;
    var s := sign + t;
    assert SkipSpace(s) == s;
    ConcatDrops(sign, t);
  }

  // In base 16 the digits may be behind 0x.
  lemma HexExtracted(sign: string, prefix: string, n: nat, digits: nat)
    requires IsSign(sign) && (prefix == "" || prefix == "0x" || prefix == "0X")
    requires n < Power(16, digits) && digits > 0
    ensures ExtractU16(sign + (prefix + Hex(n, digits)), 16) == Saturated(sign, n)
  {
    hide ExtractU16, DigitsValue, AfterPrefix, Hex, Power;
    HexDigitsOf(prefix, n, digits);
    SignIsRead(sign, prefix + Hex(n, digits));
  }

  // Where no number stands nothing is read.
  lemma NothingExtracted(s: string, base: nat)
    requires (base == 10 || base == 16)
    requires s == "" || s[0] !in "0123456789abcdefABCDEF+- \t\n\U{000B}\U{000C}\r"
    ensures ExtractU16(s, base) == 0
  {}

  // The fields of a literal keep its low bits, however large it is.
  lemma LiteralsAreCut(sign: string, n: nat, line: nat)
    requires sign == "" || sign == "-"
    ensures var t := MakeToken("#" + (sign + Decimal(n)), line);
            ThirdOperand(Some(t)) == Success(0x20 + Saturated(sign, n) % 32)
  {
    hide MakeToken, Decimal, LitValue, BitOr;
    LiteralReads(sign, n, line);
    OrFields(1, Saturated(sign, n) % 32, 0x20);
  }

  // ---------- operands ----------

  // An operand that an operation looks at; as a register it needs two characters.
  datatype Demand = Demand(operand: Option<Token>, isRegister: bool)

  predicate IsMet(d: Demand) {
    d.operand.Some? && (d.isRegister ==> |d.operand.value.value| >= 2)
  }

  // What the encoder looks at in a row, in order.
  function Demands(row: Row): seq<Demand>
    requires row.op.Some?
  {
    var v := row.op.value.value;
    if v == "NOT" then [Demand(row.a, true), Demand(row.b, true)]
    else if v == "AND" || v == "ADD" then [Demand(row.a, true), Demand(row.b, true), Third(row.c)]
    else if v == "LD" || v == "LDI" || v == "LEA" then [Demand(row.a, true), Demand(row.b, false)]
    else if v == "ST" then [Demand(row.a, true)]
    else if v in BRANCHES || v == ".ORIG" then [Demand(row.a, false)]
    else []
  }

  const BRANCHES: set<string> := {"BR", "BRn", "BRzp", "BRnz", "BRp", "BRz", "BRnp", "BRnzp"}
  const TRAPS: set<string> := {"GETC", "OUT", "PUTS", "IN", "PUTSP", "HALT"}

  function Third(t: Option<Token>): Demand {
    Demand(t, t.Some? ==> t.value.kind != NumberLiteral)
  }

  lemma RegisterDemands(t: Option<Token>)
    ensures StringToRegister(t).Success? <==> IsMet(Demand(t, true))
    ensures StringToRegister(t).Failure? ==> StringToRegister(t).error == if t.None? then NullPointer else Aborted
    ensures ThirdOperand(t).Success? <==> IsMet(Third(t))
    ensures ThirdOperand(t).Failure? ==> ThirdOperand(t).error == if t.None? then NullPointer else Aborted
  {
    hide BitOr, LitValue;
  }

  lemma KnownBranches(v: string)
    ensures BranchWord(v).Some? <==> v in BRANCHES
    ensures TrapWord(v).Some? <==> v in TRAPS
  {}

  // A row is encoded exactly when all demands are met.
  lemma RowEncodes(row: Row)
    requires row.op.Some?
    ensures EncodeRow(row).Success? <==> forall k :: 0 <= k < |Demands(row)| ==> IsMet(Demands(row)[k])
  {
    hide StringToRegister, ThirdOperand, BitOr, LitValue, HexToU16, AsDR, AsSR1, BranchWord, TrapWord;
    RegisterDemands(row.a);
    RegisterDemands(row.b);
    RegisterDemands(row.c);
    KnownBranches(row.op.value.value);
    var ds := Demands(row);
    assert |ds| > 0 ==> ds[0].operand == row.a;
    assert |ds| > 1 ==> ds[1].operand == row.b;
    assert |ds| > 2 ==> ds[2] == Third(row.c);
  }

  // Otherwise the first demand that is not met decides the error.
  lemma FirstFaultDecides(row: Row, k: nat)
    requires row.op.Some? && k < |Demands(row)| && !IsMet(Demands(row)[k])
    requires forall j :: 0 <= j < k ==> IsMet(Demands(row)[j])
    ensures EncodeRow(row) == Failure(if Demands(row)[k].operand.None? then NullPointer else Aborted)
  {
    hide StringToRegister, ThirdOperand, BitOr, LitValue, HexToU16, AsDR, AsSR1, BranchWord, TrapWord;
    RegisterDemands(row.a);
    RegisterDemands(row.b);
    RegisterDemands(row.c);
    KnownBranches(row.op.value.value);
    var ds := Demands(row);
    assert k > 0 ==> IsMet(ds[0]);
    assert k > 1 ==> IsMet(ds[1]);
  }

  // Which rows make no word.
  lemma WordlessRows(row: Row)
    ensures EncodeRow(row) == Success(None)
      <==> row.op.None? || (row.op.value.value !in {".ORIG", "NOT", "AND", "ADD", "LD", "LEA", "LDI", "ST", "RET"}
                            && row.op.value.value !in BRANCHES + TRAPS)
  {
    hide StringToRegister, ThirdOperand, BitOr, LitValue, HexToU16, AsDR, AsSR1, BranchWord, TrapWord;
    if row.op.Some? {
      KnownBranches(row.op.value.value);
    }
  }

  // ---------- whole images ----------

  predicate AllEncode(rows: seq<Row>) {
    forall k :: 0 <= k < |rows| ==> EncodeRow(rows[k]).Success?
  }

  function WordsOf(row: Row): seq<nat>
    requires EncodeRow(row).Success?
  {
    match EncodeRow(row).value case None => [] case Some(w) => [w]
  }

  // The words of the rows, in order.
  function Emitted(rows: seq<Row>): seq<nat>
    requires AllEncode(rows)
  {
    if rows == [] then [] else WordsOf(rows[0]) + Emitted(rows[1..])
  }

  lemma {:induction false} EmittedLast(rows: seq<Row>, row: Row)
    requires AllEncode(rows) && EncodeRow(row).Success?
    ensures AllEncode(rows + [row])
    ensures Emitted(rows + [row]) == Emitted(rows) + WordsOf(row)
  {
    hide EncodeRow, WordsOf;
    if rows == [] {
      assert rows + [row] == [row] && [row][1..] == [];
      ConcatEmpty(WordsOf(row));
    } else {
      assert (rows + [row])[1..] == rows[1..] + [row] && (rows + [row])[0] == rows[0];
      EmittedLast(rows[1..], row);
      ConcatAssociates(WordsOf(rows[0]), Emitted(rows[1..]), WordsOf(row));
    }
  }

  // The image holds the words of all rows when there are at most 0xffff; one more is refused.
  lemma {:induction false} ImageHoldsAll(rows: seq<Row>)
    requires AllEncode(rows)
    ensures Encode(rows) == if |Emitted(rows)| <= 0xffff then Success(Emitted(rows)) else Failure(ImageFull)
  {
    hide EncodeRow, Emitted;
    if rows == [] {
      NothingEmitted();
    } else {
      var n := |rows| - 1;
      assert forall k :: 0 <= k < n ==> rows[..n][k] == rows[k];
      ImageHoldsAll(rows[..n]);
      EmittedLast(rows[..n], rows[n]);
      ConcatEmpty(Emitted(rows[..n]));
      assert rows[..n] + [rows[n]] == rows;
    }
  }

  lemma NothingEmitted()
    ensures Emitted([]) == []
  {}

  // A row that cannot be encoded, behind rows that can, decides the result.
  lemma {:induction false} FaultEndsImage(rows: seq<Row>, k: nat)
    requires k < |rows| && AllEncode(rows[..k]) && |Emitted(rows[..k])| <= 0xffff && EncodeRow(rows[k]).Failure?
    ensures Encode(rows) == Failure(EncodeRow(rows[k]).error)
  {
    hide EncodeRow, Emitted;
    var n := |rows| - 1;
    if k == n {
      ImageHoldsAll(rows[..k]);
    } else {
      assert rows[..n][..k] == rows[..k];
      FaultEndsImage(rows[..n], k);
    }
  }
}
