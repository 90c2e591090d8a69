/** Which token streams the parser of tvm/tvm.cc accepts: streams of statements. */
module TvmStatements {
  import opened Basics
  import opened TvmTokens
  import opened TvmAssembler
  import opened TvmRoundTrip
  import opened TvmTables

  // An optional label, an operation, and operands of any kind.
  datatype Statement = Statement(name: Option<Token>, head: Token, operands: seq<Token>)

  predicate IsOperation(t: Token) {
    || (t.kind == Instruction
        && t.value in {"AND", "ADD", "BR", "BRn", "BRz", "BRp", "BRnz", "BRnp", "BRzp", "HALT", "JMP", "LD", "LDI",
                       "LEA", "LDR", "PUTS", "ST", "NOT"})
    || (t.kind == Segment && t.value in {".END", ".ORIG", ".STRINGZ", ".BLKW"})
  }

  // The operands that an operation takes; None for the two at which the parser stays.
  function Slots(head: Token): Option<nat> {
    if head.kind == Segment then Some(if head.value == ".END" then 0 else 1)
    else if head.value in {"AND", "ADD", "LDR"} then Some(3)
    else if head.value in {"NOT", "LD", "LEA", "ST"} then Some(2)
    else if head.value in {"BR", "BRn", "BRz", "BRp", "BRnz", "BRnp", "BRzp"} then Some(1)
    else if head.value in {"HALT", "PUTS"} then Some(0)
    else None
  }

  lemma SlotsAreArity(head: Token)
    requires head.kind == Instruction
    ensures Slots(head) == Arity(head.value)
  {}

  lemma OperationIsInstruction(t: Token)
    requires t.kind == Instruction
    ensures IsOperation(t) <==> IsInstruction(t.value)
  {}

  predicate IsStalling(head: Token) {
    head.value == "JMP" || head.value == "LDI"
  }

  // All operands are there. At the end of the tokens some may be missing, but the one of .ORIG,
  // which the symbol table reads. Behind JMP and LDI anything may follow.
  predicate Fits(s: Statement, last: bool) {
    && (s.name.Some? ==> s.name.value.kind == Label)
    && IsOperation(s.head)
    && match Slots(s.head)
       case None => true
       case Some(n) => |s.operands| == n || (last && |s.operands| < n && s.head.value != ".ORIG")
  }

  // Statements, and then nothing or a lone label.
  predicate IsProgram(ss: seq<Statement>, tail: seq<Token>) {
    && (tail == [] || (|tail| == 1 && tail[0].kind == Label))
    && forall k :: 0 <= k < |ss| ==> Fits(ss[k], k == |ss| - 1 && tail == [])
  }

  predicate Stalls(ss: seq<Statement>) {
    exists k :: 0 <= k < |ss| && IsStalling(ss[k].head)
  }

  function StatementTokens(s: Statement): (ts: seq<Token>)
    ensures ts != []
  {
    Cell(s.name) + ([s.head] + s.operands)
  }

  function Stream(ss: seq<Statement>): (ts: seq<Token>)
    ensures ts == [] <==> ss == []
  {
    if ss == [] then [] else StatementTokens(ss[0]) + Stream(ss[1..])
  }

  function StatementRow(s: Statement): Row {
    Row(s.name, Some(s.head), At(s.operands, 0), At(s.operands, 1), At(s.operands, 2))
  }

  function StatementRows(ss: seq<Statement>): (rows: seq<Row>)
    ensures |rows| == |ss|
  {
    seq(|ss|, k requires 0 <= k < |ss| => StatementRow(ss[k]))
  }

  // ---------- one statement ----------

  lemma SlotsOfOperation(head: Token)
    requires IsOperation(head)
    ensures Slots(head).None? <==> IsStalling(head)
    ensures Slots(head).Some? ==> Slots(head).value <= 3
  {
    ArityIsSmall(head.value);
    if head.kind == Instruction {
      InstructionArity(head.value);
    }
  }

  lemma AtOperand(head: Token, operands: seq<Token>, more: seq<Token>, k: nat)
    requires k < |operands| || more == []
    ensures At([head] + (operands + more), k + 1) == At(operands, k)
  {}

  lemma DropOperands(head: Token, operands: seq<Token>, more: seq<Token>, n: nat)
    requires |operands| == n || (|operands| < n && more == [])
    ensures Drop([head] + (operands + more), n + 1) == more
  {
    var ts := [head] + (operands + more);
    if |operands| == n {
      assert ts[n + 1..] == more;
    }
  }

  lemma NoOperandBehind(operands: seq<Token>, k: nat)
    ensures k >= |operands| ==> At(operands, k) == None
  {}

  // The row of a statement whose label has been taken.
  lemma InstructionParses(s: Statement, more: seq<Token>)
    requires Fits(s, more == []) && s.head.kind == Instruction
    ensures OperationRow(EMPTY_ROW.(name := s.name), [s.head] + (s.operands + more))
         == if Slots(s.head).None? then Failure(NoProgress) else Success((StatementRow(s), more))
  {
    hide Arity, At, Drop, IsInstruction, Slots;
    SlotsOfOperation(s.head);
    SlotsAreArity(s.head);
    if Slots(s.head).Some? {
      var n := Slots(s.head).value;
      DropOperands(s.head, s.operands, more, n);
      if n > 0 { AtOperand(s.head, s.operands, more, 0); }
      if n > 1 { AtOperand(s.head, s.operands, more, 1); }
      if n > 2 { AtOperand(s.head, s.operands, more, 2); }
      NoOperandBehind(s.operands, 0);
      NoOperandBehind(s.operands, 1);
      NoOperandBehind(s.operands, 2);
    }
  }

  lemma SegmentParses(s: Statement, more: seq<Token>)
    requires Fits(s, more == []) && s.head.kind == Segment
    ensures SegmentRow(EMPTY_ROW.(name := s.name), [s.head] + (s.operands + more)) == (StatementRow(s), more)
  {
    hide Arity, At, Drop;
    NoOperandBehind(s.operands, 0);
    NoOperandBehind(s.operands, 1);
    NoOperandBehind(s.operands, 2);
    if s.head.value == ".END" {
      assert s.operands + more == more;
    } else {
      DropOperands(s.head, s.operands, more, 1);
      AtOperand(s.head, s.operands, more, 0);
    }
  }

  lemma StatementParses(s: Statement, more: seq<Token>)
    requires Fits(s, more == [])
    ensures ParseRow(StatementTokens(s) + more)
         == if IsStalling(s.head) then Failure(NoProgress) else Success((Some(StatementRow(s)), more))
  {
    hide OperationRow, SegmentRow, Slots, StatementRow;
    var ts, behind := StatementTokens(s) + more, [s.head] + (s.operands + more);
    SlotsOfOperation(s.head);
    if s.name.Some? {
      assert ts[0] == s.name.value && ts[1..] == behind;
    } else {
      assert ts == behind;
    }
    if s.head.kind == Segment {
      SegmentsDoNotStall(s.head);
      SegmentParses(s, more);
    } else {
      InstructionParses(s, more);
    }
  }

  lemma SegmentsDoNotStall(head: Token)
    requires head.kind == Segment
    ensures Slots(head).Some?
  {}

  // ---------- streams ----------

  lemma {:induction false} RowsOfStream(ss: seq<Statement>, tail: seq<Token>)
    requires IsProgram(ss, tail)
    ensures Rows(Stream(ss) + tail) == if Stalls(ss) then Failure(NoProgress) else Success(StatementRows(ss))
  {
    hide ParseRow, Fits, IsStalling, StatementTokens, StatementRow;
    if ss == [] {
      assert Stream(ss) + tail == tail;
      RowsOfTail(tail);
    } else {
      var rest := Stream(ss[1..]) + tail;
      ConcatAssociates(StatementTokens(ss[0]), Stream(ss[1..]), tail);
      TailFits(ss, tail);
      StatementParses(ss[0], rest);
      RowsOfStream(ss[1..], tail);
      StallsHead(ss);
      var ts := StatementTokens(ss[0]) + rest;
      assert Stream(ss) + tail == ts;
      RowsStep(ts);
      if !Stalls(ss) {
        assert StatementRows(ss) == [StatementRow(ss[0])] + StatementRows(ss[1..]);
      }
    }
  }

  lemma RowsStep(ts: seq<Token>)
    requires ts != []
    ensures match ParseRow(ts)
            case Failure(e) => Rows(ts) == Failure(e)
            case Success((row, rest)) =>
              match Rows(rest)
              case Failure(e) => Rows(ts) == Failure(e)
              case Success(rows) => Rows(ts) == Success((if row.Some? then [row.value] else []) + rows)
  {
    hide ParseRow;
  }

  lemma RowsOfTail(tail: seq<Token>)
    requires tail == [] || (|tail| == 1 && tail[0].kind == Label)
    ensures Rows(tail) == Success([])
  {
    if tail != [] {
      var none: seq<Row> := [];
      RowsStep(tail);
      assert ParseRow(tail) == Success((None, []));
      assert Rows([]) == Success(none);
      ConcatEmpty(none);
    }
  }

  lemma TailFits(ss: seq<Statement>, tail: seq<Token>)
    requires ss != [] && IsProgram(ss, tail)
    ensures IsProgram(ss[1..], tail) && Fits(ss[0], Stream(ss[1..]) + tail == [])
  {
    hide Fits;
  }

  lemma StallsHead(ss: seq<Statement>)
    requires ss != []
    ensures Stalls(ss) <==> IsStalling(ss[0].head) || Stalls(ss[1..])
  {
    hide IsStalling;
    if Stalls(ss) && !IsStalling(ss[0].head) {
      var k :| 0 <= k < |ss| && IsStalling(ss[k].head);
      assert ss[1..][k - 1] == ss[k];
    }
    if Stalls(ss[1..]) {
      var k :| 0 <= k < |ss[1..]| && IsStalling(ss[1..][k].head);
      assert ss[k + 1] == ss[1..][k];
    }
  }

  lemma RowsAreComplete(ss: seq<Statement>, tail: seq<Token>)
    requires IsProgram(ss, tail) && !Stalls(ss)
    ensures AreComplete(StatementRows(ss))
  {
    forall k | 0 <= k < |ss| ensures IsComplete(StatementRows(ss)[k]) {
      var s := ss[k];
      assert Fits(s, k == |ss| - 1 && tail == []);
      OriginHasOperand(s, k == |ss| - 1 && tail == []);
    }
  }

  lemma OriginHasOperand(s: Statement, last: bool)
    requires Fits(s, last) && !IsStalling(s.head)
    ensures IsComplete(StatementRow(s))
  {
    SlotsOfOperation(s.head);
  }

  lemma {:induction false} StreamOfCells(ss: seq<Statement>, tail: seq<Token>)
    requires IsProgram(ss, tail) && !Stalls(ss)
    ensures AllCells(StatementRows(ss)) == Stream(ss)
  {
    hide Fits, IsStalling, StatementTokens, StatementRow, Cells;
    if ss != [] {
      TailFits(ss, tail);
      StallsHead(ss);
      StatementCells(ss[0], Stream(ss[1..]) + tail == []);
      StreamOfCells(ss[1..], tail);
      assert StatementRows(ss)[1..] == StatementRows(ss[1..]);
    }
  }

  lemma StatementCells(s: Statement, last: bool)
    requires Fits(s, last) && !IsStalling(s.head)
    ensures Cells(StatementRow(s)) == StatementTokens(s)
  {
    hide Slots;
    SlotsOfOperation(s.head);
    assert |s.operands| <= 3;
    OperandCells(s.operands);
    ConcatAssociates(Cell(s.name), [s.head], s.operands);
    var a, b, c := Cell(At(s.operands, 0)), Cell(At(s.operands, 1)), Cell(At(s.operands, 2));
    ConcatAssociates(Cell(s.name) + [s.head], a, b);
    ConcatAssociates(Cell(s.name) + [s.head], a + b, c);
  }

  lemma OperandCells(operands: seq<Token>)
    requires |operands| <= 3
    ensures Cell(At(operands, 0)) + Cell(At(operands, 1)) + Cell(At(operands, 2)) == operands
  {}

  // On a stream of statements the parser stays at the first JMP or LDI for ever; if there is
  // none it ends, with one row for each statement, and flattening the rows gives the stream.
  lemma StreamParses(ss: seq<Statement>, tail: seq<Token>)
    requires IsProgram(ss, tail)
    ensures Parse(Stream(ss) + tail) == if Stalls(ss) then Failure(NoProgress) else Success(StatementRows(ss))
    ensures !Stalls(ss) ==> AllCells(StatementRows(ss)) == Stream(ss)
  {
    hide Rows, Stream, StatementRows, AllCells;
    RowsOfStream(ss, tail);
    if !Stalls(ss) {
      RowsAreComplete(ss, tail);
      TableBuilds(StatementRows(ss));
      StreamOfCells(ss, tail);
    }
  }

  // ---------- nothing else parses ----------

  // The statement that a complete row was made of.
  lemma StatementOf(ts: seq<Token>) returns (s: Statement)
    requires ts != [] && ParseRow(ts).Success? && ParseRow(ts).value.0.Some?
    requires IsComplete(ParseRow(ts).value.0.value)
    ensures var (row, rest) := ParseRow(ts).value;
            && Fits(s, rest == []) && !IsStalling(s.head)
            && ts == StatementTokens(s) + rest && row == Some(StatementRow(s))
  {
    hide OperationRow, SegmentRow;
    var name, behind := if ts[0].kind == Label then Some(ts[0]) else None, if ts[0].kind == Label then ts[1..] else ts;
    assert ts == Cell(name) + behind;
    if behind[0].kind == Segment {
      s := SegmentOf(name, behind);
    } else {
      s := InstructionOf(name, behind);
    }
  }

  // The same behind the label, for an instruction and for a segment.
  lemma InstructionOf(name: Option<Token>, ts: seq<Token>) returns (s: Statement)
    requires ts != [] && (name.Some? ==> name.value.kind == Label)
    requires ts[0].kind == Instruction && OperationRow(EMPTY_ROW.(name := name), ts).Success?
    ensures var (row, rest) := OperationRow(EMPTY_ROW.(name := name), ts).value;
            && Fits(s, rest == []) && !IsStalling(s.head)
            && Cell(name) + ts == StatementTokens(s) + rest && row == StatementRow(s)
  {
    hide Arity, At, Drop, IsInstruction, IsStalling, OperationRow, Slots, IsOperation;
    Handled(name, ts);
    var n := Arity(ts[0].value).value;
    s := Statement(name, ts[0], Taken(ts[1..], n));
    var rest := Drop(ts, n + 1);
    TakenAndLeft(ts, n);
    OperationIsInstruction(s.head);
    SlotsAreArity(s.head);
    SlotsOfOperation(s.head);
    InstructionParses(s, rest);
    ConcatAssociates(Cell(name), [ts[0]] + s.operands, rest);
    ConcatAssociates([ts[0]], s.operands, rest);
  }

  lemma Handled(name: Option<Token>, ts: seq<Token>)
    requires ts != [] && OperationRow(EMPTY_ROW.(name := name), ts).Success?
    ensures Arity(ts[0].value).Some? && IsInstruction(ts[0].value) && ts[0].value != ".ORIG"
  {}

  lemma SegmentOf(name: Option<Token>, ts: seq<Token>) returns (s: Statement)
    requires ts != [] && (name.Some? ==> name.value.kind == Label)
    requires ts[0].kind == Segment && IsComplete(SegmentRow(EMPTY_ROW.(name := name), ts).0)
    ensures var (row, rest) := SegmentRow(EMPTY_ROW.(name := name), ts);
            && Fits(s, rest == []) && !IsStalling(s.head)
            && Cell(name) + ts == StatementTokens(s) + rest && row == StatementRow(s)
  {
    hide Arity, Drop;
    var n := if ts[0].value == ".END" then 0 else 1;
    s := Statement(name, ts[0], Taken(ts[1..], n));
    var rest := Drop(ts, n + 1);
    TakenAndLeft(ts, n);
    SegmentParses(s, rest);
    ConcatAssociates(Cell(name), [ts[0]] + s.operands, rest);
    ConcatAssociates([ts[0]], s.operands, rest);
  }

  function Taken(ts: seq<Token>, n: nat): seq<Token> {
    if n <= |ts| then ts[..n] else ts
  }

  lemma TakenAndLeft(ts: seq<Token>, n: nat)
    requires ts != []
    ensures var operands, rest := Taken(ts[1..], n), Drop(ts, n + 1);
            && ts == [ts[0]] + (operands + rest)
            && (|operands| == n || (|operands| < n && rest == []))
  {
    if n + 1 <= |ts| {
      assert ts[1..][..n] + ts[n + 1..] == ts[1..];
    }
    assert ts == [ts[0]] + ts[1..];
  }

  lemma {:induction false} ProgramOf(ts: seq<Token>) returns (ss: seq<Statement>, tail: seq<Token>)
    requires Rows(ts).Success? && AreComplete(Rows(ts).value)
    ensures IsProgram(ss, tail) && !Stalls(ss) && ts == Stream(ss) + tail && Rows(ts).value == StatementRows(ss)
    decreases |ts|
  {
    hide ParseRow, Fits, IsStalling, StatementTokens, StatementRow, IsComplete;
    if ts == [] {
      ss, tail := [], [];
    } else {
      RowsStep(ts);
      ParseRowAdvances(ts);
      RowKeepsTokens(ts);
      var (row, rest) := ParseRow(ts).value;
      if row.None? {
        ss, tail := [], ts;
        assert Stream(ss) + tail == ts;
      } else {
        assert Rows(ts).value[0] == row.value && Rows(ts).value[1..] == Rows(rest).value;
        var s := StatementOf(ts);
        ss, tail := ProgramOf(rest);
        ConcatAssociates(StatementTokens(s), Stream(ss), tail);
        AnotherStatement(s, ss, tail);
        ss := [s] + ss;
      }
    }
  }

  lemma AnotherStatement(s: Statement, ss: seq<Statement>, tail: seq<Token>)
    requires Fits(s, Stream(ss) + tail == []) && !IsStalling(s.head)
    requires IsProgram(ss, tail) && !Stalls(ss)
    ensures IsProgram([s] + ss, tail) && !Stalls([s] + ss)
    ensures Stream([s] + ss) == StatementTokens(s) + Stream(ss)
    ensures StatementRows([s] + ss) == [StatementRow(s)] + StatementRows(ss)
  {
    hide Fits, IsStalling, StatementTokens, StatementRow;
    var all := [s] + ss;
    assert all[1..] == ss;
    StallsHead(all);
    forall k | 0 <= k < |all| ensures Fits(all[k], k == |all| - 1 && tail == []) {
      if k > 0 {
        assert all[k] == ss[k - 1];
      }
    }
  }

  // Every successful parse is of a stream of statements. Its rows keep the tokens, in order,
  // but for a label behind the last statement.
  lemma ParseKeepsTokens(ts: seq<Token>) returns (ss: seq<Statement>, tail: seq<Token>)
    requires Parse(ts).Success?
    ensures IsProgram(ss, tail) && !Stalls(ss) && ts == Stream(ss) + tail
    ensures Parse(ts).value == StatementRows(ss) && AllCells(Parse(ts).value) + tail == ts
  {
    hide Rows, IsProgram, Stalls, Stream, AllCells, StatementRows;
    TableBuilds(Rows(ts).value);
    ss, tail := ProgramOf(ts);
    StreamOfCells(ss, tail);
  }

  // The parser accepts exactly the streams of statements without JMP and LDI, and its rows are
  // those of the statements.
  lemma ParsesExactlyPrograms(ts: seq<Token>)
    ensures Parse(ts).Success? <==> exists ss, tail :: IsProgram(ss, tail) && !Stalls(ss) && ts == Stream(ss) + tail
  {
    hide Rows, IsProgram, Stalls, Stream;
    if Parse(ts).Success? {
      var ss, tail := ParseKeepsTokens(ts);
    }
    forall ss, tail | IsProgram(ss, tail) && !Stalls(ss) && ts == Stream(ss) + tail ensures Parse(ts).Success? {
      StreamParses(ss, tail);
    }
  }

  // ---------- termination ----------

  // On tokens of their own type, the parser ends whenever none of them is JMP or LDI.
  lemma {:induction false} EndsWithoutJmpAndLdi(ts: seq<Token>)
    requires AllClassified(ts) && forall k :: 0 <= k < |ts| ==> !IsStalling(ts[k])
    ensures Rows(ts) != Failure(NoProgress)
    decreases |ts|
  {
    hide ParseRow, IsClassified, IsStalling;
    if ts != [] {
      RowsStep(ts);
      if ParseRow(ts) == Failure(NoProgress) {
        StallsAtStalling(ts);
      } else if ParseRow(ts).Success? {
        ParseRowAdvances(ts);
        RestIsSuffix(ts);
        EndsWithoutJmpAndLdi(ParseRow(ts).value.1);
      }
    }
  }

  lemma StallsAtStalling(ts: seq<Token>)
    requires ts != [] && AllClassified(ts) && ParseRow(ts) == Failure(NoProgress)
    ensures exists k :: 0 <= k < |ts| && IsStalling(ts[k])
  {
    hide ParseRow, Classify;
    StallsAtJmpOrLdi(ts);
    var k := if ts[0].kind == Label && |ts| > 1 then 1 else 0;
    assert IsStalling(ts[k]);
  }

  lemma RestIsSuffix(ts: seq<Token>)
    requires ts != [] && ParseRow(ts).Success?
    ensures var rest := ParseRow(ts).value.1; |rest| < |ts| && rest == ts[|ts| - |rest|..]
  {
    hide Arity;
    assert forall i, j :: 0 <= i <= |ts| && 0 <= j <= |ts[i..]| ==> ts[i..][j..] == ts[i + j..];
    assert ts[|ts|..] == [];
  }

  lemma ParseEndsWithoutJmpAndLdi(text: string)
    requires TokensOf(text).Success?
    requires forall k :: 0 <= k < |TokensOf(text).value| ==> !IsStalling(TokensOf(text).value[k])
    ensures Parse(TokensOf(text).value) != Failure(NoProgress)
  {
    hide Rows, TokensOf;
    var ts := TokensOf(text).value;
    TokensAreClassified(text);
    EndsWithoutJmpAndLdi(ts);
    if Rows(ts).Success? {
      TableBuilds(Rows(ts).value);
    }
  }

  // The text "JMP R1", in two tokens: the parser never ends.
  lemma JmpNeverEnds()
    ensures TokensOf("JMP R1") == Success([MakeToken("JMP", 1), MakeToken("R1", 1)])
    ensures Assemble("JMP R1") == Failure(NoProgress)
  {
    hide Classify, Scan, Plain;
    PlainWordsOfJmp();
    ScanSeparated("JMP", ' ', "R1", 1);
    ScanWord("R1", "", "", 1);
    ConcatEmpty("R1");
    assert "JMP" + " " + "R1" == "JMP R1";
    ScanOne("R1", 1);
    ClassOfStall();
    var jmp, r1 := MakeToken("JMP", 1), MakeToken("R1", 1);
    assert [jmp] + [r1] == [jmp, r1];
    StallsAtFirst([jmp, r1]);
  }

  lemma PlainWordsOfJmp()
    ensures Plain("JMP") && Plain("R1")
  {}

  lemma ScanOne(word: string, line: nat)
    requires word != ""
    ensures Scan("", word, line) == Success([MakeToken(word, line)])
  {}

  lemma StallsAtFirst(ts: seq<Token>)
    requires ts != [] && ts[0].kind == Instruction && IsStalling(ts[0])
    ensures Parse(ts) == Failure(NoProgress)
  {}
}
