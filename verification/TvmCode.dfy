/** The loops of tvm/tvm.cc, proved against the functions of TvmTokens and TvmAssembler. */
module TvmCode {
  import opened Arithmetic
  import opened Basics
  import opened TvmTokens
  import opened TvmAssembler

  // ---------- Tokenize ----------

  lemma CommentStep(s: string)
    requires s != ""
    ensures CommentLength(s) == if s[0] == '\n' then 0 else 1 + CommentLength(s[1..])
  {}

  // Skips behind the next newline, or to the end of the input, where c stays the last character.
  method SkipComment(text: string, position0: nat, c0: char) returns (position: nat, c: char)
    requires position0 <= |text| && c0 != '\n'
    ensures var n := CommentLength(text[position0..]);
            if position0 + n < |text| then position == position0 + n + 1 && c == '\n'
            else position == |text| && c != '\n'
  {
    position, c := position0, c0;
    while position < |text| && c != '\n'
      invariant position0 <= position <= |text|
      invariant if c == '\n' then position > position0 && position - 1 == position0 + CommentLength(text[position0..])
                else CommentLength(text[position0..]) == position - position0 + CommentLength(text[position..])
      decreases |text| - position
    {
      CommentStep(text[position..]);
      assert text[position..][1..] == text[position + 1..];
      c := text[position];
      position := position + 1;
    }
  }

  lemma QuotedStep(s: string)
    requires s != ""
    ensures QuotedLength(s) == if s[0] == '\n' || s[0] == '"' then 0 else 1 + QuotedLength(s[1..])
  {}

  lemma QuotedEnd()
    ensures QuotedLength("") == 0
  {}

  // Appends to the buffer up to the next quote or newline, which is taken but not appended.
  method ReadQuoted(text: string, position0: nat, buffer0: string) returns (position: nat, c: char, buffer: string)
    requires position0 <= |text|
    ensures var n := QuotedLength(text[position0..]);
            && buffer == buffer0 + text[position0..][..n]
            && if position0 + n < |text| then position == position0 + n + 1 && c == text[position0 + n]
               else position == |text| && c == if n == 0 then '"' else text[position0 + n - 1]
  {
    hide QuotedLength;
    QuotedEnd();
    position, c, buffer := position0, '"', buffer0;
    ghost var rest := text[position0..];
    assert rest[..0] == [];
    while position < |text|
      invariant position0 <= position <= |text|
      invariant QuotedLength(rest) == position - position0 + QuotedLength(text[position..])
      invariant buffer == buffer0 + rest[..position - position0]
      invariant c == if position == position0 then '"' else text[position - 1]
      decreases |text| - position
    {
      QuotedStep(text[position..]);
      assert text[position..][1..] == text[position + 1..];
      c := text[position];
      position := position + 1;
      if c == '"' || c == '\n' { return; }
      assert rest[..position - position0] == rest[..position - 1 - position0] + [c];
      buffer := buffer + [c];
    }
    assert text[position..] == "";
  }

  // ---------- Scan, case by case ----------

  lemma ScanComment(s: string, buffer: string, line: nat)
    requires s != "" && s[0] == ';'
    ensures var n := CommentLength(s[1..]);
            Scan(s, buffer, line)
            == if n < |s[1..]| then Scan(s[1..][n + 1..], buffer, line + 1) else Scan("", buffer, line)
  {}

  lemma ScanQuoted(s: string, buffer: string, line: nat)
    requires s != "" && s[0] == '"'
    ensures var n := QuotedLength(s[1..]);
            var text := buffer + ['"'] + s[1..][..n];
            Scan(s, buffer, line)
            == if n < |s[1..]| && s[1..][n] == '\n' then Failure(UnterminatedString)
               else if n < |s[1..]| then Prepend([MakeToken(text + ['"'], line)], Scan(s[1..][n + 1..], "", line))
               else if n == 0 then Success([MakeToken(text + ['"'], line)])
               else Success([MakeToken(text, line)])
  {}

  predicate Flushes(c: char) {
    c == ':' || c == '\n' || c == ',' || c == ' ' || c == '\t'
  }

  lemma ScanFlushed(s: string, buffer: string, line: nat)
    requires s != "" && Flushes(s[0])
    ensures Scan(s, buffer, line)
         == Prepend(Flushed(buffer, line) + (if s[0] == ':' then [MakeToken(":", line)] else []),
                    Scan(s[1..], "", if s[0] == '\n' then line + 1 else line))
  {
    hide MakeToken, Prepend;
    ConcatEmpty(Flushed(buffer, line));
  }

  lemma ScanPlain(s: string, buffer: string, line: nat)
    requires s != "" && s[0] != ';' && s[0] != '"' && !Flushes(s[0])
    ensures Scan(s, buffer, line) == Scan(s[1..], buffer + [s[0]], line)
  {}

  lemma ScanNothing(line: nat)
    ensures Scan("", "", line) == Success([])
  {}

  // ---------- the same over a text and a position ----------

  lemma CommentTurn(text: string, p: nat, buffer: string, line: nat)
    requires p < |text| && text[p] == ';'
    ensures var n := CommentLength(text[p + 1..]);
            Scan(text[p..], buffer, line)
            == Prepend([], if p + 1 + n < |text| then Scan(text[p + n + 2..], buffer, line + 1)
                           else Scan(text[|text|..], buffer, line))
  {
    hide Scan, CommentLength;
    var s, n := text[p..], CommentLength(text[p + 1..]);
    assert s[1..] == text[p + 1..] && text[|text|..] == "";
    ScanComment(s, buffer, line);
    PrependNothing(Scan(s, buffer, line));
    if p + 1 + n < |text| {
      assert s[1..][n + 1..] == text[p + n + 2..];
    }
  }

  lemma QuotedTurn(text: string, p: nat, buffer: string, line: nat)
    requires p < |text| && text[p] == '"'
    ensures var rest := text[p + 1..];
            var n := QuotedLength(rest);
            var quoted := buffer + ['"'] + rest[..n];
            Scan(text[p..], buffer, line)
            == if n < |rest| && rest[n] == '\n' then Failure(UnterminatedString)
               else if n < |rest| then Prepend([MakeToken(quoted + ['"'], line)], Scan(text[p + n + 2..], "", line))
               else Prepend([MakeToken(if n == 0 then quoted + ['"'] else quoted, line)],
                            Scan(text[|text|..], "", line))
  {
    hide Scan, QuotedLength, MakeToken;
    var s, n := text[p..], QuotedLength(text[p + 1..]);
    assert s[1..] == text[p + 1..] && text[|text|..] == "";
    ScanQuoted(s, buffer, line);
    ScanNothing(line);
    if n < |s[1..]| {
      assert s[1..][n + 1..] == text[p + n + 2..];
    } else {
      var quoted := buffer + ['"'] + text[p + 1..][..n];
      ConcatEmpty([MakeToken(if n == 0 then quoted + ['"'] else quoted, line)]);
    }
  }

  lemma OtherTurn(text: string, p: nat, buffer: string, line: nat)
    requires p < |text| && text[p] != ';' && text[p] != '"'
    ensures Flushes(text[p]) ==>
              Scan(text[p..], buffer, line)
              == Prepend(Flushed(buffer, line) + (if text[p] == ':' then [MakeToken(":", line)] else []),
                         Scan(text[p + 1..], "", if text[p] == '\n' then line + 1 else line))
    ensures !Flushes(text[p]) ==>
              Scan(text[p..], buffer, line) == Prepend([], Scan(text[p + 1..], buffer + [text[p]], line))
  {
    hide Scan, MakeToken, Prepend;
    var s := text[p..];
    assert s[1..] == text[p + 1..];
    if Flushes(text[p]) {
      ScanFlushed(s, buffer, line);
    } else {
      ScanPlain(s, buffer, line);
      PrependNothing(Scan(s, buffer, line));
    }
  }

  // The body of the loop of Tokenize: the tokens it pushes, and the state it leaves.
  method Turn(text: string, position0: nat, buffer0: string, line0: nat)
    returns (failed: bool, pushed: seq<Token>, position: nat, buffer: string, lineNumber: nat)
    requires position0 < |text|
    ensures failed ==> Scan(text[position0..], buffer0, line0) == Failure(UnterminatedString)
    ensures !failed ==> position0 < position <= |text|
    ensures !failed ==>
              Scan(text[position0..], buffer0, line0) == Prepend(pushed, Scan(text[position..], buffer, lineNumber))
  {
    hide Scan, MakeToken, Prepend, CommentLength, QuotedLength;
    failed, pushed, buffer, lineNumber := false, [], buffer0, line0;
    var incrLineNumber, colon, flush := false, false, true;
    var c := text[position0];
    position := position0 + 1;
    match c {
      case ';' =>
        CommentTurn(text, position0, buffer, lineNumber);
        position, c := SkipComment(text, position, c);
        if c == '\n' { lineNumber := lineNumber + 1; }
        flush := false;
      case '"' =>
        QuotedTurn(text, position0, buffer, lineNumber);
        position, c, buffer := ReadQuoted(text, position, buffer + [c]);
        if c == '\n' { return true, [], position, buffer, lineNumber; }
        if c == '"' { buffer := buffer + [c]; }
      case ':' =>
        OtherTurn(text, position0, buffer, lineNumber);
        colon := true;
      case '\n' =>
        OtherTurn(text, position0, buffer, lineNumber);
        incrLineNumber := true;
      case ',' => OtherTurn(text, position0, buffer, lineNumber);
      case ' ' => OtherTurn(text, position0, buffer, lineNumber);
      case '\t' => OtherTurn(text, position0, buffer, lineNumber);
      case _ =>
        OtherTurn(text, position0, buffer, lineNumber);
        buffer := buffer + [c];
        flush := false;
    }
    if flush {
      ghost var flushed := Flushed(buffer, lineNumber);
      ConcatEmpty(flushed);
      if |buffer| > 0 {
        pushed := pushed + [MakeToken(buffer, lineNumber)];
        buffer := "";
      }
      assert pushed == flushed;
      if incrLineNumber { lineNumber := lineNumber + 1; }
      if colon { pushed := pushed + [MakeToken(":", lineNumber)]; }
    }
  }

  method Tokenize(text: string) returns (r: Result<seq<Token>, Error>)
    ensures r == TokensOf(text)
  {
    hide Scan, Prepend;
    var tokens: seq<Token>, buffer := [], "";
    var lineNumber, position: nat := 1, 0;
    assert text[0..] == text;
    PrependNothing(TokensOf(text));
    while position < |text|
      invariant position <= |text|
      invariant Prepend(tokens, Scan(text[position..], buffer, lineNumber)) == TokensOf(text)
      decreases |text| - position
    {
      var failed, pushed;
      ghost var rest := Scan(text[position..], buffer, lineNumber);
      failed, pushed, position, buffer, lineNumber := Turn(text, position, buffer, lineNumber);
      if failed {
        PrependFails(tokens, rest);
        return Failure(UnterminatedString);
      }
      PrependTwice(tokens, pushed, Scan(text[position..], buffer, lineNumber));
      tokens := tokens + pushed;
    }
    assert text[position..] == "";
    ScanEnd(tokens, buffer, lineNumber);
    if |buffer| > 0 { tokens := tokens + [MakeToken(buffer, lineNumber)]; } else { ConcatEmpty(tokens); }
    return Success(tokens);
  }

  lemma PrependFails(ts: seq<Token>, r: Result<seq<Token>, Error>)
    ensures r.Failure? ==> Prepend(ts, r) == r
  {}

  lemma ScanEnd(ts: seq<Token>, buffer: string, line: nat)
    ensures Prepend(ts, Scan("", buffer, line)) == Success(ts + Flushed(buffer, line))
  {}

  // ---------- Parse ----------

  class InstructionRow {
    var name: Option<Token>
    var op: Option<Token>
    const operands: array<Option<Token>>

    ghost predicate Valid() { operands.Length == 3 }

    function View(): Row
      requires Valid()
      reads this, operands
    {
      Row(name, op, operands[0], operands[1], operands[2])
    }

    constructor ()
      ensures Valid() && fresh(operands) && View() == EMPTY_ROW
    {
      name, op := None, None;
      operands := new Option<Token>[3](_ => None);
    }

    // The iterator is an index into the tokens; the result is 0, or negative at the end.
    method AssignLabel(tokens: seq<Token>, it0: nat) returns (result: int, it: nat)
      requires Valid() && it0 <= |tokens|
      modifies this`name
      ensures it == (if it0 < |tokens| then it0 + 1 else it0) && it <= |tokens|
      ensures name == if it0 < |tokens| then Some(tokens[it0]) else old(name)
      ensures result == if it0 < |tokens| then 0 else -1
    {
      if it0 == |tokens| { return -1, it0; }
      name := Some(tokens[it0]);
      return 0, it0 + 1;
    }

    method AssignOp(tokens: seq<Token>, it0: nat) returns (result: int, it: nat)
      requires Valid() && it0 <= |tokens|
      modifies this`op
      ensures it == (if it0 < |tokens| then it0 + 1 else it0) && it <= |tokens|
      ensures op == if it0 < |tokens| then Some(tokens[it0]) else old(op)
      ensures result == if it0 < |tokens| then 0 else -1
    {
      if it0 == |tokens| { return -1, it0; }
      op := Some(tokens[it0]);
      return 0, it0 + 1;
    }

    method AssignOperand(tokens: seq<Token>, it0: nat, pos: nat) returns (result: int, it: nat)
      requires Valid() && it0 <= |tokens|
      modifies operands
      ensures it == (if it0 < |tokens| && pos <= 2 then it0 + 1 else it0) && it <= |tokens|
      ensures forall k :: 0 <= k < 3 ==>
                operands[k] == if k == pos && it0 < |tokens| then Some(tokens[it0]) else old(operands[k])
      ensures result == if it0 == |tokens| then -1 else if pos > 2 then -2 else 0
    {
      if it0 == |tokens| { return -1, it0; }
      if pos > 2 { return -2, it0; }
      operands[pos] := Some(tokens[it0]);
      return 0, it0 + 1;
    }

    // The branch `parse_segment`.
    method ParseSegment(tokens: seq<Token>, it0: nat) returns (it: nat)
      requires Valid() && it0 < |tokens| && operands[0] == operands[1] == operands[2] == None
      modifies this, operands
      ensures it0 <= it <= |tokens| && (View(), tokens[it..]) == SegmentRow(old(View()), tokens[it0..])
    {
      ghost var ts := tokens[it0..];
      assert forall k :: 0 <= k <= |ts| ==> ts[k..] == tokens[it0 + k..];
      var v, result := tokens[it0].value, 0;
      if v == ".END" {
        result, it := AssignOp(tokens, it0);
      } else if v == ".ORIG" || v == ".STRINGZ" || v == ".BLKW" {
        result, it := AssignOp(tokens, it0);
        result, it := AssignOperand(tokens, it, 0);
      } else {
        result, it := AssignLabel(tokens, it0);
        result, it := AssignOperand(tokens, it, 0);
      }
      assert tokens[it..] == ts[it - it0..];
      assert |ts| > 1 ==> ts[1] == tokens[it0 + 1];
    }

    // The branch `parse_instruction`; JMP and LDI leave the iterator where it is.
    method ParseInstruction(tokens: seq<Token>, it0: nat) returns (it: nat)
      requires Valid() && it0 < |tokens| && operands[0] == operands[1] == operands[2] == None
      modifies this, operands
      ensures it0 <= it <= |tokens|
      ensures it == it0 <==> OperationRow(old(View()), tokens[it0..]) == Failure(NoProgress)
      ensures it > it0 ==> OperationRow(old(View()), tokens[it0..]) == Success((View(), tokens[it..]))
    {
      hide IsBranch, Arity, OperationRow;
      ghost var row := View();
      OperationAt(row, tokens, it0);
      assert tokens[|tokens|..] == [];
      var v, result := tokens[it0].value, 0;
      ArityIs(v);
      if v == "AND" || v == "ADD" || v == "LDR" {
        result, it := AssignOp(tokens, it0);
        result, it := AssignOperand(tokens, it, 0);
        result, it := AssignOperand(tokens, it, 1);
        result, it := AssignOperand(tokens, it, 2);
      } else if v == "HALT" || v == "PUTS" {
        result, it := AssignOp(tokens, it0);
      } else if IsBranch(v) {
        result, it := AssignOp(tokens, it0);
        result, it := AssignOperand(tokens, it, 0);
      } else if v == "LD" || v == "LEA" || v == "NOT" || v == "ST" {
        result, it := AssignOp(tokens, it0);
        result, it := AssignOperand(tokens, it, 0);
        result, it := AssignOperand(tokens, it, 1);
      } else {
        it := it0;
      }
    }
  }

  lemma ArityIs(v: string)
    ensures Arity(v) == if v == "AND" || v == "ADD" || v == "LDR" then Some(3)
                        else if v == "HALT" || v == "PUTS" then Some(0)
                        else if IsBranch(v) then Some(1)
                        else if v == "LD" || v == "LEA" || v == "NOT" || v == "ST" then Some(2)
                        else None
  {
    hide IsBranch;
  }

  // OperationRow over the tokens and an index.
  lemma OperationAt(row: Row, tokens: seq<Token>, i: nat)
    requires i < |tokens|
    ensures OperationRow(row, tokens[i..])
         == match Arity(tokens[i].value)
            case None => Failure(NoProgress)
            case Some(n) =>
              Success((row.(op := Some(tokens[i]), a := if n > 0 then At(tokens, i + 1) else None,
                            b := if n > 1 then At(tokens, i + 2) else None,
                            c := if n > 2 then At(tokens, i + 3) else None),
                       Drop(tokens, i + n + 1)))
  {
    hide Arity, At, Drop;
    AtFrom(tokens, i, 1);
    AtFrom(tokens, i, 2);
    AtFrom(tokens, i, 3);
    var arity := Arity(tokens[i].value);
    if arity.Some? {
      DropFrom(tokens, i, arity.value + 1);
    }
  }

  lemma AtFrom(tokens: seq<Token>, i: nat, k: nat)
    requires i <= |tokens|
    ensures At(tokens[i..], k) == At(tokens, i + k)
  {}

  lemma DropFrom(tokens: seq<Token>, i: nat, k: nat)
    requires i <= |tokens|
    ensures Drop(tokens[i..], k) == Drop(tokens, i + k)
  {
    if i + k <= |tokens| {
      assert tokens[i..][k..] == tokens[i + k..];
    }
  }

  // One turn of the loop of Parse: the row it pushes, unless a label ended the input.
  method ParseTurn(tokens: seq<Token>, it0: nat) returns (r: Result<Option<Row>, Error>, it: nat)
    requires it0 < |tokens|
    ensures it0 <= it <= |tokens|
    ensures r.Failure? ==> ParseRow(tokens[it0..]) == Failure(r.error)
    ensures r.Success? ==> it > it0 && ParseRow(tokens[it0..]) == Success((r.value, tokens[it..]))
  {
    hide OperationRow, SegmentRow;
    var row := new InstructionRow();
    ghost var ts := tokens[it0..];
    var kind := tokens[it0].kind;
    it := it0;
    if kind == Segment {
      it := row.ParseSegment(tokens, it);
      SegmentAdvances(EMPTY_ROW, ts);
    } else if kind == Label {
      var result;
      result, it := row.AssignLabel(tokens, it);
      assert tokens[it..] == ts[1..];
      if it == |tokens| { return Success(None), it; }
      if tokens[it].kind == Instruction {
        var next := row.ParseInstruction(tokens, it);
        if next == it { return Failure(NoProgress), it; }
        it := next;
      } else if tokens[it].kind == Segment {
        SegmentAdvances(row.View(), tokens[it..]);
        it := row.ParseSegment(tokens, it);
      }
    } else if kind == Instruction {
      var next := row.ParseInstruction(tokens, it);
      if next == it { return Failure(NoProgress), it; }
      it := next;
    } else {
      return Failure(Aborted), it;
    }
    return Success(Some(row.View())), it;
  }

  lemma SegmentAdvances(row: Row, ts: seq<Token>)
    requires ts != []
    ensures |SegmentRow(row, ts).1| < |ts|
  {}

  method ParseTokens(tokens: seq<Token>) returns (r: Result<seq<Row>, Error>)
    ensures r == Rows(tokens)
  {
    hide ParseRow;
    var rows: seq<Row>, it: nat := [], 0;
    assert tokens[0..] == tokens;
    WithNothing(Rows(tokens));
    while it < |tokens|
      invariant it <= |tokens|
      invariant With(rows, Rows(tokens[it..])) == Rows(tokens)
      decreases |tokens| - it
    {
      ghost var rest := tokens[it..];
      var row;
      row, it := ParseTurn(tokens, it);
      if row.Failure? { return Failure(row.error); }
      ParseRowAdvances(rest);
      var pushed := if row.value.Some? then [row.value.value] else [];
      WithTwice(rows, pushed, Rows(tokens[it..]));
      rows := rows + pushed;
    }
    assert tokens[it..] == [];
    ConcatEmpty(rows);
    return Success(rows);
  }

  function With(rows: seq<Row>, r: Result<seq<Row>, Error>): Result<seq<Row>, Error> {
    match r case Failure(e) => Failure(e) case Success(more) => Success(rows + more)
  }

  lemma WithNothing(r: Result<seq<Row>, Error>)
    ensures With([], r) == r
  {
    if r.Success? { ConcatEmpty(r.value); }
  }

  lemma WithTwice(a: seq<Row>, b: seq<Row>, r: Result<seq<Row>, Error>)
    ensures With(a, With(b, r)) == With(a + b, r)
  {
    if r.Success? { ConcatAssociates(a, b, r.value); }
  }

  // ---------- BuildSymtab ----------

  method BuildTable(rows: seq<Row>) returns (r: Result<map<string, u16>, Error>)
    ensures match BuildSymtab(rows) case Failure(e) => r == Failure(e) case Success(st) => r == Success(st.addresses)
  {
    hide HexToU16, U16Value;
    var offset: nat, symtab: map<string, u16> := 0, map[];
    for i := 0 to |rows|
      invariant BuildSymtab(rows[..i]) == Success(Symtab(offset, symtab))
    {
      var row := rows[i];
      assert rows[..i + 1][..i] == rows[..i];
      FailureSpreads(rows, i + 1);
      if row.op.None? { return Failure(NullPointer); }
      if row.op.value.value == ".ORIG" {
        if row.a.None? { return Failure(NullPointer); }
        offset := HexToU16(row.a.value);
      }
      if !(row.name.Some? && row.op.Some? && row.a.Some?) {
        offset := offset + 2;
        continue;
      }
      symtab := symtab[row.name.value.value := offset % TWO_16];
      if row.op.value.value == ".STRINGZ" {
        offset := offset + |row.a.value.value|;
      } else if row.op.value.value == ".BLKW" {
        offset := offset + U16Value(row.a.value);
      }
    }
    assert rows[..|rows|] == rows;
    return Success(symtab);
  }

  // Parse ends with the symbol table, which later stages do not read.
  method ParseAll(tokens: seq<Token>) returns (r: Result<seq<Row>, Error>)
    ensures r == Parse(tokens)
  {
    r := ParseTokens(tokens);
    if r.Success? {
      var table := BuildTable(r.value);
      if table.Failure? { r := Failure(table.error); }
    }
  }

  lemma {:induction false} FailureSpreads(rows: seq<Row>, k: nat)
    requires k <= |rows|
    ensures BuildSymtab(rows[..k]).Failure? ==> BuildSymtab(rows) == BuildSymtab(rows[..k])
  {
    hide AddRow;
    if k == |rows| {
      assert rows[..k] == rows;
    } else {
      FailureSpreads(rows[..|rows| - 1], k);
      assert rows[..|rows| - 1][..k] == rows[..k];
    }
  }

  // ---------- Encode ----------

  class Image {
    const data: array<u16>
    var len: nat

    constructor ()
      ensures fresh(data) && data.Length == IMAGE_SIZE && len == 0
    {
      data, len := new u16[IMAGE_SIZE](_ => 0), 0;
    }
  }

  // What the encoder computes fits a word.
  lemma {:induction false} OrFits(x: nat, y: nat, k: nat)
    requires x < Power(2, k) && y < Power(2, k)
    ensures BitOr(x, y) < Power(2, k)
    decreases k
  {
    if k > 0 && x > 0 && y > 0 {
      OrFits(x / 2, y / 2, k - 1);
    }
  }

  lemma OrFits16(x: nat, y: nat)
    requires x < TWO_16 && y < TWO_16
    ensures BitOr(x, y) < TWO_16
  {
    assert Power(2, 16) == TWO_16 by { assert Power(2, 8) == 0x100; assert Power(2, 12) == 0x1000; }
    OrFits(x, y, 16);
  }

  lemma OrAlwaysFits()
    ensures forall x: nat, y: nat :: x < TWO_16 && y < TWO_16 ==> BitOr(x, y) < TWO_16
  {
    forall x: nat, y: nat | x < TWO_16 && y < TWO_16 ensures BitOr(x, y) < TWO_16 {
      OrFits16(x, y);
    }
  }

  lemma EncodedWordFits(row: Row)
    ensures EncodeRow(row).Success? && EncodeRow(row).value.Some? ==> EncodeRow(row).value.value < TWO_16
  {
    hide BitOr, LitValue, HexToU16, StringToRegister;
    OrAlwaysFits();
  }

  // The image after the rows encoded so far.
  method EncodeRows(rows: seq<Row>) returns (img: Image, error: Option<Error>)
    ensures fresh(img) && fresh(img.data) && img.data.Length == IMAGE_SIZE
    ensures error.None? ==> img.len <= IMAGE_SIZE && Encode(rows) == Success(img.data[..img.len])
    ensures error.Some? ==> Encode(rows) == Failure(error.value)
  {
    hide EncodeRow;
    img := new Image();
    error := None;
    for i := 0 to |rows|
      invariant fresh(img) && fresh(img.data) && img.data.Length == IMAGE_SIZE && img.len <= IMAGE_SIZE
      invariant error.None? && Encode(rows[..i]) == Success(img.data[..img.len])
    {
      assert rows[..i + 1][..i] == rows[..i];
      EncodeFailureSpreads(rows, i + 1);
      EncodedWordFits(rows[i]);
      var word := EncodeRow(rows[i]);
      match word {
        case Failure(e) => error := Some(e); return;
        case Success(None) =>
        case Success(Some(w)) =>
          if img.len == IMAGE_SIZE {
            error := Some(ImageFull);
            return;
          }
          ghost var before: seq<nat> := img.data[..img.len];
          img.data[img.len] := w;
          img.len := img.len + 1;
          assert img.data[..img.len] == before + [w];
      }
    }
    assert rows[..|rows|] == rows;
  }

  lemma {:induction false} EncodeFailureSpreads(rows: seq<Row>, k: nat)
    requires k <= |rows|
    ensures Encode(rows[..k]).Failure? ==> Encode(rows) == Encode(rows[..k])
  {
    hide EncodeRow;
    if k == |rows| {
      assert rows[..k] == rows;
    } else {
      EncodeFailureSpreads(rows[..|rows| - 1], k);
      assert rows[..|rows| - 1][..k] == rows[..k];
    }
  }
}
