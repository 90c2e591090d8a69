/** What the parser of tvm/tvm.cc keeps of its tokens, and how the symbol table lays out storage. */
module TvmTables {
  import opened Arithmetic
  import opened Basics
  import opened TvmTokens
  import opened TvmAssembler

  // ---------- rows keep the tokens ----------

  function Cell(t: Option<Token>): seq<Token> {
    match t case None => [] case Some(x) => [x]
  }

  function Cells(row: Row): seq<Token> {
    Cell(row.name) + Cell(row.op) + Cell(row.a) + Cell(row.b) + Cell(row.c)
  }

  function AllCells(rows: seq<Row>): seq<Token> {
    if rows == [] then [] else Cells(rows[0]) + AllCells(rows[1..])
  }

  // What the symbol table reads of a row is there: the operation, and the operand of .ORIG.
  predicate IsComplete(row: Row) {
    row.op.Some? && (row.op.value.value == ".ORIG" ==> row.a.Some?)
  }

  predicate AreComplete(rows: seq<Row>) {
    forall k :: 0 <= k < |rows| ==> IsComplete(rows[k])
  }

  lemma OperationKeepsTokens(row: Row, ts: seq<Token>)
    requires ts != [] && OperationRow(row, ts).Success? && row == EMPTY_ROW.(name := row.name)
    ensures var (r, rest) := OperationRow(row, ts).value; Cells(r) + rest == Cell(row.name) + ts
  {
    hide Arity;
    var (r, rest) := OperationRow(row, ts).value;
    var n := Arity(ts[0].value).value;
    ArityIsSmall(ts[0].value);
    assert |ts| > 1 ==> ts == [ts[0], ts[1]] + ts[2..];
    assert |ts| > 2 ==> ts == [ts[0], ts[1], ts[2]] + ts[3..];
    assert |ts| > 3 ==> ts == [ts[0], ts[1], ts[2], ts[3]] + ts[4..];
    assert ts == [ts[0]] + ts[1..];
  }

  lemma ArityIsSmall(v: string)
    ensures Arity(v).Some? ==> Arity(v).value <= 3
  {}

  lemma SegmentKeepsTokens(row: Row, ts: seq<Token>)
    requires ts != [] && row == EMPTY_ROW.(name := row.name) && SegmentRow(row, ts).0.op.Some?
    ensures var (r, rest) := SegmentRow(row, ts); Cells(r) + rest == Cell(row.name) + ts
  {
    assert ts == [ts[0]] + ts[1..];
    assert |ts| > 1 ==> ts == [ts[0], ts[1]] + ts[2..];
  }

  lemma RowKeepsTokens(ts: seq<Token>)
    requires ts != [] && ParseRow(ts).Success?
    ensures match ParseRow(ts).value
            case (Some(row), rest) => row.op.Some? ==> Cells(row) + rest == ts
            case (None, rest) => rest == [] && |ts| == 1 && ts[0].kind == Label
  {
    hide OperationRow, SegmentRow;
    if ts[0].kind == Segment {
      if SegmentRow(EMPTY_ROW, ts).0.op.Some? { SegmentKeepsTokens(EMPTY_ROW, ts); }
    } else if ts[0].kind == Instruction {
      OperationKeepsTokens(EMPTY_ROW, ts);
    } else {
      var row, rest := EMPTY_ROW.(name := Some(ts[0])), ts[1..];
      assert ts == [ts[0]] + rest;
      if rest != [] && rest[0].kind == Instruction {
        OperationKeepsTokens(row, rest);
      } else if rest != [] && rest[0].kind == Segment {
        if SegmentRow(row, rest).0.op.Some? { SegmentKeepsTokens(row, rest); }
      }
    }
  }

  // The type of the token is that of its value.
  predicate IsClassified(t: Token) {
    t.kind == Classify(t.value)
  }

  predicate AllClassified(ts: seq<Token>) {
    forall i :: 0 <= i < |ts| ==> IsClassified(ts[i])
  }

  lemma {:induction false} ScanClassifies(s: string, buffer: string, line: nat)
    ensures Scan(s, buffer, line).Success? ==> AllClassified(Scan(s, buffer, line).value)
    decreases |s|
  {
    hide Classify;
    if s != "" {
      var tail := s[1..];
      match s[0]
      case ';' =>
        var n := CommentLength(tail);
        ScanClassifies(if n < |tail| then tail[n + 1..] else "", buffer, if n < |tail| then line + 1 else line);
      case '"' =>
        var n := QuotedLength(tail);
        if n < |tail| { ScanClassifies(tail[n + 1..], "", line); }
      case '\n' => ScanClassifies(tail, "", line + 1);
      case ':' => ScanClassifies(tail, "", line);
      case ',' => ScanClassifies(tail, "", line);
      case ' ' => ScanClassifies(tail, "", line);
      case '\t' => ScanClassifies(tail, "", line);
      case c => ScanClassifies(tail, buffer + [c], line);
    }
  }

  // Every token of a text has the type that its value matches.
  lemma TokensAreClassified(text: string)
    ensures TokensOf(text).Success? ==> AllClassified(TokensOf(text).value)
  {
    ScanClassifies(text, "", 1);
  }

  // The loop of Parse stays for ever exactly at a JMP or an LDI. Behind a label the source still
  // takes the label, as a row without operation, and stays from the next turn on; here the turn
  // at the label fails.
  lemma StallsAtJmpOrLdi(ts: seq<Token>)
    requires ts != [] && AllClassified(ts)
    ensures ParseRow(ts) == Failure(NoProgress)
            <==> var head := if ts[0].kind == Label && |ts| > 1 then ts[1] else ts[0];
                 head.value == "JMP" || head.value == "LDI"
  {
    hide IsSegment, IsRegister, IsHexNumber, IsLabel, IsNumberLiteral, IsPunct, IsString;
    ClassOfStall();
    var head := if ts[0].kind == Label && |ts| > 1 then ts[1] else ts[0];
    if head.kind == Instruction {
      InstructionArity(head.value);
    }
  }

  lemma ClassOfStall()
    ensures Classify("JMP") == Instruction && Classify("LDI") == Instruction
  {}

  lemma InstructionArity(v: string)
    requires IsInstruction(v)
    ensures Arity(v).None? <==> v == "JMP" || v == "LDI"
  {}

  // The symbol table can be built of exactly the complete rows.
  lemma {:induction false} TableBuilds(rows: seq<Row>)
    ensures BuildSymtab(rows).Success? <==> AreComplete(rows)
    ensures BuildSymtab(rows).Failure? ==> BuildSymtab(rows) == Failure(NullPointer)
  {
    hide StartOf, Reserved;
    if rows != [] {
      TableBuilds(rows[..|rows| - 1]);
      assert forall k :: 0 <= k < |rows| - 1 ==> rows[k] == rows[..|rows| - 1][k];
    }
  }

  // ---------- the layout of storage ----------

  lemma {:induction false} PrefixBuilds(rows: seq<Row>, k: nat)
    requires BuildSymtab(rows).Success? && k <= |rows|
    ensures BuildSymtab(rows[..k]).Success?
  {
    if k == |rows| {
      assert rows[..k] == rows;
    } else {
      PrefixBuilds(rows[..|rows| - 1], k);
      assert rows[..|rows| - 1][..k] == rows[..k];
    }
  }

  // The offset in front of row k.
  function OffsetAt(rows: seq<Row>, k: nat): nat
    requires BuildSymtab(rows).Success? && k <= |rows|
  {
    PrefixBuilds(rows, k);
    BuildSymtab(rows[..k]).value.offset
  }

  predicate Labelled(row: Row) {
    row.name.Some? && row.op.Some? && row.a.Some?
  }

  predicate IsOrigin(row: Row) {
    row.op.Some? && row.op.value.value == ".ORIG"
  }

  // The address of a labelled row, before it is cut to 16 bits.
  function AddressAt(rows: seq<Row>, k: nat): nat
    requires BuildSymtab(rows).Success? && k < |rows| && Labelled(rows[k])
  {
    StartOf(rows[k], OffsetAt(rows, k))
  }

  lemma OffsetStep(rows: seq<Row>, k: nat)
    requires BuildSymtab(rows).Success? && k < |rows|
    ensures !IsOrigin(rows[k]) ==> OffsetAt(rows, k) <= OffsetAt(rows, k + 1)
    ensures Labelled(rows[k]) ==> OffsetAt(rows, k + 1) == AddressAt(rows, k) + Reserved(rows[k])
  {
    PrefixBuilds(rows, k + 1);
    assert rows[..k + 1][..k] == rows[..k];
  }

  lemma {:induction false} OffsetsGrow(rows: seq<Row>, i: nat, j: nat)
    requires BuildSymtab(rows).Success? && i <= j <= |rows|
    requires forall k :: i <= k < j ==> !IsOrigin(rows[k])
    ensures OffsetAt(rows, i) <= OffsetAt(rows, j)
    decreases j
  {
    if i < j {
      OffsetsGrow(rows, i, j - 1);
      OffsetStep(rows, j - 1);
    }
  }

  // With a single leading .ORIG, what two labels reserve does not overlap.
  lemma StorageIsDisjoint(rows: seq<Row>, i: nat, j: nat)
    requires BuildSymtab(rows).Success? && i < j < |rows| && Labelled(rows[i]) && Labelled(rows[j])
    requires forall k :: 0 < k < |rows| ==> !IsOrigin(rows[k])
    ensures AddressAt(rows, i) + Reserved(rows[i]) <= AddressAt(rows, j)
  {
    OffsetStep(rows, i);
    OffsetsGrow(rows, i + 1, j);
  }

  // The table records for a label the address of the last row that carries it.
  lemma {:induction false} TableRecordsAddress(rows: seq<Row>, i: nat)
    requires BuildSymtab(rows).Success? && i < |rows| && Labelled(rows[i])
    requires forall k :: i < k < |rows| && Labelled(rows[k]) ==> rows[k].name.value.value != rows[i].name.value.value
    ensures rows[i].name.value.value in BuildSymtab(rows).value.addresses
    ensures BuildSymtab(rows).value.addresses[rows[i].name.value.value] == AddressAt(rows, i) % TWO_16
    decreases |rows|
  {
    var n := |rows| - 1;
    PrefixBuilds(rows, n);
    if i < n {
      var before := rows[..n];
      assert before[..i] == rows[..i];
      TableRecordsAddress(before, i);
      assert AddressAt(before, i) == AddressAt(rows, i);
    }
  }

  // No other labelled row carries the label of row i.
  predicate IsOnly(rows: seq<Row>, i: nat)
    requires i < |rows| && Labelled(rows[i])
  {
    forall k :: 0 <= k < |rows| && k != i && Labelled(rows[k]) ==>
      rows[k].name.value.value != rows[i].name.value.value
  }

  // Without overflow of 16 bits the recorded addresses are the real ones, so that distinct
  // labels name disjoint storage.
  lemma RecordedStorageIsDisjoint(rows: seq<Row>, i: nat, j: nat)
    requires BuildSymtab(rows).Success? && i < j < |rows| && Labelled(rows[i]) && Labelled(rows[j])
    requires forall k :: 0 < k < |rows| ==> !IsOrigin(rows[k])
    requires OffsetAt(rows, |rows|) < TWO_16
    requires IsOnly(rows, i) && IsOnly(rows, j)
    ensures var table := BuildSymtab(rows).value.addresses;
            var a, b := rows[i].name.value.value, rows[j].name.value.value;
            a in table && b in table && table[a] + Reserved(rows[i]) <= table[b]
  {
    hide OffsetAt, BuildSymtab, Reserved, StartOf, AddressAt;
    StorageIsDisjoint(rows, i, j);
    TableRecordsAddress(rows, i);
    TableRecordsAddress(rows, j);
    OffsetStep(rows, j);
    OffsetsGrow(rows, j + 1, |rows|);
    ModSmall(AddressAt(rows, i), TWO_16);
    ModSmall(AddressAt(rows, j), TWO_16);
  }
}
