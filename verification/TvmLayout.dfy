/** Where the symbol table of tvm/tvm.cc puts labels, in terms of the text of the rows. */
module TvmLayout {
  import opened Arithmetic
  import opened Basics
  import opened Hexadecimal
  import opened TvmTokens
  import opened TvmAssembler
  import opened TvmTables
  import opened TvmRoundTrip

  // What a row adds to the offset: 2 without a label or an operand; behind a label, a string as
  // many as its text has characters, with the quotes, and a block as many as its decimal operand.
  predicate Takes(row: Row, n: nat) {
    && row.op.Some?
    && if row.name.None? || row.a.None? then n == 2
       else if row.op.value.value == ".STRINGZ" then n == |row.a.value.value|
       else if row.op.value.value == ".BLKW" then n < 65536 && row.a.value.value == Decimal(n)
       else n == 0
  }

  // A program that starts at an origin, which is 0 when it has no .ORIG, and takes these sizes.
  predicate IsLayout(rows: seq<Row>, origin: u16, sizes: seq<nat>) {
    && |rows| == |sizes| > 0
    && (forall k :: 0 <= k < |rows| ==> Takes(rows[k], sizes[k]))
    && (if rows[0].op.value.value == ".ORIG" then rows[0].a.Some? && rows[0].a.value.value == "x" + Hex(origin, 4)
        else origin == 0)
    && forall k :: 0 < k < |rows| ==> rows[k].op.value.value != ".ORIG"
  }

  lemma BlockSizeReads(t: Token, n: nat)
    requires n < 65536 && t.value == Decimal(n)
    ensures U16Value(t) == n
  {
    hide Decimal, ExtractU16;
    ConcatEmpty(t.value);
    DecimalExtracted("", n, "");
  }

  lemma LayoutBuilds(rows: seq<Row>, origin: u16, sizes: seq<nat>)
    requires IsLayout(rows, origin, sizes)
    ensures BuildSymtab(rows).Success?
  {
    hide Decimal, Hex;
    forall k | 0 <= k < |rows| ensures IsComplete(rows[k]) {
      assert Takes(rows[k], sizes[k]);
    }
    TableBuilds(rows);
  }

  // What AddRow does to the offset.
  lemma OffsetTakes(row: Row, st: Symtab, n: nat)
    requires Takes(row, n) && row.op.value.value != ".ORIG"
    ensures AddRow(row, st).Success? && AddRow(row, st).value.offset == st.offset + n
  {
    hide Decimal, U16Value, HexToU16;
    if row.name.Some? && row.a.Some? && row.op.value.value == ".BLKW" {
      BlockSizeReads(row.a.value, n);
    }
  }

  lemma OriginTakes(row: Row, st: Symtab, origin: u16, n: nat)
    requires Takes(row, n) && row.op.value.value == ".ORIG"
    requires row.a.Some? && row.a.value.value == "x" + Hex(origin, 4)
    ensures AddRow(row, st).Success? && AddRow(row, st).value.offset == origin + n
  {
    OriginReads(origin, row.a.value.line);
    hide Decimal, Hex, HexToU16, U16Value;
    SameValue(row.a.value, MakeToken("x" + Hex(origin, 4), row.a.value.line));
  }

  lemma FirstTakes(rows: seq<Row>, origin: u16, sizes: seq<nat>, st: Symtab)
    requires IsLayout(rows, origin, sizes) && st.offset == 0
    ensures AddRow(rows[0], st).Success? && AddRow(rows[0], st).value.offset == origin + sizes[0]
  {
    hide Decimal, Hex, AddRow;
    assert Takes(rows[0], sizes[0]);
    if rows[0].op.value.value == ".ORIG" {
      OriginTakes(rows[0], st, origin, sizes[0]);
    } else {
      OffsetTakes(rows[0], st, sizes[0]);
    }
  }

  lemma SameValue(t: Token, u: Token)
    requires t.value == u.value
    ensures HexToU16(t) == HexToU16(u)
  {}

  lemma {:induction false} OffsetIsSum(rows: seq<Row>, origin: u16, sizes: seq<nat>, k: nat)
    requires IsLayout(rows, origin, sizes) && BuildSymtab(rows).Success? && 0 < k <= |rows|
    ensures OffsetAt(rows, k) == origin + Total(sizes[..k])
    decreases k
  {
    hide Takes, AddRow, Total, Hex;
    PrefixBuilds(rows, k);
    PrefixBuilds(rows, k - 1);
    assert rows[..k][..k - 1] == rows[..k - 1];
    TotalNext(sizes, k - 1);
    var before := BuildSymtab(rows[..k - 1]).value;
    if k == 1 {
      assert sizes[..0] == [];
      TotalNothing();
      FirstTakes(rows, origin, sizes, before);
    } else {
      OffsetIsSum(rows, origin, sizes, k - 1);
      OffsetTakes(rows[k - 1], before, sizes[k - 1]);
    }
  }

  // Without overflow of 16 bits the table puts a label that only one row carries at the origin
  // plus what all earlier rows take.
  lemma AddressIsSum(rows: seq<Row>, origin: u16, sizes: seq<nat>, k: nat)
    requires IsLayout(rows, origin, sizes) && 0 < k < |rows| && Labelled(rows[k]) && IsOnly(rows, k)
    requires origin + Total(sizes[..k]) < 65536
    ensures BuildSymtab(rows).Success?
    ensures rows[k].name.value.value in BuildSymtab(rows).value.addresses
    ensures BuildSymtab(rows).value.addresses[rows[k].name.value.value] == origin + Total(sizes[..k])
  {
    hide Takes, Total, OffsetAt, BuildSymtab;
    LayoutBuilds(rows, origin, sizes);
    TableRecordsAddress(rows, k);
    OffsetIsSum(rows, origin, sizes, k);
    LaterIsNotOrigin(rows, origin, sizes, k);
    ModSmall(origin + Total(sizes[..k]), TWO_16);
  }

  lemma LaterIsNotOrigin(rows: seq<Row>, origin: u16, sizes: seq<nat>, k: nat)
    requires IsLayout(rows, origin, sizes) && 0 < k < |rows|
    ensures !IsOrigin(rows[k])
  {}

  lemma {:induction false} TotalOfSizes(sizes: seq<nat>)
    ensures Total(sizes) >= 0
  {
    if sizes != [] {
      TotalOfSizes(sizes[1..]);
    }
  }

  // Two labels are apart by what lies between them, so that the later one is not within the
  // string or block of the earlier.
  lemma LabelsAreApart(rows: seq<Row>, origin: u16, sizes: seq<nat>, i: nat, j: nat)
    requires IsLayout(rows, origin, sizes) && 0 < i < j < |rows| && origin + Total(sizes[..j]) < 65536
    requires Labelled(rows[i]) && IsOnly(rows, i) && Labelled(rows[j]) && IsOnly(rows, j)
    ensures BuildSymtab(rows).Success?
    ensures var table := BuildSymtab(rows).value.addresses;
            var a, b := rows[i].name.value.value, rows[j].name.value.value;
            && a in table && b in table
            && table[b] == table[a] + Total(sizes[i..j])
            && table[a] + sizes[i] <= table[b]
  {
    hide Takes, Total, BuildSymtab, IsOnly;
    assert sizes[..j] == sizes[..i] + sizes[i..j] && sizes[i..j] == [sizes[i]] + sizes[i + 1..j];
    TotalConcat(sizes[..i], sizes[i..j]);
    TotalConcat([sizes[i]], sizes[i + 1..j]);
    TotalOne(sizes[i]);
    TotalOfSizes(sizes[i + 1..j]);
    AddressIsSum(rows, origin, sizes, i);
    AddressIsSum(rows, origin, sizes, j);
  }

  // ---------- an example ----------

  function BareRow(op: string, a: Option<string>, line: nat): Row {
    Row(None, Some(MakeToken(op, line)), match a case None => None case Some(v) => Some(MakeToken(v, line)), None, None)
  }

  function DataRow(name: string, op: string, a: string, line: nat): Row {
    Row(Some(MakeToken(name, line)), Some(MakeToken(op, line)), Some(MakeToken(a, line)), None, None)
  }

  // tvm/test/data/many-variables.asm, without the operands that the table does not look at.
  function ManyVariables(): seq<Row> {
    [BareRow(".ORIG", Some("x3000"), 1), BareRow("ADD", Some("R1"), 2), BareRow("ADD", Some("R1"), 3),
     BareRow("HALT", None, 4),
     DataRow("VAR1", ".STRINGZ", "\"hello world\"", 5), DataRow("VAR2", ".STRINGZ", "\"goodbye world\"", 6),
     DataRow("VAR3", ".STRINGZ", "\"not so fast world\"", 7),
     DataRow("VAR4", ".BLKW", "1", 8), DataRow("VAR5", ".BLKW", "1000", 9)]
  }

  lemma ManyVariablesLayout()
    ensures IsLayout(ManyVariables(), 0x3000, [2, 2, 2, 2, 13, 15, 19, 1, 1000])
  {
    hide Classify;
    OriginWord();
    DecimalTexts();
    hide Decimal, Hex;
  }

  lemma OriginWord()
    ensures "x" + Hex(0x3000, 4) == "x3000"
  {
    hide Hex;
    HexNothing(0);
    HexFour(0, 0, 3, 0, 0, 0);
  }

  lemma DecimalTexts()
    ensures Decimal(1) == "1" && Decimal(1000) == "1000"
  {
    assert Decimal(100) == Decimal(10) + "0";
  }

  lemma ManyVariablesAddresses()
    ensures BuildSymtab(ManyVariables()).Success?
    ensures var table := BuildSymtab(ManyVariables()).value.addresses;
            && "VAR1" in table && table["VAR1"] == 0x3008 && "VAR2" in table && table["VAR2"] == 0x3015
            && "VAR3" in table && table["VAR3"] == 0x3024 && "VAR4" in table && table["VAR4"] == 0x3037
            && "VAR5" in table && table["VAR5"] == 0x3038
  {
    hide *;
    PartialSums();
    VariableAddress(4, "VAR1");
    VariableAddress(5, "VAR2");
    VariableAddress(6, "VAR3");
    VariableAddress(7, "VAR4");
    VariableAddress(8, "VAR5");
  }

  lemma VariableAddress(k: nat, name: string)
    requires 4 <= k < 9 && name == "VAR" + [("12345")[k - 4]]
    ensures BuildSymtab(ManyVariables()).Success?
    ensures var table := BuildSymtab(ManyVariables()).value.addresses;
            name in table && table[name] == 0x3000 + Total(([2, 2, 2, 2, 13, 15, 19, 1, 1000])[..k])
  {
    hide BuildSymtab, Total, IsOnly, Classify, IsLayout, ManyVariables;
    ManyVariablesLayout();
    ManyVariablesSize();
    PartialSums();
    VariableIsOnly(k, name);
    AddressIsSum(ManyVariables(), 0x3000, [2, 2, 2, 2, 13, 15, 19, 1, 1000], k);
  }

  lemma ManyVariablesSize()
    ensures |ManyVariables()| == 9
  {}

  lemma VariableIsOnly(k: nat, name: string)
    requires 4 <= k < 9 && name == "VAR" + [("12345")[k - 4]]
    ensures |ManyVariables()| == 9 && Labelled(ManyVariables()[k])
    ensures ManyVariables()[k].name.value.value == name && IsOnly(ManyVariables(), k)
  {
    hide Classify;
    var rows := ManyVariables();
    assert forall i :: 4 <= i < 9 ==> rows[i].name.value.value == "VAR" + [("12345")[i - 4]];
  }

  lemma PartialSums()
    ensures var sizes := [2, 2, 2, 2, 13, 15, 19, 1, 1000];
            && Total(sizes[..4]) == 8 && Total(sizes[..5]) == 21 && Total(sizes[..6]) == 36
            && Total(sizes[..7]) == 55 && Total(sizes[..8]) == 56
  {
    hide Total;
    var sizes := [2, 2, 2, 2, 13, 15, 19, 1, 1000];
    assert sizes[..0] == [];
    TotalNothing();
    TotalNext(sizes, 0);
    TotalNext(sizes, 1);
    TotalNext(sizes, 2);
    TotalNext(sizes, 3);
    TotalNext(sizes, 4);
    TotalNext(sizes, 5);
    TotalNext(sizes, 6);
    TotalNext(sizes, 7);
  }

  lemma TotalNext(sizes: seq<nat>, k: nat)
    requires k < |sizes|
    ensures Total(sizes[..k + 1]) == Total(sizes[..k]) + sizes[k]
  {
    hide Total;
    assert sizes[..k + 1] == sizes[..k] + [sizes[k]];
    TotalConcat(sizes[..k], [sizes[k]]);
    TotalOne(sizes[k]);
  }
}
