/** The tokens of tvm/tvm.cc: classification, number extraction, and the tokenizer. */
module TvmTokens {
  import opened Basics

  datatype Kind = Segment | Instruction | Register | Label | NumberLiteral | HexNumber | Punct | String | Unknown

  datatype Token = Token(value: string, line: nat, kind: Kind)

  datatype Error =
    | UnterminatedString  // exit(1) in Tokenize
    | Aborted             // abort() in Parse or StringToRegister
    | NoProgress          // Parse stays at a JMP or LDI for ever
    | NullPointer         // a row without operation or operand is dereferenced
    | ImageFull           // more words than the image holds

  // ---------- the regular expressions ----------

  predicate IsUpper(c: char) { 'A' <= c <= 'Z' }
  predicate IsDigit(c: char) { '0' <= c <= '9' }
  predicate IsHexDigit(c: char) { IsDigit(c) || 'A' <= c <= 'F' || 'a' <= c <= 'f' }

  predicate IsSegment(v: string) {
    |v| >= 3 && v[0] == '.' && IsUpper(v[1]) && forall i :: 2 <= i < |v| ==> IsUpper(v[i]) || IsDigit(v[i])
  }

  predicate IsBranch(v: string) {
    v == "BR" || v == "BRn" || v == "BRzp" || v == "BRnz" || v == "BRp" || v == "BRz" || v == "BRnp"
  }

  predicate IsInstruction(v: string) {
    v == "AND" || v == "ADD" || IsBranch(v) || v == "HALT" || v == "JMP" || v == "LD" || v == "LDI"
    || v == "LEA" || v == "LDR" || v == "PUTS" || v == "ST" || v == "NOT"
  }

  predicate IsRegister(v: string) {
    |v| == 2 && v[0] == 'R' && '0' <= v[1] <= '3'
  }

  predicate IsLabel(v: string) {
    && |v| >= 2 && ((IsUpper(v[0]) && v[0] != 'R') || v[0] == '_')
    && forall i :: 1 <= i < |v| ==> IsUpper(v[i]) || IsDigit(v[i]) || v[i] == '_'
  }

  function Without(v: string, c: char): string {
    if v != "" && v[0] == c then v[1..] else v
  }

  predicate IsNumberLiteral(v: string) {
    var digits := Without(Without(v, '#'), '-');
    digits == "0"
    || (digits != "" && '1' <= digits[0] <= '9' && forall i :: 1 <= i < |digits| ==> IsDigit(digits[i]))
  }

  predicate IsHexNumber(v: string) {
    |v| >= 2 && v[0] == 'x' && forall i :: 1 <= i < |v| ==> IsHexDigit(v[i])
  }

  predicate IsPunct(v: string) {
    v == "," || v == "." || v == ":" || v == ";"
  }

  // Letters, digits and punctuation are the visible ASCII characters; blanks are space and tab.
  predicate IsString(v: string) {
    && |v| >= 2 && v[0] == '"' && v[|v| - 1] == '"'
    && forall i :: 1 <= i < |v| - 1 ==> '!' <= v[i] <= '~' || v[i] == ' ' || v[i] == '\t'
  }

  function Classify(v: string): Kind {
    if IsSegment(v) then Segment
    else if IsInstruction(v) then Instruction
    else if IsRegister(v) then Register
    else if IsHexNumber(v) then HexNumber
    else if IsLabel(v) then Label
    else if IsNumberLiteral(v) then NumberLiteral
    else if IsPunct(v) then Punct
    else if IsString(v) then String
    else Unknown
  }

  function MakeToken(v: string, line: nat): Token {
    Token(v, line, Classify(v))
  }

  // ---------- `stream >> u16` ----------

  function SkipSpace(s: string): string {
    if s != "" && IsSpace(s[0]) then SkipSpace(s[1..]) else s
  }

  // The value of c in the given base, or the base itself when it is no digit of it.
  function DigitValue(c: char, base: nat): (d: nat)
    ensures d <= base
  {
    var d := if IsDigit(c) then c as int - '0' as int
             else if 'a' <= c <= 'f' then c as int - 'a' as int + 10
             else if 'A' <= c <= 'F' then c as int - 'A' as int + 10
             else base;
    if d < base then d else base
  }

  // The number made of the digits at the front of s, after those already read.
  function DigitsValue(s: string, base: nat, read: nat): nat {
    if s == "" || DigitValue(s[0], base) == base then read
    else DigitsValue(s[1..], base, read * base + DigitValue(s[0], base))
  }

  // Extraction of an unsigned short: white space, a sign, a 0x prefix in base 16, digits.
  // Without digits the value is 0; too large a value gives the maximum; a minus negates
  // modulo 2^16.
  function ExtractU16(s: string, base: nat): u16 {
    var s0 := SkipSpace(s);
    var negative := s0 != "" && s0[0] == '-';
    var s1 := if s0 != "" && (s0[0] == '-' || s0[0] == '+') then s0[1..] else s0;
    var s2 := if base == 16 && |s1| >= 2 && s1[0] == '0' && (s1[1] == 'x' || s1[1] == 'X') then s1[2..] else s1;
    var v := DigitsValue(s2, base, 0);
    if v >= TWO_16 then 0xffff else if negative then (TWO_16 - v) % TWO_16 else v
  }

  // `value_.substr(1)`; the tokenizer makes no empty token.
  function Tail(v: string): string {
    if v == "" then "" else v[1..]
  }

  function HexToU16(t: Token): u16 { ExtractU16(Tail(t.value), 16) }
  function LitValue(t: Token): u16 { ExtractU16(Tail(t.value), 10) }
  function U16Value(t: Token): u16 { ExtractU16(t.value, 10) }

  // ---------- the tokenizer ----------

  function Flushed(buffer: string, line: nat): seq<Token> {
    if buffer == "" then [] else [MakeToken(buffer, line)]
  }

  // The characters before the first newline.
  function CommentLength(s: string): (n: nat)
    ensures n <= |s| && (n < |s| ==> s[n] == '\n')
  {
    if s == "" || s[0] == '\n' then 0 else 1 + CommentLength(s[1..])
  }

  // The characters before the first quote or newline.
  function QuotedLength(s: string): (n: nat)
    ensures n <= |s| && (n < |s| ==> s[n] == '\n' || s[n] == '"')
    ensures forall i :: 0 <= i < n ==> s[i] != '\n' && s[i] != '"'
  {
    if s == "" || s[0] == '\n' || s[0] == '"' then 0 else 1 + QuotedLength(s[1..])
  }

  function Prepend(ts: seq<Token>, r: Result<seq<Token>, Error>): Result<seq<Token>, Error> {
    match r case Failure(e) => Failure(e) case Success(more) => Success(ts + more)
  }

  lemma PrependNothing(r: Result<seq<Token>, Error>)
    ensures Prepend([], r) == r
  {
    if r.Success? {
      ConcatEmpty(r.value);
    }
  }

  lemma PrependTwice(a: seq<Token>, b: seq<Token>, r: Result<seq<Token>, Error>)
    ensures Prepend(a, Prepend(b, r)) == Prepend(a + b, r)
  {
    if r.Success? {
      ConcatAssociates(a, b, r.value);
    }
  }

  // The tokens of s when `buffer` is pending. A comment swallows its newline without ending
  // the pending token. At the end of the input the last character read stays in place, so a
  // quote that is the last character of the input is taken twice.
  function Scan(s: string, buffer: string, line: nat): Result<seq<Token>, Error>
    decreases |s|
  {
    if s == "" then Success(Flushed(buffer, line))
    else
      match s[0]
      case ';' =>
        var n := CommentLength(s[1..]);
        if n < |s[1..]| then Scan(s[1..][n + 1..], buffer, line + 1) else Scan("", buffer, line)
      case '"' =>
        var n := QuotedLength(s[1..]);
        var text := buffer + ['"'] + s[1..][..n];
        if n < |s[1..]| && s[1..][n] == '\n' then Failure(UnterminatedString)
        else if n < |s[1..]| then Prepend([MakeToken(text + ['"'], line)], Scan(s[1..][n + 1..], "", line))
        else if n == 0 then Success([MakeToken(text + ['"'], line)])
        else Success([MakeToken(text, line)])
      case ':' => Prepend(Flushed(buffer, line) + [MakeToken(":", line)], Scan(s[1..], "", line))
      case '\n' => Prepend(Flushed(buffer, line), Scan(s[1..], "", line + 1))
      case ',' => Prepend(Flushed(buffer, line), Scan(s[1..], "", line))
      case ' ' => Prepend(Flushed(buffer, line), Scan(s[1..], "", line))
      case '\t' => Prepend(Flushed(buffer, line), Scan(s[1..], "", line))
      case c => Scan(s[1..], buffer + [c], line)
  }

  function TokensOf(text: string): Result<seq<Token>, Error> {
    Scan(text, "", 1)
  }
}

/** The rows, the symbol table and the words that tvm/tvm.cc makes of tokens. */
module TvmAssembler {
  import opened Arithmetic
  import opened Basics
  import opened TvmTokens

  // A null pointer is None.
  datatype Row = Row(name: Option<Token>, op: Option<Token>, a: Option<Token>, b: Option<Token>, c: Option<Token>)

  const EMPTY_ROW := Row(None, None, None, None, None)

  function At(ts: seq<Token>, i: nat): Option<Token> {
    if i < |ts| then Some(ts[i]) else None
  }

  function Drop(ts: seq<Token>, n: nat): seq<Token> {
    if n <= |ts| then ts[n..] else []
  }

  // How many operands a mnemonic takes; None for the two that Parse does not handle.
  function Arity(v: string): Option<nat> {
    if v == "AND" || v == "ADD" || v == "LDR" then Some(3)
    else if v == "HALT" || v == "PUTS" then Some(0)
    else if IsBranch(v) then Some(1)
    else if v == "LD" || v == "LEA" || v == "NOT" || v == "ST" then Some(2)
    else None
  }

  function OperationRow(row: Row, ts: seq<Token>): Result<(Row, seq<Token>), Error>
    requires ts != []
  {
    match Arity(ts[0].value)
    case None => Failure(NoProgress)
    case Some(n) =>
      Success((row.(op := Some(ts[0]), a := if n > 0 then At(ts, 1) else None,
                    b := if n > 1 then At(ts, 2) else None, c := if n > 2 then At(ts, 3) else None),
               Drop(ts, n + 1)))
  }

  function SegmentRow(row: Row, ts: seq<Token>): (Row, seq<Token>)
    requires ts != []
  {
    var v := ts[0].value;
    if v == ".END" then (row.(op := Some(ts[0])), ts[1..])
    else if v == ".ORIG" || v == ".STRINGZ" || v == ".BLKW" then
      (row.(op := Some(ts[0]), a := At(ts, 1)), Drop(ts, 2))
    else (row.(name := Some(ts[0]), a := At(ts, 1)), Drop(ts, 2))
  }

  // One turn of the loop of Parse. A label that ends the input makes no row.
  function ParseRow(ts: seq<Token>): Result<(Option<Row>, seq<Token>), Error>
    requires ts != []
  {
    match ts[0].kind
    case Segment => var (row, rest) := SegmentRow(EMPTY_ROW, ts); Success((Some(row), rest))
    case Instruction => Made(OperationRow(EMPTY_ROW, ts))
    case Label =>
      var row, rest := EMPTY_ROW.(name := Some(ts[0])), ts[1..];
      if rest == [] then Success((None, []))
      else if rest[0].kind == Instruction then Made(OperationRow(row, rest))
      else if rest[0].kind == Segment then var (row', rest') := SegmentRow(row, rest); Success((Some(row'), rest'))
      else Success((Some(row), rest))
    case _ => Failure(Aborted)
  }

  function Made(r: Result<(Row, seq<Token>), Error>): Result<(Option<Row>, seq<Token>), Error> {
    match r case Failure(e) => Failure(e) case Success((row, rest)) => Success((Some(row), rest))
  }

  lemma ParseRowAdvances(ts: seq<Token>)
    requires ts != [] && ParseRow(ts).Success?
    ensures |ParseRow(ts).value.1| < |ts|
  {}

  function Rows(ts: seq<Token>): Result<seq<Row>, Error>
    decreases |ts|
  {
    if ts == [] then Success([])
    else
      match ParseRow(ts)
      case Failure(e) => Failure(e)
      case Success((row, rest)) =>
        ParseRowAdvances(ts);
        match Rows(rest)
        case Failure(e) => Failure(e)
        case Success(rows) => Success((if row.Some? then [row.value] else []) + rows)
  }

  // ---------- the symbol table ----------

  datatype Symtab = Symtab(offset: nat, addresses: map<string, u16>)

  // The bytes that a labelled row with an operand reserves; the quotes of a string count.
  function Reserved(row: Row): nat
    requires row.op.Some? && row.a.Some?
  {
    if row.op.value.value == ".STRINGZ" then |row.a.value.value|
    else if row.op.value.value == ".BLKW" then U16Value(row.a.value)
    else 0
  }

  function StartOf(row: Row, offset: nat): nat
    requires row.op.Some? && row.a.Some?
  {
    if row.op.value.value == ".ORIG" then HexToU16(row.a.value) else offset
  }

  function AddRow(row: Row, st: Symtab): Result<Symtab, Error> {
    if row.op.None? then Failure(NullPointer)
    else if row.op.value.value == ".ORIG" && row.a.None? then Failure(NullPointer)
    else if row.a.None? then Success(st.(offset := st.offset + 2))
    else
      var offset := StartOf(row, st.offset);
      if row.name.None? then Success(st.(offset := offset + 2))
      else Success(Symtab(offset + Reserved(row), st.addresses[row.name.value.value := offset % TWO_16]))
  }

  function BuildSymtab(rows: seq<Row>): Result<Symtab, Error> {
    if rows == [] then Success(Symtab(0, map[]))
    else
      match BuildSymtab(rows[..|rows| - 1])
      case Failure(e) => Failure(e)
      case Success(st) => AddRow(rows[|rows| - 1], st)
  }

  function Parse(ts: seq<Token>): Result<seq<Row>, Error> {
    match Rows(ts)
    case Failure(e) => Failure(e)
    case Success(rows) =>
      match BuildSymtab(rows)
      case Failure(e) => Failure(e)
      case Success(_) => Success(rows)
  }

  // ---------- the words ----------

  const AND_OP: u16 := 0x5000
  const ADD_OP: u16 := 0x1000
  const NOT_OP: u16 := 0x9000
  const LD_OP: u16 := 0x2000
  const LDI_OP: u16 := 0xa000
  const LEA_OP: u16 := 0xe000
  const ST_OP: u16 := 0x3000
  const TRAP_OP: u16 := 0xf000
  const RET_WORD: u16 := 0xc1c0

  function AsDR(r: u16): u16 { r * 0x200 % TWO_16 }
  function AsSR1(r: u16): u16 { r * 0x40 % TWO_16 }

  function StringToRegister(t: Option<Token>): Result<u16, Error> {
    if t.None? then Failure(NullPointer)
    else if |t.value.value| < 2 then Failure(Aborted)
    else Success((t.value.value[1] as int - 0x30) % TWO_16)
  }

  function BranchWord(v: string): Option<u16> {
    if v == "BR" then Some(0x0000)
    else if v == "BRn" then Some(0x0800)
    else if v == "BRzp" then Some(0x0600)
    else if v == "BRnz" then Some(0x0c00)
    else if v == "BRp" then Some(0x0200)
    else if v == "BRz" then Some(0x0400)
    else if v == "BRnp" then Some(0x0a00)
    else if v == "BRnzp" then Some(0x0e00)
    else None
  }

  function TrapWord(v: string): Option<u16> {
    if v == "GETC" then Some(TRAP_OP + 0x20)
    else if v == "OUT" then Some(TRAP_OP + 0x21)
    else if v == "PUTS" then Some(TRAP_OP + 0x22)
    else if v == "IN" then Some(TRAP_OP + 0x23)
    else if v == "PUTSP" then Some(TRAP_OP + 0x24)
    else if v == "HALT" then Some(TRAP_OP + 0x25)
    else None
  }

  // The third operand of AND and ADD: a five-bit literal, or a register.
  function ThirdOperand(t: Option<Token>): Result<nat, Error> {
    if t.None? then Failure(NullPointer)
    else if t.value.kind == NumberLiteral then Success(BitOr(0x20, LitValue(t.value) % 0x20))
    else
      match StringToRegister(t) case Failure(e) => Failure(e) case Success(r) => Success(r)
  }

  function ThreeOperands(op: u16, row: Row): Result<nat, Error> {
    match (StringToRegister(row.a), StringToRegister(row.b), ThirdOperand(row.c))
    case (Success(dr), Success(sr), Success(third)) => Success(BitOr(BitOr(BitOr(op, AsDR(dr)), AsSR1(sr)), third))
    case (Failure(e), _, _) => Failure(e)
    case (_, Failure(e), _) => Failure(e)
    case (_, _, Failure(e)) => Failure(e)
  }

  // LD, LDI and LEA: a register and a nine-bit offset.
  function Load(op: u16, row: Row): Result<nat, Error> {
    match StringToRegister(row.a)
    case Failure(e) => Failure(e)
    case Success(dr) =>
      if row.b.None? then Failure(NullPointer)
      else Success(BitOr(BitOr(op, AsDR(dr)), LitValue(row.b.value) % 0x200))
  }

  // The word that Encode appends for a row, if any. ST takes both its fields from the first operand.
  function EncodeRow(row: Row): Result<Option<nat>, Error> {
    if row.op.None? then Success(None)
    else
      var v := row.op.value.value;
      if v == ".ORIG" then
        if row.a.None? then Failure(NullPointer) else Success(Some(HexToU16(row.a.value)))
      else if v == "NOT" then
        match (StringToRegister(row.a), StringToRegister(row.b))
        case (Success(dr), Success(sr)) => Success(Some(BitOr(BitOr(BitOr(NOT_OP, AsDR(dr)), AsSR1(sr)), 0x3f)))
        case (Failure(e), _) => Failure(e)
        case (_, Failure(e)) => Failure(e)
      else if v == "AND" then Word(ThreeOperands(AND_OP, row))
      else if v == "ADD" then Word(ThreeOperands(ADD_OP, row))
      else if TrapWord(v).Some? then Success(Some(TrapWord(v).value))
      else if v == "LD" then Word(Load(LD_OP, row))
      else if v == "LEA" then Word(Load(LEA_OP, row))
      else if v == "LDI" then Word(Load(LDI_OP, row))
      else if BranchWord(v).Some? then
        if row.a.None? then Failure(NullPointer)
        else Success(Some(BitOr(BranchWord(v).value, LitValue(row.a.value) % 0x200)))
      else if v == "ST" then
        match StringToRegister(row.a)
        case Failure(e) => Failure(e)
        case Success(sr) => Success(Some(BitOr(BitOr(ST_OP, AsSR1(sr)), LitValue(row.a.value) % 0x200)))
      else if v == "RET" then Success(Some(RET_WORD))
      else Success(None)
  }

  function Word(r: Result<nat, Error>): Result<Option<nat>, Error> {
    match r case Failure(e) => Failure(e) case Success(w) => Success(Some(w))
  }

  const IMAGE_SIZE: nat := 0xffff

  function Encode(rows: seq<Row>): Result<seq<nat>, Error> {
    if rows == [] then Success([])
    else
      match Encode(rows[..|rows| - 1])
      case Failure(e) => Failure(e)
      case Success(words) =>
        match EncodeRow(rows[|rows| - 1])
        case Failure(e) => Failure(e)
        case Success(None) => Success(words)
        case Success(Some(w)) => if |words| < IMAGE_SIZE then Success(words + [w]) else Failure(ImageFull)
  }

  function Assemble(text: string): Result<seq<nat>, Error> {
    match TokensOf(text)
    case Failure(e) => Failure(e)
    case Success(tokens) =>
      match Parse(tokens)
      case Failure(e) => Failure(e)
      case Success(rows) => Encode(rows)
  }
}
