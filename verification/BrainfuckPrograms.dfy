/** What programs of each command do, from any state: the meaning of the commands of
    brainfuck/brainfuck.cc, in terms of the cells, the pointer, the input and the output. */
module BrainfuckPrograms {
  import opened Arithmetic
  import opened Basics
  import opened Hexadecimal
  import opened BrainfuckSpec
  import opened BrainfuckTree
  import opened BrainfuckRefinement

  // ---------- programs without loops ----------

  predicate NoBrackets(code: string) {
    forall i :: 0 <= i < |code| ==> code[i] != '[' && code[i] != ']'
  }

  function LineTree(code: string): Prog {
    if code == "" then Nil else Do(code[0], LineTree(code[1..]))
  }

  function RunLine(code: string, s: Core): (s': Core)
    requires s.Valid()
    ensures s'.Valid()
  {
    if code == "" then s else RunLine(code[1..], Command(code[0], s))
  }

  lemma {:induction false} LineTreeText(code: string)
    requires NoBrackets(code)
    ensures WellFormed(LineTree(code)) && Flatten(LineTree(code)) == code
  {
    if code != "" {
      LineTreeText(code[1..]);
      assert code == [code[0]] + code[1..];
    }
  }

  lemma {:induction false} LineTreeRuns(code: string, s: Core)
    requires s.Valid()
    ensures Exec(LineTree(code), s, 0) == Some(RunLine(code, s))
  {
    hide Command;
    if code != "" {
      LineTreeRuns(code[1..], Command(code[0], s));
    }
  }

  lemma LineHalts(code: string, s: Core)
    requires NoBrackets(code) && |code| <= MAX_CODE && s.Valid()
    ensures FlatHalts(code, s, RunLine(code, s))
  {
    LineTreeText(code);
    LineTreeRuns(code, s);
    RunRefinesTree(LineTree(code), s, RunLine(code, s));
  }

  lemma {:induction false} RunLineConcat(a: string, b: string, s: Core)
    requires s.Valid()
    ensures RunLine(a + b, s) == RunLine(b, RunLine(a, s))
  {
    hide Command;
    if a == "" {
      assert a + b == b;
    } else {
      assert (a + b)[1..] == a[1..] + b;
      RunLineConcat(a[1..], b, Command(a[0], s));
    }
  }

  // The result of a program is determined.
  lemma HaltsOnce(code: string, s: Core, s1: Core, s2: Core)
    requires |code| <= MAX_CODE && s.Valid() && FlatHalts(code, s, s1) && FlatHalts(code, s, s2)
    ensures s1 == s2
  {
    var i: nat :| FlatRun(code, At(s, 0), i) == Flat(s1, |code| + 1, false);
    var j: nat :| FlatRun(code, At(s, 0), j) == Flat(s2, |code| + 1, false);
    if i <= j {
      RunAdds(code, At(s, 0), i, j - i);
      StoppedStays(code, Flat(s1, |code| + 1, false), j - i);
    } else {
      RunAdds(code, At(s, 0), j, i - j);
      StoppedStays(code, Flat(s2, |code| + 1, false), i - j);
    }
  }

  // ---------- cells ----------

  // The state with another byte in the current cell and the same in all others.
  function WithCell(s: Core, v: u8): (s': Core)
    requires s.Valid()
    ensures s'.Valid()
  {
    s.(cells := s.cells[s.cellPos := v])
  }

  // One sign, as a whole state.
  lemma OneSign(s: Core)
    requires s.Valid()
    ensures Command('+', s) == WithCell(s, (s.Cell() + 1) % 256)
    ensures Command('-', s) == WithCell(s, (s.Cell() - 1) % 256)
  {
    DivModShift(1, s.Cell() - 1, 256);
  }

  lemma SetTwice(s: Core, u: u8, v: u8)
    requires s.Valid()
    ensures WithCell(s, u).Cell() == u && WithCell(WithCell(s, u), v) == WithCell(s, v)
    ensures WithCell(s, s.Cell()) == s
  {
    assert s.cells[s.cellPos := u][s.cellPos := v] == s.cells[s.cellPos := v];
    assert s.cells[s.cellPos := s.Cell()] == s.cells;
  }

  lemma {:induction false} RunPluses(n: nat, s: Core)
    requires s.Valid()
    ensures RunLine(Repeat('+', n), s) == WithCell(s, (s.Cell() + n) % 256)
  {
    hide Command, WithCell;
    SetTwice(s, (s.Cell() + 1) % 256, (s.Cell() + n) % 256);
    if n > 0 {
      OneSign(s);
      assert Repeat('+', n)[1..] == Repeat('+', n - 1);
      RunPluses(n - 1, Command('+', s));
      AddMod(s.Cell() + 1, n - 1, 256);
    }
  }

  lemma {:induction false} RunMinuses(n: nat, s: Core)
    requires s.Valid()
    ensures RunLine(Repeat('-', n), s) == WithCell(s, (s.Cell() - n) % 256)
  {
    hide Command, WithCell;
    SetTwice(s, (s.Cell() - 1) % 256, (s.Cell() - n) % 256);
    if n > 0 {
      OneSign(s);
      assert Repeat('-', n)[1..] == Repeat('-', n - 1);
      RunMinuses(n - 1, Command('-', s));
      AddMod(s.Cell() - 1, 1 - n, 256);
    }
  }

  // n plus signs add n to the current byte modulo 256, n minus signs take it away, and all else
  // stays.
  lemma PlusesAdd(n: nat, s: Core)
    requires n <= MAX_CODE && s.Valid()
    ensures FlatHalts(Repeat('+', n), s, WithCell(s, (s.Cell() + n) % 256))
    ensures FlatHalts(Repeat('-', n), s, WithCell(s, (s.Cell() - n) % 256))
  {
    LineHalts(Repeat('+', n), s);
    LineHalts(Repeat('-', n), s);
    RunPluses(n, s);
    RunMinuses(n, s);
  }

  lemma RunBack(n: nat, s: Core)
    requires s.Valid()
    ensures RunLine(Repeat('-', n), RunLine(Repeat('+', n), s)) == s
    ensures RunLine(Repeat('+', n), RunLine(Repeat('-', n), s)) == s
  {
    hide RunLine, WithCell;
    var c: int := s.Cell();
    RunPluses(n, s);
    RunMinuses(n, s);
    RunMinuses(n, WithCell(s, (c + n) % 256));
    RunPluses(n, WithCell(s, (c - n) % 256));
    SetTwice(s, (c + n) % 256, s.Cell());
    SetTwice(s, (c - n) % 256, s.Cell());
    BackToByte(c, n);
  }

  lemma BackToByte(c: int, n: int)
    requires 0 <= c < 256
    ensures ((c + n) % 256 - n) % 256 == c && ((c - n) % 256 + n) % 256 == c
  {
    AddMod(c + n, -n, 256);
    AddMod(c - n, n, 256);
  }

  // Each takes the other back.
  lemma MinusesUndoPluses(n: nat, s: Core)
    requires 2 * n <= MAX_CODE && s.Valid()
    ensures FlatHalts(Repeat('+', n) + Repeat('-', n), s, s)
    ensures FlatHalts(Repeat('-', n) + Repeat('+', n), s, s)
  {
    hide RunLine, FlatHalts;
    var up, down := Repeat('+', n), Repeat('-', n);
    LineHalts(up + down, s);
    LineHalts(down + up, s);
    RunLineConcat(up, down, s);
    RunLineConcat(down, up, s);
    RunBack(n, s);
  }

  // ---------- the pointer ----------

  lemma {:induction false} RunRights(k: nat, s: Core)
    requires s.Valid()
    ensures RunLine(Repeat('>', k), s) == s.(cellPos := (s.cellPos + k) % 300000)
  {
    if k > 0 {
      assert Repeat('>', k)[1..] == Repeat('>', k - 1);
      RunRights(k - 1, Command('>', s));
      AddMod(s.cellPos + 1, k - 1, 300000);
    }
  }

  lemma {:induction false} RunLefts(k: nat, s: Core)
    requires s.Valid()
    ensures RunLine(Repeat('<', k), s) == s.(cellPos := (s.cellPos - k) % 300000)
  {
    if k > 0 {
      assert Repeat('<', k)[1..] == Repeat('<', k - 1);
      RunLefts(k - 1, Command('<', s));
      DivModShift(1, s.cellPos - 1, 300000);
      AddMod(s.cellPos - 1, -(k - 1), 300000);
    }
  }

  // k moves lead k cells on, around the tape of 300000, and change nothing else.
  lemma MovesLead(k: nat, s: Core)
    requires k <= MAX_CODE && s.Valid()
    ensures FlatHalts(Repeat('>', k), s, s.(cellPos := (s.cellPos + k) % 300000))
    ensures FlatHalts(Repeat('<', k), s, s.(cellPos := (s.cellPos - k) % 300000))
  {
    LineHalts(Repeat('>', k), s);
    LineHalts(Repeat('<', k), s);
    RunRights(k, s);
    RunLefts(k, s);
  }

  lemma LeftsUndoRights(k: nat, s: Core)
    requires 2 * k <= MAX_CODE && s.Valid()
    ensures FlatHalts(Repeat('>', k) + Repeat('<', k), s, s)
  {
    var right, left := Repeat('>', k), Repeat('<', k);
    LineHalts(right + left, s);
    RunLineConcat(right, left, s);
    RunRights(k, s);
    RunLefts(k, RunLine(right, s));
    AddMod(s.cellPos as int + k, 0 - k, 300000);
  }

  // ---------- output ----------

  // Lower-case hexadecimal digits of v without a leading zero.
  predicate IsHexadecimalOf(t: string, v: nat) {
    t != "" && AllHex(t) && (|t| > 1 ==> t[0] != '0') && Number(t) == v
  }

  lemma HexTextIs(v: u8)
    ensures IsHexadecimalOf(HexText(v), v)
  {
    hide Number;
    var t := HexText(v);
    NumberStep(t);
    NumberStep(t[..|t| - 1]);
    if v >= 16 {
      HexDigitsAre(v / 16);
      NumberStep(t[..1][..0]);
    }
    HexDigitsAre(v % 16);
  }

  // A dot appends the current byte as a character, or as a hexadecimal number in text mode,
  // and changes nothing else.
  lemma DotPrints(s: Core) returns (printed: string)
    requires s.Valid()
    ensures FlatHalts(".", s, s.(output := s.output + printed))
    ensures match s.mode case Raw => printed == [s.Cell() as char] case Text => IsHexadecimalOf(printed, s.Cell())
  {
    printed := match s.mode case Raw => [s.Cell() as char] case Text => HexText(s.Cell());
    HexTextIs(s.Cell());
    LineHalts(".", s);
    OneCommand('.', s);
  }

  lemma OneCommand(c: char, s: Core)
    requires s.Valid()
    ensures RunLine([c], s) == Command(c, s)
  {
    assert [c][1..] == "";
  }

  // Every byte can be written: from a fresh machine as many plus signs and a dot print it.
  lemma EveryByteIsPrinted(v: u8, mode: OutputMode, input: string) returns (s': Core)
    ensures FlatHalts(Repeat('+', v) + ".", FreshCore(mode, input), s')
    ensures match mode case Raw => s'.output == [v as char] case Text => IsHexadecimalOf(s'.output, v)
  {
    hide RunLine, FlatHalts, FreshCore, WithCell, Command;
    var s := FreshCore(mode, input);
    FreshIsBlank(mode, input);
    var s1 := WithCell(s, v);
    CellIsSet(s, v);
    RunPluses(v, s);
    var printed := DotPrints(s1);
    s' := s1.(output := s1.output + printed);
    LineHalts(Repeat('+', v) + ".", s);
    RunLineConcat(Repeat('+', v), ".", s);
    LineHalts(".", s1);
    HaltsOnce(".", s1, s', RunLine(".", s1));
    ConcatEmpty(printed);
  }

  lemma FreshIsBlank(mode: OutputMode, input: string)
    ensures var s := FreshCore(mode, input);
            s.Valid() && s.Cell() == 0 && s.output == "" && s.mode == mode && s.input == input
  {}

  lemma CellIsSet(s: Core, v: u8)
    requires s.Valid()
    ensures WithCell(s, v).Cell() == v && WithCell(s, v).mode == s.mode && WithCell(s, v).output == s.output
  {}

  // All 300000 cells of a fresh machine are zero.
  lemma FreshCellsAreZero(mode: OutputMode, input: string, k: nat)
    requires k < 300000
    ensures FlatHalts(Repeat('>', k), FreshCore(mode, input), FreshCore(mode, input).(cellPos := k))
    ensures |FreshCore(mode, input).cells| == 300000 && FreshCore(mode, input).cells[k] == 0
  {
    MovesLead(k, FreshCore(mode, input));
    ModSmall(k, 300000);
  }

  // ---------- input ----------

  predicate IsBlank(s: string) {
    forall i :: 0 <= i < |s| ==> s[i] in " \t\n\U{000B}\U{000C}\r"
  }

  lemma {:induction false} ReadSkipsBlanks(blanks: string, rest: string)
    requires IsBlank(blanks) && (rest != "" ==> rest[0] !in " \t\n\U{000B}\U{000C}\r")
    ensures ReadChar(blanks + rest) == if rest == "" then ('\0', "") else (rest[0], rest[1..])
  {
    BlanksAreSpaces();
    if blanks == "" {
      assert blanks + rest == rest;
    } else {
      assert (blanks + rest)[1..] == blanks[1..] + rest;
      ReadSkipsBlanks(blanks[1..], rest);
    }
  }

  lemma BlanksAreSpaces()
    ensures forall c :: IsSpace(c) <==> c in " \t\n\U{000B}\U{000C}\r"
  {}

  // A comma echoes the first character of the input that is not white space, and consumes the
  // input through it; at the end of the input it prints NUL. The cells stay as they are.
  lemma CommaEchoes(s: Core, blanks: string, rest: string)
    requires s.Valid() && s.input == blanks + rest && IsBlank(blanks)
    requires rest != "" ==> rest[0] !in " \t\n\U{000B}\U{000C}\r"
    ensures FlatHalts(",", s, if rest == "" then s.(input := "", output := s.output + ['\0'])
                              else s.(input := rest[1..], output := s.output + [rest[0]]))
  {
    LineHalts(",", s);
    OneCommand(',', s);
    ReadSkipsBlanks(blanks, rest);
  }

  // ---------- loops ----------

  // A loop that counts down ends with a zero cell.
  lemma {:induction false} CountDownTree(s: Core, fuel: nat)
    requires s.Valid() && fuel >= s.Cell()
    ensures Exec(Loop(Do('-', Nil), Nil), s, fuel) == Some(WithCell(s, 0))
    decreases s.Cell()
  {
    if s.Cell() == 0 {
      assert s.cells[s.cellPos := 0] == s.cells;
    } else {
      var s1 := Command('-', s);
      DivModUnique(s.Cell() + 255, 1, s.Cell() - 1, 256);
      assert s1 == WithCell(s, s.Cell() - 1);
      assert s.cells[s.cellPos := s.Cell() - 1][s.cellPos := 0] == s.cells[s.cellPos := 0];
      assert Exec(Do('-', Nil), s, fuel - 1) == Some(s1);
      CountDownTree(s1, fuel - 1);
    }
  }

  lemma CountDownClears(s: Core)
    requires s.Valid()
    ensures FlatHalts("[-]", s, WithCell(s, 0))
  {
    var p := Loop(Do('-', Nil), Nil);
    assert Flatten(p) == "[-]";
    CountDownTree(s, s.Cell());
    RunRefinesTree(p, s, WithCell(s, 0));
  }
}
