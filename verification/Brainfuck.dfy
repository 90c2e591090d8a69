/** The interpreter of brainfuck/brainfuck.cc as a flat machine over the program
    text, a structured semantics in which loops are tree nodes, and the proof
    that the first refines the second. */
module BrainfuckSpec {
  import opened Basics
  import opened Hexadecimal

  const MAX_CELLS: nat := 300000

  datatype OutputMode = Raw | Text

  // All of the machine except the code position and the status.
  datatype Core = Core(cells: seq<u8>, cellPos: nat, mode: OutputMode, input: string, output: string) {
    predicate Valid() {
      |cells| == MAX_CELLS && cellPos < |cells|
    }

    function Cell(): u8
      requires Valid()
    {
      cells[cellPos]
    }
  }

  function FreshCore(mode: OutputMode, input: string): (s: Core) {
    Core(seq(MAX_CELLS, _ => 0), 0, mode, input, "")
  }

  // ---------- the six commands that are not brackets ----------

  // `std::hex << int(cell)`: lower case, no padding.
  function HexText(x: u8): string {
    if x < 16 then [HexDigit(x)] else [HexDigit(x / 16), HexDigit(x % 16)]
  }

  // `std::cin >> input`: skips white space; the character stays NUL at the end of the input.
  function ReadChar(input: string): (char, string) {
    if input == "" then ('\0', "")
    else if IsSpace(input[0]) then ReadChar(input[1..])
    else (input[0], input[1..])
  }

  function Printed(s: Core): string
    requires s.Valid()
  {
    match s.mode
    case Text => HexText(s.Cell())
    case Raw => [s.Cell() as char]
  }

  function Command(c: char, s: Core): (s': Core)
    requires s.Valid()
    ensures s'.Valid()
  {
    match c
    case '+' => s.(cells := s.cells[s.cellPos := (s.Cell() + 1) % TWO_8])
    case '-' => s.(cells := s.cells[s.cellPos := (s.Cell() + TWO_8 - 1) % TWO_8])
    case '.' => s.(output := s.output + Printed(s))
    case ',' => s.(input := ReadChar(s.input).1, output := s.output + [ReadChar(s.input).0])
    case '>' => s.(cellPos := if s.cellPos == MAX_CELLS - 1 then 0 else s.cellPos + 1)
    case '<' => s.(cellPos := if s.cellPos == 0 then MAX_CELLS - 1 else s.cellPos - 1)
    case _ => s
  }

  // ---------- the flat machine ----------

  // std::string::max_size(): every position of the code, and the one after it, is a std::size_t.
  const MAX_CODE: nat := 0x7fff_ffff_ffff_ffff

  datatype Flat = Flat(core: Core, codePos: u64, running: bool)

  // Reading a std::string at its size gives NUL.
  function CharAt(code: string, i: nat): char {
    if i < |code| then code[i] else '\0'
  }

  function AfterOpen(c: char, skip: nat): nat
    requires skip > 0
  {
    if c == '[' then skip + 1 else if c == ']' then skip - 1 else skip
  }

  function AfterClose(c: char, skip: nat): nat
    requires skip > 0
  {
    if c == ']' then skip + 1 else if c == '[' then skip - 1 else skip
  }

  // The scan of JumpLBrack. Running off the end of the code is reported by a result of |code|.
  function ScanRight(code: string, pos: nat, skip: nat): nat
    decreases |code| - pos
  {
    if skip == 0 || pos >= |code| then pos
    else ScanRight(code, pos + 1, AfterOpen(CharAt(code, pos + 1), skip))
  }

  // The scan of JumpRBrack, as (position, brackets still open); position -1 is the wrapped 2^64 - 1.
  function ScanLeft(code: string, pos: int, skip: nat): (int, nat)
    requires -1 <= pos < |code|
    decreases pos + 1
  {
    if skip == 0 || pos < 0 then (pos, skip)
    else ScanLeft(code, pos - 1, AfterClose(code[pos], skip))
  }

  function WrapPosition(pos: int): u64
    requires -1 <= pos < TWO_64
  {
    if pos == -1 then TWO_64 - 1 else pos
  }

  lemma {:induction false} ScanRightInRange(code: string, pos: int, skip: nat)
    requires 0 <= pos <= |code|
    ensures pos <= ScanRight(code, pos, skip) <= |code|
    decreases |code| - pos
  {
    if skip > 0 && pos < |code| {
      ScanRightInRange(code, pos + 1, AfterOpen(CharAt(code, pos + 1), skip));
    }
  }

  lemma {:induction false} ScanLeftInRange(code: string, pos: int, skip: nat)
    requires -1 <= pos < |code|
    ensures -1 <= ScanLeft(code, pos, skip).0 <= pos
    decreases pos + 1
  {
    if skip > 0 && pos >= 0 {
      ScanLeftInRange(code, pos - 1, AfterClose(code[pos], skip));
    }
  }

  // Where the switch of Run leaves the code position, before the increment.
  function Jumped(code: string, s: Core, pos: nat): (target: u64)
    requires s.Valid() && |code| <= MAX_CODE && pos <= |code|
    ensures target <= |code| || target == TWO_64 - 1
  {
    match CharAt(code, pos)
    case '[' => if s.Cell() == 0 then ScanRightInRange(code, pos, 1); ScanRight(code, pos, 1) else pos
    case ']' => ScanLeftInRange(code, pos - 1, 1); WrapPosition(ScanLeft(code, pos - 1, 1).0)
    case _ => pos
  }

  predicate FlatValid(code: string, m: Flat) {
    m.core.Valid() && if m.running then m.codePos <= |code| else m.codePos == |code| + 1
  }

  // One turn of the loop of Run.
  function FlatStep(code: string, m: Flat): (m': Flat)
    requires |code| <= MAX_CODE && FlatValid(code, m)
    ensures FlatValid(code, m')
  {
    if !m.running then m
    else
      var pos := Increment64(Jumped(code, m.core, m.codePos));
      Flat(Command(CharAt(code, m.codePos), m.core), pos, pos <= |code|)
  }

  function FlatRun(code: string, m: Flat, n: nat): (m': Flat)
    requires |code| <= MAX_CODE && FlatValid(code, m)
    ensures FlatValid(code, m')
    decreases n
  {
    if n == 0 then m else FlatRun(code, FlatStep(code, m), n - 1)
  }

  function At(s: Core, pos: u64): Flat {
    Flat(s, pos, true)
  }

  ghost predicate FlatHalts(code: string, s: Core, s': Core)
    requires |code| <= MAX_CODE && s.Valid()
  {
    exists n: nat :: FlatRun(code, At(s, 0), n) == Flat(s', |code| + 1, false)
  }
}

/** Programs whose loops are tree nodes, and what they mean. */
module BrainfuckTree {
  import opened Basics
  import opened BrainfuckSpec

  datatype Prog = Nil | Do(c: char, rest: Prog) | Loop(body: Prog, rest: Prog)

  predicate WellFormed(p: Prog) {
    match p
    case Nil => true
    case Do(c, rest) => c != '[' && c != ']' && WellFormed(rest)
    case Loop(body, rest) => WellFormed(body) && WellFormed(rest)
  }

  function Flatten(p: Prog): string {
    match p
    case Nil => ""
    case Do(c, rest) => [c] + Flatten(rest)
    case Loop(body, rest) => "[" + Flatten(body) + "]" + Flatten(rest)
  }

  // The structured semantics. A turn of a loop runs its body, and then the loop again, with one
  // unit of fuel less; None when the fuel does not suffice.
  function Exec(p: Prog, s: Core, fuel: nat): (r: Option<Core>)
    requires s.Valid()
    ensures r.Some? ==> r.value.Valid()
    decreases fuel, p
  {
    match p
    case Nil => Some(s)
    case Do(c, rest) => Exec(rest, Command(c, s), fuel)
    case Loop(body, rest) =>
      if s.Cell() == 0 then Exec(rest, s, fuel)
      else if fuel == 0 then None
      else
        match Exec(body, s, fuel - 1)
        case None => None
        case Some(s1) => Exec(p, s1, fuel - 1)
  }

  ghost predicate TreeHalts(p: Prog, s: Core, s': Core)
    requires s.Valid()
  {
    exists fuel: nat :: Exec(p, s, fuel) == Some(s')
  }

  lemma {:induction false} ExecMonotone(p: Prog, s: Core, fuel: nat, more: nat)
    requires s.Valid() && fuel <= more && Exec(p, s, fuel).Some?
    ensures Exec(p, s, more) == Exec(p, s, fuel)
    decreases fuel, p
  {
    match p
    case Nil =>
    case Do(c, rest) => ExecMonotone(rest, Command(c, s), fuel, more);
    case Loop(body, rest) =>
      if s.Cell() == 0 {
        ExecMonotone(rest, s, fuel, more);
      } else {
        ExecMonotone(body, s, fuel - 1, more - 1);
        ExecMonotone(p, Exec(body, s, fuel - 1).value, fuel - 1, more - 1);
      }
  }

  // ---------- nesting ----------

  // The depth of brackets never drops below zero and ends at zero.
  predicate Nested(code: string, depth: nat) {
    if code == "" then depth == 0
    else if code[0] == '[' then Nested(code[1..], depth + 1)
    else if code[0] == ']' then depth > 0 && Nested(code[1..], depth - 1)
    else Nested(code[1..], depth)
  }

  // Reads a tree up to the bracket that closes the enclosing loop, or to the end.
  function ParseTree(code: string, depth: nat): (r: (Prog, string))
    requires Nested(code, depth)
    ensures Nested(r.1, depth) && |r.1| <= |code|
    ensures r.1 == "" || r.1[0] == ']'
    decreases |code|
  {
    if code == "" || code[0] == ']' then (Nil, code)
    else if code[0] == '[' then
      var (body, rest) := ParseTree(code[1..], depth + 1);
      var (next, end) := ParseTree(rest[1..], depth);
      (Loop(body, next), end)
    else
      var (next, end) := ParseTree(code[1..], depth);
      (Do(code[0], next), end)
  }

  // Nothing is lost: the text is that of the tree and what is left.
  lemma {:induction false} ParseTreeText(code: string, depth: nat)
    requires Nested(code, depth)
    ensures var (p, rest) := ParseTree(code, depth); WellFormed(p) && code == Flatten(p) + rest
    decreases |code|
  {
    hide Nested;
    NestedHead(code, depth);
    if code == "" || code[0] == ']' {
      ConcatEmpty(code);
    } else if code[0] == '[' {
      var (body, rest) := ParseTree(code[1..], depth + 1);
      ParseTreeText(code[1..], depth + 1);
      NestedHead(rest, depth + 1);
      var (next, end) := ParseTree(rest[1..], depth);
      ParseTreeText(rest[1..], depth);
      assert code == "[" + code[1..] && rest == "]" + rest[1..];
      LoopText(Flatten(body), Flatten(next), end);
    } else {
      var (next, end) := ParseTree(code[1..], depth);
      ParseTreeText(code[1..], depth);
      assert code == [code[0]] + code[1..];
      ConcatAssociates([code[0]], Flatten(next), end);
    }
  }

  lemma NestedHead(code: string, depth: nat)
    requires Nested(code, depth)
    ensures code == "" ==> depth == 0
    ensures code != "" ==>
              if code[0] == '[' then Nested(code[1..], depth + 1)
              else if code[0] == ']' then depth > 0 && Nested(code[1..], depth - 1)
              else Nested(code[1..], depth)
  {}

  lemma LoopText(body: string, next: string, end: string)
    ensures "[" + (body + ("]" + (next + end))) == "[" + body + "]" + next + end
  {}

  lemma {:induction false} FlattenNested(p: Prog, tail: string, depth: nat)
    requires WellFormed(p)
    ensures Nested(Flatten(p) + tail, depth) == Nested(tail, depth)
  {
    match p
    case Nil => assert Flatten(p) + tail == tail;
    case Do(c, rest) =>
      assert (Flatten(p) + tail)[1..] == Flatten(rest) + tail;
      FlattenNested(rest, tail, depth);
    case Loop(body, rest) =>
      var after := "]" + (Flatten(rest) + tail);
      assert (Flatten(p) + tail)[1..] == Flatten(body) + after;
      FlattenNested(body, after, depth + 1);
      assert after[1..] == Flatten(rest) + tail;
      FlattenNested(rest, tail, depth);
  }

  // Counting brackets never below zero is the same as being the text of a tree.
  lemma NestedIffTree(code: string)
    ensures Nested(code, 0) <==> exists p :: WellFormed(p) && Flatten(p) == code
  {
    if Nested(code, 0) {
      var (p, rest) := ParseTree(code, 0);
      ParseTreeText(code, 0);
      assert rest == "";
      assert WellFormed(p) && Flatten(p) == code;
    }
    forall p | WellFormed(p) && Flatten(p) == code ensures Nested(code, 0) {
      FlattenNested(p, "", 0);
      assert code + "" == code;
    }
  }
}

/** The flat machine refines the structured semantics. */
module BrainfuckRefinement {
  import opened Basics
  import opened BrainfuckSpec
  import opened BrainfuckTree

  // ---------- the scans over nested text ----------

  // `code` holds `part` from position `from` on.
  predicate Holds(code: string, from: int, part: string) {
    0 <= from <= from + |part| <= |code| && code[from..from + |part|] == part
  }

  lemma HoldsSplit(code: string, from: int, a: string, b: string)
    requires Holds(code, from, a + b)
    ensures Holds(code, from, a) && Holds(code, from + |a|, b)
  {
    assert code[from..from + |a + b|][..|a|] == a;
    assert code[from..from + |a + b|][|a|..] == b;
  }

  lemma HoldsHead(code: string, from: int, c: char, rest: string)
    requires Holds(code, from, [c] + rest)
    ensures 0 <= from && from + 1 + |rest| <= |code|
    ensures Holds(code, from + 1, rest) && code[from] == c
  {
    HoldsSplit(code, from, [c], rest);
    assert code[from..from + 1][0] == c;
  }

  lemma HoldsLoop(code: string, from: int, body: Prog, rest: Prog)
    requires Holds(code, from, Flatten(Loop(body, rest)))
    ensures Holds(code, from + 1, Flatten(body)) && Holds(code, from + 2 + |Flatten(body)|, Flatten(rest))
    ensures 0 <= from && from + 2 + |Flatten(body)| <= |code|
    ensures code[from] == '[' && code[from + 1 + |Flatten(body)|] == ']'
  {
    hide Holds;
    var b, r := Flatten(body), Flatten(rest);
    assert Flatten(Loop(body, rest)) == "[" + (b + ("]" + r));
    HoldsHead(code, from, '[', b + ("]" + r));
    HoldsSplit(code, from + 1, b, "]" + r);
    HoldsHead(code, from + 1 + |b|, ']', r);
  }

  lemma HoldsDo(code: string, from: int, c: char, rest: Prog)
    requires Holds(code, from, Flatten(Do(c, rest)))
    ensures 0 <= from && from + 1 + |Flatten(rest)| <= |code|
    ensures Holds(code, from + 1, Flatten(rest)) && code[from] == c
  {
    HoldsHead(code, from, c, Flatten(rest));
  }

  // Nested text does not change how many brackets a scan has open.
  lemma {:induction false} ScanRightOver(code: string, pos: nat, p: Prog, skip: nat)
    requires WellFormed(p) && skip > 0 && Holds(code, pos + 1, Flatten(p))
    ensures ScanRight(code, pos, skip) == ScanRight(code, pos + |Flatten(p)|, skip)
    decreases p
  {
    hide Holds;
    match p
    case Nil =>
    case Do(c, rest) =>
      HoldsDo(code, pos + 1, c, rest);
      ScanRightOver(code, pos + 1, rest, skip);
    case Loop(body, rest) =>
      HoldsLoop(code, pos + 1, body, rest);
      ScanRightOver(code, pos + 1, body, skip + 1);
      ScanRightOver(code, pos + 2 + |Flatten(body)|, rest, skip);
  }

  lemma {:induction false} ScanLeftOver(code: string, pos: int, p: Prog, skip: nat)
    requires WellFormed(p) && skip > 0 && pos < |code| && Holds(code, pos + 1 - |Flatten(p)|, Flatten(p))
    ensures ScanLeft(code, pos, skip) == ScanLeft(code, pos - |Flatten(p)|, skip)
    decreases p
  {
    hide Holds;
    var from := pos + 1 - |Flatten(p)|;
    match p
    case Nil =>
    case Do(c, rest) =>
      HoldsDo(code, from, c, rest);
      ScanLeftOver(code, pos, rest, skip);
    case Loop(body, rest) =>
      HoldsLoop(code, from, body, rest);
      ScanLeftOver(code, pos, rest, skip);
      ScanLeftOver(code, from + |Flatten(body)|, body, skip + 1);
  }

  lemma ScansMeet(code: string, open: nat, body: Prog)
    requires WellFormed(body) && Holds(code, open, "[" + Flatten(body) + "]")
    ensures ScanRight(code, open, 1) == open + 1 + |Flatten(body)|
    ensures ScanLeft(code, open + |Flatten(body)|, 1) == (open - 1, 0)
  {
    hide Holds;
    assert "[" + Flatten(body) + "]" == Flatten(Loop(body, Nil));
    HoldsLoop(code, open, body, Nil);
    ScanRightOver(code, open, body, 1);
    ScanLeftOver(code, open + |Flatten(body)|, body, 1);
  }

  // ---------- one turn of Run at each construct ----------

  lemma StepAtDo(code: string, from: nat, c: char, rest: Prog, s: Core)
    requires |code| <= MAX_CODE && s.Valid() && c != '[' && c != ']'
    requires Holds(code, from, Flatten(Do(c, rest)))
    ensures Holds(code, from + 1, Flatten(rest))
    ensures FlatStep(code, At(s, from)) == At(Command(c, s), from + 1)
  {
    HoldsDo(code, from, c, rest);
  }

  // At `[` with a zero cell control passes behind the partner; otherwise into the body.
  lemma StepAtOpen(code: string, from: nat, body: Prog, rest: Prog, s: Core)
    requires |code| <= MAX_CODE && s.Valid() && WellFormed(body)
    requires Holds(code, from, Flatten(Loop(body, rest)))
    ensures FlatStep(code, At(s, from))
         == At(s, if s.Cell() == 0 then from + 2 + |Flatten(body)| else from + 1)
  {
    hide Holds, Flatten;
    HoldsLoop(code, from, body, rest);
    HoldsPrefix(code, from, body, rest);
    ScansMeet(code, from, body);
  }

  // At `]` control passes to the partner, whose cell test is then repeated. For a loop that
  // opens at index 0 the scan leaves 2^64 - 1, and the increment of Run wraps it to 0.
  lemma StepAtClose(code: string, from: nat, body: Prog, rest: Prog, s: Core)
    requires |code| <= MAX_CODE && s.Valid() && WellFormed(body)
    requires Holds(code, from, Flatten(Loop(body, rest)))
    ensures FlatStep(code, At(s, from + 1 + |Flatten(body)|)) == At(s, from)
  {
    hide Holds, Flatten;
    HoldsLoop(code, from, body, rest);
    HoldsPrefix(code, from, body, rest);
    ScansMeet(code, from, body);
  }

  lemma HoldsPrefix(code: string, from: int, body: Prog, rest: Prog)
    requires Holds(code, from, Flatten(Loop(body, rest)))
    ensures Holds(code, from, "[" + Flatten(body) + "]")
  {
    HoldsSplit(code, from, "[" + Flatten(body) + "]", Flatten(rest));
  }

  lemma {:induction false} RunAdds(code: string, m: Flat, i: nat, j: nat)
    requires |code| <= MAX_CODE && FlatValid(code, m)
    ensures FlatRun(code, m, i + j) == FlatRun(code, FlatRun(code, m, i), j)
    decreases i
  {
    if i > 0 {
      RunAdds(code, FlatStep(code, m), i - 1, j);
    }
  }

  lemma {:induction false} StoppedStays(code: string, m: Flat, n: nat)
    requires |code| <= MAX_CODE && FlatValid(code, m) && !m.running
    ensures FlatRun(code, m, n) == m
    decreases n
  {
    if n > 0 {
      StoppedStays(code, m, n - 1);
    }
  }

  // ---------- the simulation, in both directions ----------

  // What the tree computes, the flat machine reaches.
  lemma {:induction false} TreeToFlat(code: string, from: nat, p: Prog, s: Core, fuel: nat) returns (n: nat)
    requires |code| <= MAX_CODE && s.Valid() && WellFormed(p) && Holds(code, from, Flatten(p))
    requires Exec(p, s, fuel).Some?
    ensures FlatRun(code, At(s, from), n) == At(Exec(p, s, fuel).value, from + |Flatten(p)|)
    decreases fuel, p
  {
    hide FlatStep, Holds, Command;
    match p
    case Nil => n := 0;
    case Do(c, rest) =>
      StepAtDo(code, from, c, rest, s);
      var k := TreeToFlat(code, from + 1, rest, Command(c, s), fuel);
      n := k + 1;
    case Loop(body, rest) =>
      HoldsLoop(code, from, body, rest);
      StepAtOpen(code, from, body, rest, s);
      if s.Cell() == 0 {
        var k := TreeToFlat(code, from + 2 + |Flatten(body)|, rest, s, fuel);
        n := k + 1;
      } else {
        var i := TreeToFlat(code, from + 1, body, s, fuel - 1);
        var s1 := Exec(body, s, fuel - 1).value;
        StepAtClose(code, from, body, rest, s1);
        var j := TreeToFlat(code, from, p, s1, fuel - 1);
        RunAdds(code, At(s, from + 1), i, j + 1);
        n := i + j + 2;
      }
  }

  // A flat run that stops has gone through the end of every tree it entered, as the tree says.
  lemma {:induction false} FlatToTree(code: string, from: nat, p: Prog, s: Core, n: nat) returns (k: nat)
    requires |code| <= MAX_CODE && s.Valid() && WellFormed(p) && Holds(code, from, Flatten(p))
    requires !FlatRun(code, At(s, from), n).running
    ensures k <= n && Exec(p, s, n).Some?
    ensures FlatRun(code, At(s, from), k) == At(Exec(p, s, n).value, from + |Flatten(p)|)
    decreases n, p
  {
    hide FlatStep, Holds, Command;
    match p
    case Nil => k := 0;
    case Do(c, rest) =>
      StepAtDo(code, from, c, rest, s);
      var i := FlatToTree(code, from + 1, rest, Command(c, s), n - 1);
      ExecMonotone(rest, Command(c, s), n - 1, n);
      k := i + 1;
    case Loop(body, rest) =>
      HoldsLoop(code, from, body, rest);
      StepAtOpen(code, from, body, rest, s);
      if s.Cell() == 0 {
        var i := FlatToTree(code, from + 2 + |Flatten(body)|, rest, s, n - 1);
        ExecMonotone(rest, s, n - 1, n);
        k := i + 1;
      } else {
        var i := FlatToTree(code, from + 1, body, s, n - 1);
        var s1 := Exec(body, s, n - 1).value;
        StepAtClose(code, from, body, rest, s1);
        RunAdds(code, At(s, from + 1), i, n - 1 - i);
        var j := FlatToTree(code, from, p, s1, n - 2 - i);
        ExecMonotone(p, s1, n - 2 - i, n - 1);
        RunAdds(code, At(s, from + 1), i, j + 1);
        k := i + j + 2;
      }
  }

  lemma StepAtEnd(code: string, s: Core)
    requires |code| <= MAX_CODE && s.Valid()
    ensures FlatStep(code, At(s, |code|)) == Flat(s, |code| + 1, false)
  {}

  lemma TreeHaltsFlat(p: Prog, s: Core, fuel: nat)
    requires WellFormed(p) && s.Valid() && |Flatten(p)| <= MAX_CODE && Exec(p, s, fuel).Some?
    ensures FlatHalts(Flatten(p), s, Exec(p, s, fuel).value)
  {
    var code := Flatten(p);
    var n := TreeToFlat(code, 0, p, s, fuel);
    RunAdds(code, At(s, 0), n, 1);
    StepAtEnd(code, Exec(p, s, fuel).value);
  }

  lemma FlatHaltsTree(p: Prog, s: Core, n: nat)
    requires WellFormed(p) && s.Valid() && |Flatten(p)| <= MAX_CODE
    requires !FlatRun(Flatten(p), At(s, 0), n).running
    ensures Exec(p, s, n).Some?
    ensures FlatRun(Flatten(p), At(s, 0), n) == Flat(Exec(p, s, n).value, |Flatten(p)| + 1, false)
  {
    var code := Flatten(p);
    var k := FlatToTree(code, 0, p, s, n);
    var s' := Exec(p, s, n).value;
    RunAdds(code, At(s, 0), k, n - k);
    StepAtEnd(code, s');
    StoppedStays(code, Flat(s', |code| + 1, false), n - k - 1);
  }

  // The interpreter stops on a properly nested program exactly when the structured semantics
  // does, and then with the same cells, cell pointer, remaining input and output.
  lemma RunRefinesTree(p: Prog, s: Core, s': Core)
    requires WellFormed(p) && s.Valid() && |Flatten(p)| <= MAX_CODE
    ensures FlatHalts(Flatten(p), s, s') <==> TreeHalts(p, s, s')
  {
    if TreeHalts(p, s, s') {
      var fuel :| Exec(p, s, fuel) == Some(s');
      TreeHaltsFlat(p, s, fuel);
    }
    if FlatHalts(Flatten(p), s, s') {
      var n :| FlatRun(Flatten(p), At(s, 0), n) == Flat(s', |Flatten(p)| + 1, false);
      FlatHaltsTree(p, s, n);
    }
  }
}

/** Consequences: the jumps pair the brackets of nested code, text that is not a
    command does not matter, and what `Validate` decides. */
module BrainfuckTheorems {
  import opened Basics
  import opened BrainfuckSpec
  import opened BrainfuckTree
  import opened BrainfuckRefinement

  // ---------- the two jumps are inverse ----------

  // `j` closes the bracket that `i` opens.
  predicate Pair(code: string, i: int, j: int) {
    0 <= i < j < |code| && code[i] == '[' && code[j] == ']' && Nested(code[i + 1..j], 0)
  }

  lemma TreeOf(code: string) returns (p: Prog)
    requires Nested(code, 0)
    ensures WellFormed(p) && Flatten(p) == code && Holds(code, 0, Flatten(p))
  {
    var (tree, rest) := ParseTree(code, 0);
    ParseTreeText(code, 0);
    p := tree;
    ConcatEmpty(Flatten(p));
  }

  lemma PairScans(code: string, i: nat, j: nat)
    requires Pair(code, i, j)
    ensures ScanRight(code, i, 1) == j && ScanLeft(code, j - 1, 1) == (i - 1, 0)
  {
    hide ScanRight, ScanLeft, Nested, Flatten, WellFormed;
    var body := TreeOf(code[i + 1..j]);
    assert code[i..j + 1] == "[" + code[i + 1..j] + "]";
    ScansMeet(code, i, body);
  }

  lemma LoopIsPair(code: string, from: nat, body: Prog, rest: Prog)
    requires WellFormed(body) && Holds(code, from, Flatten(Loop(body, rest)))
    ensures Pair(code, from, from + 1 + |Flatten(body)|)
  {
    HoldsLoop(code, from, body, rest);
    FlattenNested(body, "", 0);
    assert Flatten(body) + "" == Flatten(body);
  }

  // Every bracket of a tree's text has its partner in the text.
  lemma {:induction false} BracketHasPair(code: string, from: nat, p: Prog, k: nat) returns (i: nat, j: nat)
    requires WellFormed(p) && Holds(code, from, Flatten(p)) && from <= k < from + |Flatten(p)|
    requires code[k] == '[' || code[k] == ']'
    ensures Pair(code, i, j) && k == if code[k] == '[' then i else j
    decreases p
  {
    match p
    case Do(c, rest) =>
      HoldsDo(code, from, c, rest);
      i, j := BracketHasPair(code, from + 1, rest, k);
    case Loop(body, rest) =>
      HoldsLoop(code, from, body, rest);
      LoopIsPair(code, from, body, rest);
      var close := from + 1 + |Flatten(body)|;
      if k == from || k == close {
        i, j := from, close;
      } else if k < close {
        i, j := BracketHasPair(code, from + 1, body, k);
      } else {
        i, j := BracketHasPair(code, close + 1, rest, k);
      }
  }

  lemma PairOf(code: string, k: nat) returns (i: nat, j: nat)
    requires Nested(code, 0) && k < |code| && (code[k] == '[' || code[k] == ']')
    ensures Pair(code, i, j) && k == if code[k] == '[' then i else j
  {
    hide Flatten, Holds, WellFormed, Pair;
    var p := TreeOf(code);
    i, j := BracketHasPair(code, 0, p, k);
  }

  // In nested code JumpLBrack stops at the partner of its `[`, and JumpRBrack, counted after
  // the increment of Run, brings control back from there to the `[`.
  lemma ForwardJumpFindsPartner(code: string, i: nat)
    requires Nested(code, 0) && i < |code| && code[i] == '['
    ensures Pair(code, i, ScanRight(code, i, 1))
    ensures ScanLeft(code, ScanRight(code, i, 1) - 1, 1) == (i - 1, 0)
  {
    hide ScanRight, ScanLeft, Nested, Pair;
    var i', j := PairOf(code, i);
    PairScans(code, i, j);
  }

  // In nested code JumpRBrack stops one before the partner of its `]`, and JumpLBrack leads
  // from there to the `]`.
  lemma BackwardJumpFindsPartner(code: string, j: nat)
    requires Nested(code, 0) && j < |code| && code[j] == ']'
    ensures j > 0 && ScanLeft(code, j - 1, 1).1 == 0 && Pair(code, ScanLeft(code, j - 1, 1).0 + 1, j)
    ensures ScanRight(code, ScanLeft(code, j - 1, 1).0 + 1, 1) == j
  {
    hide ScanRight, ScanLeft, Nested;
    var i, j' := PairOf(code, j);
    PairScans(code, i, j);
  }

  // ---------- comments ----------

  predicate IsCommand(c: char) {
    c in "+-.,<>[]"
  }

  function Strip(code: string): string {
    if code == "" then ""
    else if IsCommand(code[0]) then [code[0]] + Strip(code[1..])
    else Strip(code[1..])
  }

  function StripTree(p: Prog): Prog {
    match p
    case Nil => Nil
    case Do(c, rest) => if IsCommand(c) then Do(c, StripTree(rest)) else StripTree(rest)
    case Loop(body, rest) => Loop(StripTree(body), StripTree(rest))
  }

  lemma {:induction false} StripConcat(a: string, b: string)
    ensures Strip(a + b) == Strip(a) + Strip(b)
  {
    if a == "" {
      assert a + b == b;
    } else {
      assert (a + b)[1..] == a[1..] + b;
      StripConcat(a[1..], b);
    }
  }

  lemma StripEmpty()
    ensures Strip("") == ""
  {}

  lemma StripHead(c: char, s: string)
    ensures Strip([c] + s) == (if IsCommand(c) then [c] else "") + Strip(s)
    ensures IsCommand('[') && IsCommand(']')
  {
    assert ([c] + s)[1..] == s;
  }

  lemma {:induction false} StripTreeText(p: Prog)
    requires WellFormed(p)
    ensures WellFormed(StripTree(p)) && Flatten(StripTree(p)) == Strip(Flatten(p))
  {
    hide Strip, IsCommand;
    match p
    case Nil => StripEmpty();
    case Do(c, rest) =>
      StripTreeText(rest);
      StripHead(c, Flatten(rest));
    case Loop(body, rest) =>
      StripTreeText(body);
      StripTreeText(rest);
      var b, r := Flatten(body), Flatten(rest);
      assert Flatten(p) == "[" + (b + ("]" + r));
      StripHead('[', b + ("]" + r));
      StripConcat(b, "]" + r);
      StripHead(']', r);
  }

  lemma {:induction false} StripTreeMeaning(p: Prog, s: Core, fuel: nat)
    requires s.Valid()
    ensures Exec(StripTree(p), s, fuel) == Exec(p, s, fuel)
    decreases fuel, p
  {
    match p
    case Nil =>
    case Do(c, rest) =>
      StripTreeMeaning(rest, Command(c, s), fuel);
    case Loop(body, rest) =>
      if s.Cell() == 0 {
        StripTreeMeaning(rest, s, fuel);
      } else if fuel > 0 {
        StripTreeMeaning(body, s, fuel - 1);
        var r := Exec(body, s, fuel - 1);
        if r.Some? {
          StripTreeMeaning(p, r.value, fuel - 1);
        }
      }
  }

  lemma {:induction false} StripShortens(code: string)
    ensures |Strip(code)| <= |code|
  {
    if code != "" {
      StripShortens(code[1..]);
    }
  }

  // What is left are the commands, all of them.
  lemma {:induction false} StripKeepsCommands(code: string, c: char)
    ensures forall i :: 0 <= i < |Strip(code)| ==> Strip(code)[i] in "+-.,<>[]"
    ensures Count(Strip(code), c) == if c in "+-.,<>[]" then Count(code, c) else 0
  {
    if code != "" {
      StripKeepsCommands(code[1..], c);
      if IsCommand(code[0]) {
        assert ([code[0]] + Strip(code[1..]))[1..] == Strip(code[1..]);
      }
    }
  }

  // Deleting everything that is not a command changes neither whether nested code halts nor
  // with what result.
  lemma CommentsDoNotMatter(code: string, s: Core, s': Core)
    requires Nested(code, 0) && |code| <= MAX_CODE && s.Valid()
    ensures Nested(Strip(code), 0) && |Strip(code)| <= MAX_CODE
    ensures FlatHalts(code, s, s') <==> FlatHalts(Strip(code), s, s')
  {
    var p := TreeOf(code);
    StripTreeText(p);
    StripShortens(code);
    NestedIffTree(Strip(code));
    RunRefinesTree(p, s, s');
    RunRefinesTree(StripTree(p), s, s');
    forall fuel: nat ensures Exec(StripTree(p), s, fuel) == Exec(p, s, fuel) {
      StripTreeMeaning(p, s, fuel);
    }
  }

  // ---------- what Validate decides ----------

  function Count(code: string, c: char): nat {
    if code == "" then 0 else (if code[0] == c then 1 else 0) + Count(code[1..], c)
  }

  // What one character adds to the depth.
  function Delta(c: char): int {
    if c == '[' then 1 else if c == ']' then -1 else 0
  }

  // No prefix closes more brackets than it opens.
  ghost predicate Covered(code: string, depth: int) {
    forall k :: 0 <= k <= |code| ==> Count(code[..k], ']') <= depth + Count(code[..k], '[')
  }

  lemma CoveredStep(code: string, depth: nat)
    requires code != ""
    ensures Covered(code, depth) <==> Covered(code[1..], depth + Delta(code[0]))
  {
    var tail := code[1..];
    forall k | 0 <= k <= |tail|
      ensures Count(code[..k + 1], '[') - Count(code[..k + 1], ']')
           == Delta(code[0]) + Count(tail[..k], '[') - Count(tail[..k], ']')
    {
      assert code[..k + 1][1..] == tail[..k];
    }
    if Covered(tail, depth + Delta(code[0])) {
      forall k | 0 <= k <= |code| ensures Count(code[..k], ']') <= depth + Count(code[..k], '[') {
        assert k > 0 ==> Count(tail[..k - 1], ']') <= depth + Delta(code[0]) + Count(tail[..k - 1], '[');
        assert k > 0 ==> code[..k] == code[..(k - 1) + 1];
      }
    }
    if Covered(code, depth) {
      forall k | 0 <= k <= |tail| ensures Count(tail[..k], ']') <= depth + Delta(code[0]) + Count(tail[..k], '[') {
        assert Count(code[..k + 1], ']') <= depth + Count(code[..k + 1], '[');
      }
    }
  }

  // Nesting is: no prefix closes more than it opens, and the counts agree.
  lemma {:induction false} NestedByCounts(code: string, depth: nat)
    ensures Nested(code, depth)
            <==> Covered(code, depth) && depth + Count(code, '[') == Count(code, ']')
  {
    if code == "" {
      assert code[..0] == "";
    } else {
      CoveredStep(code, depth);
      var after := depth + Delta(code[0]);
      if after < 0 {
        assert code[1..][..0] == "";
        assert !Covered(code[1..], after);
      } else {
        NestedByCounts(code[1..], after);
      }
    }
  }

  // The counts of "][" agree, but it is not nested: comparing counts is not enough.
  lemma EqualCountsAreNotNesting()
    ensures Count("][", '[') == Count("][", ']') && !Nested("][", 0)
  {
    assert "]["[1..] == "[";
  }
}
