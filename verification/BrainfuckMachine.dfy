/** The class `bfi::Brainfuck` of brainfuck/brainfuck.{h,cc}, with the fields and loops of the
    source, proved against the flat machine and, through it, against the structured semantics. */
module BrainfuckMachine {
  import opened Arithmetic
  import opened Basics
  import opened BrainfuckSpec
  import opened BrainfuckTree
  import opened BrainfuckRefinement
  import opened BrainfuckTheorems

  datatype Status = Error | Started | Executing | Succeeded

  class Brainfuck {
    const cells: array<u8>
    var status: Status
    var cellPos: nat
    var codePos: u64
    var code: string
    var outputMode: OutputMode
    var input: string
    var output: string

    ghost predicate Valid()
      reads this, cells
    {
      cells.Length == MAX_CELLS && cellPos < MAX_CELLS && |code| <= MAX_CODE
    }

    ghost function State(): (s: Core)
      requires Valid()
      reads this, cells
      ensures s.Valid()
    {
      Core(cells[..], cellPos, outputMode, input, output)
    }

    constructor (input: string)
      ensures Valid() && fresh(cells) && status == Started && code == "" && codePos == 0
      ensures State() == FreshCore(Text, input)
    {
      cells := new u8[MAX_CELLS](_ => 0);
      status, cellPos, codePos, code, outputMode := Started, 0, 0, "", Text;
      this.input, this.output := input, "";
    }

    method FromString(str: string)
      requires Valid() && |str| <= MAX_CODE
      modifies this`code
      ensures Valid() && code == str && State() == old(State())
    {
      code := str;
    }

    method IncrCell()
      requires Valid()
      modifies cells
      ensures Valid() && State() == Command('+', old(State()))
    {
      cells[cellPos] := (cells[cellPos] + 1) % TWO_8;
    }

    method DecrCell()
      requires Valid()
      modifies cells
      ensures Valid() && State() == Command('-', old(State()))
    {
      cells[cellPos] := (cells[cellPos] + TWO_8 - 1) % TWO_8;
    }

    method MoveRight()
      requires Valid()
      modifies this`cellPos
      ensures Valid() && State() == Command('>', old(State()))
    {
      if cellPos == cells.Length - 1 { cellPos := 0; } else { cellPos := cellPos + 1; }
    }

    method MoveLeft()
      requires Valid()
      modifies this`cellPos
      ensures Valid() && State() == Command('<', old(State()))
    {
      if cellPos == 0 { cellPos := cells.Length - 1; } else { cellPos := cellPos - 1; }
    }

    method OutputChar()
      requires Valid()
      modifies this`output
      ensures Valid() && State() == Command('.', old(State()))
    {
      match outputMode {
        case Text => output := output + HexText(cells[cellPos]);
        case Raw => output := output + [cells[cellPos] as char];
      }
    }

    // Echoes a character and leaves the cell alone.
    method InputChar()
      requires Valid()
      modifies this`input, this`output
      ensures Valid() && State() == Command(',', old(State()))
    {
      var (c, rest) := ReadChar(input);
      input, output := rest, output + [c];
    }

    method JumpLBrack()
      requires Valid() && codePos < |code| && code[codePos] == '[' && Nested(code, 0)
      modifies this`codePos
      ensures Valid() && codePos == Jumped(code, State(), old(codePos)) && codePos < |code|
    {
      if cells[cellPos] != 0 { return; }
      ForwardJumpFindsPartner(code, codePos);
      ghost var target := ScanRight(code, codePos, 1);
      var skip: nat := 1;
      while skip > 0
        invariant old(codePos) <= codePos <= target < |code|
        invariant ScanRight(code, codePos, skip) == target
        decreases |code| - codePos
      {
        codePos := Increment64(codePos);
        match code[codePos] {
          case '[' => skip := skip + 1;
          case ']' => skip := skip - 1;
          case _ =>
        }
        ScanRightInRange(code, codePos, skip);
      }
    }

    method JumpRBrack()
      requires Valid() && codePos < |code| && code[codePos] == ']' && Nested(code, 0)
      modifies this`codePos
      ensures Valid() && codePos == Jumped(code, State(), old(codePos))
      ensures codePos == TWO_64 - 1 || codePos < old(codePos)
    {
      BackwardJumpFindsPartner(code, codePos);
      ghost var target := ScanLeft(code, codePos - 1, 1);
      var skip: nat := 1;
      codePos := Decrement64(codePos);
      ghost var pos: int := codePos;
      while skip > 0
        invariant -1 <= pos < old(codePos) && codePos == WrapPosition(pos)
        invariant ScanLeft(code, pos, skip) == target && target.1 == 0
        decreases pos + 1
      {
        match code[codePos] {
          case ']' => skip := skip + 1;
          case '[' => skip := skip - 1;
          case _ =>
        }
        codePos := Decrement64(codePos);
        pos := pos - 1;
      }
    }

    // The switch of the loop of Run, and the increment and test that follow it.
    method Step()
      requires Valid() && codePos <= |code| && Nested(code, 0) && status == Executing
      modifies this, cells
      ensures Valid() && code == old(code)
      ensures Flat(State(), codePos, status == Executing) == FlatStep(code, old(At(State(), codePos)))
      ensures status == if codePos > |code| then Succeeded else Executing
    {
      var c := CharAt(code, codePos);
      match c {
        case '+' => IncrCell();
        case '-' => DecrCell();
        case '.' => OutputChar();
        case ',' => InputChar();
        case '[' => JumpLBrack();
        case ']' => JumpRBrack();
        case '>' => MoveRight();
        case '<' => MoveLeft();
        case _ =>
      }
      codePos := Increment64(codePos);
      if codePos > |code| { status := Succeeded; }
    }

    // Run on a program that halts, within some number of turns known only to the proof.
    method Run(ghost turns: nat)
      requires Valid() && codePos == 0 && Nested(code, 0)
      requires !FlatRun(code, At(State(), 0), turns).running
      modifies this, cells
      ensures Valid() && code == old(code) && status == Succeeded && codePos == |code| + 1
      ensures FlatHalts(code, old(State()), State())
      ensures forall p :: WellFormed(p) && Flatten(p) == code ==> TreeHalts(p, old(State()), State())
    {
      status := Executing;
      ghost var start := At(State(), 0);
      ghost var done: nat := 0;
      while status == Executing
        invariant Valid() && code == old(code) && (status == Executing || status == Succeeded)
        invariant done <= turns
        invariant if status == Executing then codePos <= |code| else codePos == |code| + 1
        invariant FlatRun(code, start, done) == Flat(State(), codePos, status == Executing)
        decreases turns - done
      {
        if done == turns { assert false; }
        RunAdds(code, start, done, 1);
        Step();
        done := done + 1;
      }
      assert FlatRun(code, start, done) == Flat(State(), |code| + 1, false);
      forall p | WellFormed(p) && Flatten(p) == code ensures TreeHalts(p, old(State()), State()) {
        RunRefinesTree(p, old(State()), State());
      }
    }

    // Compares only the numbers of brackets, with a cursor that wraps.
    method Validate() returns (r: Status)
      requires Valid()
      ensures r == if Count(code, '[') == Count(code, ']') then Succeeded else Error
      ensures Nested(code, 0) ==> r == Succeeded
    {
      hide Covered;
      var cursor: u64 := 0;
      for i := 0 to |code|
        invariant cursor == (Count(code[..i], '[') - Count(code[..i], ']')) % TWO_64
      {
        CountLast(code, i, '[');
        CountLast(code, i, ']');
        WrappedSteps(Count(code[..i], '[') - Count(code[..i], ']'));
        match code[i] {
          case '[' => cursor := Increment64(cursor);
          case ']' => cursor := Decrement64(cursor);
          case _ =>
        }
      }
      assert code[..|code|] == code;
      CountBound(code, '[');
      CountBound(code, ']');
      NestedByCounts(code, 0);
      return if cursor == 0 then Succeeded else Error;
    }
  }

  // Wrapping counts modulo 2^64.
  lemma WrappedSteps(x: int)
    ensures Increment64(x % TWO_64) == (x + 1) % TWO_64 && Decrement64(x % TWO_64) == (x - 1) % TWO_64
  {
    AddMod(x, 1, TWO_64);
    AddMod(x, -1, TWO_64);
  }

  lemma {:induction false} CountLast(code: string, i: nat, c: char)
    requires i < |code|
    ensures Count(code[..i + 1], c) == Count(code[..i], c) + (if code[i] == c then 1 else 0)
  {
    if i > 0 {
      CountLast(code[1..], i - 1, c);
      assert code[..i + 1][1..] == code[1..][..i];
      assert code[..i][1..] == code[1..][..i - 1];
    }
  }

  lemma {:induction false} CountBound(code: string, c: char)
    ensures Count(code, c) <= |code|
  {
    if code != "" {
      CountBound(code[1..], c);
    }
  }
}
