/** The columns that mdm/lexer.cc gives its tokens. */
module MarkdownColumns {
  import opened Basics
  import opened MarkdownLexer
  import opened MarkdownIdempotence
  import opened MarkdownLines
  import opened MarkdownWords

  // How far position k is from where its run of equal characters begins.
  function RunOffset(s: string, k: nat): nat
    requires k < |s|
  {
    if k > 0 && s[k - 1] == s[k] then RunOffset(s, k - 1) + 1 else 0
  }

  // Whether a turn of the loop begins with this character: of a run of backticks or hashes only
  // every third does.
  predicate BeginsTurn(s: string, k: nat)
    requires k < |s|
  {
    s[k] == '`' || s[k] == '#' ==> RunOffset(s, k) % 3 == 0
  }

  // How many of the first n characters begin turns.
  function Turns(s: string, n: nat): nat
    requires n <= |s|
  {
    if n == 0 then 0 else Turns(s, n - 1) + (if BeginsTurn(s, n - 1) then 1 else 0)
  }

  // A word is noticed one character behind its end, unless the text ends there.
  predicate HasColumn(s: string, t: Token, end: nat) {
    && end <= |s|
    && t.column == Turns(s, end) + if t.kind == Word && end < |s| then 1 else 0
  }

  predicate AllHaveColumns(s: string, ts: seq<Token>, ends: seq<nat>) {
    |ts| == |ends| && forall i :: 0 <= i < |ts| ==> HasColumn(s, ts[i], ends[i])
  }

  // The lexer is between two turns.
  predicate IsBetween(s: string, from: nat, column: nat) {
    from <= |s| && column == Turns(s, from) && (from < |s| ==> BeginsTurn(s, from))
  }

  lemma ColumnsConcat(s: string, a: seq<Token>, ea: seq<nat>, b: seq<Token>, eb: seq<nat>)
    requires AllHaveColumns(s, a, ea) && AllHaveColumns(s, b, eb)
    ensures AllHaveColumns(s, a + b, ea + eb)
  {
    hide HasColumn;
  }

  // One turn takes one character that begins a turn, and with it those that do not.
  lemma TurnCounts(s: string, from: nat, n: nat)
    requires from < |s| && BeginsTurn(s, from) && 0 < n <= 3 && from + n <= |s|
    requires s[from] != '`' && s[from] != '#' ==> n == 1
    requires forall i :: from < i < from + n ==> s[i] == s[from]
    requires n == 3 || from + n == |s| || s[from + n] != s[from] || (s[from] != '`' && s[from] != '#')
    ensures Turns(s, from + n) == Turns(s, from) + 1
    ensures from + n < |s| ==> BeginsTurn(s, from + n)
  {
    if n > 1 {
      assert RunOffset(s, from + 1) == RunOffset(s, from) + 1;
      assert !BeginsTurn(s, from + 1);
    }
    if n > 2 {
      assert RunOffset(s, from + 2) == RunOffset(s, from) + 2;
      assert !BeginsTurn(s, from + 2);
    }
    assert Turns(s, from + 1) == Turns(s, from) + 1;
  }

  // How much one turn takes of a run.
  lemma LexemeSpan(s: string, line: nat, column: nat)
    requires s != "" && EndsWord(s[0])
    ensures var (n, token) := Lexeme(s, line, column);
            && 0 < n <= 3 && n <= |s| && (s[0] != '`' && s[0] != '#' ==> n == 1)
            && (forall i :: 0 < i < n ==> s[i] == s[0])
            && (n == 3 || n == |s| || s[n] != s[0] || (s[0] != '`' && s[0] != '#'))
            && (token.Some? ==> token.value.column == column && token.value.kind != Word)
  {}

  lemma LexemeCounts(full: string, from: nat, line: nat, column: nat)
    requires from < |full| && EndsWord(full[from]) && IsBetween(full, from, column)
    ensures var (n, token) := Lexeme(full[from..], line, column + 1);
            && IsBetween(full, from + n, column + 1)
            && (token.Some? ==> HasColumn(full, token.value, from + n))
  {
    hide Lexeme, EndsWord, BeginsTurn, Turns;
    var s := full[from..];
    LexemeSpan(s, line, column + 1);
    var (n, token) := Lexeme(s, line, column + 1);
    assert forall i :: from < i < from + n ==> full[i] == s[i - from];
    TurnCounts(full, from, n);
  }

  lemma LetterCounts(full: string, from: nat, column: nat)
    requires from < |full| && !EndsWord(full[from]) && IsBetween(full, from, column)
    ensures IsBetween(full, from + 1, column + 1)
  {
    TurnCounts(full, from, 1);
  }

  lemma WordHasColumn(full: string, from: nat, word: string, line: nat, column: nat)
    requires from < |full| && IsBetween(full, from, column)
    ensures AllHaveColumns(full, Flushed(word, line, column + 1), EndOfWord(word, from))
  {
    hide Turns, BeginsTurn;
  }

  lemma LastHasColumn(full: string, word: string, line: nat, column: nat)
    requires IsBetween(full, |full|, column) && WordText(word)
    ensures AllHaveColumns(full, Lex("", word, line, column), Ends("", word, |full|))
  {
    hide Turns, BeginsTurn;
  }

  lemma {:induction false} ColumnsCount(full: string, from: nat, word: string, line: nat, column: nat)
    requires from <= |full| && IsBetween(full, from, column) && WordText(word)
    ensures AllHaveColumns(full, Lex(full[from..], word, line, column), Ends(full[from..], word, from))
    decreases |full| - from
  {
    hide Lex, Ends, Lexeme, EndsWord, AllHaveColumns, HasColumn, IsBetween, Flushed, EndOfWord;
    var s := full[from..];
    if s == "" {
      LastHasColumn(full, word, line, column);
    } else if !EndsWord(s[0]) {
      LetterCounts(full, from, column);
      StepOverLetter(s, word, line, column, from);
      assert s[1..] == full[from + 1..];
      ColumnsCount(full, from + 1, word + [s[0]], line, column + 1);
    } else {
      TurnParts(s, word, line, column, from);
      var after := LineAfter(line, s[0]);
      var (n, token) := Lexeme(s, after, column + 1);
      LexemeCounts(full, from, after, column);
      WordHasColumn(full, from, word, line, column);
      assert s[n..] == full[from + n..];
      ColumnsCount(full, from + n, "", after, column + 1);
      var place := if token.Some? then [from + n] else [];
      OneHasColumn(full, token, from + n);
      ColumnsConcat(full, Flushed(word, line, column + 1), EndOfWord(word, from), AsSeq(token), place);
      ColumnsConcat(full, Flushed(word, line, column + 1) + AsSeq(token), EndOfWord(word, from) + place,
                    Lex(s[n..], "", after, column + 1), Ends(s[n..], "", from + n));
    }
  }

  lemma OneHasColumn(full: string, token: Option<Token>, end: nat)
    requires token.Some? ==> HasColumn(full, token.value, end)
    ensures AllHaveColumns(full, AsSeq(token), if token.Some? then [end] else [])
  {
    hide HasColumn;
  }

  // For every text the column of a token is the number of turns up to its place. It does not
  // start again on a new line, and counts white space, but not what a turn looks ahead.
  lemma ColumnsCountTurns(s: string)
    ensures AllHaveColumns(s, Tokens(s), Ends(s, "", 0))
  {
    hide Lex, Ends, AllHaveColumns;
    assert s[0..] == s;
    ColumnsCount(s, 0, "", 0, 0);
  }

  // Without backticks and hashes, columns are places.
  lemma {:induction false} PlainTurns(s: string, n: nat)
    requires n <= |s| && '`' !in s && '#' !in s
    ensures Turns(s, n) == n
  {
    if n > 0 {
      PlainTurns(s, n - 1);
    }
  }
}
