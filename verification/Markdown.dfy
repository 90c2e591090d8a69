/** The lexer of mdm/lexer.cc and the writer of mdm/parser.cc. */
module MarkdownLexer {
  import opened Basics

  datatype Kind = Word | Punct | Symbol | Newline | CodeDelimiter | Header1 | Header2 | Header3

  datatype Token = Token(kind: Kind, text: string, line: nat, column: nat, isFirstOnNewline: bool)

  function MakeToken(kind: Kind, text: string, line: nat, column: nat): Token {
    Token(kind, text, line, column, false)
  }

  predicate IsPunct(c: char) {
    c in {'{', '}', '.', ',', ';', ':', '\\', '"', '!', '?', '-', '(', ')', '[', ']', '<', '>', '`'}
  }

  predicate IsSymbol(c: char) { c in {'@', '#', '$', '^', '&', '*', '|', '\\', '/'} }
  predicate IsWhitespace(c: char) { c in {' ', '\t', '\r'} }
  predicate IsNewline(c: char) { c == '\n' }

  predicate EndsWord(c: char) {
    IsSymbol(c) || IsPunct(c) || IsWhitespace(c) || IsNewline(c)
  }

  // ---------- one turn of the loop of Process ----------

  // Backticks and hashes are read greedily, up to three. At the end of the input a failing
  // `get` leaves the last character in place, so it counts as one more of the same.
  function Greedy(s: string, c: char): (n: nat)
    requires s != ""
    ensures 1 <= n <= 3
  {
    if |s| > 1 && s[1] != c then 1
    else if |s| > 2 && s[2] != c then 2
    else 3
  }

  function Min(a: nat, b: nat): nat {
    if a < b then a else b
  }

  // What one turn at the front of s takes from it, and the token it makes of it, if any.
  // `line` and `column` are those after the counters were advanced.
  function Lexeme(s: string, line: nat, column: nat): (r: (nat, Option<Token>))
    requires s != "" && EndsWord(s[0])
    ensures 0 < r.0 <= |s|
  {
    var c := s[0];
    if IsWhitespace(c) then (1, None)
    else if IsNewline(c) then (1, Some(MakeToken(Newline, "\n", line, column)))
    else if c == '`' then
      var n := Greedy(s, c);
      if n == 3 then (Min(3, |s|), Some(MakeToken(CodeDelimiter, "```", line, column)))
      else (n, Some(MakeToken(Punct, "`", line, column)))
    else if IsPunct(c) then (1, Some(MakeToken(Punct, [c], line, column)))
    else if c == '#' then
      var n := Greedy(s, c);
      if n == 3 then (Min(3, |s|), Some(MakeToken(Header3, "###", line, column)))
      else if n == 2 then (2, Some(MakeToken(Header2, "##", line, column)))
      else (1, Some(MakeToken(Header1, "#", line, column)))
    else (1, Some(MakeToken(Symbol, [c], line, column)))
  }

  function AsSeq(t: Option<Token>): seq<Token> {
    match t case None => [] case Some(x) => [x]
  }

  function LineAfter(line: nat, c: char): nat {
    if IsNewline(c) then line + 1 else line
  }

  function Flushed(word: string, line: nat, column: nat): seq<Token> {
    if word == "" then [] else [MakeToken(Word, word, line, column)]
  }

  // The type of the token left over at the end of the input.
  function LastKind(c: char): Kind {
    if IsPunct(c) then Punct else if IsSymbol(c) then Symbol else if IsNewline(c) then Newline else Word
  }

  // The tokens made from s when `word` is pending and the counters stand as given.
  function Lex(s: string, word: string, line: nat, column: nat): seq<Token>
    decreases |s|
  {
    if s == "" then
      if word == "" then [] else [MakeToken(LastKind(word[0]), word, line, column)]
    else if !EndsWord(s[0]) then Lex(s[1..], word + [s[0]], line, column + 1)
    else
      var after := LineAfter(line, s[0]);
      var (n, token) := Lexeme(s, after, column + 1);
      Flushed(word, line, column + 1) + AsSeq(token) + Lex(s[n..], "", after, column + 1)
  }

  // Lex by one turn.
  lemma LexTurn(s: string, word: string, line: nat, column: nat)
    requires s != ""
    ensures if EndsWord(s[0]) then
              var after := LineAfter(line, s[0]);
              var (n, token) := Lexeme(s, after, column + 1);
              Lex(s, word, line, column)
              == Flushed(word, line, column + 1) + AsSeq(token) + Lex(s[n..], "", after, column + 1)
            else Lex(s, word, line, column) == [] + Lex(s[1..], word + [s[0]], line, column + 1)
  {
    hide Lexeme, EndsWord;
    ConcatEmpty(Lex(s[1..], word + [s[0]], line, column + 1));
  }

  function Tokens(s: string): seq<Token> {
    Lex(s, "", 0, 0)
  }

  // ---------- the writer ----------

  function Written(t: Token): string {
    if t.kind == Newline then t.text else t.text + " "
  }

  function Formatted(ts: seq<Token>): string {
    if ts == [] then "" else Written(ts[0]) + Formatted(ts[1..])
  }
}

/** The formatter is idempotent. */
module MarkdownIdempotence {
  import opened Basics
  import opened MarkdownLexer

  predicate WordText(w: string) {
    forall i :: 0 <= i < |w| ==> !EndsWord(w[i])
  }

  // What the lexer emits: the text fits the kind.
  predicate WellFormed(t: Token) {
    match t.kind
    case Word => t.text != "" && WordText(t.text)
    case Punct => |t.text| == 1 && IsPunct(t.text[0])
    case Symbol => |t.text| == 1 && IsSymbol(t.text[0]) && !IsPunct(t.text[0]) && t.text[0] != '#'
    case Newline => t.text == "\n"
    case CodeDelimiter => t.text == "```"
    case Header1 => t.text == "#"
    case Header2 => t.text == "##"
    case Header3 => t.text == "###"
  }

  // Each token's line is the number of newline tokens up to and including it, plus `line`.
  predicate WellFormedFrom(ts: seq<Token>, line: nat) {
    if ts == [] then true
    else
      var here := LineAt(ts[0], line);
      WellFormed(ts[0]) && ts[0].line == here && WellFormedFrom(ts[1..], here)
  }

  lemma WellFormedAppend(a: seq<Token>, b: seq<Token>, line: nat, mid: nat)
    requires WellFormedFrom(a, line) && WellFormedFrom(b, mid)
    requires |a| <= 2 && mid == line + (if |a| > 0 && a[|a| - 1].kind == Newline then 1 else 0)
    requires |a| == 2 ==> a[0].kind != Newline
    ensures WellFormedFrom(a + b, line)
  {
    hide WellFormed, WellFormedFrom;
    if a == [] {
      ConcatEmpty(b);
    } else if |a| == 1 {
      WellFormedHead(a, line);
      assert a == [a[0]];
      WellFormedCons(a[0], b, line);
    } else {
      WellFormedHead(a, line);
      WellFormedHead(a[1..], line);
      WellFormedCons(a[1], b, line);
      WellFormedCons(a[0], [a[1]] + b, line);
      assert a + b == [a[0]] + ([a[1]] + b);
    }
  }

  function LineAt(t: Token, line: nat): nat {
    if t.kind == Newline then line + 1 else line
  }

  lemma WellFormedHead(ts: seq<Token>, line: nat)
    requires ts != [] && WellFormedFrom(ts, line)
    ensures WellFormed(ts[0]) && ts[0].line == LineAt(ts[0], line) && WellFormedFrom(ts[1..], LineAt(ts[0], line))
  {}

  lemma WellFormedCons(t: Token, ts: seq<Token>, line: nat)
    requires WellFormed(t) && t.line == LineAt(t, line) && WellFormedFrom(ts, LineAt(t, line))
    ensures WellFormedFrom([t] + ts, line)
  {
    assert ([t] + ts)[1..] == ts;
  }

  lemma LexemeWellFormed(s: string, line: nat, column: nat)
    requires s != "" && EndsWord(s[0])
    ensures Lexeme(s, line, column).1.Some? ==>
              var t := Lexeme(s, line, column).1.value;
              WellFormed(t) && t.line == line && (t.kind == Newline <==> IsNewline(s[0]))
    ensures Lexeme(s, line, column).1.None? ==> !IsNewline(s[0])
  {}

  // Every output of the lexer is well formed.
  lemma {:induction false} LexWellFormed(s: string, word: string, line: nat, column: nat)
    requires WordText(word)
    ensures WellFormedFrom(Lex(s, word, line, column), line)
    decreases |s|
  {
    hide Lexeme;
    if s == "" {
      if word != "" {
        assert !EndsWord(word[0]);
      }
    } else if !EndsWord(s[0]) {
      LexWellFormed(s[1..], word + [s[0]], line, column + 1);
    } else {
      var after := LineAfter(line, s[0]);
      var n := Lexeme(s, after, column + 1).0;
      EmptyWord();
      LexWellFormed(s[n..], "", after, column + 1);
      TurnWellFormed(s, word, line, column);
    }
  }

  lemma TurnWellFormed(s: string, word: string, line: nat, column: nat)
    requires WordText(word) && s != "" && EndsWord(s[0])
    requires var after := LineAfter(line, s[0]);
             WellFormedFrom(Lex(s[Lexeme(s, after, column + 1).0..], "", after, column + 1), after)
    ensures WellFormedFrom(Lex(s, word, line, column), line)
  {
    hide IsPunct, IsSymbol, IsWhitespace, WellFormed, WordText, Lexeme, EndsWord;
    var after := LineAfter(line, s[0]);
    LexemeWellFormed(s, after, column + 1);
    var (n, token) := Lexeme(s, after, column + 1);
    WordWellFormed(word, line, column + 1);
    var flushed, emitted, rest := Flushed(word, line, column + 1), AsSeq(token), Lex(s[n..], "", after, column + 1);
    WellFormedAppend(emitted, rest, line, after);
    WellFormedAppend(flushed, emitted + rest, line, line);
    assert Lex(s, word, line, column) == flushed + (emitted + rest);
  }

  lemma EmptyWord()
    ensures WordText("")
  {}

  lemma WordWellFormed(word: string, line: nat, column: nat)
    requires WordText(word)
    ensures WellFormedFrom(Flushed(word, line, column), line)
  {}

  // ---------- lexing what was written ----------

  predicate SameToken(a: Token, b: Token) {
    a.kind == b.kind && a.text == b.text && a.line == b.line
  }

  // Columns change when spaces are written; nothing else may.
  predicate SameTokens(a: seq<Token>, b: seq<Token>) {
    |a| == |b| && forall i :: 0 <= i < |a| ==> SameToken(a[i], b[i])
  }

  lemma LexSpace(rest: string, line: nat, column: nat)
    ensures Lex(" " + rest, "", line, column) == Lex(rest, "", line, column + 1)
  {
    assert (" " + rest)[1..] == rest;
  }

  lemma {:induction false} LexWord(w: string, rest: string, word: string, line: nat, column: nat)
    requires WordText(w) && word + w != ""
    ensures Lex(w + " " + rest, word, line, column)
         == [MakeToken(Word, word + w, line, column + |w| + 1)] + Lex(rest, "", line, column + |w| + 1)
    decreases |w|
  {
    var s := w + " " + rest;
    if w == "" {
      assert s == " " + rest && s[1..] == rest;
      assert word + w == word;
    } else {
      assert s[1..] == w[1..] + " " + rest;
      assert s[0] == w[0] && !EndsWord(w[0]);
      LexWord(w[1..], rest, word + [w[0]], line, column + 1);
      assert word + [w[0]] + w[1..] == word + w;
    }
  }

  // The lexer takes exactly t from the front of what the writer prints for t.
  lemma RelexOther(t: Token, rest: string, line: nat, column: nat)
    requires WellFormed(t) && t.kind != Word && t.kind != Newline
    ensures Lex(t.text + " " + rest, "", line, column)
         == [MakeToken(t.kind, t.text, line, column + 1)] + Lex(rest, "", line, column + 2)
  {
    hide WellFormed, Lex, Lexeme, EndsWord, IsNewline, IsWhitespace;
    FirstCharacter(t);
    LexemeOf(t, rest, line, column + 1);
    var s := t.text + " " + rest;
    assert s[0] == t.text[0] && s[|t.text|..] == " " + rest;
    LexTurn(s, "", line, column);
    LexSpace(rest, line, column + 1);
  }

  lemma FirstCharacter(t: Token)
    requires WellFormed(t) && t.kind != Word && t.kind != Newline
    ensures t.text != "" && EndsWord(t.text[0]) && !IsNewline(t.text[0]) && !IsWhitespace(t.text[0])
  {}

  lemma LexemeOf(t: Token, rest: string, line: nat, column: nat)
    requires WellFormed(t) && t.kind != Word && t.kind != Newline
    requires t.text != "" && EndsWord(t.text[0])
    ensures Lexeme(t.text + " " + rest, line, column) == (|t.text|, Some(MakeToken(t.kind, t.text, line, column)))
  {
    var s := t.text + " " + rest;
    assert forall i :: 0 <= i < |t.text| ==> s[i] == t.text[i];
    assert s[|t.text|] == ' ';
    if |t.text| == 1 {
      assert t.text == [t.text[0]];
    }
  }

  lemma RelexNewline(rest: string, line: nat, column: nat)
    ensures Lex("\n" + rest, "", line, column)
         == [MakeToken(Newline, "\n", line + 1, column + 1)] + Lex(rest, "", line + 1, column + 1)
  {
    var s := "\n" + rest;
    assert s[1..] == rest;
    assert Lexeme(s, line + 1, column + 1) == (1, Some(MakeToken(Newline, "\n", line + 1, column + 1)));
  }

  lemma SameTokensCons(a: Token, b: Token, s: seq<Token>, t: seq<Token>)
    requires SameToken(a, b) && SameTokens(s, t)
    ensures SameTokens([a] + s, [b] + t)
  {}

  lemma TextOfNewline(t: Token)
    requires WellFormed(t)
    ensures t.kind == Newline ==> t.text == "\n"
    ensures t.kind == Word ==> t.text != "" && WordText(t.text)
  {}

  // What the lexer makes of one written token, and the counters behind it.
  lemma RelexHead(t: Token, rest: string, line: nat, column: nat) returns (made: Token, here: nat, next: nat)
    requires WellFormed(t)
    ensures here == if t.kind == Newline then line + 1 else line
    ensures made.kind == t.kind && made.text == t.text && made.line == here
    ensures Lex(Written(t) + rest, "", line, column) == [made] + Lex(rest, "", here, next)
  {
    hide WellFormed, WordText, Lex;
    TextOfNewline(t);
    match t.kind {
      case Word =>
        LexWord(t.text, rest, "", line, column);
        assert "" + t.text == t.text;
        here, next := line, column + |t.text| + 1;
        made := MakeToken(Word, t.text, line, next);
      case Newline =>
        RelexNewline(rest, line, column);
        here, next := line + 1, column + 1;
        made := MakeToken(Newline, "\n", here, next);
      case _ =>
        RelexOther(t, rest, line, column);
        here, next := line, column + 2;
        made := MakeToken(t.kind, t.text, line, column + 1);
    }
  }

  lemma FormattedHead(ts: seq<Token>)
    requires ts != []
    ensures Formatted(ts) == Written(ts[0]) + Formatted(ts[1..])
  {}

  lemma LineAtIs(t: Token, line: nat)
    ensures LineAt(t, line) == if t.kind == Newline then line + 1 else line
  {}

  // A well-formed list of tokens survives being written and lexed.
  lemma {:induction false} RelexTokens(ts: seq<Token>, line: nat, column: nat)
    requires WellFormedFrom(ts, line)
    ensures SameTokens(Lex(Formatted(ts), "", line, column), ts)
    decreases |ts|
  {
    if ts == [] {
      assert Formatted(ts) == "";
    } else {
      hide *;
      WellFormedHead(ts, line);
      FormattedHead(ts);
      var rest := Formatted(ts[1..]);
      var made, here, next := RelexHead(ts[0], rest, line, column);
      LineAtIs(ts[0], line);
      RelexTokens(ts[1..], here, next);
      SameTokensCons(made, ts[0], Lex(rest, "", here, next), ts[1..]);
      assert ts == [ts[0]] + ts[1..];
    }
  }

  // Formatting a formatted text changes nothing: for every input the second pass of the lexer
  // sees the same token types, texts and line numbers, so the writer prints the same text.
  lemma FormatIsIdempotent(s: string)
    ensures SameTokens(Tokens(Formatted(Tokens(s))), Tokens(s))
    ensures Formatted(Tokens(Formatted(Tokens(s)))) == Formatted(Tokens(s))
  {
    EmptyWord();
    LexWellFormed(s, "", 0, 0);
    RelexTokens(Tokens(s), 0, 0);
    SameFormatted(Tokens(Formatted(Tokens(s))), Tokens(s));
  }

  lemma {:induction false} SameFormatted(a: seq<Token>, b: seq<Token>)
    requires SameTokens(a, b)
    ensures Formatted(a) == Formatted(b)
  {
    if a != [] {
      SameFormatted(a[1..], b[1..]);
      assert SameToken(a[0], b[0]);
    }
  }
}

/** Where the tokens come from: places and line numbers in the input. */
module MarkdownLines {
  import opened Basics
  import opened MarkdownIdempotence
  import opened MarkdownLexer

  function Newlines(s: string): nat {
    if s == "" then 0 else Newlines(s[..|s| - 1]) + (if IsNewline(s[|s| - 1]) then 1 else 0)
  }

  function NewlineTokens(ts: seq<Token>): nat {
    if ts == [] then 0 else (if ts[0].kind == Newline then 1 else 0) + NewlineTokens(ts[1..])
  }

  // For each token of Lex(s, word, ...), how much of the text is consumed with it, when the
  // part in front of s has length `from`.
  function Ends(s: string, word: string, from: nat): seq<nat>
    decreases |s|
  {
    if s == "" then EndOfWord(word, from)
    else if !EndsWord(s[0]) then Ends(s[1..], word + [s[0]], from + 1)
    else
      var (n, token) := Lexeme(s, 0, 0);
      EndOfWord(word, from) + (if token.Some? then [from + n] else []) + Ends(s[n..], "", from + n)
  }

  function EndOfWord(word: string, from: nat): seq<nat> {
    if word == "" then [] else [from]
  }

  // The token is found in front of `end` - but for a delimiter or header that the end of the
  // input may have completed - and its line counts the newlines up to there.
  predicate Located(full: string, t: Token, end: nat) {
    && end <= |full| && t.line == Newlines(full[..end])
    && (end < |full| || (t.kind != CodeDelimiter && t.kind != Header3) ==>
          |t.text| <= end && full[end - |t.text|..end] == t.text)
  }

  predicate AllLocated(full: string, ts: seq<Token>, ends: seq<nat>) {
    |ts| == |ends| && forall i :: 0 <= i < |ts| ==> Located(full, ts[i], ends[i])
  }

  // The places lie strictly one behind the other, the first not in front of `from`.
  predicate Ascending(ends: seq<nat>, from: int) {
    && (forall i :: 0 <= i < |ends| ==> from <= ends[i])
    && (forall i, j :: 0 <= i < j < |ends| ==> ends[i] < ends[j])
  }

  // What the lexer knows in front of position `from`.
  predicate Reached(full: string, from: nat, word: string, line: nat) {
    && |word| <= from <= |full| && full[from - |word|..from] == word && line == Newlines(full[..from])
  }

  lemma LocatedConcat(full: string, a: seq<Token>, ea: seq<nat>, b: seq<Token>, eb: seq<nat>)
    requires AllLocated(full, a, ea) && AllLocated(full, b, eb)
    ensures AllLocated(full, a + b, ea + eb)
  {}

  lemma NewlinesStep(full: string, from: nat)
    requires from < |full|
    ensures Newlines(full[..from + 1]) == Newlines(full[..from]) + (if IsNewline(full[from]) then 1 else 0)
  {
    assert full[..from + 1][..from] == full[..from];
  }

  // A stretch without newlines.
  lemma {:induction false} NoNewlines(full: string, from: nat, n: nat)
    requires from + n <= |full| && forall i :: from <= i < from + n ==> !IsNewline(full[i])
    ensures Newlines(full[..from + n]) == Newlines(full[..from])
  {
    if n > 0 {
      NoNewlines(full, from, n - 1);
      NewlinesStep(full, from + n - 1);
    }
  }

  // What one turn takes holds a newline only as its one character, and what it makes of it is
  // found at the end of it.
  lemma LexemeTakes(s: string, line: nat, column: nat)
    requires s != "" && EndsWord(s[0])
    ensures var (n, token) := Lexeme(s, line, column);
            && n == Lexeme(s, 0, 0).0 && (token.Some? <==> Lexeme(s, 0, 0).1.Some?)
            && (IsNewline(s[0]) ==> n == 1 && token.Some?)
            && (!IsNewline(s[0]) ==> forall i :: 0 <= i < n ==> !IsNewline(s[i]))
            && (token.Some? ==>
                  var t := token.value;
                  && t.line == line && (t.kind == Newline <==> IsNewline(s[0]))
                  && (n < |s| || (t.kind != CodeDelimiter && t.kind != Header3) ==>
                        |t.text| <= n && s[n - |t.text|..n] == t.text))
  {}

  // The newlines up to the end of what one turn takes are the line count after it.
  lemma LexemeNewlines(full: string, from: nat, n: nat)
    requires from < |full| && 0 < n && from + n <= |full|
    requires IsNewline(full[from]) ==> n == 1
    requires !IsNewline(full[from]) ==> forall i :: from <= i < from + n ==> !IsNewline(full[i])
    ensures Newlines(full[..from + n]) == LineAfter(Newlines(full[..from]), full[from])
  {
    hide Newlines, IsNewline;
    if IsNewline(full[from]) {
      NewlinesStep(full, from);
    } else {
      NoNewlines(full, from, n);
    }
  }

  lemma LexemeLocated(full: string, from: nat, line: nat, column: nat)
    requires from < |full| && EndsWord(full[from]) && line == Newlines(full[..from])
    ensures var after := LineAfter(line, full[from]);
            var (n, token) := Lexeme(full[from..], after, column);
            && from + n <= |full| && after == Newlines(full[..from + n])
            && (token.Some? ==> Located(full, token.value, from + n))
  {
    hide Newlines, Lexeme, EndsWord, IsNewline;
    var s, after := full[from..], LineAfter(line, full[from]);
    LexemeTakes(s, after, column);
    var (n, token) := Lexeme(s, after, column);
    assert forall i :: 0 <= i < n ==> s[i] == full[from + i];
    assert forall i :: from <= i < from + n ==> full[i] == s[i - from];
    LexemeNewlines(full, from, n);
    if token.Some? && |token.value.text| <= n {
      var k := |token.value.text|;
      assert s[n - k..n] == full[from + n - k..from + n];
    }
  }

  lemma WordLocated(full: string, from: nat, word: string, line: nat, column: nat)
    requires Reached(full, from, word, line)
    ensures AllLocated(full, Flushed(word, line, column), EndOfWord(word, from))
  {}

  // Every token lies where Ends says.
  lemma {:induction false} TokensLocated(full: string, from: nat, word: string, line: nat, column: nat)
    requires Reached(full, from, word, line)
    ensures AllLocated(full, Lex(full[from..], word, line, column), Ends(full[from..], word, from))
    decreases |full| - from
  {
    hide Newlines, Lexeme, EndsWord, IsNewline, AllLocated;
    var s := full[from..];
    if s == "" {
      LastLocated(full, from, word, line, column);
    } else if !EndsWord(s[0]) {
      assert s[1..] == full[from + 1..];
      LetterReaches(full, from, word, line);
      TokensLocated(full, from + 1, word + [s[0]], line, column + 1);
    } else {
      var after := LineAfter(line, s[0]);
      var (n, token) := Lexeme(s, after, column + 1);
      LexemeTakes(s, after, column + 1);
      LexemeLocated(full, from, line, column + 1);
      assert s[n..] == full[from + n..];
      assert full[from + n..from + n] == "";
      TokensLocated(full, from + n, "", after, column + 1);
      WordLocated(full, from, word, line, column + 1);
      TurnLocated(full, from, word, line, column);
    }
  }

  lemma LastLocated(full: string, from: nat, word: string, line: nat, column: nat)
    requires Reached(full, from, word, line)
    ensures AllLocated(full, Lex("", word, line, column), Ends("", word, from))
  {
    hide Newlines, LastKind;
  }

  lemma LetterReaches(full: string, from: nat, word: string, line: nat)
    requires Reached(full, from, word, line) && from < |full| && !EndsWord(full[from])
    ensures Reached(full, from + 1, word + [full[from]], line)
  {
    hide Newlines;
    NewlinesStep(full, from);
    assert full[from - |word|..from + 1] == word + [full[from]];
  }

  lemma TurnLocated(full: string, from: nat, word: string, line: nat, column: nat)
    requires from < |full| && EndsWord(full[from])
    requires AllLocated(full, Flushed(word, line, column + 1), EndOfWord(word, from))
    requires var s, after := full[from..], LineAfter(line, full[from]);
             var (n, token) := Lexeme(s, after, column + 1);
             && n == Lexeme(s, 0, 0).0 && (token.Some? <==> Lexeme(s, 0, 0).1.Some?)
             && (token.Some? ==> Located(full, token.value, from + n))
             && AllLocated(full, Lex(s[n..], "", after, column + 1), Ends(s[n..], "", from + n))
    ensures AllLocated(full, Lex(full[from..], word, line, column), Ends(full[from..], word, from))
  {
    hide Lexeme, EndsWord, Located, Flushed, EndOfWord;
    var s, after := full[from..], LineAfter(line, full[from]);
    var (n, token) := Lexeme(s, after, column + 1);
    var flushed, ends := Flushed(word, line, column + 1), EndOfWord(word, from);
    var made, place := AsSeq(token), if token.Some? then [from + n] else [];
    LocatedConcat(full, flushed, ends, made, place);
    LocatedConcat(full, flushed + made, ends + place, Lex(s[n..], "", after, column + 1), Ends(s[n..], "", from + n));
  }

  lemma {:induction false} EndsAscend(s: string, word: string, from: nat)
    ensures Ascending(Ends(s, word, from), if word == "" then from + 1 else from)
    decreases |s|
  {
    hide Lexeme, EndsWord, Ascending;
    ShortAscends(from);
    if s == "" {
    } else if !EndsWord(s[0]) {
      EndsAscend(s[1..], word + [s[0]], from + 1);
      AscendingFrom(Ends(s, word, from), from + 1, from);
    } else {
      var (n, token) := Lexeme(s, 0, 0);
      var rest := Ends(s[n..], "", from + n);
      EndsAscend(s[n..], "", from + n);
      ShortAscends(from + n);
      var place := if token.Some? then [from + n] else [];
      AscendingConcat(place, rest, from + 1, from + n + 1);
      AscendingConcat(EndOfWord(word, from), place + rest, from, from + 1);
      ConcatAssociates(EndOfWord(word, from), place, rest);
      ConcatEmpty(place + rest);
    }
  }

  lemma ShortAscends(x: nat)
    ensures forall from: int :: Ascending([], from)
    ensures forall from: int :: from <= x ==> Ascending([x], from)
  {}

  lemma AscendingFrom(ends: seq<nat>, mid: nat, from: nat)
    requires Ascending(ends, mid) && from <= mid
    ensures Ascending(ends, from)
  {}

  lemma AscendingConcat(a: seq<nat>, b: seq<nat>, from: nat, mid: nat)
    requires |a| <= 1 && Ascending(a, from) && Ascending(b, mid) && from <= mid
    requires a != [] ==> a[0] < mid
    ensures Ascending(a + b, from)
  {}

  // ---------- no newline is lost ----------

  lemma {:induction false} NewlinesConcat(a: string, b: string)
    ensures Newlines(a + b) == Newlines(a) + Newlines(b)
  {
    if b == "" {
      assert a + b == a;
    } else {
      var c := a + b;
      assert c[..|c| - 1] == a + b[..|b| - 1] && c[|c| - 1] == b[|b| - 1];
      NewlinesConcat(a, b[..|b| - 1]);
    }
  }

  lemma {:induction false} NewlineTokensConcat(a: seq<Token>, b: seq<Token>)
    ensures NewlineTokens(a + b) == NewlineTokens(a) + NewlineTokens(b)
  {
    if a == [] {
      assert a + b == b;
    } else {
      assert (a + b)[1..] == a[1..] + b;
      NewlineTokensConcat(a[1..], b);
    }
  }

  lemma {:induction false} NewlinesCounted(s: string, word: string, line: nat, column: nat)
    requires WordText(word)
    ensures NewlineTokens(Lex(s, word, line, column)) == Newlines(s)
    decreases |s|
  {
    hide Lexeme, EndsWord, Newlines, NewlineTokens;
    NoneCounted(word, line, column);
    if s == "" {
    } else if !EndsWord(s[0]) {
      OneCharacter(s);
      NewlinesCounted(s[1..], word + [s[0]], line, column + 1);
    } else {
      var after := LineAfter(line, s[0]);
      var n := Lexeme(s, after, column + 1).0;
      NewlinesCounted(s[n..], "", after, column + 1);
      TurnCounted(s, word, line, column);
    }
  }

  lemma NoneCounted(word: string, line: nat, column: nat)
    requires WordText(word)
    ensures Newlines("") == 0 && NewlineTokens(Flushed(word, line, column)) == 0
    ensures NewlineTokens(Lex("", word, line, column)) == 0
  {
    assert word != "" ==> !EndsWord(word[0]);
  }

  lemma OneCharacter(s: string)
    requires s != "" && !EndsWord(s[0])
    ensures Newlines(s) == Newlines(s[1..])
  {
    assert s == [s[0]] + s[1..];
    NewlinesConcat([s[0]], s[1..]);
    assert [s[0]][..0] == "";
  }

  lemma TurnCounted(s: string, word: string, line: nat, column: nat)
    requires WordText(word) && s != "" && EndsWord(s[0])
    requires var after := LineAfter(line, s[0]);
             var n := Lexeme(s, after, column + 1).0;
             NewlineTokens(Lex(s[n..], "", after, column + 1)) == Newlines(s[n..])
    ensures NewlineTokens(Lex(s, word, line, column)) == Newlines(s)
  {
    hide Lexeme, EndsWord, Newlines, NewlineTokens, Flushed, IsNewline;
    var after := LineAfter(line, s[0]);
    var (n, token) := Lexeme(s, after, column + 1);
    LexemeTakes(s, after, column + 1);
    LexemeNewlines(s, 0, n);
    NoneCounted(word, line, column + 1);
    OneToken(token);
    var rest := Lex(s[n..], "", after, column + 1);
    assert Lex(s, word, line, column) == Flushed(word, line, column + 1) + AsSeq(token) + rest;
    NewlineTokensConcat(Flushed(word, line, column + 1) + AsSeq(token), rest);
    NewlineTokensConcat(Flushed(word, line, column + 1), AsSeq(token));
    assert s == s[..n] + s[n..] && s[..0] == "";
    NewlinesConcat(s[..n], s[n..]);
  }

  lemma OneToken(t: Option<Token>)
    ensures NewlineTokens(AsSeq(t)) == if t.Some? && t.value.kind == Newline then 1 else 0
  {}

  // For every input: the tokens lie one behind the other in it, the line of each is the number
  // of newlines in the text consumed with it, and there is one newline token per newline.
  lemma LinesCountNewlines(s: string)
    ensures AllLocated(s, Tokens(s), Ends(s, "", 0))
    ensures Ascending(Ends(s, "", 0), 1)
    ensures NewlineTokens(Tokens(s)) == Newlines(s)
  {
    hide AllLocated, Ascending;
    assert s[0..] == s && s[..0] == "" && s[0..0] == "";
    TokensLocated(s, 0, "", 0, 0);
    EndsAscend(s, "", 0);
    NewlinesCounted(s, "", 0, 0);
  }
}

/** When the lexer conserves text. */
module MarkdownConservation {
  import opened Basics
  import opened MarkdownLexer
  import opened MarkdownIdempotence

  function Clean(s: string): string {
    if s == "" then ""
    else if IsWhitespace(s[0]) then Clean(s[1..])
    else [s[0]] + Clean(s[1..])
  }

  function Texts(ts: seq<Token>): string {
    if ts == [] then "" else ts[0].text + Texts(ts[1..])
  }

  lemma {:induction false} TextsConcat(a: seq<Token>, b: seq<Token>)
    ensures Texts(a + b) == Texts(a) + Texts(b)
  {
    if a == [] {
      assert a + b == b;
    } else {
      assert (a + b)[1..] == a[1..] + b;
      TextsConcat(a[1..], b);
    }
  }

  // ---------- the characters emitted turn by turn ----------

  function Emitted(s: string): string
    decreases |s|
  {
    if s == "" then ""
    else if !EndsWord(s[0]) then [s[0]] + Emitted(s[1..])
    else var (n, token) := Lexeme(s, 0, 0); Texts(AsSeq(token)) + Emitted(s[n..])
  }

  lemma LexemeIgnoresCounters(s: string, line: nat, column: nat)
    requires s != "" && EndsWord(s[0])
    ensures Lexeme(s, line, column).0 == Lexeme(s, 0, 0).0
    ensures Texts(AsSeq(Lexeme(s, line, column).1)) == Texts(AsSeq(Lexeme(s, 0, 0).1))
  {}

  lemma {:induction false} LexEmits(s: string, word: string, line: nat, column: nat)
    ensures Texts(Lex(s, word, line, column)) == word + Emitted(s)
    decreases |s|
  {
    hide Lexeme, EndsWord;
    if s == "" {
      ConcatEmpty(word);
    } else if !EndsWord(s[0]) {
      ConcatAssociates(word, [s[0]], Emitted(s[1..]));
      LexEmits(s[1..], word + [s[0]], line, column + 1);
    } else {
      var after := LineAfter(line, s[0]);
      LexEmits(s[Lexeme(s, after, column + 1).0..], "", after, column + 1);
      TurnEmits(s, word, line, column);
    }
  }

  lemma TurnEmits(s: string, word: string, line: nat, column: nat)
    requires s != "" && EndsWord(s[0])
    requires var after := LineAfter(line, s[0]);
             var n := Lexeme(s, after, column + 1).0;
             Texts(Lex(s[n..], "", after, column + 1)) == "" + Emitted(s[n..])
    ensures Texts(Lex(s, word, line, column)) == word + Emitted(s)
  {
    hide Lexeme, EndsWord, Texts, Flushed, AsSeq;
    var after := LineAfter(line, s[0]);
    var (n, token) := Lexeme(s, after, column + 1);
    LexemeIgnoresCounters(s, after, column + 1);
    var flushed, emitted, rest := Flushed(word, line, column + 1), AsSeq(token), Lex(s[n..], "", after, column + 1);
    assert Lex(s, word, line, column) == flushed + emitted + rest;
    TextsConcat(flushed + emitted, rest);
    TextsConcat(flushed, emitted);
    FlushedText(word, line, column + 1);
    ConcatEmpty(Emitted(s[n..]));
    ConcatAssociates(word, Texts(emitted), Emitted(s[n..]));
  }

  lemma FlushedText(word: string, line: nat, column: nat)
    ensures Texts(Flushed(word, line, column)) == word
  {
    assert word + "" == word;
  }

  // ---------- runs of backticks and hashes ----------

  // The length of the run of c at the front of s.
  function RunOf(s: string, c: char): (k: nat)
    ensures k <= |s| && (k < |s| ==> s[k] != c)
    ensures forall i :: 0 <= i < k ==> s[i] == c
  {
    if s == "" || s[0] != c then 0 else 1 + RunOf(s[1..], c)
  }

  // A run of backticks inside the text loses one when its length is 2 modulo 3.
  function Lost(c: char, k: nat): nat {
    if c == '`' && k % 3 == 2 then 1 else 0
  }

  // A run that ends the text is filled up to a multiple of 3.
  function Invented(k: nat): nat {
    if k % 3 == 0 then 0 else 3 - k % 3
  }

  lemma RunOfSkip(s: string, c: char)
    requires |s| >= 3 && s[0] == c && s[1] == c && s[2] == c
    ensures RunOf(s, c) == 3 + RunOf(s[3..], c)
  {
    assert s[1..][1..] == s[2..] && s[2..][1..] == s[3..];
    assert RunOf(s[2..], c) == 1 + RunOf(s[3..], c);
    assert RunOf(s[1..], c) == 1 + RunOf(s[2..], c);
  }

  lemma GreedyIsRun(s: string, c: char)
    requires s != "" && s[0] == c
    ensures Greedy(s, c) == if RunOf(s, c) >= 3 || RunOf(s, c) == |s| then 3 else RunOf(s, c)
  {
    assert |s| > 1 ==> s[1..][0] == s[1];
    assert |s| > 2 ==> s[1..][1..] == s[2..] && s[2..][0] == s[2];
  }

  // What a turn at a backtick or hash takes and emits.
  lemma RunLexeme(s: string)
    requires s != "" && (s[0] == '`' || s[0] == '#')
    ensures EndsWord(s[0])
    ensures var g := Greedy(s, s[0]);
            var (n, token) := Lexeme(s, 0, 0);
            && n == (if g == 3 then Min(3, |s|) else g)
            && Texts(AsSeq(token)) == Repeat(s[0], if g == 2 && s[0] == '`' then 1 else g)
  {
    hide Greedy;
    var c := s[0];
    assert EndsWord(c) && !IsWhitespace(c) && !IsNewline(c) && (IsPunct(c) <==> c == '`');
    assert "```" == Repeat('`', 3) && "###" == Repeat('#', 3) && "##" == Repeat('#', 2);
    assert "`" == Repeat('`', 1) && "#" == Repeat('#', 1);
    var token := Lexeme(s, 0, 0).1.value;
    assert token.text + "" == token.text;
  }

  lemma RepeatAdds(c: char, m: nat, n: nat, rest: string)
    ensures Repeat(c, m) + (Repeat(c, n) + rest) == Repeat(c, m + n) + rest
  {}

  // The first turn at a run.
  lemma RunTurn(s: string)
    requires s != "" && (s[0] == '`' || s[0] == '#')
    ensures var k := RunOf(s, s[0]);
            if k >= 3 then Emitted(s) == Repeat(s[0], 3) + Emitted(s[3..])
            else Emitted(s) == Repeat(s[0], if k == |s| then 3 else k - Lost(s[0], k)) + Emitted(s[k..])
  {
    hide *;
    RunIsNonempty(s);
    GreedyIsRun(s, s[0]);
    RunLexeme(s);
    EmittedHead(s);
    MinOfThree(|s|);
    LostIs(s[0], RunOf(s, s[0]));
  }

  lemma MinOfThree(n: nat)
    ensures Min(3, n) == if n < 3 then n else 3
  {}

  lemma LostIs(c: char, k: nat)
    ensures 0 < k < 3 ==> Lost(c, k) == if k == 2 && c == '`' then 1 else 0
  {}

  // A run is consumed three at a time; only what is left of it can be lost or added to.
  lemma {:induction false} RunEmits(s: string)
    requires s != "" && (s[0] == '`' || s[0] == '#')
    ensures var k := RunOf(s, s[0]);
            Emitted(s) == Repeat(s[0], if k == |s| then k + Invented(k) else k - Lost(s[0], k)) + Emitted(s[k..])
    decreases |s|
  {
    hide RunOf, Emitted, Repeat;
    var c, k := s[0], RunOf(s, s[0]);
    RunIsNonempty(s);
    RunTurn(s);
    if k > 3 {
      RunOfSkip(s, c);
      RunEmits(s[3..]);
      assert s[3..][k - 3..] == s[k..];
      RepeatAdds(c, 3, if k == |s| then k - 3 + Invented(k) else k - 3 - Lost(c, k), Emitted(s[k..]));
    }
  }

  lemma {:induction false} CleanOfRun(s: string, k: nat)
    requires k <= |s| && forall i :: 0 <= i < k ==> s[i] == '`' || s[i] == '#'
    requires forall i :: 0 < i < k ==> s[i] == s[0]
    ensures k > 0 ==> Clean(s) == Repeat(s[0], k) + Clean(s[k..])
    decreases k
  {
    if k > 0 {
      CleanOfRun(s[1..], k - 1);
      assert s[1..][k - 1..] == s[k..];
      assert [s[0]] == Repeat(s[0], 1);
      RepeatAdds(s[0], 1, k - 1, Clean(s[k..]));
      if k == 1 {
        assert Repeat(s[0], 0) + Clean(s[1..]) == Clean(s[1..]);
      }
    }
  }

  // ---------- the exact condition ----------

  // White space between runs of backticks is dropped, so what runs lose adds up until another
  // character comes, before which nothing may be missing. At the end a run of backticks must
  // invent exactly what is missing, and a run of hashes nothing.
  predicate Balanced(s: string, missing: nat)
    decreases |s|
  {
    if s == "" then missing == 0
    else if s[0] == '`' then
      var k := RunOf(s, '`');
      if k == |s| then missing == Invented(k) else Balanced(s[k..], missing + Lost('`', k))
    else if IsWhitespace(s[0]) then Balanced(s[1..], missing)
    else if s[0] == '#' then
      var k := RunOf(s, '#');
      missing == 0 && if k == |s| then Invented(k) == 0 else Balanced(s[k..], 0)
    else missing == 0 && Balanced(s[1..], 0)
  }

  lemma CancelPrefix(p: string, x: string, y: string)
    ensures p + x == p + y <==> x == y
  {
    if p + x == p + y {
      ConcatSplits(p, x, p, y);
    }
  }

  // Backticks at the front of both sides cancel.
  lemma CancelTicks(a: nat, m: nat, k: nat, d: nat, x: string, y: string)
    requires a + d == k
    ensures Repeat('`', a) + x == Repeat('`', m) + (Repeat('`', k) + y) <==> x == Repeat('`', m + d) + y
  {
    RepeatAdds('`', m, k, y);
    RepeatAdds('`', a, m + d, y);
    CancelPrefix(Repeat('`', a), x, Repeat('`', m + d) + y);
  }

  // In front of another character nothing may be missing.
  lemma OtherCharacter(c: char, n: nat, k: nat, m: nat, x: string, y: string)
    requires c != '`' && n > 0 && k > 0
    ensures m > 0 ==> Repeat(c, n) + x != Repeat('`', m) + (Repeat(c, k) + y)
    ensures m == 0 && n == k ==> (Repeat(c, n) + x == Repeat('`', m) + (Repeat(c, k) + y) <==> x == y)
  {
    if m > 0 {
      assert (Repeat(c, n) + x)[0] == c && (Repeat('`', m) + (Repeat(c, k) + y))[0] == '`';
    } else {
      assert Repeat('`', m) + (Repeat(c, k) + y) == Repeat(c, k) + y;
      CancelPrefix(Repeat(c, n), x, y);
    }
  }

  lemma SingleTurn(s: string)
    requires s != "" && s[0] != '`' && s[0] != '#'
    ensures Emitted(s) == (if IsWhitespace(s[0]) then "" else [s[0]]) + Emitted(s[1..])
    ensures !IsWhitespace(s[0]) ==> Clean(s) == Repeat(s[0], 1) + Clean(s[1..]) && [s[0]] == Repeat(s[0], 1)
  {
    hide Emitted;
    EmittedHead(s);
    if EndsWord(s[0]) {
      var (n, token) := Lexeme(s, 0, 0);
      assert n == 1;
      assert if IsWhitespace(s[0]) then token.None? else token.Some? && token.value.text == [s[0]];
      if token.Some? { ConcatEmpty([s[0]]); }
    }
    assert [s[0]] == Repeat(s[0], 1);
  }

  lemma EmittedHead(s: string)
    requires s != ""
    ensures !EndsWord(s[0]) ==> Emitted(s) == [s[0]] + Emitted(s[1..])
    ensures EndsWord(s[0]) ==>
              Emitted(s) == Texts(AsSeq(Lexeme(s, 0, 0).1)) + Emitted(s[Lexeme(s, 0, 0).0..])
    ensures IsWhitespace(s[0]) ==> EndsWord(s[0])
  {}

  lemma {:induction false} EmittedIffBalanced(s: string, missing: nat)
    ensures Emitted(s) == Repeat('`', missing) + Clean(s) <==> Balanced(s, missing)
    decreases |s|
  {
    hide Emitted, Clean, Repeat, IsWhitespace, RunOf;
    if s == "" {
      EndOfText(missing);
    } else if s[0] == '`' || s[0] == '#' {
      NotWhitespace(s[0]);
      RunEmits(s);
      var c, k := s[0], RunOf(s, s[0]);
      CleanOfRun(s, k);
      RunIsNonempty(s);
      var rest := s[k..];
      if k == |s| {
        assert rest == "";
        EndOfText(0);
        FinalRun(c, k, missing);
      } else if c == '`' {
        CancelTicks(k - Lost(c, k), missing, k, Lost(c, k), Emitted(rest), Clean(rest));
        EmittedIffBalanced(rest, missing + Lost(c, k));
      } else {
        OtherCharacter(c, k, k, missing, Emitted(rest), Clean(rest));
        NoTicks(Clean(rest));
        EmittedIffBalanced(rest, 0);
      }
    } else {
      SingleTurn(s);
      if IsWhitespace(s[0]) {
        CleanOfSpace(s);
        ConcatEmpty(Emitted(s[1..]));
        EmittedIffBalanced(s[1..], missing);
      } else {
        OtherCharacter(s[0], 1, 1, missing, Emitted(s[1..]), Clean(s[1..]));
        NoTicks(Clean(s[1..]));
        EmittedIffBalanced(s[1..], 0);
      }
    }
  }

  lemma EndOfText(missing: nat)
    ensures Emitted("") == "" == Clean("")
    ensures "" == Repeat('`', missing) + "" <==> missing == 0
  {
    assert |Repeat('`', missing) + ""| == missing;
  }

  lemma NoTicks(s: string)
    ensures Repeat('`', 0) + s == s
  {}

  lemma NotWhitespace(c: char)
    ensures c == '`' || c == '#' ==> !IsWhitespace(c)
  {}

  lemma CleanOfSpace(s: string)
    requires s != "" && IsWhitespace(s[0])
    ensures Clean(s) == Clean(s[1..])
  {}

  lemma RunIsNonempty(s: string)
    requires s != ""
    ensures RunOf(s, s[0]) > 0
  {}

  lemma FinalRun(c: char, k: nat, missing: nat)
    requires k > 0 && (c == '`' || c == '#')
    ensures Repeat(c, k + Invented(k)) + "" == Repeat('`', missing) + (Repeat(c, k) + "")
            <==> if c == '`' then missing == Invented(k) else missing == 0 && Invented(k) == 0
  {
    if c == '`' {
      RepeatAdds('`', missing, k, "");
    } else {
      OtherCharacter(c, k + Invented(k), k, missing, "", "");
    }
    assert |Repeat(c, k + Invented(k)) + ""| == k + Invented(k);
    assert |Repeat('`', missing) + (Repeat(c, k) + "")| == missing + k;
  }

  // The token texts spell the input without its white space exactly when the runs balance.
  lemma LexerConservesText(s: string)
    ensures Texts(Tokens(s)) == Clean(s) <==> Balanced(s, 0)
  {
    LexEmits(s, "", 0, 0);
    ConcatEmpty(Emitted(s));
    NoTicks(Clean(s));
    EmittedIffBalanced(s, 0);
  }

  // No run of backticks inside the text has length 2 modulo 3, and a run of backticks or
  // hashes that ends the text has a length divisible by 3.
  predicate RunsConserve(s: string)
    decreases |s|
  {
    if s == "" then true
    else if s[0] == '`' || s[0] == '#' then
      var k := RunOf(s, s[0]);
      if k == |s| then k % 3 == 0 else Lost(s[0], k) == 0 && RunsConserve(s[k..])
    else RunsConserve(s[1..])
  }

  // This is enough, but not needed: a loss may be made up for by the end of the text.
  lemma {:induction false} RunsSuffice(s: string)
    requires RunsConserve(s)
    ensures Texts(Tokens(s)) == Clean(s)
  {
    RunsBalance(s);
    LexerConservesText(s);
  }

  lemma {:induction false} RunsBalance(s: string)
    requires RunsConserve(s)
    ensures Balanced(s, 0)
    decreases |s|
  {
    if s != "" {
      if s[0] == '`' || s[0] == '#' {
        NotWhitespace(s[0]);
        RunsBalance(s[RunOf(s, s[0])..]);
      } else {
        RunsBalance(s[1..]);
      }
    }
  }

  lemma {:induction false} RunOfRepeat(c: char, k: nat, s: string)
    requires s != "" ==> s[0] != c
    ensures RunOf(Repeat(c, k) + s, c) == k
  {
    if k > 0 {
      assert (Repeat(c, k) + s)[1..] == Repeat(c, k - 1) + s;
      RunOfRepeat(c, k - 1, s);
    }
  }

  lemma LossIsMadeUpFor()
    ensures !RunsConserve("`` ``") && Balanced("`` ``", 0)
  {
    assert "`` ``" == Repeat('`', 2) + " ``" && "``" == Repeat('`', 2) + "";
    RunOfRepeat('`', 2, " ``");
    RunOfRepeat('`', 2, "");
    assert "`` ``"[2..] == " ``" && " ``"[1..] == "``";
  }

  lemma {:induction false} CleanOfKept(s: string)
    requires forall i :: 0 <= i < |s| ==> !IsWhitespace(s[i])
    ensures Clean(s) == s
  {
    if s != "" {
      CleanOfKept(s[1..]);
      assert s == [s[0]] + s[1..];
    }
  }

  // The three ways to miss it: a pair of backticks loses one, and at the end of the input a
  // lone backtick or hash becomes three.
  lemma PairOfBackticksLosesOne()
    ensures Clean("``x") == "``x" && Tokens("``x") == [MakeToken(Punct, "`", 0, 1), MakeToken(Word, "x", 0, 2)]
  {
    PairKept();
    hide Lexeme, Lex, EndsWord, Clean, IsWhitespace;
    LexOneLetter(0, 1);
    PairLexeme();
    LexTurn("``x", "", 0, 0);
    assert ("``x")[2..] == "x";
    assert [] + [MakeToken(Punct, "`", 0, 1)] == [MakeToken(Punct, "`", 0, 1)];
  }

  lemma PairKept()
    ensures Clean("``x") == "``x"
  {
    CleanOfKept("``x");
  }

  lemma PairLexeme()
    ensures EndsWord('`') && LineAfter(0, '`') == 0
    ensures Lexeme("``x", 0, 1) == (2, Some(MakeToken(Punct, "`", 0, 1)))
  {
    var s := "``x";
    assert s[0] == s[1] == '`' && s[2] == 'x';
  }

  lemma LexOneLetter(line: nat, column: nat)
    ensures Lex("x", "", line, column) == [MakeToken(Word, "x", line, column + 1)]
  {
    var s := "x";
    assert s[0] == 'x' && !EndsWord(s[0]);
    assert s[1..] == "" && "" + [s[0]] == s;
    assert LastKind('x') == Word;
    assert Lex(s, "", line, column) == Lex("", s, line, column + 1);
  }

  lemma LastBacktickIsTripled()
    ensures Clean("`") == "`" && Tokens("`") == [MakeToken(CodeDelimiter, "```", 0, 1)]
  {
    CleanOfKept("`");
    assert Lexeme("`", 0, 1) == (1, Some(MakeToken(CodeDelimiter, "```", 0, 1)));
    assert "`"[1..] == "";
  }

  lemma LastHashIsTripled()
    ensures Clean("#") == "#" && Tokens("#") == [MakeToken(Header3, "###", 0, 1)]
  {
    CleanOfKept("#");
    assert Lexeme("#", 0, 1) == (1, Some(MakeToken(Header3, "###", 0, 1)));
    assert "#"[1..] == "";
  }
}

/** The loops of mdm/lexer.cc and mdm/parser.cc. */
module MarkdownCode {
  import opened Basics
  import MarkdownConservation
  import MarkdownIdempotence
  import opened MarkdownLexer

  class Lexer {
    const input: string
    var position: nat    // of the stream

    constructor (input: string)
      ensures this.input == input && position == 0
    {
      this.input, position := input, 0;
    }

    // `input_.get(c)`: at the end of the stream it fails and leaves c as it is.
    method Get(c: char) returns (ok: bool, c': char)
      requires position <= |input|
      modifies this
      ensures ok == (old(position) < |input|)
      ensures position == (if ok then old(position) + 1 else old(position))
      ensures c' == if ok then input[old(position)] else c
    {
      if position < |input| {
        ok, c', position := true, input[position], position + 1;
      } else {
        ok, c' := false, c;
      }
    }

    // The punctuation branch of Process: a third backtick makes a delimiter; otherwise the
    // stream is put back behind the first character that is not a backtick.
    method PunctToken(c0: char, line: nat, column: nat) returns (token: Token)
      requires 0 < position <= |input| && input[position - 1] == c0 && IsPunct(c0)
      modifies this
      ensures position <= |input|
      ensures Lexeme(input[old(position) - 1..], line, column) == (position - old(position) + 1, Some(token))
    {
      ghost var s := input[position - 1..];
      assert forall i :: 0 <= i < |s| ==> s[i] == input[position - 1 + i];
      var c := c0;
      if c == '`' {
        var original, prev, got := position, c, true;
        got, c := Get(c);
        if c != '`' {
          position, c := original, prev;
        } else {
          got, c := Get(c);
          if c != '`' {
            position, c := original + 1, prev;
          } else {
            return MakeToken(CodeDelimiter, "```", line, column);
          }
        }
      }
      token := MakeToken(Punct, [c], line, column);
    }

    // The symbol branch of Process: up to three hashes make a header.
    method SymbolToken(c0: char, line: nat, column: nat) returns (token: Token)
      requires 0 < position <= |input| && input[position - 1] == c0 && IsSymbol(c0) && !IsPunct(c0)
      modifies this
      ensures position <= |input|
      ensures Lexeme(input[old(position) - 1..], line, column) == (position - old(position) + 1, Some(token))
    {
      ghost var s := input[position - 1..];
      assert forall i :: 0 <= i < |s| ==> s[i] == input[position - 1 + i];
      var c := c0;
      if c == '#' {
        var original, got := position, true;
        got, c := Get(c);
        if c != '#' {
          position := original;
          return MakeToken(Header1, "#", line, column);
        }
        got, c := Get(c);
        if c != '#' {
          position := original + 1;
          return MakeToken(Header2, "##", line, column);
        }
        return MakeToken(Header3, "###", line, column);
      }
      token := MakeToken(Symbol, [c], line, column);
    }

    // The body of the loop of Process for the character c just read: the tokens it pushes, and
    // the new pending word and line count.
    method Turn(c: char, ss0: string, line: nat, column: nat)
      returns (pushed: seq<Token>, ss: string, linecount: nat)
      requires 0 < position <= |input| && input[position - 1] == c
      modifies this
      ensures old(position) <= position <= |input|
      ensures Lex(input[old(position) - 1..], ss0, line, column)
           == pushed + Lex(input[position..], ss, linecount, column + 1)
    {
      hide Lex, Lexeme, IsPunct, IsSymbol, IsWhitespace, IsNewline;
      ghost var s := input[position - 1..];
      assert s[0] == c && s[1..] == input[position..];
      LexTurn(s, ss0, line, column);
      pushed, ss, linecount := [], ss0, line;
      ClassesAreDisjoint(c);
      if ss != "" && (IsSymbol(c) || IsPunct(c) || IsWhitespace(c) || IsNewline(c)) {
        pushed := pushed + [MakeToken(Word, ss, linecount, column + 1)];
        ss := "";
      }
      if IsWhitespace(c) {
        SpaceLexeme(s, linecount, column + 1);
      } else if IsNewline(c) {
        linecount := linecount + 1;
        SpaceLexeme(s, linecount, column + 1);
        pushed := pushed + [MakeToken(Newline, "\n", linecount, column + 1)];
        ss := "";
      } else if IsPunct(c) {
        var token := PunctToken(c, linecount, column + 1);
        pushed := pushed + [token];
        assert s[position - old(position) + 1..] == input[position..];
      } else if IsSymbol(c) {
        var token := SymbolToken(c, linecount, column + 1);
        pushed := pushed + [token];
        assert s[position - old(position) + 1..] == input[position..];
      } else {
        ss := ss + [c];
      }
    }

    method Process() returns (tokens: seq<Token>)
      requires position == 0
      modifies this
      ensures tokens == Tokens(input)
    {
      hide Lex;
      tokens := [];
      var linecount, colcount: nat := 0, 0;
      var ss := "";
      assert input[0..] == input;
      var ok, c := Get('\0');
      while ok
        invariant position <= |input| && (ok ==> position > 0 && c == input[position - 1])
        invariant !ok ==> position == |input|
        invariant tokens + Lex(input[Front(ok, position)..], ss, linecount, colcount) == Tokens(input)
        decreases |input| - position, ok
      {
        var pushed;
        pushed, ss, linecount := Turn(c, ss, linecount, colcount);
        colcount := colcount + 1;
        ConcatAssociates(tokens, pushed, Lex(input[position..], ss, linecount, colcount));
        tokens := tokens + pushed;
        ok, c := Get(c);
      }
      assert input[position..] == "";
      LexEnd(ss, linecount, colcount);
      if ss != "" {
        tokens := tokens + [MakeToken(LastKind(ss[0]), ss, linecount, colcount)];
      } else {
        ConcatEmpty(tokens);
      }
    }
  }

  lemma LexEnd(word: string, line: nat, column: nat)
    ensures Lex("", word, line, column)
         == if word == "" then [] else [MakeToken(LastKind(word[0]), word, line, column)]
  {}

  // Where the part of the input not yet processed starts, when a character has been read ahead.
  function Front(ok: bool, position: nat): (n: nat)
    requires ok ==> position > 0
    ensures n <= position
  {
    if ok then position - 1 else position
  }

  lemma ClassesAreDisjoint(c: char)
    ensures IsWhitespace(c) || IsNewline(c) ==> !IsPunct(c) && !IsSymbol(c)
    ensures !(IsWhitespace(c) && IsNewline(c))
  {}

  lemma SpaceLexeme(s: string, line: nat, column: nat)
    requires s != "" && (IsWhitespace(s[0]) || IsNewline(s[0]))
    ensures Lexeme(s, line, column)
         == (1, if IsNewline(s[0]) then Some(MakeToken(Newline, "\n", line, column)) else None)
  {}

  // ---------- the parser ----------

  method Write(tokens: seq<Token>) returns (stream: string)
    ensures stream == Formatted(tokens)
  {
    stream := "";
    for i := 0 to |tokens|
      invariant stream + Formatted(tokens[i..]) == Formatted(tokens)
    {
      var e := tokens[i];
      assert tokens[i..][1..] == tokens[i + 1..];
      ConcatAssociates(stream, Written(e), Formatted(tokens[i + 1..]));
      ConcatAssociates(stream, e.text, " ");
      stream := stream + e.text;
      if e.kind == Newline { continue; }
      stream := stream + " ";
    }
    assert tokens[|tokens|..] == [];
  }

  // The tokens that MarkNewlineTokens flags: the first one, and each one behind a newline that
  // is not itself the first token.
  predicate Flagged(ts: seq<Token>, i: nat)
    requires i < |ts|
  {
    i == 0 || (ts[i].kind != Newline && i >= 2 && ts[i - 1].kind == Newline)
  }

  function Marked(ts: seq<Token>, i: nat): Token
    requires i < |ts|
  {
    ts[i].(isFirstOnNewline := ts[i].isFirstOnNewline || Flagged(ts, i))
  }

  method MarkNewlineTokens(tokens: array<Token>)
    modifies tokens
    ensures forall i :: 0 <= i < tokens.Length ==>
              tokens[i] == Marked(old(tokens[..]), i)
  {
    var foundNewline, firstToken := false, true;
    for i := 0 to tokens.Length
      invariant firstToken == (i == 0)
      invariant foundNewline == (i >= 2 && old(tokens[i - 1]).kind == Newline)
      invariant forall k :: i <= k < tokens.Length ==> tokens[k] == old(tokens[k])
      invariant forall k :: 0 <= k < i ==>
                  tokens[k] == Marked(old(tokens[..]), k)
    {
      if firstToken {
        tokens[i] := tokens[i].(isFirstOnNewline := true);
        firstToken := false;
        continue;
      }
      if tokens[i].kind == Newline {
        foundNewline := true;
        continue;
      }
      if foundNewline {
        tokens[i] := tokens[i].(isFirstOnNewline := true);
        foundNewline := false;
      }
    }
  }

  predicate StartsLine(ts: seq<Token>, i: nat)
    requires i < |ts|
  {
    i == 0 || (ts[i].kind != Newline && ts[i - 1].kind == Newline)
  }

  // The flags are right except for the token behind a newline that opens the document.
  lemma FlagsAreLineStarts(ts: seq<Token>)
    ensures (forall i :: 0 <= i < |ts| ==> (Flagged(ts, i) <==> StartsLine(ts, i)))
            <==> !(|ts| >= 2 && ts[0].kind == Newline && ts[1].kind != Newline)
  {
    if |ts| >= 2 && ts[0].kind == Newline && ts[1].kind != Newline {
      assert StartsLine(ts, 1) && !Flagged(ts, 1);
    }
  }

  lemma OpeningNewlineHidesLine()
    ensures var ts := Tokens("\nx"); |ts| == 2 && StartsLine(ts, 1) && !Flagged(ts, 1)
  {
    MarkdownIdempotence.RelexNewline("x", 0, 0);
    MarkdownConservation.LexOneLetter(1, 1);
    assert "\nx" == "\n" + "x";
  }
}
