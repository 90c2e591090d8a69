/** Which characters make words, punctuation and symbols for mdm/lexer.cc, and what becomes of them. */
module MarkdownWords {
  import opened Basics
  import opened MarkdownLexer
  import opened MarkdownIdempotence
  import opened MarkdownLines

  // The character belongs to a word: it is none of the punctuation and symbols, and no white space.
  predicate IsFree(c: char) {
    c !in "{}.,;:\\\"!?-()[]<>`@#$^&*|/ \t\r\n"
  }

  predicate AllFree(w: string) {
    forall i :: 0 <= i < |w| ==> IsFree(w[i])
  }

  lemma FreeIsWord(c: char)
    ensures EndsWord(c) <==> !IsFree(c)
  {}

  lemma FreeTextIsWord(w: string)
    ensures WordText(w) <==> AllFree(w)
  {
    hide EndsWord, IsFree;
    forall c ensures EndsWord(c) <==> !IsFree(c) {
      FreeIsWord(c);
    }
  }

  // ---------- single characters ----------

  lemma LexFlushed(w: string, c: char, rest: string, word: string, line: nat, column: nat)
    requires AllFree(w) && !IsFree(c) && word + w != ""
    ensures var s, at := [c] + rest, column + |w|;
            var after := LineAfter(line, c);
            var (n, token) := Lexeme(s, after, at + 1);
            Lex(w + s, word, line, column)
            == [MakeToken(Word, word + w, line, at + 1)] + AsSeq(token) + Lex(s[n..], "", after, at + 1)
    decreases |w|
  {
    hide Lex, Lexeme, IsFree;
    var s := [c] + rest;
    LexTurn(w + s, word, line, column);
    if w == "" {
      FreeIsWord(c);
      assert w + s == s && word + w == word;
    } else {
      FreeIsWord(w[0]);
      assert (w + s)[1..] == w[1..] + s;
      LexFlushed(w[1..], c, rest, word + [w[0]], line, column + 1);
      assert word + [w[0]] + w[1..] == word + w;
      ConcatEmpty(Lex(w[1..] + s, word + [w[0]], line, column + 1));
    }
  }

  lemma WordAndOne(w: string, c: char, rest: string, token: Option<Token>)
    requires w != "" && AllFree(w) && !IsFree(c) && !IsNewline(c)
    requires EndsWord(c) && Lexeme([c] + rest, 0, |w| + 1) == (1, token)
    ensures Tokens(w + ([c] + rest)) == [MakeToken(Word, w, 0, |w| + 1)] + AsSeq(token) + Lex(rest, "", 0, |w| + 1)
  {
    hide Lex, Lexeme, IsFree, IsNewline, EndsWord, AllFree, MakeToken, AsSeq;
    LexFlushed(w, c, rest, "", 0, 0);
    ConcatDrops([c], rest);
    ConcatEmpty(w);
  }

  lemma Two(t: Token, u: Token)
    ensures [t] + AsSeq(Some(u)) == [t, u] && [t] + AsSeq(None) == [t]
  {}

  // A word ends at a punctuation character, which becomes a token of its own, at once and as it is.
  lemma PunctuationEndsWord(w: string, c: char, rest: string)
    requires w != "" && AllFree(w) && c in "{}.,;:\\\"!?-()[]<>"
    ensures Tokens(w + ([c] + rest))
         == [MakeToken(Word, w, 0, |w| + 1), MakeToken(Punct, [c], 0, |w| + 1)] + Lex(rest, "", 0, |w| + 1)
  {
    hide *;
    PunctuationIsPunct(c);
    var word, punct := MakeToken(Word, w, 0, |w| + 1), MakeToken(Punct, [c], 0, |w| + 1);
    PunctLexeme(c, rest, 0, |w| + 1);
    WordAndOne(w, c, rest, Some(punct));
    Two(word, punct);
  }

  lemma PunctuationIsPunct(c: char)
    requires c in "{}.,;:\\\"!?-()[]<>"
    ensures !IsFree(c) && IsPunct(c) && c != '`' && !IsWhitespace(c) && !IsNewline(c)
  {}

  lemma PunctLexeme(c: char, rest: string, line: nat, column: nat)
    requires IsPunct(c) && c != '`' && !IsWhitespace(c) && !IsNewline(c)
    ensures EndsWord(c) && Lexeme([c] + rest, line, column) == (1, Some(MakeToken(Punct, [c], line, column)))
  {}

  // The same for a symbol; the backslash is in both lists of the source, and punctuation.
  lemma SymbolEndsWord(w: string, c: char, rest: string)
    requires w != "" && AllFree(w) && c in "@$^&*|/"
    ensures Tokens(w + ([c] + rest))
         == [MakeToken(Word, w, 0, |w| + 1), MakeToken(Symbol, [c], 0, |w| + 1)] + Lex(rest, "", 0, |w| + 1)
  {
    hide *;
    CharacterIsSymbol(c);
    var word, symbol := MakeToken(Word, w, 0, |w| + 1), MakeToken(Symbol, [c], 0, |w| + 1);
    SymbolLexeme(c, rest, 0, |w| + 1);
    WordAndOne(w, c, rest, Some(symbol));
    Two(word, symbol);
  }

  lemma CharacterIsSymbol(c: char)
    requires c in "@$^&*|/"
    ensures !IsFree(c) && IsSymbol(c) && c != '#' && !IsPunct(c) && !IsWhitespace(c) && !IsNewline(c)
  {}

  lemma SymbolLexeme(c: char, rest: string, line: nat, column: nat)
    requires IsSymbol(c) && c != '#' && !IsPunct(c) && !IsWhitespace(c) && !IsNewline(c)
    ensures EndsWord(c) && Lexeme([c] + rest, line, column) == (1, Some(MakeToken(Symbol, [c], line, column)))
  {}

  // Blanks end a word and leave no token.
  lemma BlankEndsWord(w: string, c: char, rest: string)
    requires w != "" && AllFree(w) && c in " \t\r"
    ensures Tokens(w + ([c] + rest)) == [MakeToken(Word, w, 0, |w| + 1)] + Lex(rest, "", 0, |w| + 1)
  {
    hide *;
    BlankLexeme(c, rest, 0, |w| + 1);
    var word := MakeToken(Word, w, 0, |w| + 1);
    WordAndOne(w, c, rest, None);
    Two(word, word);
  }

  lemma BlankLexeme(c: char, rest: string, line: nat, column: nat)
    requires c in " \t\r"
    ensures !IsFree(c) && EndsWord(c) && !IsNewline(c) && Lexeme([c] + rest, line, column) == (1, None)
  {}

  // One, two and three hashes in front of a blank are the three kinds of header, three
  // backticks delimit code.
  lemma HeadersByHashes(rest: string)
    ensures Tokens("# " + rest) == [MakeToken(Header1, "#", 0, 1)] + Lex(rest, "", 0, 2)
    ensures Tokens("## " + rest) == [MakeToken(Header2, "##", 0, 1)] + Lex(rest, "", 0, 2)
    ensures Tokens("### " + rest) == [MakeToken(Header3, "###", 0, 1)] + Lex(rest, "", 0, 2)
    ensures Tokens("``` " + rest) == [MakeToken(CodeDelimiter, "```", 0, 1)] + Lex(rest, "", 0, 2)
  {
    hide Lex, Lexeme;
    RelexOther(MakeToken(Header1, "#", 0, 1), rest, 0, 0);
    RelexOther(MakeToken(Header2, "##", 0, 1), rest, 0, 0);
    RelexOther(MakeToken(Header3, "###", 0, 1), rest, 0, 0);
    RelexOther(MakeToken(CodeDelimiter, "```", 0, 1), rest, 0, 0);
    assert "# " == "#" + " " && "## " == "##" + " " && "### " == "###" + " " && "``` " == "```" + " ";
  }

  // ---------- words of any text ----------

  lemma {:induction false} EachWellFormed(ts: seq<Token>, line: nat, i: nat)
    requires WellFormedFrom(ts, line) && i < |ts|
    ensures WellFormed(ts[i])
  {
    hide WellFormed, LineAt;
    if i > 0 {
      EachWellFormed(ts[1..], LineAt(ts[0], line), i - 1);
    }
  }

  // No word token holds any other character.
  lemma WordsAreFree(s: string, i: nat)
    requires i < |Tokens(s)| && Tokens(s)[i].kind == Word
    ensures Tokens(s)[i].text != "" && AllFree(Tokens(s)[i].text)
  {
    hide Lex, WordText, AllFree, WellFormedFrom;
    EmptyWord();
    LexWellFormed(s, "", 0, 0);
    EachWellFormed(Tokens(s), 0, i);
    FreeTextIsWord(Tokens(s)[i].text);
  }

  // A stretch of word characters that is not part of a longer one.
  predicate IsStretch(full: string, p: nat, q: nat) {
    && p < q <= |full| && AllFree(full[p..q])
    && (p > 0 ==> !IsFree(full[p - 1])) && (q < |full| ==> !IsFree(full[q]))
  }

  // The word token at place i of the lexer's output, behind position `end`.
  predicate IsWordAt(ts: seq<Token>, ends: seq<nat>, i: nat, w: string, end: nat) {
    i < |ts| == |ends| && ts[i].kind == Word && ts[i].text == w && ends[i] == end
  }

  // From position `from` on, the stretch p..q is still to come, or pending as `word`.
  predicate IsAhead(from: nat, word: string, p: nat, q: nat) {
    if from > p then from - |word| == p && from <= q else from == p ==> word == ""
  }

  lemma {:induction false} StretchIsFound(full: string, from: nat, word: string, line: nat, column: nat, p: nat, q: nat)
    returns (i: nat)
    requires Reached(full, from, word, line) && AllFree(word) && IsStretch(full, p, q) && IsAhead(from, word, p, q)
    ensures IsWordAt(Lex(full[from..], word, line, column), Ends(full[from..], word, from), i, full[p..q], q)
    decreases |full| - from
  {
    hide Lex, Ends, Lexeme, EndsWord, IsFree, Newlines, IsNewline, Flushed, EndOfWord, Located, IsWordAt, AllFree;
    var s := full[from..];
    if s == "" || (!IsFree(full[from]) && from > p) {
      PendingIsStretch(full, from, word, p, q);
      i := 0;
      if s == "" {
        PendingIsLast(word, line, column, from);
        OnlyWordAt(word, line, column, from);
      } else {
        PendingIsFirst(full, from, word, line, column);
      }
    } else if IsFree(full[from]) {
      FreeIsWord(full[from]);
      LetterReaches(full, from, word, line);
      StretchGoesOn(full, from, word, p, q);
      assert s[1..] == full[from + 1..];
      i := StretchIsFound(full, from + 1, word + [full[from]], line, column + 1, p, q);
      StepOverLetter(s, word, line, column, from);
    } else {
      var n := TurnBefore(full, from, line, column, p, q);
      i := StretchIsFound(full, from + n, "", LineAfter(line, full[from]), column + 1, p, q);
      i := WordLater(full, from, word, line, column, i, full[p..q], q);
    }
  }

  // Where the stretch ends it is what is pending.
  lemma PendingIsStretch(full: string, from: nat, word: string, p: nat, q: nat)
    requires |word| <= from <= |full| && full[from - |word|..from] == word
    requires IsStretch(full, p, q) && IsAhead(from, word, p, q)
    requires from == |full| || (!IsFree(full[from]) && from > p)
    ensures from == q && word == full[p..q] && AllFree(word) && word != ""
  {
    hide IsFree, AllFree;
    if from < |full| {
      StretchEndsHere(full, from, word, p, q);
    }
  }

  lemma PendingIsFirst(full: string, from: nat, word: string, line: nat, column: nat)
    requires from < |full| && !IsFree(full[from]) && line == Newlines(full[..from]) && word != ""
    ensures IsWordAt(Lex(full[from..], word, line, column), Ends(full[from..], word, from), 0, word, from)
  {
    hide Lex, Ends, Lexeme, EndsWord, IsFree, Newlines, IsNewline, Flushed, EndOfWord, IsWordAt;
    var s := full[from..];
    FreeIsWord(full[from]);
    TurnParts(s, word, line, column, from);
    RestHasPlaces(full, from, line, column);
    PendingIsFlushed(word, line, column + 1, from);
    var after := LineAfter(line, full[from]);
    var (n, token) := Lexeme(s, after, column + 1);
    var place := if token.Some? then [from + n] else [];
    WordFirst(word, line, column + 1, from, AsSeq(token), place, Lex(s[n..], "", after, column + 1),
              Ends(s[n..], "", from + n));
  }

  // A turn in front of the stretch leaves it ahead.
  lemma TurnBefore(full: string, from: nat, line: nat, column: nat, p: nat, q: nat) returns (n: nat)
    requires from < |full| && !IsFree(full[from]) && line == Newlines(full[..from])
    requires IsStretch(full, p, q) && from <= p
    ensures EndsWord(full[from])
    ensures n == Lexeme(full[from..], LineAfter(line, full[from]), column + 1).0 && 0 < n && from + n <= |full|
    ensures Reached(full, from + n, "", LineAfter(line, full[from])) && AllFree("") && IsAhead(from + n, "", p, q)
  {
    hide Lexeme, EndsWord, IsFree, Newlines, IsNewline, Located, LineAfter;
    FreeIsWord(full[from]);
    var s, after := full[from..], LineAfter(line, full[from]);
    n := Lexeme(s, after, column + 1).0;
    LexemeLocated(full, from, line, column + 1);
    TakenAreNotFree(s, after, column + 1);
    StretchStartsLater(full, from, p, q);
    StretchIsBehind(full, from, n, p, q);
    assert full[from + n..from + n] == "";
  }

  // What is found behind a turn is found from in front of it.
  lemma WordLater(full: string, from: nat, word: string, line: nat, column: nat, i: nat, w: string, end: nat)
    returns (k: nat)
    requires from < |full| && EndsWord(full[from])
    requires var after := LineAfter(line, full[from]);
             var n := Lexeme(full[from..], after, column + 1).0;
             && from + n <= |full|
             && IsWordAt(Lex(full[from + n..], "", after, column + 1), Ends(full[from + n..], "", from + n), i, w, end)
    ensures IsWordAt(Lex(full[from..], word, line, column), Ends(full[from..], word, from), k, w, end)
  {
    hide Lex, Ends, Lexeme, EndsWord, Flushed, EndOfWord, IsWordAt, LineAfter;
    var s, after := full[from..], LineAfter(line, full[from]);
    TurnParts(s, word, line, column, from);
    var (n, token) := Lexeme(s, after, column + 1);
    assert s[n..] == full[from + n..];
    var place := if token.Some? then [from + n] else [];
    WordBehind(Flushed(word, line, column + 1) + AsSeq(token), EndOfWord(word, from) + place,
               Lex(s[n..], "", after, column + 1), Ends(s[n..], "", from + n), i, w, end);
    k := i + |Flushed(word, line, column + 1)| + |AsSeq(token)|;
  }

  lemma OnlyWordAt(word: string, line: nat, column: nat, end: nat)
    ensures IsWordAt([MakeToken(Word, word, line, column)], [end], 0, word, end)
  {}

  lemma WordFirst(word: string, line: nat, column: nat, end: nat, ts: seq<Token>, ends: seq<nat>, more: seq<Token>,
                  moreEnds: seq<nat>)
    requires |ts| == |ends| && |more| == |moreEnds|
    ensures IsWordAt([MakeToken(Word, word, line, column)] + ts + more, [end] + ends + moreEnds, 0, word, end)
  {}

  lemma WordBehind(front: seq<Token>, places: seq<nat>, ts: seq<Token>, ends: seq<nat>, i: nat, w: string, end: nat)
    requires |front| == |places| && IsWordAt(ts, ends, i, w, end)
    ensures IsWordAt(front + ts, places + ends, |front| + i, w, end)
  {}

  // Behind one turn there are as many places as tokens.
  lemma RestHasPlaces(full: string, from: nat, line: nat, column: nat)
    requires from < |full| && EndsWord(full[from]) && line == Newlines(full[..from])
    ensures var after := LineAfter(line, full[from]);
            var (n, _) := Lexeme(full[from..], after, column + 1);
            && from + n <= |full|
            && |Lex(full[from..][n..], "", after, column + 1)| == |Ends(full[from..][n..], "", from + n)|
  {
    hide Lex, Ends, Lexeme, EndsWord, Newlines, IsNewline;
    var after := LineAfter(line, full[from]);
    var (n, _) := Lexeme(full[from..], after, column + 1);
    LexemeLocated(full, from, line, column + 1);
    assert full[from..][n..] == full[from + n..] && full[from + n..from + n] == "";
    OnePlacePerToken(full, from + n, "", after, column + 1);
  }

  lemma OnePlacePerToken(full: string, from: nat, word: string, line: nat, column: nat)
    requires Reached(full, from, word, line)
    ensures |Lex(full[from..], word, line, column)| == |Ends(full[from..], word, from)|
  {
    TokensLocated(full, from, word, line, column);
    hide Lex, Ends;
  }

  lemma PendingIsLast(word: string, line: nat, column: nat, from: nat)
    requires word != "" && AllFree(word)
    ensures Lex("", word, line, column) == [MakeToken(Word, word, line, column)] && Ends("", word, from) == [from]
  {
    FreeIsWord(word[0]);
  }

  lemma PendingIsFlushed(word: string, line: nat, column: nat, from: nat)
    requires word != ""
    ensures Flushed(word, line, column) == [MakeToken(Word, word, line, column)] && EndOfWord(word, from) == [from]
  {}

  lemma StretchGoesOn(full: string, from: nat, word: string, p: nat, q: nat)
    requires IsStretch(full, p, q) && IsAhead(from, word, p, q) && AllFree(word) && from < |full| && IsFree(full[from])
    ensures AllFree(word + [full[from]]) && IsAhead(from + 1, word + [full[from]], p, q)
  {
    hide IsFree;
  }

  lemma StretchEndsHere(full: string, from: nat, word: string, p: nat, q: nat)
    requires IsStretch(full, p, q) && IsAhead(from, word, p, q) && from < |full| && !IsFree(full[from]) && from > p
    ensures from == q && word != ""
  {
    hide IsFree;
    FreeWithin(full, p, q, from);
  }

  lemma FreeWithin(full: string, p: nat, q: nat, k: nat)
    requires IsStretch(full, p, q)
    ensures p <= k < q ==> IsFree(full[k])
  {
    hide IsFree;
    if p <= k < q {
      assert full[p..q][k - p] == full[k];
    }
  }

  lemma StretchStartsLater(full: string, from: nat, p: nat, q: nat)
    requires IsStretch(full, p, q) && from < |full| && !IsFree(full[from]) && from <= p
    ensures from < p
  {
    hide IsFree;
    FreeWithin(full, p, q, p);
  }

  lemma StretchIsBehind(full: string, from: nat, n: nat, p: nat, q: nat)
    requires IsStretch(full, p, q) && from < p && from + n <= |full|
    requires forall i :: 0 <= i < n ==> !IsFree(full[from..][i])
    ensures from + n <= p
  {
    hide IsFree;
    FreeWithin(full, p, q, p);
    TakenWithin(full, from, n, p);
  }

  lemma TakenWithin(full: string, from: nat, n: nat, k: nat)
    requires from + n <= |full| && forall i :: 0 <= i < n ==> !IsFree(full[from..][i])
    ensures from <= k < from + n ==> !IsFree(full[k])
  {
    hide IsFree;
    if from <= k < from + n {
      assert full[from..][k - from] == full[k];
    }
  }

  lemma TakenAreNotFree(s: string, line: nat, column: nat)
    requires s != "" && EndsWord(s[0])
    ensures forall i :: 0 <= i < Lexeme(s, line, column).0 ==> !IsFree(s[i])
  {
    FreeIsWord(s[0]);
    TakenAreSame(s, line, column);
    hide IsFree, Lexeme, EndsWord;
  }

  lemma TakenAreSame(s: string, line: nat, column: nat)
    requires s != "" && EndsWord(s[0])
    ensures forall i :: 0 <= i < Lexeme(s, line, column).0 ==> s[i] == s[0]
  {}

  lemma StepOverLetter(s: string, word: string, line: nat, column: nat, from: nat)
    requires s != "" && !EndsWord(s[0])
    ensures Lex(s, word, line, column) == Lex(s[1..], word + [s[0]], line, column + 1)
    ensures Ends(s, word, from) == Ends(s[1..], word + [s[0]], from + 1)
  {
    hide EndsWord;
  }

  lemma TurnParts(s: string, word: string, line: nat, column: nat, from: nat)
    requires s != "" && EndsWord(s[0])
    ensures var after := LineAfter(line, s[0]);
            var (n, token) := Lexeme(s, after, column + 1);
            && Lex(s, word, line, column)
               == Flushed(word, line, column + 1) + AsSeq(token) + Lex(s[n..], "", after, column + 1)
            && Ends(s, word, from)
               == EndOfWord(word, from) + (if token.Some? then [from + n] else []) + Ends(s[n..], "", from + n)
            && |Flushed(word, line, column + 1)| == |EndOfWord(word, from)|
  {
    LexemeTakes(s, LineAfter(line, s[0]), column + 1);
    hide EndsWord, Lexeme;
  }

  // Every such stretch of every text becomes exactly one token, a word, in its place.
  lemma StretchIsOneWord(s: string, p: nat, q: nat) returns (i: nat)
    requires IsStretch(s, p, q)
    ensures IsWordAt(Tokens(s), Ends(s, "", 0), i, s[p..q], q)
    ensures forall k :: 0 <= k < |Tokens(s)| && Ends(s, "", 0)[k] == q ==> k == i
  {
    hide Lex, Ends, IsFree;
    assert s[0..] == s && s[..0] == "" && s[0..0] == "";
    i := StretchIsFound(s, 0, "", 0, 0, p, q);
    EndsAscend(s, "", 0);
  }

  // ---------- what is written ----------

  // Each token is written behind those before it, and one space behind it unless it is a newline.
  lemma {:induction false} WrittenInPlace(a: seq<Token>, t: Token, b: seq<Token>)
    ensures Formatted(a + ([t] + b))
         == Formatted(a) + (t.text + ((if t.kind == Newline then "" else " ") + Formatted(b)))
  {
    if a == [] {
      assert a + ([t] + b) == [t] + b && ([t] + b)[1..] == b;
      var rest := t.text + ((if t.kind == Newline then "" else " ") + Formatted(b));
      ConcatAssociates(t.text, if t.kind == Newline then "" else " ", Formatted(b));
      ConcatEmpty(t.text);
      ConcatEmpty(rest);
    } else {
      assert (a + ([t] + b))[1..] == a[1..] + ([t] + b);
      WrittenInPlace(a[1..], t, b);
      ConcatAssociates(Written(a[0]), Formatted(a[1..]),
                       t.text + ((if t.kind == Newline then "" else " ") + Formatted(b)));
    }
  }
}
