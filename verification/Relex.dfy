/** Writing tokens down, separated by blanks, and lexing the text again. */
module Relex {
  import opened Tokens
  import opened LexRules
  import opened Lexer
  import opened LexTheorems
  import opened IntegerLiterals
  import opened Wrappers

  /** What can be written: comments are dropped by the parser, and a string that the lexer
      would break off at a backslash is none. */
  datatype Word = Op(op: string) | Name(name: string) | Number(literal: Literal) | Quote(body: string)

  predicate WordOk(w: Word) {
    match w
    case Op(op) => OpClass(op).Some?
    case Name(name) => IdentLexeme(name)
    case Number(literal) => Valid(literal)
    case Quote(body) => forall i :: 0 <= i < |body| ==> body[i] != '"' && body[i] != '\\'
  }

  function Spelling(w: Word): string {
    match w
    case Op(op) => op
    case Name(name) => name
    case Number(literal) => Text(literal)
    case Quote(body) => "\"" + body + "\""
  }

  /** The token of a word behind a token of class `prev`. */
  function TokenOf(w: Word, prev: TokenClass): Token
    requires WordOk(w)
  {
    match w
    case Op(op) => Token(SignOr(OpClass(op).value, prev), op, NoInt)
    case Name(name) => Token(Identifier, name, NoInt)
    case Number(literal) => Token(Integer, Text(literal), Info(literal))
    case Quote(body) => Token(StringLiteral, Spelling(w), NoInt)
  }

  predicate AllOk(ws: seq<Word>) {
    forall i :: 0 <= i < |ws| ==> WordOk(ws[i])
  }

  function WriteAll(ws: seq<Word>): string {
    if ws == [] then "" else Spelling(ws[0]) + " " + WriteAll(ws[1..])
  }

  function TokensOf(ws: seq<Word>, prev: TokenClass): (ts: seq<Token>)
    requires AllOk(ws)
    ensures |ts| == |ws|
  {
    if ws == [] then []
    else
      var tok := TokenOf(ws[0], prev);
      [tok] + TokensOf(ws[1..], tok.klass)
  }

  // ----- one word

  /** The word `w` at `p` with a blank behind it. */
  predicate Written(t: string, p: nat, w: string) {
    w != [] && p + |w| <= |t| && t[p..p + |w|] == w && At(t, p + |w|) == ' '
  }

  lemma WrittenAt(t: string, p: nat, w: string)
    requires Written(t, p, w)
    ensures p + |w| < |t| && t[p + |w|] == ' ' && forall i :: p <= i < p + |w| ==> t[i] == w[i - p]
  {
    assert forall i :: p <= i < p + |w| ==> t[i] == t[p..p + |w|][i - p];
  }

  lemma OpLexes(t: string, p: nat, w: string, prev: TokenClass)
    requires OpClass(w).Some? && Written(t, p, w)
    ensures LexAt(t, p, prev) == Lexed(Token(SignOr(OpClass(w).value, prev), w, NoInt), p, p + |w| - 1)
  {
    hide LexNumber;
    hide LexString;
    hide LexBlock;
    hide LexLine;
    hide LexIdentifier;
    hide LexOperator;
    WrittenAt(t, p, w);
    FirstOfOperator(w);
    OpMunched(t, p, w, prev);
  }

  lemma FirstOfOperator(w: string)
    requires OpClass(w).Some?
    ensures w != [] && w[0] != '\0' && w[0] != '"' && !IsDigit(w[0], 10) && !IsLetter(w[0])
    ensures |w| > 1 ==> w[0] != '/' && w[0] != '_'
  {
  }

  lemma OpMunched(t: string, p: nat, w: string, prev: TokenClass)
    requires OpClass(w).Some? && Written(t, p, w)
    ensures LexOperator(t, p, prev) == Lexed(Token(SignOr(OpClass(w).value, prev), w, NoInt), p, p + |w| - 1)
  {
    WrittenAt(t, p, w);
    assert Window(t, p, p + |w| - 1) == w;
  }

  lemma IdentLexes(t: string, p: nat, w: string, prev: TokenClass)
    requires IdentLexeme(w) && Written(t, p, w)
    ensures LexAt(t, p, prev) == Lexed(Token(Identifier, w, NoInt), p, p + |w| - 1)
  {
    hide LexOperator;
    WrittenAt(t, p, w);
    RunEndIs(t, p + 1, p + |w|, CharClass.Ident);
    assert w[0] == '_' ==> |w| > 1;
    LexAtIdentifier(t, p, prev);
  }

  lemma QuoteLexes(t: string, p: nat, body: string, prev: TokenClass)
    requires WordOk(Quote(body)) && Written(t, p, Spelling(Quote(body)))
    ensures LexAt(t, p, prev) == Lexed(TokenOf(Quote(body), prev), p, p + |body| + 1)
  {
    var w := Spelling(Quote(body));
    WrittenAt(t, p, w);
    var j := p + |body| + 1;
    forall x | p + 1 <= x < j ensures t[x] != '"' && t[x] != '\\' { assert t[x] == w[x - p] == body[x - p - 1]; }
    assert t[j] == w[j - p] == '"';
    StringEndIs(t, p + 1, j);
    LexAtString(t, p, prev);
  }

  lemma {:induction false} StringEndIs(t: string, i: nat, j: nat)
    requires i <= j < |t| && t[j] == '"' && forall x :: i <= x < j ==> t[x] != '"' && t[x] != '\\'
    ensures StringEnd(t, i) == j
    decreases j - i
  {
    if i < j { StringEndIs(t, i + 1, j); }
  }

  lemma IntLexes(t: string, p: nat, l: Literal, prev: TokenClass)
    requires Valid(l) && Written(t, p, Text(l))
    ensures LexAt(t, p, prev) == Lexed(Token(Integer, Text(l), Info(l)), p, p + |Text(l)| - 1)
  {
    hide LexNumber;
    LiteralLexes(t, p, l);
    LexAtNumber(t, p, prev);
  }

  lemma WordLexes(t: string, p: nat, w: Word, prev: TokenClass)
    requires WordOk(w) && Written(t, p, Spelling(w))
    ensures LexAt(t, p, prev) == Lexed(TokenOf(w, prev), p, p + |Spelling(w)| - 1)
  {
    hide LexAt;
    match w
    case Op(op) => OpLexes(t, p, op, prev);
    case Name(name) => IdentLexes(t, p, name, prev);
    case Number(literal) => IntLexes(t, p, literal, prev);
    case Quote(body) => QuoteLexes(t, p, body, prev);
  }

  // ----- whole texts

  lemma SpellingStarts(w: Word)
    requires WordOk(w)
    ensures Spelling(w) != [] && !IsSpace(Spelling(w)[0])
  {
    match w
    case Op(op) => FirstOfOperator(op);
    case Number(literal) =>
      ValidDigits(literal);
      assert literal.sized ==> Text(literal)[0] == literal.width[0];
      assert !literal.sized && literal.prefix != "" ==> Text(literal)[0] == '0';
      assert !literal.sized && literal.prefix == "" ==> Text(literal)[0] == literal.digits[0];
    case _ =>
  }

  function Pad(blank: bool): string {
    if blank then " " else ""
  }

  lemma PadSkipped(t: string, p: nat, blank: bool, rest: string)
    requires p <= |t| && t[p..] == Pad(blank) + rest && (rest == [] || !IsSpace(rest[0]))
    ensures var q := p + |Pad(blank)|; q <= |t| && RunEnd(t, p, Space) == q && t[q..] == rest
  {
    var q := p + |Pad(blank)|;
    assert t[q..] == t[p..][|Pad(blank)|..] == rest;
    if blank { assert t[p] == t[p..][0]; }
    if rest != [] { assert t[q] == t[q..][0] == rest[0]; }
    RunEndIs(t, p, q, Space);
  }

  lemma NoTokens(prev: TokenClass)
    ensures AllOk([]) && TokensOf([], prev) + [LAST] == [LAST]
  {
  }

  lemma TokensFirst(ws: seq<Word>, prev: TokenClass)
    requires AllOk(ws) && ws != []
    ensures var tok := TokenOf(ws[0], prev);
            TokensOf(ws, prev) + [LAST] == [tok] + (TokensOf(ws[1..], tok.klass) + [LAST])
  {
    hide TokenOf;
  }

  /** Lexing what was written gives the tokens back. */
  lemma {:induction false} WriteThenLex(t: string, p: nat, blank: bool, ws: seq<Word>, prev: TokenClass)
    requires AllOk(ws) && p <= |t| && t[p..] == Pad(blank) + WriteAll(ws)
    ensures Tokenize(t, p, prev) == Tokens(TokensOf(ws, prev) + [LAST])
    decreases |ws|
  {
    hide LexNext; hide LexAt; hide Spelling; hide Pad; hide WordOk; hide Tokenize; hide TokensOf; hide TokenOf;
    if ws == [] {
      PadSkipped(t, p, blank, "");
      NothingLeft(t, p, prev);
      TokensEnd(t, p, prev);
      assert TokensOf(ws, prev) + [LAST] == [LAST] by { NoTokens(prev); }
    } else {
      var w, rest := Spelling(ws[0]), WriteAll(ws[1..]);
      NextWord(t, p, blank, ws[0], rest, prev);
      TokenTaken(t, p, prev);
      var tok, n := TokenOf(ws[0], prev), p + |Pad(blank)| + |w|;
      WriteThenLex(t, n, true, ws[1..], tok.klass);
      TokensFirst(ws, prev);
    }
  }

  lemma NextWord(t: string, p: nat, blank: bool, word: Word, rest: string, prev: TokenClass)
    requires WordOk(word) && p <= |t| && t[p..] == Pad(blank) + (Spelling(word) + " " + rest)
    ensures var q := p + |Pad(blank)|; var n := q + |Spelling(word)|;
            && n <= |t| && t[n..] == Pad(true) + rest
            && LexNext(t, p, prev) == Lexed(TokenOf(word, prev), q, n - 1) && TokenOf(word, prev).klass != Unknown
  {
    hide LexAt;
    var w := Spelling(word);
    SpellingStarts(word);
    PadSkipped(t, p, blank, w + " " + rest);
    WordStands(t, p + |Pad(blank)|, w, rest);
    WordLexes(t, p + |Pad(blank)|, word, prev);
    KnownClass(word, prev);
  }

  lemma NothingLeft(t: string, p: nat, prev: TokenClass)
    requires p <= |t| && RunEnd(t, p, Space) == |t|
    ensures LexNext(t, p, prev) == AtEnd(|t|)
  {
  }

  lemma WordStands(t: string, q: nat, w: string, rest: string)
    requires w != [] && q <= |t| && t[q..] == w + " " + rest
    ensures Written(t, q, w) && t[q + |w|..] == " " + rest
  {
    assert t[q..q + |w|] == t[q..][..|w|] == w;
    assert t[q + |w|..] == t[q..][|w|..] == " " + rest;
    assert t[q + |w|] == t[q + |w|..][0];
  }

  lemma KnownClass(w: Word, prev: TokenClass)
    requires WordOk(w)
    ensures TokenOf(w, prev).klass != Unknown
  {
  }

  /** lex_tokenize on the written words. */
  lemma WrittenWordsLex(ws: seq<Word>)
    requires AllOk(ws)
    ensures Tokenize(WriteAll(ws), 0, StartOfInput) == Tokens(TokensOf(ws, StartOfInput) + [LAST])
  {
    assert WriteAll(ws)[0..] == Pad(false) + WriteAll(ws);
    WriteThenLex(WriteAll(ws), 0, false, ws, StartOfInput);
  }

  // ----- respelling

  /** A token that can be written again. */
  predicate Rewritable(t: string, r: Lexed) {
    Good(r) && r.start <= r.end < |t| && r.tok.klass != Comment && (r.tok.klass == StringLiteral ==> t[r.end] == '"')
  }

  lemma QuoteFirst(t: string, p: nat, prev: TokenClass)
    requires p < |t| && LexAt(t, p, prev).Lexed? && LexAt(t, p, prev).tok.klass == StringLiteral
    ensures t[p] == '"' && LexAt(t, p, prev) == LexString(t, p)
  {
    hide LexString;
    hide LexNumber;
    hide LexOperator;
    hide LexBlock;
    hide LexLine;
    hide LexIdentifier;
  }

  lemma QuoteOf(t: string, p: nat, prev: TokenClass) returns (w: Word)
    requires p < |t| && Rewritable(t, LexAt(t, p, prev)) && LexAt(t, p, prev).tok.klass == StringLiteral
    ensures WordOk(w) && TokenOf(w, prev) == LexAt(t, p, prev).tok
  {
    hide LexAt;
    hide StringEnd;
    QuoteFirst(t, p, prev);
    var r := LexString(t, p);
    w := Quote(t[p + 1..r.end]);
    assert Window(t, p, r.end) == "\"" + t[p + 1..r.end] + "\"";
  }

  /** Every such token is the token of a word. */
  lemma WordOf(t: string, p: nat, prev: TokenClass) returns (w: Word)
    requires p < |t| && Rewritable(t, LexAt(t, p, prev))
    ensures WordOk(w) && TokenOf(w, prev) == LexAt(t, p, prev).tok
  {
    hide LexString; hide LexIdentifier; hide LexNumber; hide LexOperator; hide LexBlock; hide LexLine;
    hide Text; hide Info;
    var r := LexAt(t, p, prev);
    if r.tok.klass == Integer {
      var l := NumberIsLiteral(t, p);
      w := Number(l);
    } else if r.tok.klass == Identifier {
      LongestIdentifier(t, p, prev, 0);
      w := Name(Window(t, r.start, r.end));
    } else if r.tok.klass == StringLiteral {
      w := QuoteOf(t, p, prev);
    } else {
      OperatorOrNot(t, p, prev);
      LongestOperator(t, p, prev, 0);
      w := Op(Window(t, r.start, r.end));
    }
  }

  ghost predicate AllRewritable(t: string, ls: seq<Lexed>) {
    forall i :: 0 <= i < |ls| ==> Rewritable(t, ls[i])
  }

  lemma {:induction false} WordsOf(t: string, p: nat, prev: TokenClass) returns (ws: seq<Word>)
    requires p <= |t| && Tokenize(t, p, prev).Tokens? && AllRewritable(t, Lexemes(t, p, prev).lexemes)
    ensures AllOk(ws) && Tokenize(t, p, prev).tokens == TokensOf(ws, prev) + [LAST]
    decreases |t| - p
  {
    hide LexNext; hide Rewritable; hide WordOk; hide Tokenize; hide TokensOf; hide Lexemes; hide AllRewritable;
    hide TokenOf; hide AllOk;
    var r := LexNext(t, p, prev);
    TokensEnd(t, p, prev);
    if r.AtEnd? {
      ws := [];
      NoTokens(prev);
    } else {
      TokenTaken(t, p, prev);
      LexemesTail(t, p, prev);
      var w := WordOfNext(t, p, prev);
      var rest := WordsOf(t, r.end + 1, r.tok.klass);
      ws := [w] + rest;
      TokensCons(w, rest, prev);
    }
  }

  lemma LexemesTail(t: string, p: nat, prev: TokenClass)
    requires p <= |t| && Good(LexNext(t, p, prev)) && AllRewritable(t, Lexemes(t, p, prev).lexemes)
    ensures var r := LexNext(t, p, prev);
            Rewritable(t, r) && AllRewritable(t, Lexemes(t, r.end + 1, r.tok.klass).lexemes)
  {
    hide LexNext;
    hide Rewritable;
    var r := LexNext(t, p, prev);
    var ls, rest := Lexemes(t, p, prev).lexemes, Lexemes(t, r.end + 1, r.tok.klass).lexemes;
    assert ls == [r] + rest;
    assert ls[0] == r;
    forall i | 0 <= i < |rest| ensures Rewritable(t, rest[i]) { assert ls[i + 1] == rest[i]; }
  }

  lemma TokensCons(w: Word, rest: seq<Word>, prev: TokenClass)
    requires WordOk(w) && AllOk(rest)
    ensures AllOk([w] + rest)
    ensures var tok := TokenOf(w, prev); TokensOf([w] + rest, prev) + [LAST] == [tok] + (TokensOf(rest, tok.klass) + [LAST])
  {
    hide WordOk;
    hide TokenOf;
    var ws := [w] + rest;
    assert ws[1..] == rest;
    assert AllOk(ws);
  }

  lemma WordOfNext(t: string, p: nat, prev: TokenClass) returns (w: Word)
    requires p <= |t| && Rewritable(t, LexNext(t, p, prev))
    ensures WordOk(w) && TokenOf(w, prev) == LexNext(t, p, prev).tok
  {
    hide LexAt;
    w := WordOf(t, RunEnd(t, p, Space), prev);
  }

  /** Respelling an accepted text with single blanks keeps its tokens. */
  lemma Respell(t: string) returns (ws: seq<Word>)
    requires Tokenize(t, 0, StartOfInput).Tokens? && AllRewritable(t, Lexemes(t, 0, StartOfInput).lexemes)
    ensures AllOk(ws) && Tokenize(WriteAll(ws), 0, StartOfInput) == Tokenize(t, 0, StartOfInput)
  {
    ws := WordsOf(t, 0, StartOfInput);
    WrittenWordsLex(ws);
  }

  // ----- minus signs

  lemma SignsOfLast(afterParen: bool)
    ensures MinusOk(afterParen, [LAST])
  {
    assert [LAST][1..] == [];
  }

  lemma SignsCons(afterParen: bool, tok: Token, rest: seq<Token>)
    ensures MinusOk(afterParen, [tok] + rest)
       <==> (tok.klass == TokenClass.UnaryMinus ==> afterParen) && (tok.klass == Minus ==> !afterParen)
            && MinusOk(tok.klass == ParenthOpen, rest)
  {
    assert ([tok] + rest)[1..] == rest;
  }

  lemma {:induction false} LexedSigns(t: string, p: nat, prev: TokenClass)
    requires p <= |t| && Tokenize(t, p, prev).Tokens?
    ensures MinusOk(prev == ParenthOpen, Tokenize(t, p, prev).tokens)
    decreases |t| - p
  {
    hide LexNext; hide Tokenize; hide MinusOk;
    var r := LexNext(t, p, prev);
    TokensEnd(t, p, prev);
    if r.AtEnd? {
      SignsOfLast(prev == ParenthOpen);
    } else {
      TokenTaken(t, p, prev);
      LexedSigns(t, r.end + 1, r.tok.klass);
      SignOfNext(t, p, prev);
      SignsCons(prev == ParenthOpen, r.tok, Tokenize(t, r.end + 1, r.tok.klass).tokens);
    }
  }

  lemma SignOfNext(t: string, p: nat, prev: TokenClass)
    requires p <= |t| && LexNext(t, p, prev).Lexed?
    ensures var k := LexNext(t, p, prev).tok.klass;
            (k == TokenClass.UnaryMinus ==> prev == ParenthOpen) && (k == Minus ==> prev != ParenthOpen)
  {
    hide LexAt;
    hide LexOperator;
    var q := RunEnd(t, p, Space);
    var k := LexNext(t, p, prev).tok.klass;
    if k == Minus || k == TokenClass.UnaryMinus {
      OperatorOrNot(t, q, prev);
      LongestOperator(t, q, prev, 0);
      MinusIsLast(LexAt(t, q, prev).tok.lexeme, prev);
    }
  }

  lemma MinusIsLast(w: string, prev: TokenClass)
    requires OpClass(w).Some?
    ensures OpClass(w).value != TokenClass.UnaryMinus
  {
  }

  lemma SignBehind(prev: TokenClass)
    ensures SignOr(Minus, prev) == if prev == ParenthOpen then TokenClass.UnaryMinus else Minus
  {
  }

  lemma CommentAndMinus(t: string)
    requires t == "(/**/-"
    ensures Tokenize(t, 1, ParenthOpen) == Tokens([Token(Comment, "", NoInt), Token(Minus, "-", NoInt), LAST])
  {
    assert RunEnd(t, 6, Space) == |t|;
    assert SignOr(Minus, Comment) == Minus by { SignBehind(Comment); }
    hide *;
    assert t[1..5] == "/**/";
    ShortComment(t, 1, ParenthOpen);
    TokenTaken(t, 1, ParenthOpen);
    OneCharacter(t, 5, Comment);
    TokenTaken(t, 5, Comment);
    NothingLeft(t, 6, Minus);
    TokensEnd(t, 6, Minus);
  }

  /** A comment between the parenthesis and the minus takes the sign away. */
  lemma CommentHidesSign()
    ensures Tokenize("(/**/-", 0, StartOfInput)
         == Tokens([Token(ParenthOpen, "(", NoInt), Token(Comment, "", NoInt), Token(Minus, "-", NoInt), LAST])
  {
    hide *;
    var t := "(/**/-";
    OneCharacter(t, 0, StartOfInput);
    TokenTaken(t, 0, StartOfInput);
    CommentAndMinus(t);
  }

  lemma ParenthesisMakesSign()
    ensures Tokenize("(-", 0, StartOfInput)
         == Tokens([Token(ParenthOpen, "(", NoInt), Token(TokenClass.UnaryMinus, "-", NoInt), LAST])
  {
    hide LexNext; hide Tokenize; hide RunEnd; hide SignOr;
    var t := "(-";
    assert |t| == 2 && t[0] == '(' && t[1] == '-';
    SignBehind(ParenthOpen);
    OneCharacter(t, 0, StartOfInput);
    TokenTaken(t, 0, StartOfInput);
    OneCharacter(t, 1, ParenthOpen);
    TokenTaken(t, 1, ParenthOpen);
    NothingLeft(t, 2, TokenClass.UnaryMinus);
    TokensEnd(t, 2, TokenClass.UnaryMinus);
  }

  lemma NextIs(t: string, p: nat, prev: TokenClass)
    requires p <= |t|
    ensures LexNext(t, p, prev) == LexAt(t, RunEnd(t, p, Space), prev)
  {
    hide LexAt;
  }

  lemma OperatorStands(t: string, p: nat, prev: TokenClass)
    requires p < |t| && t[p] in {'(', '-'}
    ensures RunEnd(t, p, Space) == p && LexAt(t, p, prev) == LexOperator(t, p, prev)
  {
    hide LexNumber; hide LexString; hide LexBlock; hide LexLine; hide LexIdentifier; hide LexOperator; hide Within;
  }

  lemma OneOperator(t: string, p: nat, prev: TokenClass)
    requires p < |t| && t[p] in {'(', '-'}
    ensures LexOperator(t, p, prev) == Lexed(Token(if t[p] == '(' then ParenthOpen else SignOr(Minus, prev), [t[p]], NoInt), p, p)
  {
    hide Within;
    assert Window(t, p, p) == [t[p]];
  }

  lemma OneCharacter(t: string, p: nat, prev: TokenClass)
    requires p < |t| && t[p] in {'(', '-'}
    ensures LexNext(t, p, prev) == Lexed(Token(if t[p] == '(' then ParenthOpen else SignOr(Minus, prev), [t[p]], NoInt), p, p)
  {
    hide LexAt; hide LexOperator; hide Within; hide SignOr; hide LexNext;
    assert LexNext(t, p, prev) == LexAt(t, RunEnd(t, p, Space), prev) by { NextIs(t, p, prev); }
    OperatorStands(t, p, prev);
    OneOperator(t, p, prev);
  }

  lemma ShortComment(t: string, p: nat, prev: TokenClass)
    requires p + 4 <= |t| && t[p..p + 4] == "/**/"
    ensures LexNext(t, p, prev) == Lexed(Token(Comment, "", NoInt), p, p + 3)
  {
    hide LexNumber;
    hide LexString;
    hide LexLine;
    hide LexIdentifier;
    hide LexOperator;
    var w := t[p..p + 4];
    assert t[p] == w[0] && t[p + 1] == w[1] && t[p + 2] == w[2] && t[p + 3] == w[3];
    assert RunEnd(t, p, Space) == p && BlockEnd(t, p + 2) == p + 2;
  }
}
