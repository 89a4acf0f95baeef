/** The tokens of a text by their rules: how far each kind of lexeme reaches and what it stands
    for. A text is read with a '\0' behind its last character, as the file reader stores it. */
module LexRules {
  import opened Tokens
  import opened Wrappers

  // ----- characters (basic.c)

  function At(t: string, i: nat): char {
    if i < |t| then t[i] else '\0'
  }

  predicate IsLetter(c: char) {
    'A' <= c <= 'Z' || 'a' <= c <= 'z'
  }

  /** cstr_is_digit; the bases are 2, 8, 10 and 16. */
  predicate IsDigit(c: char, base: nat) {
    if base == 16 then '0' <= c <= '9' || 'a' <= c <= 'f' || 'A' <= c <= 'F'
    else if base == 8 then '0' <= c <= '7'
    else if base == 2 then c == '0' || c == '1'
    else '0' <= c <= '9'
  }

  predicate IsSpace(c: char) {
    c == ' ' || c == '\t' || c == '\n' || c == '\r'
  }

  predicate IsNewline(c: char) {
    c == '\n' || c == '\r'
  }

  /** The kinds of characters that lexemes run over. */
  datatype CharClass = Ident | Digits(base: nat, underscores: bool) | Space | NoNewline

  /** No class but NoNewline holds the '\0' behind the text. */
  predicate InClass(c: char, k: CharClass) {
    match k
    case Ident => IsLetter(c) || IsDigit(c, 10) || c == '_'
    case Digits(base, underscores) => IsDigit(c, base) || (underscores && c == '_')
    case Space => IsSpace(c)
    case NoNewline => !IsNewline(c)
  }

  /** The first position from `i` on whose character is not in the class, or the end of the text. */
  function RunEnd(t: string, i: nat, k: CharClass): (j: nat)
    requires i <= |t|
    ensures i <= j <= |t|
    ensures forall x :: i <= x < j ==> InClass(t[x], k)
    ensures j < |t| ==> !InClass(t[j], k)
    decreases |t| - i
  {
    if i < |t| && InClass(t[i], k) then RunEnd(t, i + 1, k) else i
  }

  // ----- integers

  /** digit_to_integer */
  function DigitValue(c: char, base: nat): (v: nat)
    requires IsDigit(c, base)
    ensures base in {2, 8, 10, 16} ==> v < base
  {
    if base == 16 && 'a' <= c <= 'f' then 10 + (c as nat - 'a' as nat)
    else if base == 16 && 'A' <= c <= 'F' then 10 + (c as nat - 'A' as nat)
    else c as nat - '0' as nat
  }

  predicate AllDigits(s: string, base: nat, underscores: bool) {
    forall i :: 0 <= i < |s| ==> InClass(s[i], Digits(base, underscores))
  }

  /** The value of a digit string; underscores do not count. */
  function Value(s: string, base: nat): nat
    requires AllDigits(s, base, true)
  {
    if s == [] then 0
    else
      var front, last := s[..|s| - 1], s[|s| - 1];
      if last == '_' then Value(front, base) else Value(front, base) * base + DigitValue(last, base)
  }

  // ----- operators and punctuation

  function Op1(c: char): Option<TokenClass> {
    if c == ';' then Some(Semicolon) else if c == '<' then Some(AngleOpen) else if c == '>' then Some(AngleClose)
    else if c == '_' then Some(Dontcare) else if c == ':' then Some(Colon) else if c == '(' then Some(ParenthOpen)
    else if c == ')' then Some(ParenthClose) else if c == '.' then Some(DotPrefix) else if c == '{' then Some(BraceOpen)
    else if c == '}' then Some(BraceClose) else if c == '[' then Some(BracketOpen) else if c == ']' then Some(BracketClose)
    else if c == ',' then Some(Comma) else if c == '-' then Some(Minus) else if c == '+' then Some(Plus)
    else if c == '*' then Some(Star) else if c == '/' then Some(Slash) else if c == '=' then Some(Equal)
    else if c == '!' then Some(Exclamation) else if c == '&' then Some(Ampersand) else if c == '|' then Some(Pipe)
    else if c == '^' then Some(Circumflex) else if c == '~' then Some(Tilda) else None
  }

  function Op2(c: char, d: char): Option<TokenClass> {
    if c == '<' && d == '=' then Some(AngleOpenEqual) else if c == '<' && d == '<' then Some(TwoAngleOpen)
    else if c == '>' && d == '=' then Some(AngleCloseEqual) else if c == '>' && d == '>' then Some(TwoAngleClose)
    else if c == '=' && d == '=' then Some(TwoEqual) else if c == '!' && d == '=' then Some(ExclamationEqual)
    else if c == '&' && d == '&' then Some(TwoAmpersand) else if c == '|' && d == '|' then Some(TwoPipe) else None
  }

  function Op3(c: char, d: char, e: char): Option<TokenClass> {
    if c == '&' && d == '&' && e == '&' then Some(ThreeAmpersand) else None
  }

  /** The class of an operator's spelling. */
  function OpClass(w: string): Option<TokenClass> {
    if |w| == 1 then Op1(w[0]) else if |w| == 2 then Op2(w[0], w[1])
    else if |w| == 3 then Op3(w[0], w[1], w[2]) else None
  }

  // ----- lexemes

  /** What the lexer finds: a token with the window text[start..end + 1], the end of the text,
      or an exit of the program: a failed assertion or a message about missing digits. */
  datatype Lexed = Lexed(tok: Token, start: nat, end: nat) | AtEnd(start: nat) | AssertFailed | BadDigits

  function Window(t: string, start: nat, end: nat): string
    requires start <= end < |t|
  {
    t[start..end + 1]
  }

  /** A window that starts at `p` and stays in the text. */
  predicate Within(t: string, p: nat, r: Lexed) {
    r.Lexed? ==> r.start == p <= r.end < |t|
  }

  function Plain(t: string, k: TokenClass, start: nat, end: nat): Lexed
    requires start <= end < |t|
  {
    Lexed(Token(k, Window(t, start, end), NoInt), start, end)
  }

  /** A minus directly behind an opening parenthesis is a sign. */
  function SignOr(k: TokenClass, prev: TokenClass): TokenClass {
    if k == Minus && prev == ParenthOpen then TokenClass.UnaryMinus else k
  }

  /** The longest operator wins. */
  function LexOperator(t: string, p: nat, prev: TokenClass): (r: Lexed)
    requires p < |t|
    ensures Within(t, p, r) && r.Lexed? && r.tok.klass !in {Comment, StringLiteral, Integer, Identifier}
    ensures r.tok.klass == Unknown <==> Op1(t[p]) == None
  {
    if p + 2 < |t| && Op3(t[p], t[p + 1], t[p + 2]).Some? then Plain(t, Op3(t[p], t[p + 1], t[p + 2]).value, p, p + 2)
    else if p + 1 < |t| && Op2(t[p], t[p + 1]).Some? then Plain(t, Op2(t[p], t[p + 1]).value, p, p + 1)
    else if Op1(t[p]).Some? then Plain(t, SignOr(Op1(t[p]).value, prev), p, p)
    else Lexed(Token(Unknown, "<unknown>", NoInt), p, p)
  }

  function LexIdentifier(t: string, p: nat): (r: Lexed)
    requires p < |t|
    ensures Within(t, p, r) && r.Lexed? && r.tok.klass == Identifier
  {
    Plain(t, Identifier, p, RunEnd(t, p + 1, Ident) - 1)
  }

  /** The first quote or backslash from `i` on, or the end of the text. */
  function StringEnd(t: string, i: nat): (j: nat)
    requires i <= |t|
    ensures i <= j <= |t|
    ensures forall x :: i <= x < j ==> t[x] != '"' && t[x] != '\\'
    ensures j < |t| ==> t[j] == '"' || t[j] == '\\'
    decreases |t| - i
  {
    if i < |t| && t[i] != '"' && t[i] != '\\' then StringEnd(t, i + 1) else i
  }

  function Unescape(c: char): char {
    if c == 'n' then '\n' else if c == 'r' then '\r' else if c == 't' then '\t' else c
  }

  /** A string ends at the first quote, or at the first backslash, which is replaced in the
      token's text by what it stands for together with the character behind it. */
  function LexString(t: string, p: nat): (r: Lexed)
    requires p < |t|
    ensures Within(t, p, r) && !r.AtEnd? && (r.Lexed? ==> r.tok.klass == StringLiteral)
  {
    var j := StringEnd(t, p + 1);
    if j == |t| then AssertFailed
    else if t[j] == '"' then Plain(t, StringLiteral, p, j)
    else Lexed(Token(StringLiteral, t[p..j] + [Unescape(At(t, j + 1))], NoInt), p, j)
  }

  /** The star that ends a block comment, from `i` on. */
  function BlockEnd(t: string, i: nat): (j: nat)
    requires i <= |t|
    ensures i <= j <= |t|
    ensures j < |t| ==> t[j] == '*' && j + 1 < |t| && t[j + 1] == '/'
    ensures forall x :: i <= x < j && x + 1 < |t| ==> t[x] != '*' || t[x + 1] != '/'
    decreases |t| - i
  {
    if i + 1 < |t| then if t[i] == '*' && t[i + 1] == '/' then i else BlockEnd(t, i + 1) else |t|
  }

  /** Comments; the builders never look at their text. */
  function LexBlock(t: string, start: nat, i: nat): (r: Lexed)
    requires start < i <= |t|
    ensures Within(t, start, r) && !r.AtEnd? && (r.Lexed? ==> r.tok.klass == Comment)
  {
    var j := BlockEnd(t, i);
    if j == |t| then AssertFailed else Lexed(Token(Comment, "", NoInt), start, j + 1)
  }

  function LexLine(t: string, p: nat): (r: Lexed)
    requires p < |t|
    ensures Within(t, p, r) && !r.AtEnd? && (r.Lexed? ==> r.tok.klass == Comment)
  {
    var j := RunEnd(t, p + 1, NoNewline);
    if j == |t| then AssertFailed else Lexed(Token(Comment, "", NoInt), p, j)
  }

  /** The base that the letter behind a leading zero stands for. */
  function BaseOf(c: char): Option<nat> {
    if c == 'x' || c == 'X' then Some(16) else if c == 'o' || c == 'O' then Some(8)
    else if c == 'b' || c == 'B' then Some(2) else None
  }

  /** The digits of an integer from `q` on. The first character is only checked once the
      others are read. */
  function LexDigits(t: string, start: nat, q: nat, base: nat, underscores: bool, num: IntInfo): (r: Lexed)
    requires start <= q <= |t| && num.IntInfo?
    ensures Within(t, start, r) && !r.AtEnd? && (r.Lexed? ==> r.tok.klass == Integer)
  {
    if q == |t| then AssertFailed
    else if !InClass(t[q], Digits(base, true)) then BadDigits
    else
      var e := RunEnd(t, q + 1, Digits(base, underscores));
      Lexed(Token(Integer, t[start..e], num.(value := Value(t[q..e], base))), start, e - 1)
  }

  /** The part of an integer behind a width. */
  function LexSized(t: string, start: nat, q: nat, num: IntInfo): (r: Lexed)
    requires start <= q <= |t| && num.IntInfo?
    ensures Within(t, start, r) && !r.AtEnd? && (r.Lexed? ==> r.tok.klass == Integer)
  {
    if At(t, q) == '0' && BaseOf(At(t, q + 1)).Some? then
      LexDigits(t, start, q + 2, BaseOf(At(t, q + 1)).value, true, num)
    else LexDigits(t, start, q, 10, false, num)
  }

  /** A decimal integer, or a width with the integer behind it. */
  function LexDecimal(t: string, p: nat): (r: Lexed)
    requires p < |t| && IsDigit(t[p], 10)
    ensures Within(t, p, r) && !r.AtEnd? && (r.Lexed? ==> r.tok.klass == Integer)
  {
    var e := RunEnd(t, p + 1, Digits(10, false));
    if At(t, e) == 'w' || At(t, e) == 's' then
      LexSized(t, p, e + 1, IntInfo(true, At(t, e) == 's', Value(t[p..e], 10), 0))
    else LexDigits(t, p, p, 10, false, UNSIZED)
  }

  const UNSIZED := IntInfo(false, true, 0, 0)

  function LexNumber(t: string, p: nat): (r: Lexed)
    requires p < |t| && IsDigit(t[p], 10)
    ensures Within(t, p, r) && !r.AtEnd? && (r.Lexed? ==> r.tok.klass == Integer)
  {
    if t[p] == '0' && BaseOf(At(t, p + 1)).Some? then
      LexDigits(t, p, p + 2, BaseOf(At(t, p + 1)).value, true, UNSIZED)
    else LexDecimal(t, p)
  }

  /** The lexeme at a position, by its first characters. */
  function LexAt(t: string, p: nat, prev: TokenClass): (r: Lexed)
    requires p <= |t|
    ensures Within(t, p, r) && (r.AtEnd? <==> At(t, p) == '\0') && (r.AtEnd? ==> r.start == p)
  {
    var c := At(t, p);
    if c == '\0' then AtEnd(p)
    else if c == '"' then LexString(t, p)
    else if c == '/' && At(t, p + 1) == '*' then LexBlock(t, p, p + 2)
    else if c == '/' && At(t, p + 1) == '/' then LexLine(t, p)
    else if IsDigit(c, 10) then LexNumber(t, p)
    else if IsLetter(c) || (c == '_' && InClass(At(t, p + 1), Ident)) then LexIdentifier(t, p)
    else LexOperator(t, p, prev)
  }

  /** next_token of lex.c: white space is skipped. */
  function LexNext(t: string, p: nat, prev: TokenClass): (r: Lexed)
    requires p <= |t|
    ensures r.Lexed? ==> p <= r.start <= r.end < |t|
    ensures r.AtEnd? ==> p <= r.start <= |t| && At(t, r.start) == '\0'
  {
    LexAt(t, RunEnd(t, p, Space), prev)
  }
}
