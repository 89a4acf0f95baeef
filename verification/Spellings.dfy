/** The spelling of every token, character by character, apart from the lexer's own tables. */
module Spellings {
  import opened Tokens
  import opened LexRules
  import opened LexTheorems
  import opened IntegerLiterals
  import opened Relex
  import opened Wrappers

  // ----- operators and punctuation

  predicate IsMark(c: char, k: TokenClass) {
    || (c == ';' && k == Semicolon) || (c == ':' && k == Colon) || (c == ',' && k == Comma) || (c == '.' && k == DotPrefix)
    || (c == '(' && k == ParenthOpen) || (c == ')' && k == ParenthClose)
    || (c == '{' && k == BraceOpen) || (c == '}' && k == BraceClose)
    || (c == '[' && k == BracketOpen) || (c == ']' && k == BracketClose)
    || (c == '<' && k == AngleOpen) || (c == '>' && k == AngleClose)
  }

  predicate IsSign(c: char, k: TokenClass) {
    || (c == '+' && k == Plus) || (c == '-' && k == Minus) || (c == '*' && k == Star) || (c == '/' && k == Slash)
    || (c == '=' && k == Equal) || (c == '!' && k == Exclamation) || (c == '~' && k == Tilda) || (c == '_' && k == Dontcare)
    || (c == '&' && k == Ampersand) || (c == '|' && k == Pipe) || (c == '^' && k == Circumflex)
  }

  predicate SpelledByOne(c: char, k: TokenClass) {
    IsMark(c, k) || IsSign(c, k)
  }

  predicate SpelledByTwo(c: char, d: char, k: TokenClass) {
    || (c == '=' && d == '=' && k == TwoEqual) || (c == '!' && d == '=' && k == ExclamationEqual)
    || (c == '<' && d == '=' && k == AngleOpenEqual) || (c == '>' && d == '=' && k == AngleCloseEqual)
    || (c == '<' && d == '<' && k == TwoAngleOpen) || (c == '>' && d == '>' && k == TwoAngleClose)
    || (c == '&' && d == '&' && k == TwoAmpersand) || (c == '|' && d == '|' && k == TwoPipe)
  }

  /** The 32 operators and punctuation marks. */
  predicate Spells(w: string, k: TokenClass) {
    || (|w| == 1 && SpelledByOne(w[0], k))
    || (|w| == 2 && SpelledByTwo(w[0], w[1], k))
    || (w == "&&&" && k == ThreeAmpersand)
  }

  lemma MarkFits(c: char, k: TokenClass)
    requires IsMark(c, k)
    ensures Op1(c) == Some(k)
  {
  }

  lemma SignFits(c: char, k: TokenClass)
    requires IsSign(c, k)
    ensures Op1(c) == Some(k)
  {
  }

  lemma OneSpelled(c: char)
    requires Op1(c).Some?
    ensures SpelledByOne(c, Op1(c).value)
  {
  }

  lemma OneIff(c: char, k: TokenClass)
    ensures SpelledByOne(c, k) <==> Op1(c) == Some(k)
  {
    hide Op1; hide IsMark; hide IsSign;
    if IsMark(c, k) { MarkFits(c, k); }
    if IsSign(c, k) { SignFits(c, k); }
    if Op1(c).Some? { OneSpelled(c); }
  }

  lemma TwoIff(c: char, d: char, k: TokenClass)
    ensures SpelledByTwo(c, d, k) <==> Op2(c, d) == Some(k)
  {
  }

  lemma SpellsIff(w: string, k: TokenClass)
    ensures Spells(w, k) <==> OpClass(w) == Some(k)
  {
    if |w| == 1 { OneIff(w[0], k); }
    if |w| == 2 { TwoIff(w[0], w[1], k); }
    hide Op1; hide Op2; hide SpelledByOne; hide SpelledByTwo;
  }

  /** Each of them, written anywhere with a blank behind it, is one token of its class; a minus
      right behind an opening parenthesis is a sign. */
  lemma SpellingLexes(t: string, p: nat, w: string, k: TokenClass, prev: TokenClass)
    requires Spells(w, k) && Written(t, p, w)
    ensures LexNext(t, p, prev)
         == Lexed(Token(if w == "-" && prev == ParenthOpen then TokenClass.UnaryMinus else k, w, NoInt), p, p + |w| - 1)
  {
    SpellsIff(w, k);
    MinusSpelled(w, k);
    SpellingStart(t, p, w);
    hide LexAt; hide OpClass; hide Spells; hide Written;
    OpLexes(t, p, w, prev);
    NextIs(t, p, prev);
  }

  lemma MinusSpelled(w: string, k: TokenClass)
    requires Spells(w, k)
    ensures k == Minus <==> w == "-"
  {
  }

  lemma SpellingStart(t: string, p: nat, w: string)
    requires OpClass(w).Some? && Written(t, p, w)
    ensures p < |t| && RunEnd(t, p, Space) == p
  {
    WrittenAt(t, p, w);
    assert w[0] != ' ' && w[0] != '\t' && w[0] != '\n' && w[0] != '\r' && t[p] == w[0];
  }

  /** And every token that is no name, number, string or comment is spelled like that. */
  lemma TokenIsSpelled(t: string, p: nat, prev: TokenClass)
    requires p <= |t| && LexNext(t, p, prev).Lexed?
    requires LexNext(t, p, prev).tok.klass !in {Unknown, Identifier, Integer, StringLiteral, Comment}
    ensures var r := LexNext(t, p, prev); var w := t[r.start..r.end + 1];
            && r.tok.lexeme == w
            && (if r.tok.klass == TokenClass.UnaryMinus then w == "-" && prev == ParenthOpen else Spells(w, r.tok.klass))
  {
    var q := RunEnd(t, p, Space);
    var r := LexAt(t, q, prev);
    OperatorOrNot(t, q, prev);
    LongestOperator(t, q, prev, 0);
    var w := Window(t, r.start, r.end);
    SpellsIff(w, OpClass(w).value);
    MinusSpelled(w, OpClass(w).value);
    NotAlone(w);
    hide LexAt; hide LexOperator; hide OpClass; hide Spells;
  }

  lemma NotAlone(w: string)
    ensures OpClass(w) != Some(TokenClass.UnaryMinus)
  {
  }

  // ----- digits

  const DIGITS := "0123456789abcdef"

  /** The lower case form of a hexadecimal digit. */
  function Lower(c: char): char {
    if c == 'A' then 'a' else if c == 'B' then 'b' else if c == 'C' then 'c'
    else if c == 'D' then 'd' else if c == 'E' then 'e' else if c == 'F' then 'f' else c
  }

  function LowerAll(s: string): (r: string)
    ensures |r| == |s| && forall i :: 0 <= i < |s| ==> r[i] == Lower(s[i])
  {
    if s == [] then [] else LowerAll(s[..|s| - 1]) + [Lower(s[|s| - 1])]
  }

  /** A digit of a base stands for its place among the digits, in either case. */
  lemma DigitIs(c: char, base: nat)
    requires base in {2, 8, 10, 16} && IsDigit(c, base)
    ensures DigitValue(c, base) < base && DIGITS[DigitValue(c, base)] == Lower(c)
  {
  }

  lemma DigitsAre(c: char, v: nat, base: nat)
    requires base in {2, 8, 10, 16} && v < base && DIGITS[v] == Lower(c)
    ensures IsDigit(c, base) && DigitValue(c, base) == v
  {
  }

  /** Upper and lower case digits count alike. */
  lemma {:induction false} CaseIsNoMatter(s: string)
    requires AllDigits(s, 16, true)
    ensures AllDigits(LowerAll(s), 16, true) && Value(LowerAll(s), 16) == Value(s, 16)
    decreases |s|
  {
    forall i | 0 <= i < |s| ensures InClass(LowerAll(s)[i], Digits(16, true)) { LowerDigit(s[i]); }
    if s != [] {
      LowerDigit(s[|s| - 1]);
      CaseIsNoMatter(s[..|s| - 1]);
      assert LowerAll(s)[..|s| - 1] == LowerAll(s[..|s| - 1]);
    }
  }

  lemma LowerDigit(c: char)
    requires InClass(c, Digits(16, true))
    ensures InClass(Lower(c), Digits(16, true)) && (Lower(c) == '_' <==> c == '_')
    ensures c != '_' ==> DigitValue(Lower(c), 16) == DigitValue(c, 16)
  {
  }

  // ----- numbers

  predicate Prefixes(prefix: string, base: nat) {
    || (prefix == "" && base == 10) || (prefix in {"0x", "0X"} && base == 16)
    || (prefix in {"0o", "0O"} && base == 8) || (prefix in {"0b", "0B"} && base == 2)
  }

  /** Digits of a base, the first of them not an underscore; without a prefix no underscores. */
  predicate IsNumeral(digits: string, prefix: string, base: nat) {
    && digits != [] && digits[0] != '_' && Prefixes(prefix, base)
    && AllDigits(digits, base, prefix != "")
  }

  lemma PrefixFits(prefix: string, base: nat)
    requires Prefixes(prefix, base)
    ensures IsPrefix(prefix) && PrefixBase(prefix) == base
  {
    if prefix != "" { assert prefix[0] == '0' && |prefix| == 2; }
  }

  lemma NumeralFits(digits: string, prefix: string, base: nat)
    requires IsNumeral(digits, prefix, base)
    ensures var l := Literal(false, true, "", prefix, digits);
            Valid(l) && Info(l) == IntInfo(false, true, 0, Value(digits, base)) && Text(l) == prefix + digits
  {
    PrefixFits(prefix, base);
    hide IsPrefix; hide PrefixBase; hide DigitValue;
    assert InClass(digits[0], Digits(base, prefix != ""));
    assert Value("", 10) == 0;
    assert "" + (prefix + digits) == prefix + digits;
  }

  /** A number without a width: its prefix decides the base. */
  lemma NumberLexes(t: string, p: nat, prefix: string, base: nat, digits: string)
    requires IsNumeral(digits, prefix, base) && StandsAt(t, p, prefix + digits)
    ensures p < |t| && IsDigit(t[p], 10)
    ensures LexNumber(t, p)
         == Lexed(Token(Integer, prefix + digits, IntInfo(false, true, 0, Value(digits, base))), p, p + |prefix + digits| - 1)
  {
    var l := Literal(false, true, "", prefix, digits);
    NumeralFits(digits, prefix, base);
    hide *;
    LiteralLexes(t, p, l);
  }

  lemma SizedFits(width: string, sign: char, digits: string, prefix: string, base: nat)
    requires IsNumeral(width, "", 10) && sign in {'w', 's'} && IsNumeral(digits, prefix, base)
    ensures var l := Literal(true, sign == 's', width, prefix, digits);
            && Valid(l) && Info(l) == IntInfo(true, sign == 's', Value(width, 10), Value(digits, base))
            && Text(l) == width + [sign] + (prefix + digits)
  {
    PrefixFits(prefix, base);
    hide IsPrefix; hide PrefixBase; hide DigitValue; hide Value;
    assert InClass(digits[0], Digits(base, prefix != ""));
    assert InClass(digits[0], Digits(base, true));
    assert forall i :: 0 <= i < |width| ==> InClass(width[i], Digits(10, true));
  }

  /** A number with a width: `w` for unsigned, `s` for signed. */
  lemma SizedLexes(t: string, p: nat, width: string, sign: char, prefix: string, base: nat, digits: string)
    requires IsNumeral(width, "", 10) && sign in {'w', 's'} && IsNumeral(digits, prefix, base)
    requires StandsAt(t, p, width + [sign] + (prefix + digits))
    ensures p < |t| && IsDigit(t[p], 10)
    ensures var w := width + [sign] + (prefix + digits);
            AllDigits(width, 10, true) &&
            LexNumber(t, p) == Lexed(Token(Integer, w, IntInfo(true, sign == 's', Value(width, 10), Value(digits, base))), p, p + |w| - 1)
  {
    var l := Literal(true, sign == 's', width, prefix, digits);
    SizedFits(width, sign, digits, prefix, base);
    hide *;
    LiteralLexes(t, p, l);
  }

  // ----- names, blanks, escapes

  predicate IsNameChar(c: char) {
    'a' <= c <= 'z' || 'A' <= c <= 'Z' || '0' <= c <= '9' || c == '_'
  }

  predicate IsNameText(w: string) {
    && w != [] && !('0' <= w[0] <= '9') && (w[0] == '_' ==> |w| > 1)
    && forall i :: 0 <= i < |w| ==> IsNameChar(w[i])
  }

  /** Every name, written anywhere with a blank behind it, is one token. */
  lemma NameLexes(t: string, p: nat, w: string, prev: TokenClass)
    requires IsNameText(w) && Written(t, p, w)
    ensures LexAt(t, p, prev) == Lexed(Token(Identifier, w, NoInt), p, p + |w| - 1)
  {
    hide LexAt;
    IdentLexes(t, p, w, prev);
  }

  /** Blanks, tabulators and line ends are skipped, and nothing else. */
  lemma BlankIsSkipped(t: string, p: nat, prev: TokenClass)
    requires p < |t|
    ensures t[p] in {' ', '\t', '\n', '\r'} ==> LexNext(t, p, prev) == LexNext(t, p + 1, prev)
    ensures t[p] !in {' ', '\t', '\n', '\r'} ==> LexNext(t, p, prev) == LexAt(t, p, prev)
  {
    hide LexAt;
    NextIs(t, p, prev);
    NextIs(t, p + 1, prev);
  }

  predicate Escapes(c: char, d: char) {
    if c == 'n' then d == '\n' else if c == 'r' then d == '\r' else if c == 't' then d == '\t' else d == c
  }

  lemma {:induction false} StarEnds(t: string, i: nat, j: nat)
    requires i <= j && j + 1 < |t| && t[j] == '*' && t[j + 1] == '/'
    requires forall x :: i <= x < j ==> !(t[x] == '*' && t[x + 1] == '/')
    ensures BlockEnd(t, i) == j
    decreases j - i
  {
    if i < j { StarEnds(t, i + 1, j); }
  }

  /** A block comment reaches to the first star with a slash behind it. */
  lemma BlockCommentLexes(t: string, p: nat, j: nat, prev: TokenClass)
    requires p + 2 <= j && j + 1 < |t| && t[p] == '/' && t[p + 1] == '*' && t[j] == '*' && t[j + 1] == '/'
    requires forall x :: p + 2 <= x < j ==> !(t[x] == '*' && t[x + 1] == '/')
    ensures LexNext(t, p, prev) == Lexed(Token(Comment, "", NoInt), p, j + 1)
  {
    StarEnds(t, p + 2, j);
    BlankIsSkipped(t, p, prev);
    hide BlockEnd; hide LexOperator; hide LexNumber; hide LexString; hide LexLine; hide LexIdentifier; hide LexNext;
  }

  /** A line comment reaches to the next line end. */
  lemma LineCommentLexes(t: string, p: nat, j: nat, prev: TokenClass)
    requires p + 2 <= j < |t| && t[p] == '/' && t[p + 1] == '/' && t[j] in {'\n', '\r'}
    requires forall x :: p + 2 <= x < j ==> t[x] !in {'\n', '\r'}
    ensures LexNext(t, p, prev) == Lexed(Token(Comment, "", NoInt), p, j)
  {
    RunEndIs(t, p + 1, j, NoNewline);
    BlankIsSkipped(t, p, prev);
    hide RunEnd; hide LexOperator; hide LexNumber; hide LexString; hide LexBlock; hide LexIdentifier; hide LexNext;
  }

  lemma {:induction false} BackslashEnds(t: string, i: nat, j: nat)
    requires i <= j < |t| && t[j] == '\\' && forall x :: i <= x < j ==> t[x] != '"' && t[x] != '\\'
    ensures StringEnd(t, i) == j
    decreases j - i
  {
    if i < j { BackslashEnds(t, i + 1, j); }
  }

  /** A string up to a backslash: the token's text ends in the character that is escaped. */
  lemma EscapeLexes(t: string, p: nat, j: nat, d: char)
    requires p < j && j + 1 < |t| && t[j] == '\\' && Escapes(t[j + 1], d)
    requires forall i :: p < i < j ==> t[i] != '"' && t[i] != '\\'
    ensures LexString(t, p) == Lexed(Token(StringLiteral, t[p..j] + [d], NoInt), p, j)
  {
    BackslashEnds(t, p + 1, j);
  }
}
