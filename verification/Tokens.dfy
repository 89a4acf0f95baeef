/** Token classes and tokens (token.h), and the token predicates that the
    expression builders of build_ast.c branch on. */
module Tokens {
  datatype TokenClass =
    | Semicolon | Identifier | TypeIdentifier | Integer
    | ParenthOpen | ParenthClose | AngleOpen | AngleClose
    | BraceOpen | BraceClose | BracketOpen | BracketClose
    | Dontcare | Colon | DotPrefix | Comma
    | Minus | UnaryMinus | Plus | Star | Slash
    | Equal | TwoEqual | ExclamationEqual | Exclamation | TwoPipe
    | AngleOpenEqual | AngleCloseEqual | Tilda
    | Ampersand | TwoAmpersand | ThreeAmpersand | Pipe | Circumflex
    | TwoAngleOpen | TwoAngleClose | Comment
    | Action | Actions | Enum | In | Package | Select | Switch | TupleKw | Void | Apply
    | Control | Error | Header | InOut | Parser | State | Table | Entries | Key
    | Typedef | Type | Bool | True | False | Default | Extern | HeaderUnion
    | Int | Bit | Varbit | StringKw | Out | StringLiteral | Transition | Else | Exit | If
    | MatchKind | Return | Struct | Const
    | Unknown | StartOfInput | EndOfInput | LexicalError

  /** The integer payload of a token: the flag bits HasWidth and IsSigned, the
      width and the value. */
  datatype IntInfo = NoInt | IntInfo(hasWidth: bool, isSigned: bool, width: nat, value: nat)

  datatype Token = Token(klass: TokenClass, lexeme: string, num: IntInfo)

  /** The classes whose text the builders keep in the tree. Of every other token they
      look at the class only. */
  predicate CarriesText(k: TokenClass) {
    k in {Identifier, TypeIdentifier, Integer, StringLiteral, Apply, Key, Actions, State, Entries, Type}
  }

  /** A token without the text that the builders do not look at. */
  function Essence(tok: Token): Token {
    if CarriesText(tok.klass) then tok else Token(tok.klass, "", NoInt)
  }

  /** What the builders see: tokens reduced to their essence. */
  type Seen = tok: Token | tok == Essence(tok) witness Token(Comma, "", NoInt)

  /** A token of which only the class matters. */
  function Sym(k: TokenClass): Seen {
    Token(k, "", NoInt)
  }

  /** The class of the current token; past the end it reads as end of input. */
  function Kind(ts: seq<Seen>): TokenClass {
    if ts == [] then EndOfInput else ts[0].klass
  }

  predicate IsBaseType(k: TokenClass) {
    k in {Bool, Error, Int, Bit, Varbit, StringKw}
  }

  predicate IsTypeName(k: TokenClass) {
    k == TypeIdentifier || k == DotPrefix
  }

  predicate IsTypeRef(k: TokenClass) {
    IsBaseType(k) || IsTypeName(k) || k == TupleKw
  }

  predicate IsNonTypeName(k: TokenClass) {
    k in {Identifier, Apply, Key, Actions, State, Entries, Type}
  }

  predicate IsName(k: TokenClass) {
    IsNonTypeName(k) || k == TypeIdentifier
  }

  predicate IsRealTypeArg(k: TokenClass) {
    k == Dontcare || IsTypeRef(k)
  }

  predicate IsTypeArg(k: TokenClass) {
    k == Dontcare || IsTypeRef(k) || IsNonTypeName(k)
  }

  predicate IsExpression(k: TokenClass) {
    || k in {Integer, True, False, StringLiteral, DotPrefix, BraceOpen, ParenthOpen, Exclamation, Tilda, UnaryMinus, Error}
    || IsNonTypeName(k)
    || IsTypeName(k)
  }

  predicate IsArgument(k: TokenClass) {
    IsExpression(k) || IsName(k) || k == Dontcare
  }

  predicate IsBinaryOperator(k: TokenClass) {
    k in {Star, Slash, Plus, Minus, AngleOpenEqual, AngleCloseEqual, AngleOpen, AngleClose,
          ExclamationEqual, TwoEqual, TwoPipe, TwoAmpersand, Pipe, Ampersand, Circumflex,
          TwoAngleOpen, TwoAngleClose, ThreeAmpersand, Equal}
  }

  predicate IsExprOperator(k: TokenClass) {
    IsBinaryOperator(k) || k in {DotPrefix, BracketOpen, ParenthOpen, AngleOpen}
  }

  /** The lexer makes a minus a sign exactly directly behind `(`. */
  predicate MinusOk(afterParen: bool, ts: seq<Token>)
    decreases |ts|
  {
    ts != [] ==>
      && (ts[0].klass == TokenClass.UnaryMinus ==> afterParen)
      && (ts[0].klass == Minus ==> !afterParen)
      && MinusOk(ts[0].klass == ParenthOpen, ts[1..])
  }
}
