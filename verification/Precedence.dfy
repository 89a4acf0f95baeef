/** How the expression builder names and groups operators, stated on token classes alone. */
module Precedence {
  import opened Tokens
  import opened Grammar
  import opened ExprParser
  import opened ParserComplete

  /** The node kind that each operator token makes. */
  predicate Makes(k: TokenClass, op: BinOp) {
    || (k == TwoAmpersand && op == And) || (k == TwoPipe && op == Or)
    || (k == TwoEqual && op == Equals) || (k == ExclamationEqual && op == NotEquals)
    || (k == AngleOpen && op == Less) || (k == AngleClose && op == Greater)
    || (k == AngleOpenEqual && op == LessEqual) || (k == AngleCloseEqual && op == GreaterEqual)
    || (k == Plus && op == Add) || (k == Minus && op == Sub)
    || (k == Ampersand && op == BitAnd) || (k == Pipe && op == BitOr) || (k == Circumflex && op == BitXor)
    || (k == TwoAngleOpen && op == ShiftLeft) || (k == TwoAngleClose && op == ShiftRight)
    || (k == Star && op == Mul) || (k == Slash && op == Div) || (k == ThreeAmpersand && op == Mask)
  }

  /** The five levels of operators: `l` is of a later one than `k`. */
  predicate Tighter(l: TokenClass, k: TokenClass) {
    || (k in {TwoAmpersand, TwoPipe}
        && l in {TwoEqual, ExclamationEqual, AngleOpen, AngleClose, AngleOpenEqual, AngleCloseEqual,
                 Plus, Minus, Ampersand, Pipe, Circumflex, TwoAngleOpen, TwoAngleClose, Star, Slash, ThreeAmpersand})
    || (k in {TwoEqual, ExclamationEqual, AngleOpen, AngleClose, AngleOpenEqual, AngleCloseEqual}
        && l in {Plus, Minus, Ampersand, Pipe, Circumflex, TwoAngleOpen, TwoAngleClose, Star, Slash, ThreeAmpersand})
    || (k in {Plus, Minus, Ampersand, Pipe, Circumflex, TwoAngleOpen, TwoAngleClose} && l in {Star, Slash, ThreeAmpersand})
    || (k in {Star, Slash} && l == ThreeAmpersand)
  }

  /** A token that ends an expression. */
  predicate AtEnd(ts: seq<Seen>) {
    Kind(ts) in {Semicolon, Comma, Colon, ParenthClose, BracketClose, BraceClose, EndOfInput}
  }

  /** The token of a name. */
  predicate IsIdent(tok: Seen) {
    tok.klass == Identifier
  }

  lemma ReadsAs(c: Tree, ts: seq<Seen>, stop: seq<Seen>)
    requires IsExpr(c, 1) && Follows(c, stop) && Yield(c) + stop == ts && AtEnd(stop)
    ensures ParseExpr(ts, 1) == Ok(c, stop)
  {
    EndStops(stop);
    hide *;
    ParseIffGrammar(ts, 1, c, stop);
  }

  lemma EndStops(stop: seq<Seen>)
    requires AtEnd(stop)
    ensures forall t: nat :: Stops(stop, t)
  {
    hide InfixAt; hide InfixPriority;
  }

  /** An operand whose ends let any operator stand beside it. */
  predicate Plain(c: Tree) {
    !IsOpen(c) && !EndsBare(c) && !IsRealTypeArg(Lead(c))
  }

  lemma LeafFits(a: Seen, t: nat, stop: seq<Seen>)
    requires IsIdent(a)
    ensures IsExpr(Leaf(a), t) && Follows(Leaf(a), stop) && Yield(Leaf(a)) == [a] && Plain(Leaf(a))
  {
  }

  lemma ComparisonFits(k: TokenClass, op: BinOp)
    requires Makes(k, op) && k in {TwoEqual, ExclamationEqual, AngleOpen, AngleClose, AngleOpenEqual, AngleCloseEqual}
    ensures BinaryClass(op) == k
  {
  }

  lemma SumFits(k: TokenClass, op: BinOp)
    requires Makes(k, op) && k in {Plus, Minus, Ampersand, Pipe, Circumflex, TwoAngleOpen, TwoAngleClose}
    ensures BinaryClass(op) == k
  {
  }

  lemma OtherFits(k: TokenClass, op: BinOp)
    requires Makes(k, op) && k in {TwoAmpersand, TwoPipe, Star, Slash, ThreeAmpersand}
    ensures BinaryClass(op) == k
  {
  }

  lemma OperatorFits(k: TokenClass, op: BinOp)
    requires Makes(k, op)
    ensures BinaryClass(op) == k
  {
    hide BinaryClass;
    if k in {TwoEqual, ExclamationEqual, AngleOpen, AngleClose, AngleOpenEqual, AngleCloseEqual} {
      ComparisonFits(k, op);
    } else if k in {Plus, Minus, Ampersand, Pipe, Circumflex, TwoAngleOpen, TwoAngleClose} {
      SumFits(k, op);
    } else {
      OtherFits(k, op);
    }
  }

  lemma TighterIff(k: TokenClass, op: BinOp, l: TokenClass, q: BinOp)
    requires Makes(k, op) && Makes(l, q)
    ensures Tighter(l, k) <==> Priority(op) < Priority(q)
  {
    LevelIs(k, op);
    LevelIs(l, q);
    hide Priority; hide Makes;
  }

  lemma LevelIs(k: TokenClass, op: BinOp)
    requires Makes(k, op)
    ensures Priority(op) == 1 <==> k in {TwoAmpersand, TwoPipe}
    ensures Priority(op) == 2
       <==> k in {TwoEqual, ExclamationEqual, AngleOpen, AngleClose, AngleOpenEqual, AngleCloseEqual}
    ensures Priority(op) == 3 <==> k in {Plus, Minus, Ampersand, Pipe, Circumflex, TwoAngleOpen, TwoAngleClose}
    ensures Priority(op) == 4 <==> k in {Star, Slash}
    ensures Priority(op) == 5 <==> k == ThreeAmpersand
  {
  }

  lemma BinaryFits(op: BinOp, l: Tree, r: Tree, t: nat, stop: seq<Seen>)
    requires IsExpr(l, Priority(op)) && IsExpr(r, Priority(op) + 1) && Priority(op) >= t && Follows(r, stop) && AtEnd(stop)
    requires Plain(l) && Plain(r)
    ensures IsExpr(Binary(op, l, r), t) && Follows(Binary(op, l, r), stop) && Plain(Binary(op, l, r))
    ensures Yield(Binary(op, l, r)) == Yield(l) + ([Sym(BinaryClass(op))] + Yield(r))
  {
    EndStops(stop);
    hide Priority; hide BinaryClass; hide IsRealTypeArg; hide Stops; hide AtEnd;
  }

  /** Each operator token makes the node of its name. */
  lemma OperatorNames(a: Seen, k: TokenClass, op: BinOp, b: Seen, stop: seq<Seen>)
    requires IsIdent(a) && IsIdent(b) && Makes(k, op) && AtEnd(stop)
    ensures ParseExpr([a, Sym(k), b] + stop, 1) == Ok(Binary(op, Leaf(a), Leaf(b)), stop)
  {
    hide *;
    OperatorFits(k, op);
    LeafFits(a, Priority(op), stop);
    LeafFits(b, Priority(op) + 1, stop);
    BinaryFits(op, Leaf(a), Leaf(b), 1, stop);
    ReadsAs(Binary(op, Leaf(a), Leaf(b)), [a, Sym(k), b] + stop, stop);
  }

  /** Of two operators in a row the second one binds first exactly if it is of a later one of
      the five levels; otherwise they are read from left to right. */
  lemma Grouping(a: Seen, k: TokenClass, op: BinOp, b: Seen, l: TokenClass, q: BinOp, c: Seen, stop: seq<Seen>)
    requires IsIdent(a) && IsIdent(b) && IsIdent(c) && Makes(k, op) && Makes(l, q) && AtEnd(stop)
    ensures ParseExpr([a, Sym(k), b, Sym(l), c] + stop, 1)
         == Ok(if Tighter(l, k) then Binary(op, Leaf(a), Binary(q, Leaf(b), Leaf(c)))
               else Binary(q, Binary(op, Leaf(a), Leaf(b)), Leaf(c)), stop)
  {
    hide *;
    TighterIff(k, op, l, q);
    if Tighter(l, k) {
      RightNested(a, k, op, b, l, q, c, stop);
    } else {
      LeftNested(a, k, op, b, l, q, c, stop);
    }
  }

  lemma RightNested(a: Seen, k: TokenClass, op: BinOp, b: Seen, l: TokenClass, q: BinOp, c: Seen, stop: seq<Seen>)
    requires IsIdent(a) && IsIdent(b) && IsIdent(c) && Makes(k, op) && Makes(l, q) && AtEnd(stop)
    requires Priority(op) < Priority(q)
    ensures ParseExpr([a, Sym(k), b, Sym(l), c] + stop, 1)
         == Ok(Binary(op, Leaf(a), Binary(q, Leaf(b), Leaf(c))), stop)
  {
    hide *;
    var inner := Binary(q, Leaf(b), Leaf(c));
    OperatorFits(k, op);
    OperatorFits(l, q);
    LeafFits(a, Priority(op), stop);
    LeafFits(b, Priority(q), stop);
    LeafFits(c, Priority(q) + 1, stop);
    BinaryFits(q, Leaf(b), Leaf(c), Priority(op) + 1, stop);
    BinaryFits(op, Leaf(a), inner, 1, stop);
    assert Yield(inner) == [b, Sym(l), c];
    assert Yield(Binary(op, Leaf(a), inner)) == [a, Sym(k), b, Sym(l), c];
    ReadsAs(Binary(op, Leaf(a), inner), [a, Sym(k), b, Sym(l), c] + stop, stop);
  }

  lemma LeftNested(a: Seen, k: TokenClass, op: BinOp, b: Seen, l: TokenClass, q: BinOp, c: Seen, stop: seq<Seen>)
    requires IsIdent(a) && IsIdent(b) && IsIdent(c) && Makes(k, op) && Makes(l, q) && AtEnd(stop)
    requires Priority(op) >= Priority(q)
    ensures ParseExpr([a, Sym(k), b, Sym(l), c] + stop, 1)
         == Ok(Binary(q, Binary(op, Leaf(a), Leaf(b)), Leaf(c)), stop)
  {
    hide *;
    var inner := Binary(op, Leaf(a), Leaf(b));
    OperatorFits(k, op);
    OperatorFits(l, q);
    LeafFits(a, Priority(op), stop);
    LeafFits(b, Priority(op) + 1, stop);
    LeafFits(c, Priority(q) + 1, stop);
    BinaryFits(op, Leaf(a), Leaf(b), Priority(q), stop);
    BinaryFits(q, inner, Leaf(c), 1, stop);
    assert Yield(inner) == [a, Sym(k), b];
    assert Yield(Binary(q, inner, Leaf(c))) == [a, Sym(k), b, Sym(l), c];
    ReadsAs(Binary(q, inner, Leaf(c)), [a, Sym(k), b, Sym(l), c] + stop, stop);
  }
}
