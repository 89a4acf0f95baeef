/** The lexer's rule about minus signs, on tokens and on trees. */
module MinusRule {
  import opened Tokens
  import opened Grammar
  import opened Printer
  import opened ParserSound
  import opened ParserComplete

  lemma MinusStep(afterParen: bool, k: TokenClass, s: seq<Seen>)
    requires k != Minus && k != TokenClass.UnaryMinus
    ensures MinusOk(afterParen, [Sym(k)] + s) <==> MinusOk(k == ParenthOpen, s)
  {
    HeadTail(Sym(k), s);
  }

  lemma MinusLeaf(afterParen: bool, tok: Seen, s: seq<Seen>)
    requires tok.klass != Minus && tok.klass != TokenClass.UnaryMinus && tok.klass != ParenthOpen
    ensures MinusOk(afterParen, [tok] + s) <==> MinusOk(false, s)
  {
    HeadTail(tok, s);
  }

  lemma MinusPrefix(afterParen: bool, op: UnOp, s: seq<Seen>)
    ensures MinusOk(afterParen, [Sym(UnaryClass(op))] + s) <==> (op == Negate ==> afterParen) && MinusOk(false, s)
  {
    HeadTail(Sym(UnaryClass(op)), s);
  }

  lemma MinusBetween(op: BinOp, s: seq<Seen>)
    ensures MinusOk(false, [Sym(BinaryClass(op))] + s) <==> MinusOk(false, s)
  {
    HeadTail(Sym(BinaryClass(op)), s);
  }

  /** The rule holds of the tokens of a tree exactly when it holds of the tree. */
  ghost predicate Agrees(c: Tree, afterParen: bool, s: seq<Seen>) {
    MinusOk(afterParen, Yield(c) + s) <==> MinusFits(c, afterParen) && MinusOk(false, s)
  }

  lemma {:induction false} MinusOfExpr(c: Tree, t: nat, afterParen: bool, s: seq<Seen>)
    requires IsExpr(c, t)
    ensures Agrees(c, afterParen, s)
    decreases c, 2
  {
    match c
    case Leaf(tok) => MinusLeaf(afterParen, tok, s);
    case Dotted(x) => MinusOfDotted(x, t, afterParen, s);
    case Specialized(_, _) => MinusOfTypeName(c, false, afterParen, s);
    case Stack(_, _) => MinusOfTypeName(c, false, afterParen, s);
    case Braces(_) => MinusOfEnclosed(c, t, afterParen, s);
    case Group(_) => MinusOfEnclosed(c, t, afterParen, s);
    case Cast(_, _) => MinusOfPrefix(c, t, afterParen, s);
    case Unary(_, _) => MinusOfPrefix(c, t, afterParen, s);
    case Binary(_, _, _) => MinusOfInfix(c, t, afterParen, s);
    case KeyValue(_, _) => MinusOfInfix(c, t, afterParen, s);
    case Member(b, n) => MinusOfMember(b, n, t, afterParen, s);
    case Index(b, i) => MinusOfIndex(b, i, t, afterParen, s);
    case Slice(b, i, j) => MinusOfSlice(b, i, j, t, afterParen, s);
    case Call(b, args) => MinusOfCall(b, args, t, afterParen, s);
    case TypeApp(b, args) => MinusOfTypeApp(b, args, t, afterParen, s);
  }

  lemma {:induction false} MinusOfDotted(x: Tree, t: nat, afterParen: bool, s: seq<Seen>)
    requires IsExpr(Dotted(x), t)
    ensures Agrees(Dotted(x), afterParen, s)
    decreases Dotted(x), 0
  {
    Cat2([Sym(DotPrefix)], Yield(x), s);
    MinusStep(afterParen, DotPrefix, Yield(x) + s);
    if x.Leaf? { MinusLeaf(false, x.tok, s); } else { MinusOfTypeName(x, false, false, s); }
  }

  lemma {:induction false} MinusOfEnclosed(c: Tree, t: nat, afterParen: bool, s: seq<Seen>)
    requires IsExpr(c, t) && (c.Braces? || c.Group?)
    ensures Agrees(c, afterParen, s)
    decreases c, 1
  {
    hide MinusOk; hide IsNonTypeName; hide IsTypeNameTree; hide IsBaseType; hide IsTypeName;
    match c
    case Braces(es) =>
      Cat3([Sym(BraceOpen)], YieldList(es), [Sym(BraceClose)], s);
      MinusStep(afterParen, BraceOpen, YieldList(es) + ([Sym(BraceClose)] + s));
      MinusOfList(Exprs, es, false, s);
    case Group(e) =>
      Cat3([Sym(ParenthOpen)], Yield(e), [Sym(ParenthClose)], s);
      MinusStep(afterParen, ParenthOpen, Yield(e) + ([Sym(ParenthClose)] + s));
      MinusOfExpr(e, 1, true, [Sym(ParenthClose)] + s);
      MinusStep(false, ParenthClose, s);
  }

  lemma {:induction false} MinusOfPrefix(c: Tree, t: nat, afterParen: bool, s: seq<Seen>)
    requires IsExpr(c, t) && (c.Cast? || c.Unary?)
    ensures Agrees(c, afterParen, s)
    decreases c, 1
  {
    hide MinusOk;
    hide IsTypeRef;
    MinusOfExpr(c.arg, 1, false, s);
    match c
    case Cast(ty, e) =>
      var s1 := Yield(e) + s;
      Cat4([Sym(ParenthOpen)], Yield(ty), [Sym(ParenthClose)], Yield(e), s);
      MinusStep(afterParen, ParenthOpen, Yield(ty) + ([Sym(ParenthClose)] + s1));
      MinusOfType(ty, true, [Sym(ParenthClose)] + s1);
      MinusStep(false, ParenthClose, s1);
    case Unary(op, e) =>
      Cat2([Sym(UnaryClass(op))], Yield(e), s);
      MinusPrefix(afterParen, op, Yield(e) + s);
  }

  lemma {:induction false} MinusOfInfix(c: Tree, t: nat, afterParen: bool, s: seq<Seen>)
    requires IsExpr(c, t) && (c.Binary? || c.KeyValue?)
    ensures Agrees(c, afterParen, s)
    decreases c, 1
  {
    hide MinusOk;
    hide CarriesText;
    hide IsExprLeaf;
    match c
    case Binary(op, l, r) =>
      Cat3(Yield(l), [Sym(BinaryClass(op))], Yield(r), s);
      MinusOfExpr(l, Priority(op), afterParen, [Sym(BinaryClass(op))] + (Yield(r) + s));
      MinusBetween(op, Yield(r) + s);
      MinusOfExpr(r, Priority(op) + 1, false, s);
    case KeyValue(k, v) =>
      Cat3(Yield(k), [Sym(Equal)], Yield(v), s);
      MinusOfExpr(k, 1, afterParen, [Sym(Equal)] + (Yield(v) + s));
      MinusStep(false, Equal, Yield(v) + s);
      MinusOfExpr(v, 1, false, s);
  }

  lemma {:induction false} MinusOfMember(b: Tree, n: Seen, t: nat, afterParen: bool, s: seq<Seen>)
    requires IsExpr(Member(b, n), t)
    ensures Agrees(Member(b, n), afterParen, s)
    decreases Member(b, n), 0
  {
    hide MinusOk;
    Cat2(Yield(b), [Sym(DotPrefix), n], s);
    assert [Sym(DotPrefix), n] + s == [Sym(DotPrefix)] + ([n] + s);
    MinusOfExpr(b, 1, afterParen, [Sym(DotPrefix), n] + s);
    MinusStep(false, DotPrefix, [n] + s);
    MinusLeaf(false, n, s);
  }

  lemma {:induction false} MinusOfIndex(b: Tree, i: Tree, t: nat, afterParen: bool, s: seq<Seen>)
    requires IsExpr(Index(b, i), t)
    ensures Agrees(Index(b, i), afterParen, s)
    decreases Index(b, i), 0
  {
    hide IsBinaryOperator;
    hide IsTypeRef;
    hide MinusOk;
    var s1 := [Sym(BracketClose)] + s;
    Cat4(Yield(b), [Sym(BracketOpen)], Yield(i), [Sym(BracketClose)], s);
    MinusOfExpr(b, 1, afterParen, [Sym(BracketOpen)] + (Yield(i) + s1));
    MinusStep(false, BracketOpen, Yield(i) + s1);
    MinusOfExpr(i, 1, false, s1);
    MinusStep(false, BracketClose, s);
  }

  lemma {:induction false} MinusOfSlice(b: Tree, i: Tree, j: Tree, t: nat, afterParen: bool, s: seq<Seen>)
    requires IsExpr(Slice(b, i, j), t)
    ensures Agrees(Slice(b, i, j), afterParen, s)
    decreases Slice(b, i, j), 0
  {
    hide MinusOk;
    var s1 := [Sym(BracketClose)] + s;
    var s2 := [Sym(Colon)] + (Yield(j) + s1);
    Cat6(Yield(b), [Sym(BracketOpen)], Yield(i), [Sym(Colon)], Yield(j), [Sym(BracketClose)], s);
    MinusOfExpr(b, 1, afterParen, [Sym(BracketOpen)] + (Yield(i) + s2));
    MinusStep(false, BracketOpen, Yield(i) + s2);
    MinusOfExpr(i, 1, false, s2);
    MinusStep(false, Colon, Yield(j) + s1);
    MinusOfExpr(j, 1, false, s1);
    MinusStep(false, BracketClose, s);
  }

  lemma {:induction false} MinusOfCall(b: Tree, args: seq<Tree>, t: nat, afterParen: bool, s: seq<Seen>)
    requires IsExpr(Call(b, args), t)
    ensures Agrees(Call(b, args), afterParen, s)
    decreases Call(b, args), 0
  {
    hide MinusOk;
    hide IsTypeRef;
    hide IsList;
    var s1 := [Sym(ParenthClose)] + s;
    Cat4(Yield(b), [Sym(ParenthOpen)], YieldList(args), [Sym(ParenthClose)], s);
    MinusOfExpr(b, 1, afterParen, [Sym(ParenthOpen)] + (YieldList(args) + s1));
    MinusStep(false, ParenthOpen, YieldList(args) + s1);
    MinusOfList(Args, args, true, s);
  }

  lemma {:induction false} MinusOfTypeApp(b: Tree, args: seq<Tree>, t: nat, afterParen: bool, s: seq<Seen>)
    requires IsExpr(TypeApp(b, args), t)
    ensures Agrees(TypeApp(b, args), afterParen, s)
    decreases TypeApp(b, args), 0
  {
    hide MinusOk;
    hide IsTypeRef;
    hide IsList;
    var s1 := [Sym(AngleClose)] + s;
    Cat4(Yield(b), [Sym(AngleOpen)], YieldList(args), [Sym(AngleClose)], s);
    MinusOfExpr(b, 1, afterParen, [Sym(AngleOpen)] + (YieldList(args) + s1));
    MinusStep(false, AngleOpen, YieldList(args) + s1);
    MinusOfList(RealTypeArgs, args, false, s);
  }

  // ----- types, which never start with a minus

  lemma {:induction false} MinusOfTypeName(c: Tree, dot: bool, afterParen: bool, s: seq<Seen>)
    requires IsTypeNameTree(c, dot)
    ensures Agrees(c, afterParen, s)
    ensures MinusOk(afterParen, Yield(c) + s) <==> MinusFits(c, false) && MinusOk(false, s)
    decreases c, 0, 1
  {
    hide MinusOk;
    match c
    case Leaf(tok) => MinusLeaf(afterParen, tok, s);
    case Dotted(x) =>
      Cat2([Sym(DotPrefix)], Yield(x), s);
      assert Yield(x) == [x.tok] && MinusFits(x, false);
      MinusStep(afterParen, DotPrefix, Yield(x) + s);
      MinusLeaf(false, x.tok, s);
    case Stack(b, e) => MinusOfStack(b, e, dot, afterParen, s);
    case Specialized(b, args) => MinusOfSpecialized(b, args, dot, afterParen, s);
  }

  lemma StackYield(b: Tree, e: Tree)
    ensures Yield(Stack(b, e)) == Yield(b) + ([Sym(BracketOpen)] + (Yield(e) + [Sym(BracketClose)]))
  {
  }

  lemma {:induction false} MinusOfStack(b: Tree, e: Tree, dot: bool, afterParen: bool, s: seq<Seen>)
    requires IsTypeNameTree(b, dot) && IsExpr(e, 1)
    ensures MinusOk(afterParen, Yield(Stack(b, e)) + s) <==> MinusFits(b, false) && MinusFits(e, false) && MinusOk(false, s)
    decreases Stack(b, e), 0, 0
  {
    hide MinusOk; hide MinusFits; hide IsExpr; hide IsTypeNameTree; hide IsTypeLeaf; hide BinaryClass;
    assert Yield(Stack(b, e)) == Yield(b) + ([Sym(BracketOpen)] + (Yield(e) + [Sym(BracketClose)])) by { StackYield(b, e); }
    hide Yield; hide Essence;
    var s1 := [Sym(BracketClose)] + s;
    Cat4(Yield(b), [Sym(BracketOpen)], Yield(e), [Sym(BracketClose)], s);
    MinusOfTypeName(b, dot, afterParen, [Sym(BracketOpen)] + (Yield(e) + s1));
    MinusStep(false, BracketOpen, Yield(e) + s1);
    MinusOfExpr(e, 1, false, s1);
    MinusStep(false, BracketClose, s);
  }

  lemma {:induction false} MinusOfSpecialized(b: Tree, args: seq<Tree>, dot: bool, afterParen: bool, s: seq<Seen>)
    requires IsTypeNameTree(b, dot) && IsList(TypeArgs, args)
    ensures MinusOk(afterParen, Yield(Specialized(b, args)) + s)
       <==> MinusFits(b, false) && MinusFitsAll(args, false) && MinusOk(false, s)
    decreases Specialized(b, args), 0, 0
  {
    hide MinusOk;
    hide MinusFits;
    hide IsExpr;
    hide IsTypeNameTree;
    hide IsList;
    var s1 := [Sym(AngleClose)] + s;
    Cat4(Yield(b), [Sym(AngleOpen)], YieldList(args), [Sym(AngleClose)], s);
    MinusOfTypeName(b, dot, afterParen, [Sym(AngleOpen)] + (YieldList(args) + s1));
    MinusStep(false, AngleOpen, YieldList(args) + s1);
    MinusOfList(TypeArgs, args, false, s);
  }

  lemma {:induction false} MinusOfType(c: Tree, afterParen: bool, s: seq<Seen>)
    requires IsType(c)
    ensures Agrees(c, afterParen, s)
    ensures MinusOk(afterParen, Yield(c) + s) <==> MinusFits(c, false) && MinusOk(false, s)
    decreases c, 1
  {
    if c.Leaf? {
      MinusLeaf(afterParen, c.tok, s);
    } else if c.Sized? {
      MinusOfSized(c.tok, c.width, afterParen, s);
    } else if c.Tuple? {
      MinusOfTuple(c.typeArgs, afterParen, s);
    } else {
      MinusOfTypeName(c, true, afterParen, s);
    }
  }

  lemma MinusOfSized(tok: Seen, w: Tree, afterParen: bool, s: seq<Seen>)
    requires IsType(Sized(tok, w))
    ensures MinusFits(w, false) && (MinusOk(afterParen, Yield(Sized(tok, w)) + s) <==> MinusOk(false, s))
  {
    hide CarriesText;
    hide IsNonTypeName;
    hide IsExpr;
    var s1 := [Sym(AngleClose)] + s;
    assert Yield(Sized(tok, w)) + s == [tok] + ([Sym(AngleOpen)] + ([w.tok] + s1));
    MinusLeaf(afterParen, tok, [Sym(AngleOpen)] + ([w.tok] + s1));
    MinusStep(false, AngleOpen, [w.tok] + s1);
    MinusLeaf(false, w.tok, s1);
    MinusStep(false, AngleClose, s);
  }

  lemma {:induction false} MinusOfTuple(args: seq<Tree>, afterParen: bool, s: seq<Seen>)
    requires IsList(TypeArgs, args)
    ensures MinusOk(afterParen, Yield(Tuple(args)) + s) <==> MinusFitsAll(args, false) && MinusOk(false, s)
    decreases Tuple(args), 0
  {
    hide IsBinaryOperator; hide MinusOk; hide YieldList;
    var s1 := [Sym(AngleClose)] + s;
    Cat3([Sym(TupleKw), Sym(AngleOpen)], YieldList(args), [Sym(AngleClose)], s);
    assert [Sym(TupleKw), Sym(AngleOpen)] + (YieldList(args) + s1)
      == [Sym(TupleKw)] + ([Sym(AngleOpen)] + (YieldList(args) + s1));
    MinusStep(afterParen, TupleKw, [Sym(AngleOpen)] + (YieldList(args) + s1));
    MinusStep(false, AngleOpen, YieldList(args) + s1);
    MinusOfList(TypeArgs, args, false, s);
  }

  // ----- lists

  lemma {:induction false} MinusOfList(kind: ListKind, xs: seq<Tree>, afterParen: bool, s: seq<Seen>)
    requires IsList(kind, xs)
    ensures MinusOk(afterParen, YieldList(xs) + ([Sym(Closer(kind))] + s))
       <==> MinusFitsAll(xs, afterParen) && MinusOk(false, s)
    decreases xs, 4
  {
    var s1 := [Sym(Closer(kind))] + s;
    MinusStep(afterParen, Closer(kind), s);
    MinusStep(false, Closer(kind), s);
    if xs == [] {
      assert YieldList(xs) + s1 == s1;
    } else {
      Cat2(Yield(xs[0]), YieldMore(xs[1..]), s1);
      MinusOfItem(kind, xs[0], afterParen, YieldMore(xs[1..]) + s1);
      MinusOfMore(kind, xs[1..], s1);
    }
  }

  lemma {:induction false} MinusOfMore(kind: ListKind, xs: seq<Tree>, s: seq<Seen>)
    requires IsList(kind, xs)
    ensures MinusOk(false, YieldMore(xs) + s) <==> MinusFitsAll(xs, false) && MinusOk(false, s)
    decreases xs, 4
  {
    if xs == [] {
      assert YieldMore(xs) + s == s;
    } else {
      var s1 := YieldMore(xs[1..]) + s;
      Cat3([Sym(Comma)], Yield(xs[0]), YieldMore(xs[1..]), s);
      MinusStep(false, Comma, Yield(xs[0]) + s1);
      MinusOfItem(kind, xs[0], false, s1);
      MinusOfMore(kind, xs[1..], s);
    }
  }

  lemma {:induction false} MinusOfItem(kind: ListKind, x: Tree, afterParen: bool, s: seq<Seen>)
    requires IsItem(kind, x)
    ensures Agrees(x, afterParen, s)
    decreases x, 3
  {
    if IsOneToken(kind, x) {
      MinusLeaf(afterParen, x.tok, s);
    } else if kind.Exprs? || kind.Args? {
      LongItem(kind, x);
      MinusOfExpr(x, 1, afterParen, s);
    } else {
      LongItem(kind, x);
      MinusOfType(x, afterParen, s);
    }
  }
}
