/** Which tokens a tree spells: grouping adds nothing but parentheses, and no tree of the
    grammar spells the end of the input. */
module TreeTokens {
  import opened Tokens
  import opened Grammar
  import opened Printer

  // ----- grouping

  predicate IsParenthesis(tok: Seen) {
    tok == Sym(ParenthOpen) || tok == Sym(ParenthClose)
  }

  /** Up to parentheses the token is in both sequences or in neither. */
  ghost predicate SameUpToGroups(tok: Seen, ts: seq<Seen>, us: seq<Seen>) {
    (tok in us ==> tok in ts) && (tok in ts ==> tok in us || IsParenthesis(tok))
  }

  /** A tree and the tree without its groups spell the same tokens, but for parentheses. */
  lemma {:induction false} StripToken(c: Tree, tok: Seen)
    ensures SameUpToGroups(tok, Yield(c), Yield(Strip(c)))
    decreases c, 1
  {
    match c
    case Leaf(_) =>
    case Sized(_, w) => StripToken(w, tok);
    case Dotted(x) => StripToken(x, tok);
    case Unary(_, e) => StripToken(e, tok);
    case Group(e) => StripToken(e, tok);
    case Member(b, _) => StripToken(b, tok);
    case Stack(b, e) => StripToken(b, tok); StripToken(e, tok);
    case Cast(b, e) => StripToken(b, tok); StripToken(e, tok);
    case Index(b, e) => StripToken(b, tok); StripToken(e, tok);
    case KeyValue(b, e) => StripToken(b, tok); StripToken(e, tok);
    case Binary(_, b, e) => StripToken(b, tok); StripToken(e, tok);
    case Slice(b, e, f) => StripToken(b, tok); StripToken(e, tok); StripToken(f, tok);
    case Specialized(b, xs) => StripToken(b, tok); StripTokens(xs, tok);
    case Call(b, xs) => StripToken(b, tok); StripTokens(xs, tok);
    case TypeApp(b, xs) => StripToken(b, tok); StripTokens(xs, tok);
    case Tuple(xs) => StripTokens(xs, tok);
    case Braces(xs) => StripTokens(xs, tok);
  }

  lemma {:induction false} StripTokens(xs: seq<Tree>, tok: Seen)
    ensures SameUpToGroups(tok, YieldList(xs), YieldList(StripAll(xs)))
    ensures SameUpToGroups(tok, YieldMore(xs), YieldMore(StripAll(xs)))
    decreases xs
  {
    if xs != [] {
      StripToken(xs[0], tok);
      StripTokens(xs[1..], tok);
      assert StripAll(xs)[0] == Strip(xs[0]) && StripAll(xs)[1..] == StripAll(xs[1..]);
    }
  }

  // ----- the end of the input

  predicate EndFree(ts: seq<Seen>) {
    Sym(EndOfInput) !in ts
  }

  lemma FreeCat(a: seq<Seen>, b: seq<Seen>)
    requires EndFree(a) && EndFree(b)
    ensures EndFree(a + b)
  {
  }

  lemma LeafEndFree(tok: Seen)
    requires IsExprLeaf(tok.klass) || tok.klass == TypeIdentifier || IsName(tok.klass)
    ensures tok != Sym(EndOfInput)
  {
  }

  lemma PrefixedEndFree(c: Tree, dot: bool)
    requires IsPrefixedType(c, dot)
    ensures EndFree(Yield(c))
  {
    if c.Dotted? { assert Yield(c.name) == [c.name.tok]; }
  }

  /** No tree of the grammar spells the end of the input. */
  lemma {:induction false} ExprEndFree(c: Tree, t: nat)
    requires IsExpr(c, t)
    ensures EndFree(Yield(c))
    decreases c, 1
  {
    hide IsType; hide IsTypeNameTree; hide IsList; hide YieldList; hide IsPostfixForm; hide TakesBracket; hide IsBareType;
    hide LeftFits; hide RightFits; hide IsTypeRef; hide IsExprLeaf; hide IsName; hide Lead;
    match c
    case Leaf(tok) => LeafEndFree(tok);
    case Dotted(x) => if !x.Leaf? || x.tok.klass != Identifier { TypeNameEndFree(x, false); }
    case Specialized(_, _) => TypeNameEndFree(c, false);
    case Stack(_, _) => TypeNameEndFree(c, false);
    case Braces(xs) => ListEndFree(Exprs, xs);
    case Group(e) => ExprEndFree(e, 1);
    case Cast(ty, e) => TypeEndFree(ty); ExprEndFree(e, 1);
    case Unary(_, e) => ExprEndFree(e, 1);
    case Member(b, n) => LeafEndFree(n); ExprEndFree(b, 1);
    case Index(b, i) => ExprEndFree(b, 1); ExprEndFree(i, 1);
    case Slice(b, i, j) => ExprEndFree(b, 1); ExprEndFree(i, 1); ExprEndFree(j, 1);
    case Call(b, xs) => ExprEndFree(b, 1); ListEndFree(Args, xs);
    case TypeApp(b, xs) => ExprEndFree(b, 1); ListEndFree(RealTypeArgs, xs);
    case KeyValue(k, v) => ExprEndFree(k, 1); ExprEndFree(v, 1);
    case Binary(op, l, r) => ExprEndFree(l, Priority(op)); ExprEndFree(r, Priority(op) + 1);
  }

  lemma {:induction false} TypeNameEndFree(c: Tree, dot: bool)
    requires IsTypeNameTree(c, dot)
    ensures EndFree(Yield(c))
    decreases c, 0
  {
    hide IsExpr; hide IsList; hide YieldList;
    if c.Stack? {
      if IsPrefixedType(c.base, dot) { PrefixedEndFree(c.base, dot); } else { TypeNameEndFree(c.base, dot); }
      ExprEndFree(c.size, 1);
    } else if c.Specialized? {
      PrefixedEndFree(c.base, dot);
      ListEndFree(TypeArgs, c.typeArgs);
    } else {
      PrefixedEndFree(c, dot);
    }
  }

  lemma {:induction false} TypeEndFree(c: Tree)
    requires IsType(c)
    ensures EndFree(Yield(c))
    decreases c, 2
  {
    hide IsTypeNameTree; hide IsList; hide YieldList;
    if c.Tuple? {
      ListEndFree(TypeArgs, c.typeArgs);
    } else if !c.Leaf? && !c.Sized? {
      TypeNameEndFree(c, true);
    }
  }

  lemma {:induction false} ItemEndFree(kind: ListKind, c: Tree)
    requires IsItem(kind, c)
    ensures EndFree(Yield(c))
    decreases c, 3
  {
    hide IsType; hide IsExpr;
    if kind.Exprs? || kind.Args? {
      if IsExpr(c, 1) { ExprEndFree(c, 1); }
    } else if IsType(c) {
      TypeEndFree(c);
    }
  }

  lemma {:induction false} ListEndFree(kind: ListKind, xs: seq<Tree>)
    requires IsList(kind, xs)
    ensures EndFree(YieldList(xs)) && EndFree(YieldMore(xs))
    decreases xs
  {
    hide IsItem; hide Yield;
    if xs != [] {
      ItemEndFree(kind, xs[0]);
      ListEndFree(kind, xs[1..]);
      FreeCat(Yield(xs[0]), YieldMore(xs[1..]));
      FreeCat([Sym(Comma)], Yield(xs[0]) + YieldMore(xs[1..]));
    }
  }
}
