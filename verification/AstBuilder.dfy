/** The expression and type builders of build_ast.c as they run: a cursor over the token
    array moves on, loops attach nodes. `None` stands for a reported error, after which
    the program exits. Every builder is tied to the function of ExprParser that says what
    it computes from the tokens in front of it; the tree it returns has no groups. */
module AstBuilder {
  import opened Tokens
  import opened Grammar
  import opened ExprParser
  import opened Printer
  import opened TokenCursor
  import opened Wrappers

  /** `r` and the tokens `rest` are what `p` says. */
  ghost predicate Done(p: Parse, r: Option<Tree>, rest: seq<Seen>) {
    (r.Some? <==> p.Ok?) && (p.Ok? ==> rest == p.rest && r.value == Strip(p.tree))
  }

  ghost predicate DoneList(p: ParseList, r: Option<seq<Tree>>, rest: seq<Seen>) {
    (r.Some? <==> p.OkList?) && (p.OkList? ==> rest == p.rest && r.value == StripAll(p.trees))
  }

  /** A builder that started where `p` was computed has done what `p` says. */
  ghost predicate Built(p: Parse, r: Option<Tree>, cur: Cursor)
    reads cur
  {
    Done(p, r, cur.rest) && (p.Ok? ==> cur.Valid())
  }

  ghost predicate BuiltList(p: ParseList, r: Option<seq<Tree>>, cur: Cursor)
    reads cur
  {
    DoneList(p, r, cur.rest) && (p.OkList? ==> cur.Valid())
  }

  /** `if (token->klass == k) next_token(); else error(...)` */
  method Expected(cur: Cursor, k: TokenClass) returns (ok: bool)
    requires cur.Valid() && k != EndOfInput
    modifies cur
    ensures ok <==> Kind(old(cur.rest)) == k
    ensures ok ==> cur.Valid() && cur.rest == old(cur.rest)[1..]
  {
    ok := cur.Current().klass == k;
    if ok { cur.NextToken(); }
  }

  /** An expression and the token that closes it. */
  method BuildExprAnd(cur: Cursor, close: TokenClass) returns (r: Option<Tree>)
    requires cur.Valid() && close != EndOfInput
    modifies cur
    ensures Built(Expect(ParseExpr(old(cur.rest), 1), close), r, cur)
    decreases |cur.rest|, 4
  {
    r := BuildExpression(cur, 1);
    if r.Some? {
      var ok := Expected(cur, close);
      r := if ok then r else None;
    }
  }

  /** A list and the token that closes it. */
  method BuildListAnd(cur: Cursor, kind: ListKind, close: TokenClass) returns (r: Option<seq<Tree>>)
    requires cur.Valid() && close != EndOfInput
    modifies cur
    ensures BuiltList(ExpectList(ParseItems(kind, old(cur.rest)), close), r, cur)
    decreases |cur.rest|, 7
  {
    r := BuildList(cur, kind);
    if r.Some? {
      var ok := Expected(cur, close);
      r := if ok then r else None;
    }
  }

  method BuildExpression(cur: Cursor, t: nat) returns (r: Option<Tree>)
    requires cur.Valid()
    modifies cur
    ensures Built(ParseExpr(old(cur.rest), t), r, cur)
    decreases |cur.rest|, 3
  {
    ghost var ts := cur.rest;
    if !IsExpression(cur.Current().klass) { return None; }
    r := BuildPrimary(cur);
    if r.None? { return; }
    ghost var c := ParsePrimary(ts).tree;
    while IsExprOperator(cur.Current().klass)
      invariant cur.Valid() && |cur.rest| < |ts|
      invariant r == Some(Strip(c)) && ParseLoop(c, cur.rest, t) == ParseExpr(ts, t)
      decreases |cur.rest|
    {
      ghost var here := cur.rest;
      var infix := AtInfix(cur);
      if infix && InfixPriority(cur.Current().klass) < t { break; }
      ghost var p := if infix then ParseOperand(c, here) else ParsePostfix(c, here);
      if infix {
        r := BuildOperand(cur, r.value, c);
      } else {
        r := BuildPostfix(cur, r.value, c);
      }
      assert ParseLoop(c, here, t) == if p.Ok? then ParseLoop(p.tree, p.rest, t) else Fail;
      if r.None? { return; }
      c := p.tree;
    }
  }

  /** The order of the tests in the loop: `<` is an operator only if no type follows. */
  method AtInfix(cur: Cursor) returns (infix: bool)
    requires cur.Valid() && IsExprOperator(cur.Current().klass)
    modifies cur
    ensures cur.Valid() && cur.rest == old(cur.rest) && infix == InfixAt(cur.rest)
  {
    hide Cursor.Valid; hide IsRealTypeArg;
    infix := IsBinaryOperator(cur.Current().klass) && cur.Current().klass != Equal;
    if cur.Current().klass == AngleOpen {
      var peeked := cur.PeekToken();
      infix := !IsRealTypeArg(peeked.klass);
    }
  }

  /** The binary operator branch of the loop. */
  method BuildOperand(cur: Cursor, expr: Tree, ghost left: Tree) returns (r: Option<Tree>)
    requires cur.Valid() && expr == Strip(left) && InfixAt(cur.rest)
    modifies cur
    ensures Built(ParseOperand(left, old(cur.rest)), r, cur)
    decreases |cur.rest|, 1
  {
    hide CarriesText; hide Essence;
    ghost var ts := cur.rest;
    var op := cur.Current().klass;
    cur.NextToken();
    var e := BuildExpression(cur, InfixPriority(op) + 1);
    OperandDone(left, expr, ts, e, cur.rest);
    r := if e.Some? then Some(Binary(BinaryOf(op), expr, e.value)) else None;
  }

  method BuildPostfix(cur: Cursor, expr: Tree, ghost left: Tree) returns (r: Option<Tree>)
    requires cur.Valid() && expr == Strip(left) && IsExprOperator(cur.Current().klass) && !InfixAt(cur.rest)
    modifies cur
    ensures Built(ParsePostfix(left, old(cur.rest)), r, cur)
    decreases |cur.rest|, 1
  {
    var k := cur.Current().klass;
    if k == DotPrefix {
      r := BuildMember(cur, expr, left);
    } else if k == BracketOpen {
      r := BuildBracket(cur, expr, left);
    } else if k == Equal {
      r := BuildValue(cur, expr, left);
    } else if k == ParenthOpen {
      r := BuildCall(cur, expr, left);
    } else {
      r := BuildTypeApp(cur, expr, left);
    }
  }

  method BuildMember(cur: Cursor, expr: Tree, ghost left: Tree) returns (r: Option<Tree>)
    requires cur.Valid() && expr == Strip(left) && cur.Current().klass == DotPrefix
    modifies cur
    ensures Built(ParseMember(left, old(cur.rest)), r, cur)
  {
    hide Essence; hide ParseMember; hide Strip; hide Possible; hide Moved;
    MemberDone(left, expr, cur.rest);
    cur.NextToken();
    if IsName(cur.Current().klass) {
      r := Some(Member(expr, cur.Current()));
      cur.NextToken();
    } else {
      r := None;
    }
  }

  method BuildValue(cur: Cursor, expr: Tree, ghost left: Tree) returns (r: Option<Tree>)
    requires cur.Valid() && expr == Strip(left) && cur.Current().klass == Equal
    modifies cur
    ensures Built(ParseValue(left, old(cur.rest)), r, cur)
    decreases |cur.rest|, 0
  {
    ghost var ts := cur.rest;
    cur.NextToken();
    var v := BuildExpression(cur, 1);
    ValueDone(left, expr, ts, v, cur.rest);
    r := if v.Some? then Some(KeyValue(expr, v.value)) else None;
  }

  method BuildCall(cur: Cursor, expr: Tree, ghost left: Tree) returns (r: Option<Tree>)
    requires cur.Valid() && expr == Strip(left) && cur.Current().klass == ParenthOpen
    modifies cur
    ensures Built(ParseCall(left, old(cur.rest)), r, cur)
    decreases |cur.rest|, 0
  {
    ghost var ts := cur.rest;
    cur.NextToken();
    var args := BuildListAnd(cur, Args, ParenthClose);
    CallDone(left, expr, ts, args, cur.rest);
    r := if args.Some? then Some(Call(expr, args.value)) else None;
  }

  method BuildTypeApp(cur: Cursor, expr: Tree, ghost left: Tree) returns (r: Option<Tree>)
    requires cur.Valid() && expr == Strip(left) && cur.Current().klass == AngleOpen
    modifies cur
    ensures Built(ParseTypeApp(left, old(cur.rest)), r, cur)
    decreases |cur.rest|, 0
  {
    ghost var ts := cur.rest;
    cur.NextToken();
    var args := BuildListAnd(cur, RealTypeArgs, AngleClose);
    TypeAppDone(left, expr, ts, args, cur.rest);
    r := if args.Some? then Some(TypeApp(expr, args.value)) else None;
  }

  /** The `[` branch of the loop with build_arrayIndex. */
  method BuildBracket(cur: Cursor, expr: Tree, ghost left: Tree) returns (r: Option<Tree>)
    requires cur.Valid() && expr == Strip(left) && cur.Current().klass == BracketOpen
    modifies cur
    ensures Built(ParseBracket(left, old(cur.rest)), r, cur)
    decreases |cur.rest|, 0
  {
    ghost var ts := cur.rest;
    cur.NextToken();
    var i := BuildExpression(cur, 1);
    ghost var mid := cur.rest;
    if i.Some? && cur.Current().klass == Colon {
      cur.NextToken();
      var j := BuildExprAnd(cur, BracketClose);
      SliceDone(left, expr, ts, i, mid, j, cur.rest);
      r := if j.Some? then Some(Slice(expr, i.value, j.value)) else None;
    } else {
      IndexDone(left, expr, ts, i, mid);
      r := None;
      if i.Some? {
        var ok := Expected(cur, BracketClose);
        r := if ok then Some(Index(expr, i.value)) else None;
      }
    }
  }

  /** build_expressionPrimary. Its last `assert(0)` is not reachable: the chain of tests
      covers every class that token_is_expression accepts. */
  method BuildPrimary(cur: Cursor) returns (r: Option<Tree>)
    requires cur.Valid() && IsExpression(cur.Current().klass)
    modifies cur
    ensures Built(ParsePrimary(old(cur.rest)), r, cur)
    decreases |cur.rest|, 1
  {
    hide IsExprLeaf; hide ParseType; hide Moved; hide Possible; hide IsTypeRef; hide ParseItems;
    hide ParseLoop; hide ParseSpecialized; hide Lookups; hide Run; hide IsOpen; hide FitLeft;
    hide Cursor.Valid;
    var k := cur.Current().klass;
    if k in {Integer, True, False, StringLiteral} || IsNonTypeName(k) || k == Error {
      r := Some(Leaf(cur.Current()));
      cur.NextToken();
    } else if k == DotPrefix {
      r := BuildDotted(cur);
    } else if k == BraceOpen {
      r := BuildBraces(cur);
    } else if k == ParenthOpen {
      r := BuildParenthesis(cur);
    } else if k in {Exclamation, Tilda, TokenClass.UnaryMinus} {
      r := BuildUnary(cur);
    } else if IsTypeName(k) {
      r := BuildTypeName(cur);
    } else {
      assert false;
    }
  }

  method BuildDotted(cur: Cursor) returns (r: Option<Tree>)
    requires cur.Valid() && cur.Current().klass == DotPrefix
    modifies cur
    ensures Built(ParseDotted(old(cur.rest)), r, cur)
    decreases |cur.rest|, 0
  {
    hide ParseDotted; hide ParseTypeName;
    ghost var ts := cur.rest;
    DottedDone(ts);
    cur.NextToken();
    if cur.Current().klass == Identifier {
      r := Some(Dotted(Leaf(cur.Current())));
      cur.NextToken();
    } else if cur.Current().klass == TypeIdentifier {
      r := BuildTypeName(cur);
      DottedTypeDone(ts, r, cur.rest);
      if r.Some? { r := Some(Dotted(r.value)); }
    } else {
      r := None;
    }
  }

  method BuildBraces(cur: Cursor) returns (r: Option<Tree>)
    requires cur.Valid() && cur.Current().klass == BraceOpen
    modifies cur
    ensures Built(ParseBraces(old(cur.rest)), r, cur)
    decreases |cur.rest|, 0
  {
    ghost var ts := cur.rest;
    cur.NextToken();
    var es := BuildListAnd(cur, Exprs, BraceClose);
    BracesDone(ts, es, cur.rest);
    r := if es.Some? then Some(Braces(es.value)) else None;
  }

  method BuildUnary(cur: Cursor) returns (r: Option<Tree>)
    requires cur.Valid() && cur.Current().klass in {Exclamation, Tilda, TokenClass.UnaryMinus}
    modifies cur
    ensures Built(ParseUnary(old(cur.rest)), r, cur)
    decreases |cur.rest|, 0
  {
    ghost var ts := cur.rest;
    var op := UnaryOf(cur.Current().klass);
    cur.NextToken();
    var e := BuildExpression(cur, 1);
    UnaryDone(ts, e, cur.rest);
    r := if e.Some? then Some(Unary(op, e.value)) else None;
  }

  /** `(`: a cast if a type may start here, else a grouped expression, which gets no node. */
  method BuildParenthesis(cur: Cursor) returns (r: Option<Tree>)
    requires cur.Valid() && cur.Current().klass == ParenthOpen
    modifies cur
    ensures Built(ParseParenthesis(old(cur.rest)), r, cur)
    decreases |cur.rest|, 0
  {
    hide CarriesText; hide IsExprLeaf; hide EndsOnce;
    ghost var ts := cur.rest;
    cur.NextToken();
    if IsTypeRef(cur.Current().klass) {
      var ty := BuildTypeAnd(cur, ParenthClose);
      ghost var mid := cur.rest;
      var e := None;
      if ty.Some? { e := BuildExpression(cur, 1); }
      CastDone(ts, ty, mid, e, cur.rest);
      r := if ty.Some? && e.Some? then Some(Cast(ty.value, e.value)) else None;
    } else {
      r := BuildExprAnd(cur, ParenthClose);
      GroupDone(ts, r, cur.rest);
    }
  }

  /** A type and the token that closes it. */
  method BuildTypeAnd(cur: Cursor, close: TokenClass) returns (r: Option<Tree>)
    requires cur.Valid() && close != EndOfInput
    modifies cur
    ensures Built(Expect(ParseType(old(cur.rest)), close), r, cur)
    decreases |cur.rest|, 2
  {
    r := BuildTypeRef(cur);
    if r.Some? {
      var ok := Expected(cur, close);
      r := if ok then r else None;
    }
  }

  method BuildTypeName(cur: Cursor) returns (r: Option<Tree>)
    requires cur.Valid() && IsTypeName(cur.Current().klass)
    modifies cur
    ensures Built(ParseTypeName(old(cur.rest)), r, cur)
    decreases |cur.rest|, 0, 1
  {
    ghost var ts := cur.rest;
    r := BuildSpecialized(cur);
    if r.Some? && cur.Current().klass == BracketOpen {
      ghost var mid := cur.rest;
      cur.NextToken();
      var e := BuildExprAnd(cur, BracketClose);
      StackDone(ts, r, mid, e, cur.rest);
      r := if e.Some? then Some(Stack(r.value, e.value)) else None;
    }
  }

  method BuildSpecialized(cur: Cursor) returns (r: Option<Tree>)
    requires cur.Valid() && IsTypeName(cur.Current().klass)
    modifies cur
    ensures Built(ParseSpecialized(old(cur.rest)), r, cur)
    decreases |cur.rest|, 0, 0
  {
    ghost var ts := cur.rest;
    r := BuildPrefixedType(cur);
    if r.Some? && cur.Current().klass == AngleOpen {
      r := BuildTypeArgs(cur, r.value, ParsePrefixedType(ts).tree);
    }
  }

  method BuildTypeArgs(cur: Cursor, name: Tree, ghost b: Tree) returns (r: Option<Tree>)
    requires cur.Valid() && cur.Current().klass == AngleOpen && name == Strip(b)
    modifies cur
    ensures var p := ExpectList(ParseItems(TypeArgs, old(cur.rest)[1..]), AngleClose);
            Built(if p.OkList? then Ok(Specialized(b, p.trees), p.rest) else Fail, r, cur)
    decreases |cur.rest|, 0
  {
    hide CarriesText; hide IsExprOperator; hide Kind; hide ParseItems; hide View; hide ProperNames;
    hide Cursor.Valid; hide Classify;
    cur.NextToken();
    var args := BuildListAnd(cur, TypeArgs, AngleClose);
    r := if args.Some? then Some(Specialized(name, args.value)) else None;
  }

  method BuildPrefixedType(cur: Cursor) returns (r: Option<Tree>)
    requires cur.Valid() && IsTypeName(cur.Current().klass)
    modifies cur
    ensures Built(ParsePrefixedType(old(cur.rest)), r, cur)
  {
    var dotted := cur.Current().klass == DotPrefix;
    if dotted { cur.NextToken(); }
    if cur.Current().klass != TypeIdentifier { return None; }
    var name := Leaf(cur.Current());
    cur.NextToken();
    r := Some(if dotted then Dotted(name) else name);
  }

  /** build_typeRef */
  method BuildTypeRef(cur: Cursor) returns (r: Option<Tree>)
    requires cur.Valid()
    modifies cur
    ensures Built(ParseType(old(cur.rest)), r, cur)
    decreases |cur.rest|, 1
  {
    var k := cur.Current().klass;
    if IsBaseType(k) {
      r := BuildBaseType(cur);
    } else if IsTypeName(k) {
      r := BuildTypeName(cur);
    } else if k == TupleKw {
      r := BuildTuple(cur);
    } else {
      r := None;
    }
  }

  method BuildTuple(cur: Cursor) returns (r: Option<Tree>)
    requires cur.Valid() && cur.Current().klass == TupleKw
    modifies cur
    ensures Built(ParseTuple(old(cur.rest)), r, cur)
    decreases |cur.rest|, 0
  {
    ghost var ts := cur.rest;
    cur.NextToken();
    var open := Expected(cur, AngleOpen);
    if !open { return None; }
    var args := BuildListAnd(cur, TypeArgs, AngleClose);
    TupleDone(ts, args, cur.rest);
    r := if args.Some? then Some(Tuple(args.value)) else None;
  }

  method BuildBaseType(cur: Cursor) returns (r: Option<Tree>)
    requires cur.Valid() && IsBaseType(cur.Current().klass)
    modifies cur
    ensures Built(ParseBaseType(old(cur.rest)), r, cur)
    decreases |cur.rest|, 0
  {
    ghost var ts := cur.rest;
    var tok := cur.Current();
    cur.NextToken();
    if tok.klass in {Int, Bit, Varbit} && cur.Current().klass == AngleOpen {
      cur.NextToken();
      var w := BuildSizeAnd(cur);
      SizedDone(ts, w, cur.rest);
      r := if w.Some? then Some(Sized(tok, w.value)) else None;
    } else {
      UnsizedDone(ts);
      r := Some(Leaf(tok));
    }
  }

  method BuildSizeAnd(cur: Cursor) returns (r: Option<Tree>)
    requires cur.Valid()
    modifies cur
    ensures Built(Expect(ParseTypeSize(old(cur.rest)), AngleClose), r, cur)
    decreases |cur.rest|, 5
  {
    r := BuildTypeSize(cur);
    if r.Some? {
      var ok := Expected(cur, AngleClose);
      r := if ok then r else None;
    }
  }

  method BuildTypeSize(cur: Cursor) returns (r: Option<Tree>)
    requires cur.Valid()
    modifies cur
    ensures Built(ParseTypeSize(old(cur.rest)), r, cur)
    decreases |cur.rest|, 4
  {
    if cur.Current().klass == Integer {
      r := Some(Leaf(cur.Current()));
      cur.NextToken();
    } else if cur.Current().klass == ParenthOpen {
      r := BuildExpression(cur, 1);
    } else {
      r := None;
    }
  }

  /** The four list builders: an empty list unless an item may start here. */
  method BuildList(cur: Cursor, kind: ListKind) returns (r: Option<seq<Tree>>)
    requires cur.Valid()
    modifies cur
    ensures BuiltList(ParseItems(kind, old(cur.rest)), r, cur)
    decreases |cur.rest|, 6
  {
    ghost var ts := cur.rest;
    if !StartsItem(kind, cur.Current().klass) { return Some([]); }
    var first := BuildItem(cur, kind);
    if first.None? { return None; }
    var list := [first.value];
    ghost var xs := [ParseItem(kind, ts).tree];
    while cur.Current().klass == Comma
      invariant cur.Valid() && |cur.rest| < |ts|
      invariant list == StripAll(xs) && ParseMore(kind, xs, cur.rest) == ParseItems(kind, ts)
      decreases |cur.rest|
    {
      ghost var here := cur.rest;
      cur.NextToken();
      var item := BuildItem(cur, kind);
      if item.None? { return None; }
      list := list + [item.value];
      StripAppend(xs, ParseItem(kind, here[1..]).tree);
      xs := xs + [ParseItem(kind, here[1..]).tree];
    }
    return Some(list);
  }

  lemma {:induction false} StripAppend(xs: seq<Tree>, x: Tree)
    ensures StripAll(xs + [x]) == StripAll(xs) + [Strip(x)]
  {
    if xs != [] {
      StripAppend(xs[1..], x);
      assert (xs + [x])[1..] == xs[1..] + [x];
    }
  }

  method BuildItem(cur: Cursor, kind: ListKind) returns (r: Option<Tree>)
    requires cur.Valid()
    modifies cur
    ensures Built(ParseItem(kind, old(cur.rest)), r, cur)
    decreases |cur.rest|, 4
  {
    var k := cur.Current().klass;
    if (k == Dontcare && !kind.Exprs?) || (kind.TypeArgs? && IsNonTypeName(k)) {
      r := Some(Leaf(cur.Current()));
      cur.NextToken();
    } else if kind.Exprs? || kind.Args? {
      r := BuildExpression(cur, 1);
    } else {
      r := BuildTypeRef(cur);
    }
  }

  // ----- what one builder makes of what the others made

  lemma OperandDone(left: Tree, expr: Tree, ts: seq<Seen>, e: Option<Tree>, rest: seq<Seen>)
    requires expr == Strip(left) && InfixAt(ts)
    requires Done(ParseExpr(ts[1..], InfixPriority(Kind(ts)) + 1), e, rest)
    ensures Done(ParseOperand(left, ts),
                 if e.Some? then Some(Binary(BinaryOf(Kind(ts)), expr, e.value)) else None, rest)
  {
  }

  lemma MemberDone(left: Tree, expr: Tree, ts: seq<Seen>)
    requires expr == Strip(left) && ts != []
    ensures IsName(Kind(ts[1..])) ==> Done(ParseMember(left, ts), Some(Member(expr, ts[1])), ts[1..][1..])
    ensures !IsName(Kind(ts[1..])) ==> ParseMember(left, ts).Fail?
  {
    hide Essence; hide CarriesText;
  }

  lemma ValueDone(left: Tree, expr: Tree, ts: seq<Seen>, v: Option<Tree>, rest: seq<Seen>)
    requires expr == Strip(left) && ts != [] && Done(ParseExpr(ts[1..], 1), v, rest)
    ensures Done(ParseValue(left, ts), if v.Some? then Some(KeyValue(expr, v.value)) else None, rest)
  {
  }

  lemma CallDone(left: Tree, expr: Tree, ts: seq<Seen>, args: Option<seq<Tree>>, rest: seq<Seen>)
    requires expr == Strip(left) && ts != []
    requires DoneList(ExpectList(ParseItems(Args, ts[1..]), ParenthClose), args, rest)
    ensures Done(ParseCall(left, ts), if args.Some? then Some(Call(expr, args.value)) else None, rest)
  {
    hide ParseItems; hide ExpectList; hide StripAll; hide Essence;
  }

  lemma TypeAppDone(left: Tree, expr: Tree, ts: seq<Seen>, args: Option<seq<Tree>>, rest: seq<Seen>)
    requires expr == Strip(left) && ts != []
    requires DoneList(ExpectList(ParseItems(RealTypeArgs, ts[1..]), AngleClose), args, rest)
    ensures Done(ParseTypeApp(left, ts), if args.Some? then Some(TypeApp(expr, args.value)) else None, rest)
  {
    hide ParseItems; hide ExpectList; hide StripAll; hide Essence;
  }

  lemma IndexStrips(b: Tree, i: Tree)
    ensures Strip(Index(b, i)) == Index(Strip(b), Strip(i))
  {
  }

  lemma IndexDone(left: Tree, expr: Tree, ts: seq<Seen>, i: Option<Tree>, rest: seq<Seen>)
    requires expr == Strip(left) && ts != [] && Done(ParseExpr(ts[1..], 1), i, rest)
    requires i.Some? ==> Kind(rest) != Colon
    ensures if i.Some? && Kind(rest) == BracketClose
            then Done(ParseBracket(left, ts), Some(Index(expr, i.value)), rest[1..])
            else ParseBracket(left, ts).Fail?
  {
    hide ParseExpr; hide ParseBracket; hide Strip;
    IndexStep(left, ts);
    if i.Some? && Kind(rest) == BracketClose { IndexStrips(left, ParseExpr(ts[1..], 1).tree); }
  }

  lemma SliceDone(left: Tree, expr: Tree, ts: seq<Seen>, i: Option<Tree>, mid: seq<Seen>,
                  j: Option<Tree>, rest: seq<Seen>)
    requires expr == Strip(left) && ts != [] && Done(ParseExpr(ts[1..], 1), i, mid)
    requires i.Some? && Kind(mid) == Colon && Done(Expect(ParseExpr(mid[1..], 1), BracketClose), j, rest)
    ensures Done(ParseBracket(left, ts), if j.Some? then Some(Slice(expr, i.value, j.value)) else None, rest)
  {
    hide ParseExpr;
    hide Essence;
  }

  lemma DottedDone(ts: seq<Seen>)
    requires ts != []
    ensures Kind(ts[1..]) == Identifier ==> Done(ParseDotted(ts), Some(Dotted(Leaf(ts[1]))), ts[1..][1..])
    ensures Kind(ts[1..]) != Identifier && Kind(ts[1..]) != TypeIdentifier ==> ParseDotted(ts).Fail?
  {
    hide ParseTypeName;
    if |ts| > 1 { assert ts[1..][1..] == ts[2..] && Strip(Leaf(ts[1])) == Leaf(ts[1]); }
  }

  lemma DottedTypeDone(ts: seq<Seen>, n: Option<Tree>, rest: seq<Seen>)
    requires ts != [] && Kind(ts[1..]) == TypeIdentifier && Done(ParseTypeName(ts[1..]), n, rest)
    ensures Done(ParseDotted(ts), if n.Some? then Some(Dotted(n.value)) else None, rest)
  {
    hide ParseTypeName;
  }

  lemma BracesDone(ts: seq<Seen>, es: Option<seq<Tree>>, rest: seq<Seen>)
    requires ts != [] && DoneList(ExpectList(ParseItems(Exprs, ts[1..]), BraceClose), es, rest)
    ensures Done(ParseBraces(ts), if es.Some? then Some(Braces(es.value)) else None, rest)
  {
    hide ParseItems; hide ExpectList; hide StripAll; hide Essence;
  }

  lemma UnaryDone(ts: seq<Seen>, e: Option<Tree>, rest: seq<Seen>)
    requires Kind(ts) in {Exclamation, Tilda, TokenClass.UnaryMinus} && Done(ParseExpr(ts[1..], 1), e, rest)
    ensures Done(ParseUnary(ts), if e.Some? then Some(Unary(UnaryOf(Kind(ts)), e.value)) else None, rest)
  {
    hide ParseExpr; hide UnaryOf; hide Essence;
  }

  lemma CastDone(ts: seq<Seen>, ty: Option<Tree>, mid: seq<Seen>, e: Option<Tree>, rest: seq<Seen>)
    requires ts != [] && IsTypeRef(Kind(ts[1..])) && Done(Expect(ParseType(ts[1..]), ParenthClose), ty, mid)
    requires ty.Some? ==> Done(ParseExpr(mid, 1), e, rest)
    ensures Done(ParseParenthesis(ts), if ty.Some? && e.Some? then Some(Cast(ty.value, e.value)) else None, rest)
  {
    hide ParseExpr; hide StripAll; hide ParseParenthesis; hide Expect; hide ParseType; hide IsTypeRef; hide Essence;
    CastStep(ts);
  }

  lemma GroupDone(ts: seq<Seen>, e: Option<Tree>, rest: seq<Seen>)
    requires ts != [] && !IsTypeRef(Kind(ts[1..])) && Done(Expect(ParseExpr(ts[1..], 1), ParenthClose), e, rest)
    ensures Done(ParseParenthesis(ts), e, rest)
  {
  }

  lemma StackDone(ts: seq<Seen>, b: Option<Tree>, mid: seq<Seen>, e: Option<Tree>, rest: seq<Seen>)
    requires IsTypeName(Kind(ts)) && b.Some? && Done(ParseSpecialized(ts), b, mid) && Kind(mid) == BracketOpen
    requires Done(Expect(ParseExpr(mid[1..], 1), BracketClose), e, rest)
    ensures Done(ParseTypeName(ts), if e.Some? then Some(Stack(b.value, e.value)) else None, rest)
  {
    hide IsBinaryOperator; hide InfixPriority; hide ParseExpr; hide Kind; hide ExpectList; hide ParseMore;
  }

  lemma TupleStrips(xs: seq<Tree>)
    ensures Strip(Tuple(xs)) == Tuple(StripAll(xs))
  {
    hide StripAll;
  }

  lemma TupleDone(ts: seq<Seen>, args: Option<seq<Tree>>, rest: seq<Seen>)
    requires |ts| > 1 && Kind(ts[1..]) == AngleOpen
    requires DoneList(ExpectList(ParseItems(TypeArgs, ts[1..][1..]), AngleClose), args, rest)
    ensures Done(ParseTuple(ts), if args.Some? then Some(Tuple(args.value)) else None, rest)
  {
    hide ParseTuple; hide ParseItems; hide ExpectList; hide Strip; hide StripAll;
    TupleIs(ts);
    var p := ExpectList(ParseItems(TypeArgs, ts[2..]), AngleClose);
    if p.OkList? { TupleStrips(p.trees); }
  }

  lemma SizedDone(ts: seq<Seen>, w: Option<Tree>, rest: seq<Seen>)
    requires |ts| > 1 && Kind(ts) in {Int, Bit, Varbit} && Kind(ts[1..]) == AngleOpen
    requires Done(Expect(ParseTypeSize(ts[1..][1..]), AngleClose), w, rest)
    ensures Done(ParseBaseType(ts), if w.Some? then Some(Sized(ts[0], w.value)) else None, rest)
  {
    hide ParseTypeSize; hide Essence; hide Expect; hide ParseBaseType; hide CarriesText;
    SizedStep(ts);
  }

  lemma UnsizedDone(ts: seq<Seen>)
    requires ts != [] && !(Kind(ts) in {Int, Bit, Varbit} && Kind(ts[1..]) == AngleOpen)
    ensures Done(ParseBaseType(ts), Some(Leaf(ts[0])), ts[1..])
  {
  }
}
