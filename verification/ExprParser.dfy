/** What the expression, argument and type builders of build_ast.c compute from the
    current token on: a tree with its groups and the remaining tokens, or a failure
    (the code reports an error and exits). */
module ExprParser {
  import opened Tokens
  import opened Grammar

  datatype Parse = Fail | Ok(tree: Tree, rest: seq<Seen>)
  datatype ParseList = FailList | OkList(trees: seq<Tree>, rest: seq<Seen>)

  /** Expects one token of class `k` after a successful parse. */
  function Expect(p: Parse, k: TokenClass): (q: Parse) {
    if p.Ok? && Kind(p.rest) == k && p.rest != [] then Ok(p.tree, p.rest[1..]) else Fail
  }

  function ExpectList(p: ParseList, k: TokenClass): (q: ParseList) {
    if p.OkList? && Kind(p.rest) == k && p.rest != [] then OkList(p.trees, p.rest[1..]) else FailList
  }

  function BinaryOf(k: TokenClass): BinOp
    requires IsBinaryOperator(k) && k != Equal
  {
    if k == TwoAmpersand then And
    else if k == TwoPipe then Or
    else if k == TwoEqual then Equals
    else if k == ExclamationEqual then NotEquals
    else if k == AngleOpen then Less
    else if k == AngleClose then Greater
    else if k == AngleOpenEqual then LessEqual
    else if k == AngleCloseEqual then GreaterEqual
    else if k == Plus then Add
    else if k == Minus then Sub
    else if k == Star then Mul
    else if k == Slash then Div
    else if k == Ampersand then BitAnd
    else if k == Pipe then BitOr
    else if k == Circumflex then BitXor
    else if k == TwoAngleOpen then ShiftLeft
    else if k == TwoAngleClose then ShiftRight
    else Mask
  }

  function UnaryOf(k: TokenClass): UnOp
    requires k in {Exclamation, Tilda, TokenClass.UnaryMinus}
  {
    if k == Exclamation then LogNot else if k == Tilda then BitNot else Negate
  }

  /** build_expression */
  function ParseExpr(ts: seq<Seen>, t: nat): (p: Parse)
    ensures p.Ok? ==> |p.rest| < |ts|
    decreases |ts|, 3
  {
    if !IsExpression(Kind(ts)) then Fail
    else
      var p := ParsePrimary(ts);
      if p.Ok? then ParseLoop(p.tree, p.rest, t) else Fail
  }

  /** The operator loop of build_expression, with `left` built so far. */
  function ParseLoop(left: Tree, ts: seq<Seen>, t: nat): (p: Parse)
    ensures p.Ok? ==> |p.rest| <= |ts|
    decreases |ts|, 2
  {
    if !IsExprOperator(Kind(ts)) then Ok(left, ts)
    else if !InfixAt(ts) then
      var p := ParsePostfix(left, ts);
      if p.Ok? then ParseLoop(p.tree, p.rest, t) else Fail
    else if InfixPriority(Kind(ts)) < t then Ok(left, ts)
    else
      var p := ParseOperand(left, ts);
      if p.Ok? then ParseLoop(p.tree, p.rest, t) else Fail
  }

  /** One turn of the loop at a binary operator. */
  function ParseOperand(left: Tree, ts: seq<Seen>): (p: Parse)
    requires InfixAt(ts)
    ensures p.Ok? ==> |p.rest| < |ts|
    decreases |ts|, 1
  {
    var p := ParseExpr(ts[1..], InfixPriority(Kind(ts)) + 1);
    if p.Ok? then Ok(Binary(BinaryOf(Kind(ts)), left, p.tree), p.rest) else Fail
  }

  /** One turn of the loop at `.`, `[`, `(`, `=` or the start of type arguments. */
  function ParsePostfix(left: Tree, ts: seq<Seen>): (p: Parse)
    requires IsExprOperator(Kind(ts)) && !InfixAt(ts)
    ensures p.Ok? ==> |p.rest| < |ts|
    decreases |ts|, 1
  {
    if Kind(ts) == DotPrefix then ParseMember(left, ts)
    else if Kind(ts) == BracketOpen then ParseBracket(left, ts)
    else if Kind(ts) == ParenthOpen then ParseCall(left, ts)
    else if Kind(ts) == Equal then ParseValue(left, ts)
    else ParseTypeApp(left, ts)
  }

  function ParseMember(left: Tree, ts: seq<Seen>): (p: Parse)
    requires ts != []
    ensures p.Ok? ==> |p.rest| < |ts|
  {
    if IsName(Kind(ts[1..])) then Ok(Member(left, ts[1]), ts[2..]) else Fail
  }

  /** With build_arrayIndex. */
  function ParseBracket(left: Tree, ts: seq<Seen>): (p: Parse)
    requires ts != []
    ensures p.Ok? ==> |p.rest| < |ts|
    decreases |ts|, 0
  {
    var i := ParseExpr(ts[1..], 1);
    if i.Ok? && Kind(i.rest) == Colon then
      var j := Expect(ParseExpr(i.rest[1..], 1), BracketClose);
      if j.Ok? then Ok(Slice(left, i.tree, j.tree), j.rest) else Fail
    else
      var e := Expect(i, BracketClose);
      if e.Ok? then Ok(Index(left, e.tree), e.rest) else Fail
  }

  function ParseCall(left: Tree, ts: seq<Seen>): (p: Parse)
    requires ts != []
    ensures p.Ok? ==> |p.rest| < |ts|
    decreases |ts|, 0
  {
    var args := ExpectList(ParseItems(Args, ts[1..]), ParenthClose);
    if args.OkList? then Ok(Call(left, args.trees), args.rest) else Fail
  }

  function ParseValue(left: Tree, ts: seq<Seen>): (p: Parse)
    requires ts != []
    ensures p.Ok? ==> |p.rest| < |ts|
    decreases |ts|, 0
  {
    var v := ParseExpr(ts[1..], 1);
    if v.Ok? then Ok(KeyValue(left, v.tree), v.rest) else Fail
  }

  function ParseTypeApp(left: Tree, ts: seq<Seen>): (p: Parse)
    requires ts != []
    ensures p.Ok? ==> |p.rest| < |ts|
    decreases |ts|, 0
  {
    var args := ExpectList(ParseItems(RealTypeArgs, ts[1..]), AngleClose);
    if args.OkList? then Ok(TypeApp(left, args.trees), args.rest) else Fail
  }

  /** build_expressionPrimary */
  function ParsePrimary(ts: seq<Seen>): (p: Parse)
    requires IsExpression(Kind(ts))
    ensures p.Ok? ==> |p.rest| < |ts|
    decreases |ts|, 1
  {
    if Kind(ts) == DotPrefix then ParseDotted(ts)
    else if Kind(ts) == BraceOpen then ParseBraces(ts)
    else if Kind(ts) == ParenthOpen then ParseParenthesis(ts)
    else if Kind(ts) in {Exclamation, Tilda, TokenClass.UnaryMinus} then ParseUnary(ts)
    else if Kind(ts) == TypeIdentifier then ParseTypeName(ts)
    else Ok(Leaf(ts[0]), ts[1..])
  }

  function ParseDotted(ts: seq<Seen>): (p: Parse)
    requires ts != []
    ensures p.Ok? ==> |p.rest| < |ts|
    decreases |ts|, 0
  {
    if Kind(ts[1..]) == Identifier then Ok(Dotted(Leaf(ts[1])), ts[2..])
    else if Kind(ts[1..]) == TypeIdentifier then
      var n := ParseTypeName(ts[1..]);
      if n.Ok? then Ok(Dotted(n.tree), n.rest) else Fail
    else Fail
  }

  function ParseBraces(ts: seq<Seen>): (p: Parse)
    requires ts != []
    ensures p.Ok? ==> |p.rest| < |ts|
    decreases |ts|, 0
  {
    var es := ExpectList(ParseItems(Exprs, ts[1..]), BraceClose);
    if es.OkList? then Ok(Braces(es.trees), es.rest) else Fail
  }

  /** A cast if a type may start behind `(`, else a grouped expression. */
  function ParseParenthesis(ts: seq<Seen>): (p: Parse)
    requires ts != []
    ensures p.Ok? ==> |p.rest| < |ts|
    decreases |ts|, 0
  {
    if IsTypeRef(Kind(ts[1..])) then
      var ty := Expect(ParseType(ts[1..]), ParenthClose);
      if ty.Fail? then Fail else
      var e := ParseExpr(ty.rest, 1);
      if e.Ok? then Ok(Cast(ty.tree, e.tree), e.rest) else Fail
    else
      var e := Expect(ParseExpr(ts[1..], 1), ParenthClose);
      if e.Ok? then Ok(Group(e.tree), e.rest) else Fail
  }

  function ParseUnary(ts: seq<Seen>): (p: Parse)
    requires Kind(ts) in {Exclamation, Tilda, TokenClass.UnaryMinus}
    ensures p.Ok? ==> |p.rest| < |ts|
    decreases |ts|, 0
  {
    var e := ParseExpr(ts[1..], 1);
    if e.Ok? then Ok(Unary(UnaryOf(Kind(ts)), e.tree), e.rest) else Fail
  }

  /** build_typeName at a type identifier or a dot. */
  function ParseTypeName(ts: seq<Seen>): (p: Parse)
    requires IsTypeName(Kind(ts))
    ensures p.Ok? ==> |p.rest| < |ts|
    decreases |ts|, 0, 1
  {
    var s := ParseSpecialized(ts);
    if s.Ok? && Kind(s.rest) == BracketOpen then
      var e := Expect(ParseExpr(s.rest[1..], 1), BracketClose);
      if e.Ok? then Ok(Stack(s.tree, e.tree), e.rest) else Fail
    else s
  }

  /** The part of build_typeName before `[`. */
  function ParseSpecialized(ts: seq<Seen>): (p: Parse)
    requires IsTypeName(Kind(ts))
    ensures p.Ok? ==> |p.rest| < |ts|
    decreases |ts|, 0, 0
  {
    var p := ParsePrefixedType(ts);
    if p.Ok? && Kind(p.rest) == AngleOpen then
      var args := ExpectList(ParseItems(TypeArgs, p.rest[1..]), AngleClose);
      if args.OkList? then Ok(Specialized(p.tree, args.trees), args.rest) else Fail
    else p
  }

  /** build_prefixedType */
  function ParsePrefixedType(ts: seq<Seen>): (p: Parse)
    ensures p.Ok? ==> |p.rest| < |ts|
  {
    if Kind(ts) == TypeIdentifier then Ok(Leaf(ts[0]), ts[1..])
    else if Kind(ts) == DotPrefix && Kind(ts[1..]) == TypeIdentifier then Ok(Dotted(Leaf(ts[1])), ts[2..])
    else Fail
  }

  /** build_typeRef */
  function ParseType(ts: seq<Seen>): (p: Parse)
    ensures p.Ok? ==> |p.rest| < |ts|
    decreases |ts|, 1
  {
    if IsBaseType(Kind(ts)) then ParseBaseType(ts)
    else if IsTypeName(Kind(ts)) then ParseTypeName(ts)
    else if Kind(ts) == TupleKw then ParseTuple(ts)
    else Fail
  }

  /** build_baseType */
  function ParseBaseType(ts: seq<Seen>): (p: Parse)
    requires ts != []
    ensures p.Ok? ==> |p.rest| < |ts|
    decreases |ts|, 0
  {
    if Kind(ts) in {Int, Bit, Varbit} && Kind(ts[1..]) == AngleOpen then
      var w := Expect(ParseTypeSize(ts[2..]), AngleClose);
      if w.Ok? then Ok(Sized(ts[0], w.tree), w.rest) else Fail
    else Ok(Leaf(ts[0]), ts[1..])
  }

  /** build_tupleType */
  function ParseTuple(ts: seq<Seen>): (p: Parse)
    requires ts != []
    ensures p.Ok? ==> |p.rest| < |ts|
    decreases |ts|, 0
  {
    if Kind(ts[1..]) == AngleOpen then
      var args := ExpectList(ParseItems(TypeArgs, ts[2..]), AngleClose);
      if args.OkList? then Ok(Tuple(args.trees), args.rest) else Fail
    else Fail
  }

  /** build_integerTypeSize: an integer, or an expression that starts with `(`. */
  function ParseTypeSize(ts: seq<Seen>): (p: Parse)
    ensures p.Ok? ==> |p.rest| < |ts|
    decreases |ts|, 4
  {
    if Kind(ts) == Integer then Ok(Leaf(ts[0]), ts[1..])
    else if Kind(ts) == ParenthOpen then ParseExpr(ts, 1)
    else Fail
  }

  predicate StartsItem(kind: ListKind, k: TokenClass) {
    match kind
    case Exprs => IsExpression(k)
    case Args => IsArgument(k)
    case TypeArgs => IsTypeArg(k)
    case RealTypeArgs => IsRealTypeArg(k)
  }

  /** build_expressionList, build_argumentList, build_typeArgumentList and
      build_realTypeArgumentList: nothing, or items separated by commas. */
  function ParseItems(kind: ListKind, ts: seq<Seen>): (p: ParseList)
    ensures p.OkList? ==> |p.rest| <= |ts|
    decreases |ts|, 6
  {
    if !StartsItem(kind, Kind(ts)) then OkList([], ts)
    else
      var x := ParseItem(kind, ts);
      if x.Fail? then FailList else ParseMore(kind, [x.tree], x.rest)
  }

  /** The loop of the list builders, with `xs` built so far. */
  function ParseMore(kind: ListKind, xs: seq<Tree>, ts: seq<Seen>): (p: ParseList)
    ensures p.OkList? ==> |p.rest| <= |ts|
    decreases |ts|, 5
  {
    if Kind(ts) != Comma then OkList(xs, ts)
    else
      var x := ParseItem(kind, ts[1..]);
      if x.Fail? then FailList else ParseMore(kind, xs + [x.tree], x.rest)
  }

  /** build_expression(1), build_argument, build_typeArg, build_realTypeArg. */
  function ParseItem(kind: ListKind, ts: seq<Seen>): (p: Parse)
    ensures p.Ok? ==> |p.rest| < |ts|
    decreases |ts|, 4
  {
    match kind
    case Exprs => ParseExpr(ts, 1)
    case Args => if Kind(ts) == Dontcare then Ok(Leaf(ts[0]), ts[1..]) else ParseExpr(ts, 1)
    case TypeArgs =>
      if Kind(ts) == Dontcare || IsNonTypeName(Kind(ts)) then Ok(Leaf(ts[0]), ts[1..]) else ParseType(ts)
    case RealTypeArgs => if Kind(ts) == Dontcare then Ok(Leaf(ts[0]), ts[1..]) else ParseType(ts)
  }

  // ----- one step of each function, by itself

  lemma PrimaryStep(ts: seq<Seen>)
    requires IsExpression(Kind(ts))
    ensures Kind(ts) == DotPrefix ==> ParsePrimary(ts) == ParseDotted(ts)
    ensures Kind(ts) == BraceOpen ==> ParsePrimary(ts) == ParseBraces(ts)
    ensures Kind(ts) == ParenthOpen ==> ParsePrimary(ts) == ParseParenthesis(ts)
    ensures Kind(ts) in {Exclamation, Tilda, TokenClass.UnaryMinus} ==> ParsePrimary(ts) == ParseUnary(ts)
    ensures Kind(ts) == TypeIdentifier ==> ParsePrimary(ts) == ParseTypeName(ts)
    ensures Kind(ts) !in {DotPrefix, BraceOpen, ParenthOpen, Exclamation, Tilda, TokenClass.UnaryMinus, TypeIdentifier} ==>
              ParsePrimary(ts) == Ok(Leaf(ts[0]), ts[1..])
  {
    hide ParseDotted; hide ParseBraces; hide ParseParenthesis; hide ParseUnary; hide ParseTypeName;
  }

  lemma LoopAtOperand(left: Tree, ts: seq<Seen>, t: nat)
    requires InfixAt(ts) && InfixPriority(Kind(ts)) >= t
    ensures var p := ParseOperand(left, ts);
            ParseLoop(left, ts, t) == if p.Ok? then ParseLoop(p.tree, p.rest, t) else Fail
  {
    hide ParseOperand; hide InfixPriority;
  }

  lemma LoopAtPostfix(left: Tree, ts: seq<Seen>, t: nat)
    requires IsExprOperator(Kind(ts)) && !InfixAt(ts)
    ensures var p := ParsePostfix(left, ts);
            ParseLoop(left, ts, t) == if p.Ok? then ParseLoop(p.tree, p.rest, t) else Fail
  {
    hide ParsePostfix; hide InfixAt; hide IsExprOperator;
  }

  lemma PostfixStep(left: Tree, ts: seq<Seen>)
    requires IsExprOperator(Kind(ts)) && !InfixAt(ts)
    ensures Kind(ts) == DotPrefix ==> ParsePostfix(left, ts) == ParseMember(left, ts)
    ensures Kind(ts) == BracketOpen ==> ParsePostfix(left, ts) == ParseBracket(left, ts)
    ensures Kind(ts) == ParenthOpen ==> ParsePostfix(left, ts) == ParseCall(left, ts)
    ensures Kind(ts) == Equal ==> ParsePostfix(left, ts) == ParseValue(left, ts)
    ensures Kind(ts) == AngleOpen ==> ParsePostfix(left, ts) == ParseTypeApp(left, ts)
  {
    hide ParseMember; hide ParseBracket; hide ParseCall; hide ParseValue; hide ParseTypeApp;
  }

  lemma TypeStep(ts: seq<Seen>)
    ensures IsBaseType(Kind(ts)) ==> ParseType(ts) == ParseBaseType(ts)
    ensures IsTypeName(Kind(ts)) ==> ParseType(ts) == ParseTypeName(ts)
    ensures Kind(ts) == TupleKw ==> ParseType(ts) == ParseTuple(ts)
  {
    hide ParseBaseType; hide ParseTypeName; hide ParseTuple;
  }

  lemma OperandStep(left: Tree, ts: seq<Seen>)
    requires InfixAt(ts)
    ensures var p := ParseExpr(ts[1..], InfixPriority(Kind(ts)) + 1);
            ParseOperand(left, ts) == if p.Ok? then Ok(Binary(BinaryOf(Kind(ts)), left, p.tree), p.rest) else Fail
  {
    hide ParseExpr; hide InfixPriority; hide BinaryOf;
  }

  lemma SliceStep(left: Tree, ts: seq<Seen>)
    requires ts != []
    ensures var i := ParseExpr(ts[1..], 1);
            i.Ok? && Kind(i.rest) == Colon ==>
              var j := Expect(ParseExpr(i.rest[1..], 1), BracketClose);
              && i.rest != []
              && ParseBracket(left, ts) == if j.Ok? then Ok(Slice(left, i.tree, j.tree), j.rest) else Fail
  {
    hide ParseExpr; hide Expect;
  }

  lemma IndexStep(left: Tree, ts: seq<Seen>)
    requires ts != []
    ensures var i := ParseExpr(ts[1..], 1); var e := Expect(i, BracketClose);
            !(i.Ok? && Kind(i.rest) == Colon) ==>
              ParseBracket(left, ts) == if e.Ok? then Ok(Index(left, e.tree), e.rest) else Fail
  {
    hide ParseExpr; hide Expect;
  }

  lemma CallStep(left: Tree, ts: seq<Seen>)
    requires IsExprOperator(Kind(ts)) && !InfixAt(ts) && Kind(ts) == ParenthOpen
    ensures var args := ExpectList(ParseItems(Args, ts[1..]), ParenthClose);
            ParsePostfix(left, ts) == if args.OkList? then Ok(Call(left, args.trees), args.rest) else Fail
  {
    hide IsExprOperator; hide InfixAt; hide ParseItems; hide ExpectList;
  }

  lemma TypeAppStep(left: Tree, ts: seq<Seen>)
    requires IsExprOperator(Kind(ts)) && !InfixAt(ts) && Kind(ts) == AngleOpen
    ensures var args := ExpectList(ParseItems(RealTypeArgs, ts[1..]), AngleClose);
            ParsePostfix(left, ts) == if args.OkList? then Ok(TypeApp(left, args.trees), args.rest) else Fail
  {
    hide IsExprOperator; hide InfixAt; hide ParseItems; hide ExpectList;
  }

  lemma BracesStep(ts: seq<Seen>)
    requires Kind(ts) == BraceOpen
    ensures IsExpression(Kind(ts))
    ensures var es := ExpectList(ParseItems(Exprs, ts[1..]), BraceClose);
            ParsePrimary(ts) == if es.OkList? then Ok(Braces(es.trees), es.rest) else Fail
  {
    hide ParseItems; hide ExpectList;
  }

  lemma TypeNameStep(ts: seq<Seen>)
    requires IsTypeName(Kind(ts))
    ensures var s := ParseSpecialized(ts);
            && (!(s.Ok? && Kind(s.rest) == BracketOpen) ==> ParseTypeName(ts) == s)
            && (s.Ok? && Kind(s.rest) == BracketOpen ==>
                  var e := Expect(ParseExpr(s.rest[1..], 1), BracketClose);
                  && s.rest != []
                  && ParseTypeName(ts) == if e.Ok? then Ok(Stack(s.tree, e.tree), e.rest) else Fail)
  {
    hide ParseSpecialized; hide ParseExpr; hide Expect; hide IsTypeName;
  }

  lemma CastStep(ts: seq<Seen>)
    requires ts != [] && IsTypeRef(Kind(ts[1..]))
    ensures var ty := Expect(ParseType(ts[1..]), ParenthClose);
            ParseParenthesis(ts) == if ty.Fail? then Fail else
              var e := ParseExpr(ty.rest, 1);
              if e.Ok? then Ok(Cast(ty.tree, e.tree), e.rest) else Fail
  {
    hide ParseType; hide ParseExpr; hide Expect; hide IsTypeRef;
  }

  lemma GroupStep(ts: seq<Seen>)
    requires ts != [] && !IsTypeRef(Kind(ts[1..]))
    ensures var e := Expect(ParseExpr(ts[1..], 1), ParenthClose);
            ParseParenthesis(ts) == if e.Ok? then Ok(Group(e.tree), e.rest) else Fail
  {
    hide ParseExpr; hide Expect; hide IsTypeRef;
  }

  lemma SizedStep(ts: seq<Seen>)
    requires ts != [] && Kind(ts) in {Int, Bit, Varbit} && Kind(ts[1..]) == AngleOpen
    ensures |ts| > 1
    ensures var w := Expect(ParseTypeSize(ts[2..]), AngleClose);
            ParseBaseType(ts) == if w.Ok? then Ok(Sized(ts[0], w.tree), w.rest) else Fail
  {
    hide ParseTypeSize; hide Expect;
  }

  lemma TupleIs(ts: seq<Seen>)
    requires |ts| > 1 && Kind(ts[1..]) == AngleOpen
    ensures ts[1..][1..] == ts[2..]
    ensures var args := ExpectList(ParseItems(TypeArgs, ts[2..]), AngleClose);
            ParseTuple(ts) == if args.OkList? then Ok(Tuple(args.trees), args.rest) else Fail
  {
    hide ParseItems; hide ExpectList;
    assert ts[1..][1..] == ts[2..];
  }
}
