/** Completeness: on the tokens of any tree of the grammar the builders return that very
    tree, whatever follows, so the grammar is unambiguous and the parse is unique. */
module ParserComplete {
  import opened Tokens
  import opened Grammar
  import opened ExprParser
  import opened ParserSound

  lemma HeadTail(x: Seen, s: seq<Seen>)
    ensures Kind([x] + s) == x.klass && ([x] + s)[0] == x && ([x] + s)[1..] == s
  {
  }

  lemma LeadOfYield(c: Tree, rest: seq<Seen>)
    ensures Kind(Yield(c) + rest) == Lead(c)
  {
    LeadIsFirst(c);
  }

  // ----- what may follow

  lemma {:induction false} FollowsStop(c: Tree, ts: seq<Seen>)
    requires !IsExprOperator(Kind(ts))
    ensures Follows(c, ts)
  {
    match c
    case Dotted(x) => FollowsStop(x, ts);
    case Cast(_, e) => FollowsStop(e, ts);
    case Unary(_, e) => FollowsStop(e, ts);
    case KeyValue(_, v) => FollowsStop(v, ts);
    case Binary(_, _, r) => FollowsStop(r, ts);
    case _ =>
  }

  lemma FollowsPostfix(b: Tree, ts: seq<Seen>, t: nat)
    requires IsExpr(b, t) && IsPostfixForm(b)
    requires TakesBracket(b) ==> Kind(ts) != BracketOpen
    requires IsBareType(b) ==> Kind(ts) != AngleOpen
    ensures Follows(b, ts)
  {
    if b.Dotted? { assert Follows(b.name, ts); }
  }

  lemma FollowsType(c: Tree, ts: seq<Seen>)
    requires IsType(c) && Kind(ts) != AngleOpen && Kind(ts) != BracketOpen
    ensures Follows(c, ts)
  {
    if c.Dotted? { assert Follows(c.name, ts); }
  }

  /** A left operand of the grammar may be followed by its operator. */
  lemma {:induction false} FollowsInfix(l: Tree, p: nat, ts: seq<Seen>)
    requires IsExpr(l, p) && !IsOpen(l) && InfixAt(ts) && InfixPriority(Kind(ts)) <= p
    requires Kind(ts) == AngleOpen ==> !EndsBare(l)
    ensures Follows(l, ts)
  {
    if l.Binary? {
      FollowsInfix(l.right, Priority(l.bop) + 1, ts);
    } else {
      FollowsPostfix(l, ts, p);
    }
  }

  lemma ClassOfBinary(op: BinOp)
    ensures IsBinaryOperator(BinaryClass(op)) && BinaryClass(op) != Equal
    ensures BinaryOf(BinaryClass(op)) == op && InfixPriority(BinaryClass(op)) == Priority(op)
    ensures BinaryClass(op) == AngleOpen <==> op == Less
  {
  }

  // ----- one turn of the operator loop

  lemma StepMember(left: Tree, n: Seen, rest: seq<Seen>, t: nat)
    requires IsName(n.klass)
    ensures ParseLoop(left, [Sym(DotPrefix), n] + rest, t) == ParseLoop(Member(left, n), rest, t)
  {
    var ts := [Sym(DotPrefix), n] + rest;
    assert ts[1..] == [n] + rest && ts[2..] == rest;
    assert ParsePostfix(left, ts) == Ok(Member(left, n), rest);
  }

  lemma StepIndex(left: Tree, i: Tree, rest: seq<Seen>, ts: seq<Seen>, t: nat)
    requires |ts| > 0 && ts == [Sym(BracketOpen)] + ts[1..]
    requires ParseExpr(ts[1..], 1) == Ok(i, [Sym(BracketClose)] + rest)
    ensures ParseLoop(left, ts, t) == ParseLoop(Index(left, i), rest, t)
  {
    hide IsExpression;
    HeadTail(Sym(BracketClose), rest);
    assert ParsePostfix(left, ts) == Ok(Index(left, i), rest);
  }

  lemma StepSlice(left: Tree, i: Tree, j: Tree, mid: seq<Seen>, rest: seq<Seen>, ts: seq<Seen>, t: nat)
    requires |ts| > 0 && ts == [Sym(BracketOpen)] + ts[1..]
    requires ParseExpr(ts[1..], 1) == Ok(i, [Sym(Colon)] + mid)
    requires ParseExpr(mid, 1) == Ok(j, [Sym(BracketClose)] + rest)
    ensures ParseLoop(left, ts, t) == ParseLoop(Slice(left, i, j), rest, t)
  {
    hide CarriesText;
    hide InfixPriority;
    hide ParseExpr;
    HeadTail(Sym(Colon), mid);
    HeadTail(Sym(BracketClose), rest);
    assert ParsePostfix(left, ts) == Ok(Slice(left, i, j), rest);
  }

  lemma StepCall(left: Tree, args: seq<Tree>, rest: seq<Seen>, ts: seq<Seen>, t: nat)
    requires |ts| > 0 && ts == [Sym(ParenthOpen)] + ts[1..]
    requires ParseItems(Args, ts[1..]) == OkList(args, [Sym(ParenthClose)] + rest)
    ensures ParseLoop(left, ts, t) == ParseLoop(Call(left, args), rest, t)
  {
    HeadTail(Sym(ParenthClose), rest);
    assert ParsePostfix(left, ts) == Ok(Call(left, args), rest);
  }

  lemma StepTypeApp(left: Tree, args: seq<Tree>, rest: seq<Seen>, ts: seq<Seen>, t: nat)
    requires |ts| > 0 && ts == [Sym(AngleOpen)] + ts[1..] && IsRealTypeArg(Kind(ts[1..]))
    requires ParseItems(RealTypeArgs, ts[1..]) == OkList(args, [Sym(AngleClose)] + rest)
    ensures ParseLoop(left, ts, t) == ParseLoop(TypeApp(left, args), rest, t)
  {
    hide ParseLoop; hide ParsePostfix; hide ParseItems; hide CarriesText;
    HeadTail(Sym(AngleClose), rest);
    HeadTail(Sym(AngleOpen), ts[1..]);
    PostfixStep(left, ts);
    LoopAtPostfix(left, ts, t);
  }

  lemma StepValue(left: Tree, v: Tree, rest: seq<Seen>, ts: seq<Seen>, t: nat)
    requires |ts| > 0 && ts == [Sym(Equal)] + ts[1..] && ParseExpr(ts[1..], 1) == Ok(v, rest)
    ensures ParseLoop(left, ts, t) == ParseLoop(KeyValue(left, v), rest, t)
  {
    assert ParsePostfix(left, ts) == Ok(KeyValue(left, v), rest);
  }

  lemma StepOperand(left: Tree, op: BinOp, r: Tree, rest: seq<Seen>, ts: seq<Seen>, t: nat)
    requires |ts| > 0 && ts == [Sym(BinaryClass(op))] + ts[1..] && InfixAt(ts) && Priority(op) >= t
    requires ParseExpr(ts[1..], Priority(op) + 1) == Ok(r, rest)
    ensures ParseLoop(left, ts, t) == ParseLoop(Binary(op, left, r), rest, t)
  {
    hide ParseLoop; hide ParseExpr; hide ParseOperand; hide CarriesText; hide InfixAt; hide BinaryClass; hide BinaryOf;
    hide Priority; hide InfixPriority;
    ClassOfBinary(op);
    HeadTail(Sym(BinaryClass(op)), ts[1..]);
    LoopAtOperand(left, ts, t);
    OperandStep(left, ts);
  }

  lemma PrimaryCast(ty: Tree, e: Tree, mid: seq<Seen>, rest: seq<Seen>, ts: seq<Seen>)
    requires |ts| > 0 && Kind(ts) == ParenthOpen && IsTypeRef(Kind(ts[1..]))
    requires ParseType(ts[1..]) == Ok(ty, [Sym(ParenthClose)] + mid) && ParseExpr(mid, 1) == Ok(e, rest)
    ensures ParsePrimary(ts) == Ok(Cast(ty, e), rest)
  {
    assert IsExpression(ParenthOpen);
    hide ParsePrimary; hide ParseParenthesis; hide ParseType; hide ParseExpr; hide IsTypeRef; hide IsExpression;
    PrimaryStep(ts);
    CastStep(ts);
    HeadTail(Sym(ParenthClose), mid);
  }

  // ----- expressions

  /** Read to its end, a tree is what the operator loop goes on with. */
  lemma {:induction false} CompleteExpr(c: Tree, rest: seq<Seen>, t: nat)
    requires t >= 1 && IsExpr(c, t) && Follows(c, rest)
    ensures ParseExpr(Yield(c) + rest, t) == ParseLoop(c, rest, t)
    decreases c, 2
  {
    if c.Binary? {
      CompleteBinary(c, rest, t);
    } else if c.Member? || c.Index? || c.Slice? || c.Call? || c.TypeApp? || c.KeyValue? {
      CompletePostfix(c, rest, t);
    } else {
      CompletePrimary(c, rest, t);
      LeadOfYield(c, rest);
    }
  }

  /** Read where the loop stops, a tree is the result. */
  lemma {:induction false} CompleteStop(c: Tree, rest: seq<Seen>, t: nat)
    requires t >= 1 && IsExpr(c, t) && Follows(c, rest) && Stops(rest, t)
    ensures ParseExpr(Yield(c) + rest, t) == Ok(c, rest)
    decreases c, 3
  {
    CompleteExpr(c, rest, t);
  }

  lemma {:induction false} CompleteClosed(c: Tree, k: TokenClass, rest: seq<Seen>)
    requires IsExpr(c, 1) && !IsExprOperator(k)
    ensures ParseExpr(Yield(c) + ([Sym(k)] + rest), 1) == Ok(c, [Sym(k)] + rest)
    decreases c, 4
  {
    HeadTail(Sym(k), rest);
    FollowsStop(c, [Sym(k)] + rest);
    CompleteStop(c, [Sym(k)] + rest, 1);
  }

  /** What the grammar says of the parts of a binary expression. */
  lemma BinaryParts(op: BinOp, l: Tree, r: Tree, rest: seq<Seen>, t: nat)
    ensures IsExpr(Binary(op, l, r), t)
       <==> Priority(op) >= t && IsExpr(l, Priority(op)) && LeftFits(op, l) && IsExpr(r, Priority(op) + 1) && RightFits(op, r)
    ensures Follows(Binary(op, l, r), rest) <==> Stops(rest, Priority(op) + 1) && Follows(r, rest)
  {
    hide LeftFits; hide RightFits; hide Priority; hide Stops;
  }

  lemma Lower(c: Tree, t: nat, t': nat)
    requires IsExpr(c, t) && t' <= t
    ensures IsExpr(c, t')
  {
    hide IsList; hide IsType; hide IsTypeNameTree; hide LeftFits; hide RightFits; hide IsPostfixForm; hide IsExprLeaf;
  }

  lemma OperatorAhead(op: BinOp, r: Tree, ts: seq<Seen>)
    requires ts != [] && Kind(ts) == BinaryClass(op) && RightFits(op, r) && Kind(ts[1..]) == Lead(r)
    ensures InfixAt(ts)
  {
    hide IsRealTypeArg; hide Lead;
    ClassOfBinary(op);
  }

  lemma FollowsLeft(op: BinOp, l: Tree, ts: seq<Seen>)
    requires IsExpr(l, Priority(op)) && LeftFits(op, l) && InfixAt(ts) && Kind(ts) == BinaryClass(op)
    ensures Follows(l, ts)
  {
    hide IsExpr; hide InfixAt; hide Follows; hide IsOpen; hide EndsBare;
    ClassOfBinary(op);
    FollowsInfix(l, Priority(op), ts);
  }

  lemma {:induction false} CompleteBinary(c: Tree, rest: seq<Seen>, t: nat)
    requires t >= 1 && c.Binary? && IsExpr(c, t) && Follows(c, rest)
    ensures ParseExpr(Yield(c) + rest, t) == ParseLoop(c, rest, t)
    decreases c, 1
  {
    hide CarriesText; hide ParseExpr; hide ParseLoop; hide IsExpr; hide Follows; hide InfixAt; hide Stops;
    hide InfixPriority; hide BinaryClass; hide LeftFits; hide RightFits;
    var Binary(op, l, r) := c;
    var tail := Yield(r) + rest;
    var ts := [Sym(BinaryClass(op))] + tail;
    BinaryParts(op, l, r, rest, t);
    HeadTail(Sym(BinaryClass(op)), tail);
    LeadOfYield(r, rest);
    OperatorAhead(op, r, ts);
    Lower(l, Priority(op), t);
    FollowsLeft(op, l, ts);
    CompleteExpr(l, ts, t);
    CompleteStop(r, rest, Priority(op) + 1);
    StepOperand(l, op, r, rest, ts, t);
    Cat3(Yield(l), [Sym(BinaryClass(op))], Yield(r), rest);
  }

  lemma {:induction false} CompletePostfix(c: Tree, rest: seq<Seen>, t: nat)
    requires t >= 1 && IsExpr(c, t) && Follows(c, rest)
    requires c.Member? || c.Index? || c.Slice? || c.Call? || c.TypeApp? || c.KeyValue?
    ensures ParseExpr(Yield(c) + rest, t) == ParseLoop(c, rest, t)
    decreases c, 1
  {
    hide CarriesText; hide ParsePostfix; hide IsTypeArg;
    match c
    case Member(b, n) =>
      CompleteBase(b, [Sym(DotPrefix), n] + rest, t);
      StepMember(b, n, rest, t);
      Cat2(Yield(b), [Sym(DotPrefix), n], rest);
    case KeyValue(b, v) =>
      var ts := [Sym(Equal)] + (Yield(v) + rest);
      HeadTail(Sym(Equal), Yield(v) + rest);
      CompleteBase(b, ts, t);
      CompleteStop(v, rest, 1);
      StepValue(b, v, rest, ts, t);
      Cat3(Yield(b), [Sym(Equal)], Yield(v), rest);
    case Index(b, i) => CompleteIndex(b, i, rest, t);
    case Slice(b, i, j) => CompleteSlice(b, i, j, rest, t);
    case Call(b, args) => CompleteCall(b, args, rest, t);
    case TypeApp(b, args) => CompleteTypeApp(b, args, rest, t);
  }

  lemma {:induction false} CompleteBase(b: Tree, ts: seq<Seen>, t: nat)
    requires t >= 1 && IsExpr(b, 1) && IsPostfixForm(b)
    requires TakesBracket(b) ==> Kind(ts) != BracketOpen
    requires IsBareType(b) ==> Kind(ts) != AngleOpen
    ensures ParseExpr(Yield(b) + ts, t) == ParseLoop(b, ts, t)
    decreases b, 3
  {
    Raise(b, 1, t);
    FollowsPostfix(b, ts, t);
    CompleteExpr(b, ts, t);
  }

  lemma {:induction false} CompleteIndex(b: Tree, i: Tree, rest: seq<Seen>, t: nat)
    requires t >= 1 && IsExpr(Index(b, i), t)
    ensures ParseExpr(Yield(Index(b, i)) + rest, t) == ParseLoop(Index(b, i), rest, t)
    decreases Index(b, i), 0
  {
    hide IsExpression;
    var tail := Yield(i) + ([Sym(BracketClose)] + rest);
    HeadTail(Sym(BracketOpen), tail);
    CompleteBase(b, [Sym(BracketOpen)] + tail, t);
    CompleteClosed(i, BracketClose, rest);
    StepIndex(b, i, rest, [Sym(BracketOpen)] + tail, t);
    Cat4(Yield(b), [Sym(BracketOpen)], Yield(i), [Sym(BracketClose)], rest);
  }

  lemma {:induction false} CompleteSlice(b: Tree, i: Tree, j: Tree, rest: seq<Seen>, t: nat)
    requires t >= 1 && IsExpr(Slice(b, i, j), t)
    ensures ParseExpr(Yield(Slice(b, i, j)) + rest, t) == ParseLoop(Slice(b, i, j), rest, t)
    decreases Slice(b, i, j), 0
  {
    hide CarriesText;
    hide ParseExpr;
    hide ParseOperand;
    hide ParsePostfix;
    hide IsBaseType;
    hide EndsBare;
    var mid := Yield(j) + ([Sym(BracketClose)] + rest);
    var tail := Yield(i) + ([Sym(Colon)] + mid);
    HeadTail(Sym(BracketOpen), tail);
    CompleteBase(b, [Sym(BracketOpen)] + tail, t);
    CompleteClosed(i, Colon, mid);
    CompleteClosed(j, BracketClose, rest);
    StepSlice(b, i, j, mid, rest, [Sym(BracketOpen)] + tail, t);
    Cat6(Yield(b), [Sym(BracketOpen)], Yield(i), [Sym(Colon)], Yield(j), [Sym(BracketClose)], rest);
  }

  lemma {:induction false} CompleteCall(b: Tree, args: seq<Tree>, rest: seq<Seen>, t: nat)
    requires t >= 1 && IsExpr(Call(b, args), t)
    ensures ParseExpr(Yield(Call(b, args)) + rest, t) == ParseLoop(Call(b, args), rest, t)
    decreases Call(b, args), 0
  {
    var tail := YieldList(args) + ([Sym(ParenthClose)] + rest);
    HeadTail(Sym(ParenthOpen), tail);
    CompleteBase(b, [Sym(ParenthOpen)] + tail, t);
    CompleteItems(Args, args, rest);
    StepCall(b, args, rest, [Sym(ParenthOpen)] + tail, t);
    Cat4(Yield(b), [Sym(ParenthOpen)], YieldList(args), [Sym(ParenthClose)], rest);
  }

  lemma {:induction false} CompleteTypeApp(b: Tree, args: seq<Tree>, rest: seq<Seen>, t: nat)
    requires t >= 1 && IsExpr(TypeApp(b, args), t)
    ensures ParseExpr(Yield(TypeApp(b, args)) + rest, t) == ParseLoop(TypeApp(b, args), rest, t)
    decreases TypeApp(b, args), 0
  {
    var tail := YieldList(args) + ([Sym(AngleClose)] + rest);
    HeadTail(Sym(AngleOpen), tail);
    CompleteBase(b, [Sym(AngleOpen)] + tail, t);
    CompleteItems(RealTypeArgs, args, rest);
    ListLead(RealTypeArgs, args, [Sym(AngleClose)] + rest);
    StepTypeApp(b, args, rest, [Sym(AngleOpen)] + tail, t);
    Cat4(Yield(b), [Sym(AngleOpen)], YieldList(args), [Sym(AngleClose)], rest);
  }

  // ----- primaries

  lemma {:induction false} CompletePrimary(c: Tree, rest: seq<Seen>, t: nat)
    requires IsExpr(c, t) && Follows(c, rest)
    requires !c.Binary? && !c.Member? && !c.Index? && !c.Slice? && !c.Call? && !c.TypeApp? && !c.KeyValue?
    ensures IsExpression(Lead(c)) && Kind(Yield(c) + rest) == Lead(c)
    ensures ParsePrimary(Yield(c) + rest) == Ok(c, rest)
    decreases c, 1
  {
    match c
    case Leaf(tok) =>
      if tok.klass == TypeIdentifier { CompleteTypePrimary(c, rest); } else { HeadTail(tok, rest); }
    case Dotted(n) => CompleteDotted(n, rest, t);
    case Specialized(_, _) => CompleteTypePrimary(c, rest);
    case Stack(_, _) => CompleteTypePrimary(c, rest);
    case Braces(es) => CompleteBraces(es, rest);
    case Group(e) => CompleteGroup(e, rest);
    case Cast(ty, e) => CompleteCast(ty, e, rest, t);
    case Unary(op, e) => CompleteUnary(op, e, rest);
  }

  lemma {:induction false} CompleteTypePrimary(c: Tree, rest: seq<Seen>)
    requires IsTypeNameTree(c, false) && Follows(c, rest)
    ensures Kind(Yield(c) + rest) == Lead(c) == TypeIdentifier
    ensures ParsePrimary(Yield(c) + rest) == Ok(c, rest)
    decreases c, 0, 2
  {
    hide CarriesText; hide IsBinaryOperator; hide ParseSpecialized; hide Follows; hide IsTypeNameTree;
    TypeNameLead(c);
    LeadOfYield(c, rest);
    CompleteTypeName(c, false, rest);
  }

  lemma {:induction false} CompleteBraces(es: seq<Tree>, rest: seq<Seen>)
    requires IsList(Exprs, es)
    ensures Kind(Yield(Braces(es)) + rest) == BraceOpen
    ensures ParsePrimary(Yield(Braces(es)) + rest) == Ok(Braces(es), rest)
    decreases Braces(es), 0
  {
    hide CarriesText;
    hide IsExpression;
    hide IsPrefixedType;
    HeadTail(Sym(BraceOpen), YieldList(es) + ([Sym(BraceClose)] + rest));
    Cat3([Sym(BraceOpen)], YieldList(es), [Sym(BraceClose)], rest);
    CompleteItems(Exprs, es, rest);
    HeadTail(Sym(BraceClose), rest);
  }

  lemma PrimaryGroup(e: Tree, rest: seq<Seen>, ts: seq<Seen>)
    requires |ts| > 0 && Kind(ts) == ParenthOpen && !IsTypeRef(Kind(ts[1..]))
    requires ParseExpr(ts[1..], 1) == Ok(e, [Sym(ParenthClose)] + rest)
    ensures ParsePrimary(ts) == Ok(Group(e), rest)
  {
    hide ParsePrimary; hide ParseExpr; hide IsTypeRef; hide ParseType;
    HeadTail(Sym(ParenthClose), rest);
    PrimaryStep(ts);
  }

  lemma {:induction false} CompleteGroup(e: Tree, rest: seq<Seen>)
    requires IsExpr(e, 1) && !IsTypeRef(Lead(e))
    ensures Kind(Yield(Group(e)) + rest) == ParenthOpen
    ensures ParsePrimary(Yield(Group(e)) + rest) == Ok(Group(e), rest)
    decreases Group(e), 0
  {
    hide ParseExpr; hide ParsePrimary; hide IsExpr; hide IsTypeRef; hide CarriesText; hide ParseParenthesis; hide Lead;
    var tail := Yield(e) + ([Sym(ParenthClose)] + rest);
    HeadTail(Sym(ParenthOpen), tail);
    Cat3([Sym(ParenthOpen)], Yield(e), [Sym(ParenthClose)], rest);
    LeadOfYield(e, [Sym(ParenthClose)] + rest);
    CompleteClosed(e, ParenthClose, rest);
    PrimaryGroup(e, rest, [Sym(ParenthOpen)] + tail);
  }

  lemma {:induction false} CompleteUnary(op: UnOp, e: Tree, rest: seq<Seen>)
    requires IsExpr(e, 1) && Follows(e, rest) && Stops(rest, 1)
    ensures Kind(Yield(Unary(op, e)) + rest) == UnaryClass(op)
    ensures ParsePrimary(Yield(Unary(op, e)) + rest) == Ok(Unary(op, e), rest)
    decreases Unary(op, e), 0
  {
    hide IsTypeNameTree; hide ParseExpr; hide ParseType; hide ParseItem; hide IsExpr;
    HeadTail(Sym(UnaryClass(op)), Yield(e) + rest);
    Cat2([Sym(UnaryClass(op))], Yield(e), rest);
    CompleteStop(e, rest, 1);
  }

  lemma {:induction false} CompleteDotted(n: Tree, rest: seq<Seen>, t: nat)
    requires IsExpr(Dotted(n), t) && Follows(Dotted(n), rest)
    ensures Kind(Yield(Dotted(n)) + rest) == DotPrefix
    ensures ParsePrimary(Yield(Dotted(n)) + rest) == Ok(Dotted(n), rest)
    decreases Dotted(n), 0
  {
    hide LeftFits;
    var ts := Yield(Dotted(n)) + rest;
    HeadTail(Sym(DotPrefix), Yield(n) + rest);
    Cat2([Sym(DotPrefix)], Yield(n), rest);
    LeadOfYield(n, rest);
    if n.Leaf? && n.tok.klass == Identifier {
      assert ts[1..] == [n.tok] + rest;
      assert ts[2..] == rest;
    } else {
      TypeNameLead(n);
      CompleteTypeName(n, false, rest);
    }
  }

  lemma {:induction false} CompleteCast(ty: Tree, e: Tree, rest: seq<Seen>, t: nat)
    requires IsExpr(Cast(ty, e), t) && Follows(Cast(ty, e), rest)
    ensures Kind(Yield(Cast(ty, e)) + rest) == ParenthOpen
    ensures ParsePrimary(Yield(Cast(ty, e)) + rest) == Ok(Cast(ty, e), rest)
    decreases Cast(ty, e), 0
  {
    hide IsExprLeaf; hide RightFits; hide YieldList;
    var mid := Yield(e) + rest;
    var tail := Yield(ty) + ([Sym(ParenthClose)] + mid);
    HeadTail(Sym(ParenthOpen), tail);
    Cat4([Sym(ParenthOpen)], Yield(ty), [Sym(ParenthClose)], Yield(e), rest);
    LeadOfYield(ty, [Sym(ParenthClose)] + mid);
    TypeLead(ty);
    HeadTail(Sym(ParenthClose), mid);
    CompleteType(ty, [Sym(ParenthClose)] + mid);
    CompleteStop(e, rest, 1);
    PrimaryCast(ty, e, mid, rest, [Sym(ParenthOpen)] + tail);
  }

  // ----- types

  lemma {:induction false} TypeNameLead(c: Tree)
    requires IsTypeNameTree(c, false)
    ensures Lead(c) == TypeIdentifier
  {
    if c.Stack? && c.base.Specialized? { TypeNameLead(c.base); }
  }

  lemma {:induction false} DottedTypeNameLead(c: Tree, dot: bool)
    requires IsTypeNameTree(c, dot)
    ensures IsTypeName(Lead(c))
  {
    if c.Stack? && c.base.Specialized? { DottedTypeNameLead(c.base, dot); }
  }

  lemma TypeLead(c: Tree)
    requires IsType(c)
    ensures IsTypeRef(Lead(c))
  {
    if !c.Leaf? && !c.Sized? && !c.Tuple? { DottedTypeNameLead(c, true); }
  }

  lemma CompletePrefixed(c: Tree, dot: bool, rest: seq<Seen>)
    requires IsPrefixedType(c, dot)
    ensures ParsePrefixedType(Yield(c) + rest) == Ok(c, rest)
  {
    if c.Dotted? {
      HeadTail(Sym(DotPrefix), Yield(c.name) + rest);
      Cat2([Sym(DotPrefix)], Yield(c.name), rest);
      HeadTail(c.name.tok, rest);
      assert (Yield(c) + rest)[2..] == rest;
    } else {
      HeadTail(c.tok, rest);
    }
  }

  lemma NameParts(c: Tree, dot: bool)
    requires IsTypeNameTree(c, dot) && !c.Stack?
    ensures if c.Specialized? then IsPrefixedType(c.base, dot) && IsList(TypeArgs, c.typeArgs) else IsPrefixedType(c, dot)
  {
    hide IsList; hide IsPrefixedType;
  }

  lemma ArgsStep(b: Tree, args: seq<Tree>, mid: seq<Seen>, rest: seq<Seen>, ts: seq<Seen>)
    requires IsTypeName(Kind(ts)) && ParsePrefixedType(ts) == Ok(b, [Sym(AngleOpen)] + mid)
    requires ParseItems(TypeArgs, mid) == OkList(args, [Sym(AngleClose)] + rest)
    ensures ParseSpecialized(ts) == Ok(Specialized(b, args), rest)
  {
    hide ParsePrefixedType; hide ParseItems;
    HeadTail(Sym(AngleOpen), mid);
    HeadTail(Sym(AngleClose), rest);
  }

  lemma NoArgsStep(c: Tree, rest: seq<Seen>, ts: seq<Seen>)
    requires IsTypeName(Kind(ts)) && ParsePrefixedType(ts) == Ok(c, rest) && Kind(rest) != AngleOpen
    ensures ParseSpecialized(ts) == Ok(c, rest)
  {
    hide ParsePrefixedType; hide ParseItems;
  }

  lemma {:induction false} CompleteSpecialized(c: Tree, dot: bool, rest: seq<Seen>)
    requires IsTypeNameTree(c, dot) && !c.Stack? && (Kind(rest) == AngleOpen ==> c.Specialized?)
    ensures IsTypeName(Kind(Yield(c) + rest))
    ensures ParseSpecialized(Yield(c) + rest) == Ok(c, rest)
    decreases c, 0, 0
  {
    hide ParseSpecialized; hide ParsePrefixedType; hide ParseItems; hide IsTypeNameTree; hide IsPrefixedType; hide IsList;
    hide Lead; hide IsTypeName; hide YieldList;
    NameParts(c, dot);
    DottedTypeNameLead(c, dot);
    LeadOfYield(c, rest);
    if c.Specialized? {
      var b, args := c.base, c.typeArgs;
      var mid := YieldList(args) + ([Sym(AngleClose)] + rest);
      CompletePrefixed(b, dot, [Sym(AngleOpen)] + mid);
      Cat4(Yield(b), [Sym(AngleOpen)], YieldList(args), [Sym(AngleClose)], rest);
      CompleteItems(TypeArgs, args, rest);
      ArgsStep(b, args, mid, rest, Yield(c) + rest);
    } else {
      CompletePrefixed(c, dot, rest);
      NoArgsStep(c, rest, Yield(c) + rest);
    }
  }

  lemma StackParts(b: Tree, e: Tree, dot: bool)
    ensures IsTypeNameTree(Stack(b, e), dot) ==> IsExpr(e, 1) && IsTypeNameTree(b, dot) && !b.Stack?
  {
    hide IsExpr; hide IsList;
  }

  lemma StackStep(b: Tree, e: Tree, mid: seq<Seen>, rest: seq<Seen>, ts: seq<Seen>)
    requires IsTypeName(Kind(ts)) && ParseSpecialized(ts) == Ok(b, [Sym(BracketOpen)] + mid)
    requires ParseExpr(mid, 1) == Ok(e, [Sym(BracketClose)] + rest)
    ensures ParseTypeName(ts) == Ok(Stack(b, e), rest)
  {
    hide ParseExpr; hide ParseSpecialized;
    HeadTail(Sym(BracketOpen), mid);
    HeadTail(Sym(BracketClose), rest);
  }

  lemma PlainStep(c: Tree, rest: seq<Seen>, ts: seq<Seen>)
    requires IsTypeName(Kind(ts)) && ParseSpecialized(ts) == Ok(c, rest) && Kind(rest) != BracketOpen
    ensures ParseTypeName(ts) == Ok(c, rest)
  {
    hide ParseExpr; hide ParseSpecialized;
  }

  /** Behind a type name without a stack size. */
  lemma NotBracket(c: Tree, dot: bool, rest: seq<Seen>)
    requires IsTypeNameTree(c, dot) && !c.Stack? && Follows(c, rest)
    ensures Kind(rest) != BracketOpen && (Kind(rest) == AngleOpen ==> c.Specialized?)
  {
    hide IsExpr; hide IsList;
    if c.Dotted? { assert Follows(c.name, rest); }
  }

  lemma {:induction false} CompleteTypeName(c: Tree, dot: bool, rest: seq<Seen>)
    requires IsTypeNameTree(c, dot) && Follows(c, rest)
    ensures IsTypeName(Kind(Yield(c) + rest))
    ensures ParseTypeName(Yield(c) + rest) == Ok(c, rest)
    decreases c, 0, 1
  {
    hide ParseExpr; hide ParseSpecialized; hide ParseTypeName; hide IsExpr; hide IsTypeNameTree; hide Lead; hide Follows;
    hide IsTypeName;
    if c.Stack? { StackParts(c.base, c.size, dot); }
    DottedTypeNameLead(c, dot);
    LeadOfYield(c, rest);
    if c.Stack? {
      var b, e := c.base, c.size;
      var mid := Yield(e) + ([Sym(BracketClose)] + rest);
      CompleteSpecialized(b, dot, [Sym(BracketOpen)] + mid);
      HeadTail(Sym(BracketOpen), mid);
      Cat4(Yield(b), [Sym(BracketOpen)], Yield(e), [Sym(BracketClose)], rest);
      CompleteClosed(e, BracketClose, rest);
      StackStep(b, e, mid, rest, Yield(c) + rest);
    } else {
      TypeFollows(c, rest);
      NotBracket(c, dot, rest);
      CompleteSpecialized(c, dot, rest);
      PlainStep(c, rest, Yield(c) + rest);
    }
  }

  lemma BaseLeaf(tok: Seen, rest: seq<Seen>)
    requires Kind(rest) != AngleOpen
    ensures ParseBaseType([tok] + rest) == Ok(Leaf(tok), rest)
  {
    HeadTail(tok, rest);
  }

  lemma NameIsType(c: Tree)
    requires IsType(c) && !c.Sized? && !c.Tuple? && (c.Leaf? ==> c.tok.klass == TypeIdentifier)
    ensures IsTypeNameTree(c, true)
  {
    hide IsExpr; hide IsList;
  }

  lemma {:induction false} CompleteType(c: Tree, rest: seq<Seen>)
    requires IsType(c) && Kind(rest) != AngleOpen && Kind(rest) != BracketOpen
    ensures ParseType(Yield(c) + rest) == Ok(c, rest)
    decreases c, 1
  {
    hide ParseType; hide ParseTypeName; hide ParseBaseType; hide IsTypeNameTree; hide Lead; hide Follows; hide IsTypeRef;
    LeadOfYield(c, rest);
    TypeStep(Yield(c) + rest);
    if c.Sized? {
      CompleteSized(c.tok, c.width, rest);
    } else if c.Tuple? {
      CompleteTuple(c.typeArgs, rest);
    } else if c.Leaf? && c.tok.klass != TypeIdentifier {
      HeadTail(c.tok, rest);
      BaseLeaf(c.tok, rest);
    } else {
      assert IsTypeNameTree(c, true) by { NameIsType(c); }
      DottedTypeNameLead(c, true);
      FollowsType(c, rest);
      CompleteTypeName(c, true, rest);
    }
  }

  lemma SizedParts(tok: Seen, w: Tree)
    requires IsType(Sized(tok, w))
    ensures tok.klass in {Int, Bit, Varbit} && w.Leaf? && w.tok.klass == Integer && Yield(w) == [w.tok]
    ensures Yield(Sized(tok, w)) == [tok, Sym(AngleOpen)] + (Yield(w) + [Sym(AngleClose)])
  {
  }

  lemma SizeRead(tok: Seen, s: seq<Seen>)
    requires tok.klass == Integer
    ensures ParseTypeSize([tok] + s) == Ok(Leaf(tok), s)
  {
    hide ParseExpr;
    HeadTail(tok, s);
  }

  lemma CompleteSized(tok: Seen, w: Tree, rest: seq<Seen>)
    requires IsType(Sized(tok, w))
    ensures ParseType(Yield(Sized(tok, w)) + rest) == Ok(Sized(tok, w), rest)
  {
    SizedParts(tok, w);
    hide IsType; hide Yield; hide Essence; hide CarriesText; hide ParseType; hide ParseTypeSize;
    var tail := [w.tok] + ([Sym(AngleClose)] + rest);
    var ts := [tok, Sym(AngleOpen)] + tail;
    Cat3([tok, Sym(AngleOpen)], Yield(w), [Sym(AngleClose)], rest);
    assert ts[1..] == [Sym(AngleOpen)] + tail && ts[2..] == tail;
    SizeRead(w.tok, [Sym(AngleClose)] + rest);
    TypeSized(tok, w, rest, ts);
  }

  lemma TypeSized(tok: Seen, w: Tree, rest: seq<Seen>, ts: seq<Seen>)
    requires tok.klass in {Int, Bit, Varbit} && |ts| > 1 && ts[0] == tok && Kind(ts[1..]) == AngleOpen
    requires ParseTypeSize(ts[2..]) == Ok(w, [Sym(AngleClose)] + rest)
    ensures ParseType(ts) == Ok(Sized(tok, w), rest)
  {
    assert IsBaseType(tok.klass);
    hide ParseType; hide ParseBaseType; hide ParseTypeSize; hide IsBaseType;
    TypeStep(ts);
    SizedStep(ts);
    HeadTail(Sym(AngleClose), rest);
  }

  lemma TypeTuple(args: seq<Tree>, rest: seq<Seen>, ts: seq<Seen>)
    requires |ts| > 1 && Kind(ts) == TupleKw && Kind(ts[1..]) == AngleOpen
    requires ParseItems(TypeArgs, ts[2..]) == OkList(args, [Sym(AngleClose)] + rest)
    ensures ParseType(ts) == Ok(Tuple(args), rest)
  {
    hide ParseType; hide ParseTuple; hide ParseItems;
    HeadTail(Sym(AngleClose), rest);
    TypeStep(ts);
    TupleIs(ts);
  }

  lemma {:induction false} CompleteTuple(args: seq<Tree>, rest: seq<Seen>)
    requires IsList(TypeArgs, args)
    ensures ParseType(Yield(Tuple(args)) + rest) == Ok(Tuple(args), rest)
    decreases Tuple(args), 0
  {
    hide ParseType; hide ParseItems; hide IsList; hide YieldList;
    var tail := YieldList(args) + ([Sym(AngleClose)] + rest);
    var ts := [Sym(TupleKw), Sym(AngleOpen)] + tail;
    assert ts[1..] == [Sym(AngleOpen)] + tail && ts[2..] == tail;
    CompleteItems(TypeArgs, args, rest);
    TypeTuple(args, rest, ts);
    Cat3([Sym(TupleKw), Sym(AngleOpen)], YieldList(args), [Sym(AngleClose)], rest);
  }

  // ----- lists

  function Closer(kind: ListKind): TokenClass {
    match kind
    case Exprs => BraceClose
    case Args => ParenthClose
    case TypeArgs => AngleClose
    case RealTypeArgs => AngleClose
  }

  lemma ItemLead(kind: ListKind, x: Tree)
    requires IsItem(kind, x)
    ensures StartsItem(kind, Lead(x))
  {
    if (kind.Exprs? || kind.Args?) && !(x.Leaf? && x.tok.klass == Dontcare) {
      ExprLead(x, 1);
    } else if !x.Leaf? {
      TypeLead(x);
    }
  }

  lemma {:induction false} ExprLead(c: Tree, t: nat)
    requires IsExpr(c, t)
    ensures IsExpression(Lead(c))
  {
    match c
    case Specialized(_, _) => TypeNameLead(c);
    case Stack(_, _) => TypeNameLead(c);
    case Member(b, _) => ExprLead(b, 1);
    case Index(b, _) => ExprLead(b, 1);
    case Slice(b, _, _) => ExprLead(b, 1);
    case Call(b, _) => ExprLead(b, 1);
    case TypeApp(b, _) => ExprLead(b, 1);
    case KeyValue(k, _) => ExprLead(k, 1);
    case Binary(op, l, _) => ExprLead(l, Priority(op));
    case _ =>
  }

  lemma ListLead(kind: ListKind, xs: seq<Tree>, rest: seq<Seen>)
    requires IsList(kind, xs) && xs != []
    ensures StartsItem(kind, Kind(YieldList(xs) + rest))
  {
    ItemLead(kind, xs[0]);
    Cat2(Yield(xs[0]), YieldMore(xs[1..]), rest);
    LeadOfYield(xs[0], YieldMore(xs[1..]) + rest);
  }

  lemma NothingYielded()
    ensures YieldList([]) == [] && YieldMore([]) == []
  {
  }

  lemma NoItems(kind: ListKind, ts: seq<Seen>)
    requires Kind(ts) == Closer(kind)
    ensures ParseItems(kind, ts) == OkList([], ts)
  {
    hide ParseItem; hide ParseMore;
  }

  lemma ListParts(kind: ListKind, xs: seq<Tree>)
    requires xs != []
    ensures IsList(kind, xs) <==> IsItem(kind, xs[0]) && IsList(kind, xs[1..])
    ensures YieldList(xs) == Yield(xs[0]) + YieldMore(xs[1..])
    ensures YieldMore(xs) == [Sym(Comma)] + (Yield(xs[0]) + YieldMore(xs[1..]))
  {
    hide IsItem; hide Yield;
  }

  lemma {:induction false} CompleteItems(kind: ListKind, xs: seq<Tree>, rest: seq<Seen>)
    requires IsList(kind, xs)
    ensures var ts := [Sym(Closer(kind))] + rest;
            ParseItems(kind, YieldList(xs) + ts) == OkList(xs, ts)
    decreases xs, 6
  {
    hide ParseItems; hide ParseMore; hide IsList; hide YieldList; hide YieldMore; hide Kind;
    var ts := [Sym(Closer(kind))] + rest;
    HeadTail(Sym(Closer(kind)), rest);
    if xs == [] {
      assert YieldList(xs) + ts == ts by { NothingYielded(); }
      NoItems(kind, ts);
    } else {
      ListParts(kind, xs);
      CompleteFirst(kind, xs, ts);
      CompleteMore(kind, [xs[0]], xs[1..], rest);
      assert [xs[0]] + xs[1..] == xs;
    }
  }

  lemma {:induction false} CompleteFirst(kind: ListKind, xs: seq<Tree>, ts: seq<Seen>)
    requires IsList(kind, xs) && xs != [] && Kind(ts) == Closer(kind)
    ensures ParseItems(kind, YieldList(xs) + ts) == ParseMore(kind, [xs[0]], YieldMore(xs[1..]) + ts)
    decreases xs, 5
  {
    var tail := YieldMore(xs[1..]) + ts;
    ListLead(kind, xs, ts);
    MoreLead(xs[1..], kind, ts);
    Cat2(Yield(xs[0]), YieldMore(xs[1..]), ts);
    CompleteItem(kind, xs[0], tail);
    FirstItem(kind, xs[0], tail, Yield(xs[0]) + tail);
  }

  lemma FirstItem(kind: ListKind, x: Tree, tail: seq<Seen>, ts: seq<Seen>)
    requires StartsItem(kind, Kind(ts)) && ParseItem(kind, ts) == Ok(x, tail)
    ensures ParseItems(kind, ts) == ParseMore(kind, [x], tail)
  {
  }

  lemma MoreLead(xs: seq<Tree>, kind: ListKind, ts: seq<Seen>)
    requires Kind(ts) == Closer(kind)
    ensures Kind(YieldMore(xs) + ts) == if xs == [] then Closer(kind) else Comma
  {
    if xs == [] {
      assert YieldMore(xs) + ts == ts;
    }
  }

  lemma MoreStops(kind: ListKind, pre: seq<Tree>, ts: seq<Seen>)
    requires Kind(ts) == Closer(kind)
    ensures ParseMore(kind, pre, ts) == OkList(pre, ts)
  {
    hide ParseItem;
  }

  lemma MoreStep(kind: ListKind, pre: seq<Tree>, x: Tree, ts: seq<Seen>, tail: seq<Seen>)
    requires ParseItem(kind, ts) == Ok(x, tail)
    ensures ParseMore(kind, pre, [Sym(Comma)] + ts) == ParseMore(kind, pre + [x], tail)
  {
    hide ParseItem;
    HeadTail(Sym(Comma), ts);
  }

  lemma {:induction false} CompleteMore(kind: ListKind, pre: seq<Tree>, xs: seq<Tree>, rest: seq<Seen>)
    requires IsList(kind, xs)
    ensures var ts := [Sym(Closer(kind))] + rest;
            ParseMore(kind, pre, YieldMore(xs) + ts) == OkList(pre + xs, ts)
    decreases xs, 5
  {
    hide ParseMore; hide ParseItem; hide IsList; hide IsItem; hide Yield; hide YieldMore; hide Kind;
    var ts := [Sym(Closer(kind))] + rest;
    HeadTail(Sym(Closer(kind)), rest);
    if xs == [] {
      assert YieldMore(xs) + ts == ts && pre + xs == pre by { NothingYielded(); }
      MoreStops(kind, pre, ts);
    } else {
      var tail := YieldMore(xs[1..]) + ts;
      ListParts(kind, xs);
      Cat3([Sym(Comma)], Yield(xs[0]), YieldMore(xs[1..]), ts);
      HeadTail(Sym(Comma), Yield(xs[0]) + tail);
      MoreLead(xs[1..], kind, ts);
      CompleteItem(kind, xs[0], tail);
      MoreStep(kind, pre, xs[0], Yield(xs[0]) + tail, tail);
      CompleteMore(kind, pre + [xs[0]], xs[1..], rest);
      assert pre + [xs[0]] + xs[1..] == pre + xs;
    }
  }

  lemma {:induction false} CompleteItem(kind: ListKind, x: Tree, rest: seq<Seen>)
    requires IsItem(kind, x) && Kind(rest) in {Comma, Closer(kind)}
    ensures ParseItem(kind, Yield(x) + rest) == Ok(x, rest)
    decreases x, 5
  {
    if IsOneToken(kind, x) {
      HeadTail(x.tok, rest);
    } else {
      LeadOfYield(x, rest);
      CompleteLongItem(kind, x, rest);
    }
  }

  predicate IsOneToken(kind: ListKind, x: Tree) {
    x.Leaf? && ((x.tok.klass == Dontcare && !kind.Exprs?) || (kind.TypeArgs? && IsNonTypeName(x.tok.klass)))
  }

  lemma {:induction false} CompleteLongItem(kind: ListKind, x: Tree, rest: seq<Seen>)
    requires IsItem(kind, x) && Kind(rest) in {Comma, Closer(kind)} && !IsOneToken(kind, x)
    requires Kind(Yield(x) + rest) == Lead(x)
    ensures ParseItem(kind, Yield(x) + rest) == Ok(x, rest)
    decreases x, 4
  {
    hide CarriesText; hide IsExpression; hide IsOpen;
    LongItem(kind, x);
    if kind.Exprs? || kind.Args? {
      FollowsStop(x, rest);
      CompleteStop(x, rest, 1);
    } else {
      CompleteType(x, rest);
    }
    LongItemParse(kind, Yield(x) + rest);
  }

  lemma LongItem(kind: ListKind, x: Tree)
    requires IsItem(kind, x) && !IsOneToken(kind, x)
    ensures if kind.Exprs? || kind.Args? then IsExpr(x, 1) && IsExpression(Lead(x)) else IsType(x) && IsTypeRef(Lead(x))
  {
    if kind.Exprs? || kind.Args? { ExprLead(x, 1); } else { TypeLead(x); }
  }

  lemma LongItemParse(kind: ListKind, ts: seq<Seen>)
    requires if kind.Exprs? || kind.Args? then IsExpression(Kind(ts)) else IsTypeRef(Kind(ts))
    ensures ParseItem(kind, ts) == if kind.Exprs? || kind.Args? then ParseExpr(ts, 1) else ParseType(ts)
  {
  }

  // ----- main results

  /** The parse is exactly the grammar: a tree is returned with remaining tokens `rest` if
      and only if it is a tree of the grammar for the threshold, spells the consumed tokens,
      may be followed by `rest`, and the operator loop stops there. */
  lemma ParseIffGrammar(ts: seq<Seen>, t: nat, c: Tree, rest: seq<Seen>)
    requires t >= 1
    ensures ParseExpr(ts, t) == Ok(c, rest) <==>
            IsExpr(c, t) && Yield(c) + rest == ts && Follows(c, rest) && Stops(rest, t)
  {
    if ParseExpr(ts, t) == Ok(c, rest) {
      SoundExpr(ts, t);
    }
    if IsExpr(c, t) && Yield(c) + rest == ts && Follows(c, rest) && Stops(rest, t) {
      CompleteStop(c, rest, t);
    }
  }

  /** Two readings of the same tokens are one reading. */
  lemma ParseIsUnique(c: Tree, rest: seq<Seen>, c': Tree, rest': seq<Seen>, t: nat)
    requires t >= 1 && Yield(c) + rest == Yield(c') + rest'
    requires IsExpr(c, t) && Follows(c, rest) && Stops(rest, t)
    requires IsExpr(c', t) && Follows(c', rest') && Stops(rest', t)
    ensures c == c' && rest == rest'
  {
    ParseIffGrammar(Yield(c) + rest, t, c, rest);
    ParseIffGrammar(Yield(c) + rest, t, c', rest');
  }
}
