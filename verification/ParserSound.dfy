/** Soundness: what the builders accept is a tree of the grammar that spells exactly the
    consumed tokens, and they stop only where the grammar says. */
module ParserSound {
  import opened Tokens
  import opened Grammar
  import opened ExprParser

  // ----- sequences of tokens

  lemma Cat2<T>(a: seq<T>, b: seq<T>, r: seq<T>)
    ensures (a + b) + r == a + (b + r)
  {
  }

  lemma Cat3<T>(a: seq<T>, b: seq<T>, c: seq<T>, r: seq<T>)
    ensures (a + (b + c)) + r == a + (b + (c + r))
  {
  }

  lemma Cat4<T>(a: seq<T>, b: seq<T>, c: seq<T>, d: seq<T>, r: seq<T>)
    ensures (a + (b + (c + d))) + r == a + (b + (c + (d + r)))
  {
  }

  lemma Cat5<T>(a: seq<T>, b: seq<T>, c: seq<T>, d: seq<T>, e: seq<T>, r: seq<T>)
    ensures (a + (b + (c + (d + e)))) + r == a + (b + (c + (d + (e + r))))
  {
    Cat3(c, d, e, r);
    Cat3(a, b, c + (d + e), r);
  }

  lemma Cat6<T>(a: seq<T>, b: seq<T>, c: seq<T>, d: seq<T>, e: seq<T>, f: seq<T>, r: seq<T>)
    ensures (a + (b + (c + (d + (e + f))))) + r == a + (b + (c + (d + (e + (f + r)))))
  {
    Cat5(b, c, d, e, f, r);
    Cat2(a, b + (c + (d + (e + f))), r);
  }

  lemma ShiftSecond(ts: seq<Seen>, k: TokenClass)
    requires |ts| > 1 && Kind(ts[1..]) == k && !CarriesText(k)
    ensures ts == [ts[0], Sym(k)] + ts[2..]
  {
  }

  lemma ShiftTwo(ts: seq<Seen>, k: TokenClass, l: TokenClass)
    requires |ts| > 1 && Kind(ts) == k && Kind(ts[1..]) == l && !CarriesText(k) && !CarriesText(l)
    ensures ts == [Sym(k), Sym(l)] + ts[2..]
  {
  }

  lemma ShiftToken(ts: seq<Seen>, k: TokenClass)
    requires Kind(ts) == k && ts != [] && !CarriesText(k)
    ensures ts == [Sym(k)] + ts[1..]
  {
  }

  lemma TreeClosed(p: Parse, k: TokenClass)
    requires Expect(p, k).Ok? && !CarriesText(k)
    ensures p.Ok? && p.rest != [] && Kind(p.rest) == k && p.rest == [Sym(k)] + p.rest[1..] && Expect(p, k) == Ok(p.tree, p.rest[1..])
  {
    hide CarriesText;
    ShiftToken(p.rest, k);
  }

  lemma ListClosed(p: ParseList, k: TokenClass)
    requires ExpectList(p, k).OkList? && !CarriesText(k)
    ensures p.OkList? && p.rest != [] && p.rest == [Sym(k)] + p.rest[1..] && ExpectList(p, k) == OkList(p.trees, p.rest[1..])
  {
    hide CarriesText;
    ShiftToken(p.rest, k);
  }

  /** Opening tokens, closing tokens and operators are known by their class. */
  lemma Symbols()
    ensures !CarriesText(ParenthOpen) && !CarriesText(ParenthClose) && !CarriesText(BraceOpen) && !CarriesText(BraceClose)
    ensures !CarriesText(BracketOpen) && !CarriesText(BracketClose) && !CarriesText(Colon)
    ensures !CarriesText(AngleOpen) && !CarriesText(AngleClose) && !CarriesText(TupleKw)
  {
  }

  lemma {:induction false} LeadIsFirst(c: Tree)
    ensures Yield(c)[0].klass == Lead(c)
  {
    match c
    case Specialized(b, _) => LeadIsFirst(b);
    case Stack(b, _) => LeadIsFirst(b);
    case Member(b, _) => LeadIsFirst(b);
    case Index(b, _) => LeadIsFirst(b);
    case Slice(b, _, _) => LeadIsFirst(b);
    case Call(b, _) => LeadIsFirst(b);
    case TypeApp(b, _) => LeadIsFirst(b);
    case KeyValue(k, _) => LeadIsFirst(k);
    case Binary(_, l, _) => LeadIsFirst(l);
    case _ =>
  }

  lemma FirstClasses(k: TokenClass)
    requires k in {TwoAmpersand, TwoPipe, TwoEqual, ExclamationEqual, AngleOpen, AngleClose}
    ensures BinaryClass(BinaryOf(k)) == k
  {
  }

  lemma MoreClasses(k: TokenClass)
    requires k in {AngleOpenEqual, AngleCloseEqual, Plus, Minus, Star, Slash}
    ensures BinaryClass(BinaryOf(k)) == k
  {
  }

  lemma LastClasses(k: TokenClass)
    requires k in {Ampersand, Pipe, Circumflex, TwoAngleOpen, TwoAngleClose, ThreeAmpersand}
    ensures BinaryClass(BinaryOf(k)) == k
  {
  }

  lemma ClassIsKept(k: TokenClass)
    requires IsBinaryOperator(k) && k != Equal
    ensures BinaryClass(BinaryOf(k)) == k
  {
    hide BinaryOf; hide BinaryClass;
    if k in {TwoAmpersand, TwoPipe, TwoEqual, ExclamationEqual, AngleOpen, AngleClose} {
      FirstClasses(k);
    } else if k in {AngleOpenEqual, AngleCloseEqual, Plus, Minus, Star, Slash} {
      MoreClasses(k);
    } else {
      LastClasses(k);
    }
  }

  lemma PriorityIsKept(op: BinOp)
    ensures Priority(op) == InfixPriority(BinaryClass(op)) && !CarriesText(BinaryClass(op))
  {
  }

  lemma BinaryClassOf(k: TokenClass)
    requires IsBinaryOperator(k) && k != Equal
    ensures BinaryClass(BinaryOf(k)) == k && Priority(BinaryOf(k)) == InfixPriority(k) && !CarriesText(k)
  {
    hide BinaryOf; hide BinaryClass; hide Priority; hide InfixPriority; hide CarriesText;
    ClassIsKept(k);
    PriorityIsKept(BinaryOf(k));
  }

  /** Before an infix operator the tree is not open, nor does it end bare before `<`. */
  lemma {:induction false} InfixFollows(c: Tree, ts: seq<Seen>)
    requires Follows(c, ts) && InfixAt(ts)
    ensures !IsOpen(c) && (Kind(ts) == AngleOpen ==> !EndsBare(c))
  {
    if c.Binary? {
      InfixFollows(c.right, ts);
    } else if IsGreedy(c) {
      BinaryClassOf(Kind(ts));
    }
  }

  lemma TypeFollows(c: Tree, ts: seq<Seen>)
    requires Follows(c, ts)
    ensures IsBareType(c) ==> Kind(ts) != AngleOpen && Kind(ts) != BracketOpen
    ensures TakesBracket(c) ==> Kind(ts) != BracketOpen
  {
    if c.Dotted? { assert Follows(c.name, ts); }
  }

  // ----- one parsed tree

  /** A tree accepted at threshold `t`: it spells what was consumed from `ts`. */
  ghost predicate Accepted(c: Tree, rest: seq<Seen>, ts: seq<Seen>, t: nat) {
    && IsExpr(c, t) && Yield(c) + rest == ts && Lead(c) == Kind(ts)
    && Follows(c, rest)
  }

  ghost predicate AcceptedType(c: Tree, rest: seq<Seen>, ts: seq<Seen>) {
    && IsType(c) && Yield(c) + rest == ts && Lead(c) == Kind(ts)
    && Follows(c, rest)
  }

  ghost predicate AcceptedList(kind: ListKind, xs: seq<Tree>, rest: seq<Seen>, ts: seq<Seen>) {
    IsList(kind, xs) && YieldList(xs) + rest == ts
  }

  /** A tree can be used at any threshold up to the priority of its root. */
  lemma Raise(c: Tree, t: nat, t': nat)
    requires IsExpr(c, t) && (c.Binary? ==> Priority(c.bop) >= t')
    ensures IsExpr(c, t')
  {
  }

  /** At a postfix operator the tree built so far is a postfix form. */
  lemma AtPostfix(left: Tree, ts: seq<Seen>, all: seq<Seen>, t: nat)
    requires Accepted(left, ts, all, t) && IsExprOperator(Kind(ts)) && !InfixAt(ts)
    ensures IsPostfixForm(left) && Accepted(left, ts, all, 1)
  {
    hide IsExpr; hide Yield;
    assert !Stops(ts, 1);
    Raise(left, t, 1);
  }

  /** A postfix operator and its operands behind an accepted tree. */
  lemma Append(left: Tree, c: Tree, tail: seq<Seen>, rest: seq<Seen>, ts: seq<Seen>, all: seq<Seen>, t: nat)
    requires Accepted(left, ts, all, 1) && IsExpr(c, t) && Follows(c, rest) && Lead(c) == Lead(left)
    requires Yield(c) == Yield(left) + tail && ts == tail + rest
    ensures Accepted(c, rest, all, t)
  {
    hide IsExpr; hide Follows; hide Lead; hide Yield; hide Kind;
    Cat2(Yield(left), tail, rest);
  }

  lemma IndexParts(b: Tree, i: Tree, t: nat, rest: seq<Seen>)
    requires IsPostfixForm(b) && !TakesBracket(b) && IsExpr(b, 1) && IsExpr(i, 1)
    ensures IsExpr(Index(b, i), t) && Follows(Index(b, i), rest) && Lead(Index(b, i)) == Lead(b)
    ensures Yield(Index(b, i)) == Yield(b) + ([Sym(BracketOpen)] + (Yield(i) + [Sym(BracketClose)]))
  {
    hide IsPostfixForm; hide TakesBracket;
  }

  lemma SliceParts(b: Tree, i: Tree, j: Tree, t: nat, rest: seq<Seen>)
    requires IsPostfixForm(b) && !TakesBracket(b) && IsExpr(b, 1) && IsExpr(i, 1) && IsExpr(j, 1)
    ensures IsExpr(Slice(b, i, j), t) && Follows(Slice(b, i, j), rest) && Lead(Slice(b, i, j)) == Lead(b)
    ensures Yield(Slice(b, i, j))
         == Yield(b) + ([Sym(BracketOpen)] + (Yield(i) + ([Sym(Colon)] + (Yield(j) + [Sym(BracketClose)]))))
  {
    hide IsPostfixForm; hide TakesBracket;
  }

  lemma CallParts(b: Tree, xs: seq<Tree>, t: nat, rest: seq<Seen>)
    requires IsPostfixForm(b) && IsExpr(b, 1) && IsList(Args, xs)
    ensures IsExpr(Call(b, xs), t) && Follows(Call(b, xs), rest) && Lead(Call(b, xs)) == Lead(b)
    ensures Yield(Call(b, xs)) == Yield(b) + ([Sym(ParenthOpen)] + (YieldList(xs) + [Sym(ParenthClose)]))
  {
    hide IsPostfixForm; hide IsList; hide YieldList;
  }

  lemma TypeAppParts(b: Tree, xs: seq<Tree>, t: nat, rest: seq<Seen>)
    requires IsPostfixForm(b) && !IsBareType(b) && IsExpr(b, 1) && xs != [] && IsList(RealTypeArgs, xs)
    ensures IsExpr(TypeApp(b, xs), t) && Follows(TypeApp(b, xs), rest) && Lead(TypeApp(b, xs)) == Lead(b)
    ensures Yield(TypeApp(b, xs)) == Yield(b) + ([Sym(AngleOpen)] + (YieldList(xs) + [Sym(AngleClose)]))
  {
    hide IsPostfixForm; hide IsList; hide YieldList; hide IsBareType;
  }

  lemma AddMember(left: Tree, n: Seen, rest: seq<Seen>, ts: seq<Seen>, all: seq<Seen>, t: nat)
    requires Accepted(left, ts, all, 1) && IsPostfixForm(left) && IsName(n.klass)
    requires ts == [Sym(DotPrefix), n] + rest
    ensures Accepted(Member(left, n), rest, all, t)
  {
    Cat2(Yield(left), [Sym(DotPrefix), n], rest);
  }

  lemma BracketBehind(c: Tree, ts: seq<Seen>)
    requires Follows(c, ts) && ts != [] && ts[0] == Sym(BracketOpen)
    ensures !TakesBracket(c)
  {
    hide Follows; hide TakesBracket;
    TypeFollows(c, ts);
  }

  lemma AngleBehind(c: Tree, ts: seq<Seen>)
    requires Follows(c, ts) && ts != [] && ts[0] == Sym(AngleOpen)
    ensures !IsBareType(c)
  {
    hide Follows; hide IsBareType;
    TypeFollows(c, ts);
  }

  lemma AddIndex(left: Tree, i: Tree, rest: seq<Seen>, ts: seq<Seen>, all: seq<Seen>, t: nat)
    requires Accepted(left, ts, all, 1) && IsPostfixForm(left) && IsExpr(i, 1)
    requires ts == [Sym(BracketOpen)] + (Yield(i) + ([Sym(BracketClose)] + rest))
    ensures Accepted(Index(left, i), rest, all, t)
  {
    assert IsExpr(left, 1) && Follows(left, ts);
    hide Accepted; hide IsExpr; hide Follows; hide Lead; hide Yield; hide IsPostfixForm; hide TakesBracket; hide IsBareType;
    hide Essence; hide YieldList; hide IsList;
    BracketBehind(left, ts);
    var tail := [Sym(BracketOpen)] + (Yield(i) + [Sym(BracketClose)]);
    Cat3([Sym(BracketOpen)], Yield(i), [Sym(BracketClose)], rest);
    IndexParts(left, i, t, rest);
    Append(left, Index(left, i), tail, rest, ts, all, t);
  }

  lemma AddSlice(left: Tree, i: Tree, j: Tree, rest: seq<Seen>, ts: seq<Seen>, all: seq<Seen>, t: nat)
    requires Accepted(left, ts, all, 1) && IsPostfixForm(left) && IsExpr(i, 1) && IsExpr(j, 1)
    requires ts == [Sym(BracketOpen)] + (Yield(i) + ([Sym(Colon)] + (Yield(j) + ([Sym(BracketClose)] + rest))))
    ensures Accepted(Slice(left, i, j), rest, all, t)
  {
    assert IsExpr(left, 1) && Follows(left, ts);
    hide Accepted; hide IsExpr; hide Follows; hide Lead; hide Yield; hide IsPostfixForm; hide TakesBracket; hide IsBareType;
    hide Essence; hide YieldList; hide IsList;
    BracketBehind(left, ts);
    var tail := [Sym(BracketOpen)] + (Yield(i) + ([Sym(Colon)] + (Yield(j) + [Sym(BracketClose)])));
    Cat5([Sym(BracketOpen)], Yield(i), [Sym(Colon)], Yield(j), [Sym(BracketClose)], rest);
    SliceParts(left, i, j, t, rest);
    Append(left, Slice(left, i, j), tail, rest, ts, all, t);
  }

  lemma AddCall(left: Tree, args: seq<Tree>, rest: seq<Seen>, ts: seq<Seen>, all: seq<Seen>, t: nat)
    requires Accepted(left, ts, all, 1) && IsPostfixForm(left) && IsList(Args, args)
    requires ts == [Sym(ParenthOpen)] + (YieldList(args) + ([Sym(ParenthClose)] + rest))
    ensures Accepted(Call(left, args), rest, all, t)
  {
    assert IsExpr(left, 1) && Follows(left, ts);
    hide Accepted; hide IsExpr; hide Follows; hide Lead; hide Yield; hide IsPostfixForm; hide TakesBracket; hide IsBareType;
    hide Essence; hide YieldList; hide IsList;
    var tail := [Sym(ParenthOpen)] + (YieldList(args) + [Sym(ParenthClose)]);
    Cat3([Sym(ParenthOpen)], YieldList(args), [Sym(ParenthClose)], rest);
    CallParts(left, args, t, rest);
    Append(left, Call(left, args), tail, rest, ts, all, t);
  }

  lemma AddTypeApp(left: Tree, args: seq<Tree>, rest: seq<Seen>, ts: seq<Seen>, all: seq<Seen>, t: nat)
    requires Accepted(left, ts, all, 1) && IsPostfixForm(left) && args != [] && IsList(RealTypeArgs, args)
    requires ts == [Sym(AngleOpen)] + (YieldList(args) + ([Sym(AngleClose)] + rest))
    ensures Accepted(TypeApp(left, args), rest, all, t)
  {
    assert IsExpr(left, 1) && Follows(left, ts);
    hide Accepted; hide IsExpr; hide Follows; hide Lead; hide Yield; hide IsPostfixForm; hide TakesBracket; hide IsBareType;
    hide Essence; hide YieldList; hide IsList;
    AngleBehind(left, ts);
    var tail := [Sym(AngleOpen)] + (YieldList(args) + [Sym(AngleClose)]);
    Cat3([Sym(AngleOpen)], YieldList(args), [Sym(AngleClose)], rest);
    TypeAppParts(left, args, t, rest);
    Append(left, TypeApp(left, args), tail, rest, ts, all, t);
  }

  lemma AddValue(left: Tree, v: Tree, rest: seq<Seen>, ts: seq<Seen>, all: seq<Seen>, t: nat)
    requires Accepted(left, ts, all, 1) && IsPostfixForm(left) && ts != [] && ts == [Sym(Equal)] + ts[1..]
    requires Accepted(v, rest, ts[1..], 1) && Stops(rest, 1)
    ensures Accepted(KeyValue(left, v), rest, all, t)
  {
    hide CarriesText;
    Cat3(Yield(left), [Sym(Equal)], Yield(v), rest);
  }

  lemma OperandsFit(left: Tree, op: BinOp, r: Tree, ts: seq<Seen>)
    requires InfixAt(ts) && ts != [] && Follows(left, ts) && Kind(ts) == BinaryClass(op) && Lead(r) == Kind(ts[1..])
    ensures LeftFits(op, left) && RightFits(op, r)
  {
    hide IsRealTypeArg; hide IsBinaryOperator; hide Lead;
    InfixFollows(left, ts);
  }

  lemma LeftPriority(left: Tree, op: BinOp, ts: seq<Seen>)
    requires InfixAt(ts) && Follows(left, ts) && Priority(op) == InfixPriority(Kind(ts))
    ensures left.Binary? ==> Priority(left.bop) >= Priority(op)
  {
    hide Priority; hide InfixPriority;
  }

  lemma BinaryIsExpr(op: BinOp, left: Tree, r: Tree, t: nat)
    requires t <= Priority(op) && IsExpr(left, Priority(op)) && IsExpr(r, Priority(op) + 1)
    requires LeftFits(op, left) && RightFits(op, r)
    ensures IsExpr(Binary(op, left, r), t)
  {
    hide LeftFits; hide RightFits; hide Priority;
  }

  lemma InfixParts(op: BinOp, l: Tree, r: Tree, rest: seq<Seen>)
    ensures Yield(Binary(op, l, r)) == Yield(l) + ([Sym(BinaryClass(op))] + Yield(r)) && Lead(Binary(op, l, r)) == Lead(l)
    ensures Follows(Binary(op, l, r), rest) <==> Stops(rest, Priority(op) + 1) && Follows(r, rest)
  {
    hide Stops; hide Priority;
  }

  lemma AddOperand(left: Tree, op: BinOp, r: Tree, rest: seq<Seen>, ts: seq<Seen>, all: seq<Seen>, t: nat)
    requires Accepted(left, ts, all, t) && InfixAt(ts) && ts == [Sym(BinaryClass(op))] + ts[1..]
    requires t <= Priority(op) == InfixPriority(Kind(ts))
    requires Accepted(r, rest, ts[1..], Priority(op) + 1) && Stops(rest, Priority(op) + 1)
    ensures Accepted(Binary(op, left, r), rest, all, t)
  {
    assert Kind(ts) == BinaryClass(op) by { hide CarriesText; hide BinaryClass; }
    InfixParts(op, left, r, rest);
    hide CarriesText; hide IsExpr; hide InfixAt; hide LeftFits; hide RightFits; hide Stops; hide InfixPriority;
    hide Yield; hide Lead; hide Follows; hide Priority; hide BinaryClass;
    OperandsFit(left, op, r, ts);
    LeftPriority(left, op, ts);
    Raise(left, t, Priority(op));
    BinaryIsExpr(op, left, r, t);
    Cat3(Yield(left), [Sym(BinaryClass(op))], Yield(r), rest);
  }

  lemma MakeBraces(es: seq<Tree>, rest: seq<Seen>, ts: seq<Seen>, t: nat)
    requires IsList(Exprs, es) && ts == [Sym(BraceOpen)] + (YieldList(es) + ([Sym(BraceClose)] + rest))
    ensures Accepted(Braces(es), rest, ts, t)
  {
    Cat3([Sym(BraceOpen)], YieldList(es), [Sym(BraceClose)], rest);
  }

  lemma GroupIsExpr(e: Tree, t: nat, rest: seq<Seen>)
    requires IsExpr(e, 1) && !IsTypeRef(Lead(e))
    ensures IsExpr(Group(e), t) && Lead(Group(e)) == ParenthOpen
    ensures Yield(Group(e)) == [Sym(ParenthOpen)] + Yield(e) + [Sym(ParenthClose)]
    ensures Follows(Group(e), rest)
  {
    hide IsTypeRef;
  }

  lemma MakeGroup(e: Tree, rest: seq<Seen>, ts: seq<Seen>, t: nat)
    requires IsExpr(e, 1) && !IsTypeRef(Lead(e))
    requires ts == [Sym(ParenthOpen)] + (Yield(e) + ([Sym(ParenthClose)] + rest))
    ensures Accepted(Group(e), rest, ts, t)
  {
    GroupIsExpr(e, t, rest);
    hide IsExpr; hide Yield; hide Lead; hide IsTypeRef; hide Follows; hide Essence; hide CarriesText;
    Cat3([Sym(ParenthOpen)], Yield(e), [Sym(ParenthClose)], rest);
  }

  lemma CastParts(ty: Tree, e: Tree, t: nat, rest: seq<Seen>)
    ensures IsExpr(Cast(ty, e), t) <==> IsType(ty) && IsExpr(e, 1)
    ensures Yield(Cast(ty, e)) == [Sym(ParenthOpen)] + (Yield(ty) + ([Sym(ParenthClose)] + Yield(e)))
    ensures Lead(Cast(ty, e)) == ParenthOpen && (Follows(Cast(ty, e), rest) <==> Stops(rest, 1) && Follows(e, rest))
  {
    hide IsType; hide Stops;
  }

  lemma MakeCast(ty: Tree, e: Tree, rest: seq<Seen>, ts: seq<Seen>, t: nat)
    requires IsType(ty) && IsExpr(e, 1) && Follows(e, rest) && Stops(rest, 1)
    requires ts == [Sym(ParenthOpen)] + (Yield(ty) + ([Sym(ParenthClose)] + (Yield(e) + rest)))
    ensures Accepted(Cast(ty, e), rest, ts, t)
  {
    CastParts(ty, e, t, rest);
    hide IsExpr; hide IsType; hide Yield; hide Follows; hide Stops; hide Lead; hide Essence;
    Cat4([Sym(ParenthOpen)], Yield(ty), [Sym(ParenthClose)], Yield(e), rest);
  }

  lemma UnaryParts(op: UnOp, e: Tree, t: nat, rest: seq<Seen>)
    ensures IsExpr(Unary(op, e), t) <==> IsExpr(e, 1)
    ensures Yield(Unary(op, e)) == [Sym(UnaryClass(op))] + Yield(e) && Lead(Unary(op, e)) == UnaryClass(op)
    ensures Follows(Unary(op, e), rest) <==> Stops(rest, 1) && Follows(e, rest)
  {
    hide Stops;
  }

  lemma MakeUnary(op: UnOp, e: Tree, rest: seq<Seen>, ts: seq<Seen>, t: nat)
    requires IsExpr(e, 1) && Follows(e, rest) && Stops(rest, 1)
    requires ts == [Sym(UnaryClass(op))] + (Yield(e) + rest)
    ensures Accepted(Unary(op, e), rest, ts, t)
  {
    UnaryParts(op, e, t, rest);
    assert !CarriesText(UnaryClass(op));
    hide IsExpr; hide Follows; hide Lead; hide Yield; hide Stops; hide CarriesText; hide UnaryClass;
    Cat2([Sym(UnaryClass(op))], Yield(e), rest);
  }

  lemma MakeLeaf(ts: seq<Seen>, t: nat)
    requires ts != [] && IsExprLeaf(Kind(ts))
    ensures Accepted(Leaf(ts[0]), ts[1..], ts, t)
  {
    hide ParseParenthesis;
    assert Yield(Leaf(ts[0])) == [ts[0]];
  }

  lemma TypeNameIsExpr(c: Tree, t: nat)
    requires IsTypeNameTree(c, false)
    ensures IsExpr(c, t)
  {
  }

  lemma MakeDotted(n: Tree, rest: seq<Seen>, ts: seq<Seen>, t: nat)
    requires (n.Leaf? && n.tok.klass == Identifier) || IsTypeNameTree(n, false)
    requires Follows(n, rest) && ts == [Sym(DotPrefix)] + (Yield(n) + rest)
    ensures Accepted(Dotted(n), rest, ts, t)
  {
    Cat2([Sym(DotPrefix)], Yield(n), rest);
  }

  lemma MakeSpecialized(b: Tree, args: seq<Tree>, dot: bool, rest: seq<Seen>, ts: seq<Seen>)
    requires IsPrefixedType(b, dot) && IsList(TypeArgs, args)
    requires ts == Yield(b) + ([Sym(AngleOpen)] + (YieldList(args) + ([Sym(AngleClose)] + rest)))
    ensures IsTypeNameTree(Specialized(b, args), dot) && Yield(Specialized(b, args)) + rest == ts
  {
    Cat4(Yield(b), [Sym(AngleOpen)], YieldList(args), [Sym(AngleClose)], rest);
  }

  lemma MakeStack(b: Tree, e: Tree, dot: bool, rest: seq<Seen>, ts: seq<Seen>)
    requires IsTypeNameTree(b, dot) && !b.Stack? && IsExpr(e, 1)
    requires ts == Yield(b) + ([Sym(BracketOpen)] + (Yield(e) + ([Sym(BracketClose)] + rest)))
    ensures IsTypeNameTree(Stack(b, e), dot) && Yield(Stack(b, e)) + rest == ts
    ensures Lead(Stack(b, e)) == Lead(b) && Follows(Stack(b, e), rest)
  {
    Cat4(Yield(b), [Sym(BracketOpen)], Yield(e), [Sym(BracketClose)], rest);
  }

  lemma MakeSized(tok: Seen, w: Tree, rest: seq<Seen>, ts: seq<Seen>)
    requires tok.klass in {Int, Bit, Varbit} && w.Leaf? && w.tok.klass == Integer
    requires ts == [tok, Sym(AngleOpen)] + (Yield(w) + ([Sym(AngleClose)] + rest))
    ensures AcceptedType(Sized(tok, w), rest, ts)
  {
    Cat3([tok, Sym(AngleOpen)], Yield(w), [Sym(AngleClose)], rest);
  }

  lemma MakeTuple(args: seq<Tree>, rest: seq<Seen>, ts: seq<Seen>)
    requires IsList(TypeArgs, args)
    requires ts == [Sym(TupleKw), Sym(AngleOpen)] + (YieldList(args) + ([Sym(AngleClose)] + rest))
    ensures AcceptedType(Tuple(args), rest, ts)
  {
    Cat3([Sym(TupleKw), Sym(AngleOpen)], YieldList(args), [Sym(AngleClose)], rest);
  }

  lemma {:induction false} SoundExpr(ts: seq<Seen>, t: nat)
    requires t >= 1 && ParseExpr(ts, t).Ok?
    ensures var p := ParseExpr(ts, t); Accepted(p.tree, p.rest, ts, t) && Stops(p.rest, t)
    decreases |ts|, 3
  {
    var p := ParsePrimary(ts);
    SoundPrimary(ts, t);
    SoundLoop(p.tree, p.rest, ts, t);
  }

  lemma {:induction false} SoundLoop(left: Tree, ts: seq<Seen>, all: seq<Seen>, t: nat)
    requires t >= 1 && ParseLoop(left, ts, t).Ok? && Accepted(left, ts, all, t)
    ensures var p := ParseLoop(left, ts, t); Accepted(p.tree, p.rest, all, t) && Stops(p.rest, t)
    decreases |ts|, 2
  {
    hide ParseExpr; hide ParsePostfix; hide Accepted; hide IsExprOperator; hide Essence;
    var k := Kind(ts);
    if IsExprOperator(k) {
      if !InfixAt(ts) {
        var p := ParsePostfix(left, ts);
        SoundPostfix(left, ts, all, t);
        SoundLoop(p.tree, p.rest, all, t);
      } else if InfixPriority(k) >= t {
        var p := ParseExpr(ts[1..], InfixPriority(k) + 1);
        BinaryClassOf(k);
        ShiftToken(ts, k);
        SoundExpr(ts[1..], InfixPriority(k) + 1);
        AddOperand(left, BinaryOf(k), p.tree, p.rest, ts, all, t);
        SoundLoop(Binary(BinaryOf(k), left, p.tree), p.rest, all, t);
      }
    }
  }

  lemma {:induction false} SoundPostfix(left: Tree, ts: seq<Seen>, all: seq<Seen>, t: nat)
    requires Accepted(left, ts, all, t) && IsExprOperator(Kind(ts)) && !InfixAt(ts) && ParsePostfix(left, ts).Ok?
    ensures var p := ParsePostfix(left, ts); Accepted(p.tree, p.rest, all, t)
    decreases |ts|, 1
  {
    hide Lead; hide Yield; hide ParseLoop; hide IsBinaryOperator;
    AtPostfix(left, ts, all, t);
    if Kind(ts) == DotPrefix {
      ShiftToken(ts, DotPrefix);
      AddMember(left, ts[1], ts[2..], ts, all, t);
    } else if Kind(ts) == BracketOpen {
      SoundBracket(left, ts, all, t);
    } else if Kind(ts) == Equal {
      ShiftToken(ts, Equal);
      SoundExpr(ts[1..], 1);
      var v := ParseExpr(ts[1..], 1);
      AddValue(left, v.tree, v.rest, ts, all, t);
    } else {
      SoundApplication(left, ts, all, t);
    }
  }

  lemma {:induction false} SoundApplication(left: Tree, ts: seq<Seen>, all: seq<Seen>, t: nat)
    requires Accepted(left, ts, all, 1) && IsPostfixForm(left) && IsExprOperator(Kind(ts)) && !InfixAt(ts)
    requires Kind(ts) in {ParenthOpen, AngleOpen} && ParsePostfix(left, ts).Ok?
    ensures var p := ParsePostfix(left, ts); Accepted(p.tree, p.rest, all, t)
    decreases |ts|, 0, 1
  {
    if Kind(ts) == ParenthOpen {
      SoundCall(left, ts, all, t);
    } else {
      TypeAppStep(left, ts);
      assert IsRealTypeArg(Kind(ts[1..])) by { hide ParsePostfix; hide ParseItems; hide Accepted; }
      assert StartsItem(RealTypeArgs, Kind(ts[1..])) by { hide ParsePostfix; hide ParseItems; hide Accepted; }
      hide *;
      Symbols();
      ShiftToken(ts, AngleOpen);
      ListClosed(ParseItems(RealTypeArgs, ts[1..]), AngleClose);
      ItemsYield(RealTypeArgs, ts[1..]);
      var args := ParseItems(RealTypeArgs, ts[1..]);
      AddTypeApp(left, args.trees, args.rest[1..], ts, all, t);
    }
  }

  lemma {:induction false} ItemsYield(kind: ListKind, ts: seq<Seen>)
    requires ParseItems(kind, ts).OkList?
    ensures var p := ParseItems(kind, ts);
            IsList(kind, p.trees) && YieldList(p.trees) + p.rest == ts && (StartsItem(kind, Kind(ts)) ==> p.trees != [])
    decreases |ts|, 7
  {
    hide ParseItems; hide IsList; hide YieldList; hide StartsItem;
    SoundItems(kind, ts);
  }

  lemma {:induction false} SoundCall(left: Tree, ts: seq<Seen>, all: seq<Seen>, t: nat)
    requires Accepted(left, ts, all, 1) && IsPostfixForm(left)
    requires Kind(ts) == ParenthOpen && ParsePostfix(left, ts).Ok?
    ensures var p := ParsePostfix(left, ts); Accepted(p.tree, p.rest, all, t)
    decreases |ts|, 0, 0
  {
    CallStep(left, ts);
    hide *;
    Symbols();
    ShiftToken(ts, ParenthOpen);
    ListClosed(ParseItems(Args, ts[1..]), ParenthClose);
    ItemsYield(Args, ts[1..]);
    var args := ParseItems(Args, ts[1..]);
    AddCall(left, args.trees, args.rest[1..], ts, all, t);
  }

  lemma BracketFirst(left: Tree, ts: seq<Seen>)
    requires ts != [] && ParseBracket(left, ts).Ok?
    ensures ParseExpr(ts[1..], 1).Ok?
  {
    hide ParseExpr;
  }

  lemma {:induction false} SoundBracket(left: Tree, ts: seq<Seen>, all: seq<Seen>, t: nat)
    requires Accepted(left, ts, all, 1) && IsPostfixForm(left) && Kind(ts) == BracketOpen && ParsePostfix(left, ts).Ok?
    ensures var p := ParsePostfix(left, ts); Accepted(p.tree, p.rest, all, t)
    decreases |ts|, 0
  {
    assert ts != [] && IsExprOperator(Kind(ts)) && !InfixAt(ts);
    hide *;
    Symbols();
    PostfixStep(left, ts);
    IndexStep(left, ts);
    SliceStep(left, ts);
    ShiftToken(ts, BracketOpen);
    BracketFirst(left, ts);
    ExprYield(ts[1..]);
    var i := ParseExpr(ts[1..], 1);
    if Kind(i.rest) == Colon {
      ShiftToken(i.rest, Colon);
      TreeClosed(ParseExpr(i.rest[1..], 1), BracketClose);
      ExprYield(i.rest[1..]);
      var j := ParseExpr(i.rest[1..], 1);
      AddSlice(left, i.tree, j.tree, j.rest[1..], ts, all, t);
    } else {
      TreeClosed(i, BracketClose);
      AddIndex(left, i.tree, i.rest[1..], ts, all, t);
    }
  }

  lemma LeafLeft(k: TokenClass)
    requires IsExpression(k)
    requires k !in {DotPrefix, BraceOpen, ParenthOpen, Exclamation, Tilda, TokenClass.UnaryMinus, TypeIdentifier}
    ensures IsExprLeaf(k)
  {
  }

  lemma {:induction false} SoundBraces(ts: seq<Seen>, t: nat)
    requires Kind(ts) == BraceOpen && ParsePrimary(ts).Ok?
    ensures var p := ParsePrimary(ts); Accepted(p.tree, p.rest, ts, t)
    decreases |ts|, 0
  {
    BracesStep(ts);
    hide *;
    Symbols();
    ShiftToken(ts, BraceOpen);
    ListClosed(ParseItems(Exprs, ts[1..]), BraceClose);
    ItemsYield(Exprs, ts[1..]);
    var es := ParseItems(Exprs, ts[1..]);
    MakeBraces(es.trees, es.rest[1..], ts, t);
  }

  lemma {:induction false} SoundTypePrimary(ts: seq<Seen>, t: nat)
    requires Kind(ts) == TypeIdentifier && ParsePrimary(ts).Ok?
    ensures var p := ParsePrimary(ts); Accepted(p.tree, p.rest, ts, t)
    decreases |ts|, 0, 3
  {
    hide ParsePrimary; hide ParseTypeName; hide IsExpr; hide IsTypeNameTree; hide Follows; hide Lead; hide Yield;
    PrimaryStep(ts);
    SoundTypeName(ts);
    TypeNameIsExpr(ParseTypeName(ts).tree, t);
  }

  lemma {:induction false} SoundPrimary(ts: seq<Seen>, t: nat)
    requires IsExpression(Kind(ts)) && ParsePrimary(ts).Ok?
    ensures var p := ParsePrimary(ts); Accepted(p.tree, p.rest, ts, t)
    decreases |ts|, 1
  {
    hide ParsePrimary; hide ParseDotted; hide ParseBraces; hide ParseParenthesis; hide ParseUnary; hide ParseTypeName;
    hide Accepted; hide IsExpression;
    var k := Kind(ts);
    PrimaryStep(ts);
    if k == DotPrefix {
      SoundDotted(ts, t);
    } else if k == BraceOpen {
      SoundBraces(ts, t);
    } else if k == ParenthOpen {
      SoundParenthesis(ts, t);
    } else if k == TypeIdentifier {
      SoundTypePrimary(ts, t);
    } else if k in {Exclamation, Tilda, TokenClass.UnaryMinus} {
      SoundUnary(ts, t);
    } else {
      assert IsExprLeaf(k) by { LeafLeft(k); }
      MakeLeaf(ts, t);
    }
  }

  lemma {:induction false} SoundUnary(ts: seq<Seen>, t: nat)
    requires Kind(ts) in {Exclamation, Tilda, TokenClass.UnaryMinus} && ParsePrimary(ts).Ok?
    ensures var p := ParsePrimary(ts); Accepted(p.tree, p.rest, ts, t)
    decreases |ts|, 0
  {
    hide Essence;
    var k := Kind(ts);
    ShiftToken(ts, k);
    SoundExpr(ts[1..], 1);
    var e := ParseExpr(ts[1..], 1);
    MakeUnary(UnaryOf(k), e.tree, e.rest, ts, t);
  }

  lemma {:induction false} SoundDotted(ts: seq<Seen>, t: nat)
    requires Kind(ts) == DotPrefix && ParsePrimary(ts).Ok?
    ensures var p := ParsePrimary(ts); Accepted(p.tree, p.rest, ts, t)
    decreases |ts|, 0
  {
    ShiftToken(ts, DotPrefix);
    if Kind(ts[1..]) == TypeIdentifier {
      SoundTypeName(ts[1..]);
      var n := ParseTypeName(ts[1..]);
      MakeDotted(n.tree, n.rest, ts, t);
    } else {
      assert ts == [Sym(DotPrefix)] + (Yield(Leaf(ts[1])) + ts[2..]);
      MakeDotted(Leaf(ts[1]), ts[2..], ts, t);
    }
  }

  lemma GroupAccepted(e: Tree, rest: seq<Seen>, ts: seq<Seen>, t: nat)
    requires ts != [] && ts == [Sym(ParenthOpen)] + ts[1..] && rest != [] && rest == [Sym(ParenthClose)] + rest[1..]
    requires Accepted(e, rest, ts[1..], 1) && !IsTypeRef(Kind(ts[1..]))
    ensures Accepted(Group(e), rest[1..], ts, t)
  {
    hide IsExpr; hide IsTypeRef; hide Follows; hide Lead; hide Yield;
    MakeGroup(e, rest[1..], ts, t);
  }

  lemma {:induction false} TypeYield(ts: seq<Seen>)
    requires ParseType(ts).Ok?
    ensures var p := ParseType(ts); IsType(p.tree) && Yield(p.tree) + p.rest == ts
    decreases |ts|, 7
  {
    hide ParseType; hide IsType; hide Yield; hide Follows; hide Lead;
    SoundType(ts);
  }

  lemma {:induction false} ExprFollows(ts: seq<Seen>)
    requires ParseExpr(ts, 1).Ok?
    ensures var p := ParseExpr(ts, 1);
            IsExpr(p.tree, 1) && Yield(p.tree) + p.rest == ts && Follows(p.tree, p.rest) && Stops(p.rest, 1)
    decreases |ts|, 7
  {
    hide ParseExpr; hide IsExpr; hide Yield; hide Follows; hide Lead; hide Stops;
    SoundExpr(ts, 1);
  }

  lemma {:induction false} SoundCast(ts: seq<Seen>, t: nat)
    requires Kind(ts) == ParenthOpen && IsTypeRef(Kind(ts[1..])) && ParsePrimary(ts).Ok?
    ensures var p := ParsePrimary(ts); Accepted(p.tree, p.rest, ts, t)
    decreases |ts|, 0, 0
  {
    assert ts != [] && IsExpression(Kind(ts));
    hide *;
    Symbols();
    CastStep(ts);
    PrimaryStep(ts);
    ShiftToken(ts, ParenthOpen);
    TreeClosed(ParseType(ts[1..]), ParenthClose);
    TypeYield(ts[1..]);
    var ty := ParseType(ts[1..]);
    ExprFollows(ty.rest[1..]);
    var e := ParseExpr(ty.rest[1..], 1);
    MakeCast(ty.tree, e.tree, e.rest, ts, t);
  }

  lemma {:induction false} SoundParenthesis(ts: seq<Seen>, t: nat)
    requires Kind(ts) == ParenthOpen && ParsePrimary(ts).Ok?
    ensures var p := ParsePrimary(ts); Accepted(p.tree, p.rest, ts, t)
    decreases |ts|, 0
  {
    hide ParsePrimary; hide ParseExpr; hide ParseType; hide Accepted; hide AcceptedType; hide Stops; hide IsTypeRef;
    hide ParseParenthesis;
    PrimaryStep(ts);
    ShiftToken(ts, ParenthOpen);
    if IsTypeRef(Kind(ts[1..])) {
      SoundCast(ts, t);
    } else {
      GroupStep(ts);
      SoundExpr(ts[1..], 1);
      var e := ParseExpr(ts[1..], 1);
      ShiftToken(e.rest, ParenthClose);
      GroupAccepted(e.tree, e.rest, ts, t);
    }
  }

  lemma {:induction false} ExprYield(ts: seq<Seen>)
    requires ParseExpr(ts, 1).Ok?
    ensures var p := ParseExpr(ts, 1); IsExpr(p.tree, 1) && Yield(p.tree) + p.rest == ts
    decreases |ts|, 7
  {
    hide ParseExpr; hide IsExpr; hide Yield; hide Follows; hide Lead;
    SoundExpr(ts, 1);
  }

  lemma {:induction false} SoundTypeName(ts: seq<Seen>)
    requires IsTypeName(Kind(ts)) && ParseTypeName(ts).Ok?
    ensures var p := ParseTypeName(ts);
            && IsTypeNameTree(p.tree, Kind(ts) == DotPrefix) && Yield(p.tree) + p.rest == ts
            && Lead(p.tree) == Kind(ts) && Follows(p.tree, p.rest)
    decreases |ts|, 0, 2
  {
    hide *;
    TypeNameStep(ts);
    var s := ParseSpecialized(ts);
    SoundSpecialized(ts);
    if Kind(s.rest) == BracketOpen {
      Symbols();
      ShiftToken(s.rest, BracketOpen);
      TreeClosed(ParseExpr(s.rest[1..], 1), BracketClose);
      ExprYield(s.rest[1..]);
      var e := ParseExpr(s.rest[1..], 1);
      MakeStack(s.tree, e.tree, Kind(ts) == DotPrefix, e.rest[1..], ts);
    }
  }

  lemma {:induction false} SoundSpecialized(ts: seq<Seen>)
    requires IsTypeName(Kind(ts)) && ParseSpecialized(ts).Ok?
    ensures var s := ParseSpecialized(ts);
            && IsTypeNameTree(s.tree, Kind(ts) == DotPrefix) && !s.tree.Stack? && Yield(s.tree) + s.rest == ts
            && Lead(s.tree) == Kind(ts) && (Kind(s.rest) != BracketOpen ==> Follows(s.tree, s.rest))
    decreases |ts|, 0, 1
  {
    SoundPrefixed(ts);
    var p := ParsePrefixedType(ts);
    if Kind(p.rest) == AngleOpen {
      SoundTypeArgs(p.tree, p.rest, ts, Kind(ts) == DotPrefix);
    }
  }

  lemma {:induction false} SoundTypeArgs(b: Tree, ts: seq<Seen>, all: seq<Seen>, dot: bool)
    requires IsPrefixedType(b, dot) && Yield(b) + ts == all
    requires Kind(ts) == AngleOpen && ExpectList(ParseItems(TypeArgs, ts[1..]), AngleClose).OkList?
    ensures var args := ExpectList(ParseItems(TypeArgs, ts[1..]), AngleClose);
            var s := Specialized(b, args.trees);
            IsTypeNameTree(s, dot) && Yield(s) + args.rest == all
    decreases |ts|, 8
  {
    assert ts != [];
    hide *;
    Symbols();
    ShiftToken(ts, AngleOpen);
    ListClosed(ParseItems(TypeArgs, ts[1..]), AngleClose);
    ItemsYield(TypeArgs, ts[1..]);
    var args := ParseItems(TypeArgs, ts[1..]);
    MakeSpecialized(b, args.trees, dot, args.rest[1..], all);
  }

  lemma SoundPrefixed(ts: seq<Seen>)
    requires ParsePrefixedType(ts).Ok?
    ensures var p := ParsePrefixedType(ts);
            && IsPrefixedType(p.tree, Kind(ts) == DotPrefix) && Yield(p.tree) + p.rest == ts
            && Lead(p.tree) == Kind(ts)
            && (Kind(p.rest) != AngleOpen && Kind(p.rest) != BracketOpen ==> Follows(p.tree, p.rest))
  {
    if Kind(ts) == DotPrefix {
      ShiftToken(ts, DotPrefix);
      assert Follows(Dotted(Leaf(ts[1])), ts[2..]) <==> Follows(Leaf(ts[1]), ts[2..]);
      assert ts == [Sym(DotPrefix)] + ([ts[1]] + ts[2..]);
      Cat2([Sym(DotPrefix)], [ts[1]], ts[2..]);
      assert Yield(Leaf(ts[1])) == [ts[1]];
    }
  }

  lemma {:induction false} TypeNameIsType(c: Tree, dot: bool)
    requires IsTypeNameTree(c, dot)
    ensures IsTypeNameTree(c, true) && IsType(c)
  {
    if c.Stack? && c.base.Specialized? { TypeNameIsType(c.base, dot); }
  }

  lemma {:induction false} SoundType(ts: seq<Seen>)
    requires ParseType(ts).Ok?
    ensures var p := ParseType(ts); AcceptedType(p.tree, p.rest, ts)
    decreases |ts|, 1
  {
    if Kind(ts) in {Int, Bit, Varbit} && Kind(ts[1..]) == AngleOpen {
      SoundSized(ts);
    } else if IsBaseType(Kind(ts)) {
    } else if IsTypeName(Kind(ts)) {
      SoundTypeName(ts);
      TypeNameIsType(ParseTypeName(ts).tree, Kind(ts) == DotPrefix);
    } else {
      SoundTuple(ts);
    }
  }

  lemma {:induction false} SoundSized(ts: seq<Seen>)
    requires Kind(ts) in {Int, Bit, Varbit} && Kind(ts[1..]) == AngleOpen && ParseType(ts).Ok?
    ensures var p := ParseType(ts); AcceptedType(p.tree, p.rest, ts)
    decreases |ts|, 0
  {
    assert ts[0].klass == Kind(ts) && IsBaseType(Kind(ts));
    hide *;
    Symbols();
    TypeStep(ts);
    SizedStep(ts);
    TreeClosed(ParseTypeSize(ts[2..]), AngleClose);
    SoundTypeSize(ts[2..]);
    var w := ParseTypeSize(ts[2..]);
    ShiftSecond(ts, AngleOpen);
    MakeSized(ts[0], w.tree, w.rest[1..], ts);
  }

  lemma TupleOpens(ts: seq<Seen>)
    requires ts != [] && ParseTuple(ts).Ok?
    ensures |ts| > 1 && Kind(ts[1..]) == AngleOpen
  {
    hide ParseItems; hide ExpectList;
  }

  lemma {:induction false} SoundTuple(ts: seq<Seen>)
    requires Kind(ts) == TupleKw && ParseType(ts).Ok?
    ensures var p := ParseType(ts); AcceptedType(p.tree, p.rest, ts)
    decreases |ts|, 0
  {
    assert ts != [];
    hide *;
    Symbols();
    TypeStep(ts);
    TupleOpens(ts);
    TupleIs(ts);
    ListClosed(ParseItems(TypeArgs, ts[2..]), AngleClose);
    ItemsYield(TypeArgs, ts[2..]);
    var args := ParseItems(TypeArgs, ts[2..]);
    ShiftTwo(ts, TupleKw, AngleOpen);
    MakeTuple(args.trees, args.rest[1..], ts);
  }

  /** A size in parentheses is never followed by `>`: the operator loop takes every `>`
      for a comparison, so only integer sizes get through build_baseType. */
  lemma {:induction false} SoundTypeSize(ts: seq<Seen>)
    requires ParseTypeSize(ts).Ok?
    ensures var p := ParseTypeSize(ts);
            && Yield(p.tree) + p.rest == ts
            && (Kind(p.rest) == AngleClose ==> p.tree.Leaf? && p.tree.tok.klass == Integer)
    decreases |ts|, 4
  {
    hide ParseType; hide ParseBracket; hide Essence;
    if Kind(ts) == ParenthOpen {
      SoundExpr(ts, 1);
    }
  }

  lemma {:induction false} SoundItems(kind: ListKind, ts: seq<Seen>)
    requires ParseItems(kind, ts).OkList?
    ensures var p := ParseItems(kind, ts);
            && AcceptedList(kind, p.trees, p.rest, ts)
            && (StartsItem(kind, Kind(ts)) ==> p.trees != [])
    decreases |ts|, 6
  {
    if StartsItem(kind, Kind(ts)) {
      var x := ParseItem(kind, ts);
      SoundItem(kind, ts);
      assert YieldList([x.tree]) == Yield(x.tree) + YieldMore([]) == Yield(x.tree);
      SoundMore(kind, [x.tree], x.rest, ts);
    }
  }

  lemma {:induction false} SoundMore(kind: ListKind, xs: seq<Tree>, ts: seq<Seen>, all: seq<Seen>)
    requires ParseMore(kind, xs, ts).OkList? && xs != [] && AcceptedList(kind, xs, ts, all)
    ensures var p := ParseMore(kind, xs, ts); p.trees != [] && AcceptedList(kind, p.trees, p.rest, all)
    decreases |ts|, 5
  {
    if Kind(ts) == Comma {
      ShiftToken(ts, Comma);
      var x := ParseItem(kind, ts[1..]);
      SoundItem(kind, ts[1..]);
      AppendItem(kind, xs, x.tree);
      Cat3(YieldList(xs), [Sym(Comma)], Yield(x.tree), x.rest);
      SoundMore(kind, xs + [x.tree], x.rest, all);
    }
  }

  lemma {:induction false} YieldAppend(xs: seq<Tree>, x: Tree)
    ensures YieldMore(xs + [x]) == YieldMore(xs) + ([Sym(Comma)] + Yield(x))
    decreases |xs|
  {
    hide Yield; hide Essence;
    if xs == [] {
      assert [x][1..] == [];
      assert [] + [x] == [x];
    } else {
      YieldAppend(xs[1..], x);
      assert (xs + [x])[1..] == xs[1..] + [x];
      Cat3([Sym(Comma)], Yield(xs[0]), YieldMore(xs[1..]), [Sym(Comma)] + Yield(x));
    }
  }

  lemma {:induction false} ListAppend(kind: ListKind, xs: seq<Tree>, x: Tree)
    ensures IsList(kind, xs + [x]) <==> IsList(kind, xs) && IsItem(kind, x)
    decreases |xs|
  {
    hide IsItem;
    if xs == [] {
      assert [x][1..] == [];
      assert [] + [x] == [x];
    } else {
      ListAppend(kind, xs[1..], x);
      assert (xs + [x])[1..] == xs[1..] + [x];
    }
  }

  lemma AppendItem(kind: ListKind, xs: seq<Tree>, x: Tree)
    requires xs != []
    ensures YieldList(xs + [x]) == YieldList(xs) + ([Sym(Comma)] + Yield(x))
    ensures IsList(kind, xs + [x]) <==> IsList(kind, xs) && IsItem(kind, x)
  {
    hide IsItem; hide IsList; hide Yield; hide Essence; hide YieldMore;
    ListAppend(kind, xs, x);
    YieldAppend(xs[1..], x);
    assert (xs + [x])[1..] == xs[1..] + [x];
    Cat2(Yield(xs[0]), YieldMore(xs[1..]), [Sym(Comma)] + Yield(x));
  }
  lemma {:induction false} SoundItem(kind: ListKind, ts: seq<Seen>)
    requires ParseItem(kind, ts).Ok?
    ensures var p := ParseItem(kind, ts);
            IsItem(kind, p.tree) && Yield(p.tree) + p.rest == ts
    decreases |ts|, 4
  {
    match kind
    case Exprs => SoundExpr(ts, 1);
    case Args => if Kind(ts) != Dontcare { SoundExpr(ts, 1); }
    case TypeArgs => if Kind(ts) != Dontcare && !IsNonTypeName(Kind(ts)) { SoundType(ts); }
    case RealTypeArgs => if Kind(ts) != Dontcare { SoundType(ts); }
  }
}
