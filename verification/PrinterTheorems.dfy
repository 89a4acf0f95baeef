/** The printer undoes the parser: whatever was parsed prints, the printed tree is in the
    grammar, strips to the same tree, and no spelling of that tree is shorter. */
module PrinterTheorems {
  import opened Tokens
  import opened Grammar
  import opened Printer
  import opened ExprParser
  import opened ParserSound
  import opened ParserComplete
  import opened Wrappers

  // ----- what the printed form of a tree keeps

  /** A tree and its printed form have the same kind of root. */
  predicate SameRoot(c: Tree, p: Tree) {
    && !p.Group?
    && (p.Binary? <==> c.Binary?) && (p.Binary? ==> p.bop == c.bop)
    && (IsGreedy(p) <==> IsGreedy(c)) && (IsNegation(p) <==> IsNegation(c))
    && (IsBareType(p) <==> IsBareType(c)) && (TakesBracket(p) <==> TakesBracket(c))
  }

  /** The printed form ends in something that the tree itself had closed off. */
  predicate NeedsSeal(c: Tree, p: Tree) {
    (IsOpen(p) && !IsOpen(c)) || (EndsBare(p) && !EndsBare(c))
  }

  predicate SameLead(c: Tree, p: Tree) {
    IsTypeRef(Lead(p)) <==> IsTypeRef(Lead(c))
  }

  /** `p` is a printed form of the expression `c`, possibly without groups around it. */
  ghost predicate Reprints(c: Tree, r: Option<Tree>) {
    && r.Some? && IsExpr(r.value, 1) && MinusFits(r.value, true) && SameLead(c, r.value)
    && (if c.Group? then |Yield(r.value)| + 2 <= |Yield(c)|
        else |Yield(r.value)| <= |Yield(c)| && SameRoot(c, r.value))
    && (NeedsSeal(c, r.value) ==> Seal(r.value).Some? && |Yield(r.value)| + 2 <= |Yield(c)|)
  }

  ghost predicate ReprintsType(c: Tree, r: Option<Tree>) {
    && r.Some? && MinusFits(r.value, false) && |Yield(r.value)| <= |Yield(c)|
    && (IsType(c) ==> IsType(r.value))
    && (IsTypeNameTree(c, false) ==> IsTypeNameTree(r.value, false))
    && (IsTypeNameTree(c, true) ==> IsTypeNameTree(r.value, true))
    && (IsPrefixedType(c, true) ==> r.value == c)
    && (r.value.Specialized? <==> c.Specialized?) && (r.value.Stack? <==> c.Stack?)
  }

  ghost predicate Fits(c: Tree, r: Option<Tree>, t: nat, afterParen: bool) {
    && r.Some? && IsExpr(r.value, t) && MinusFits(r.value, afterParen) && SameLead(c, r.value)
    && |Yield(r.value)| <= |Yield(c)|
  }

  ghost predicate FitsList(kind: ListKind, xs: seq<Tree>, r: Option<seq<Tree>>, afterParen: bool) {
    && r.Some? && IsList(kind, r.value) && MinusFitsAll(r.value, afterParen)
    && |YieldList(r.value)| <= |YieldList(xs)| && |YieldMore(r.value)| <= |YieldMore(xs)|
    && |r.value| == |xs|
  }

  // ----- unary minus

  lemma {:induction false} MinusMonotone(c: Tree, afterParen: bool)
    requires MinusFits(c, false)
    ensures MinusFits(c, afterParen)
  {
    match c
    case Member(b, _) => MinusMonotone(b, afterParen);
    case Index(b, _) => MinusMonotone(b, afterParen);
    case Slice(b, _, _) => MinusMonotone(b, afterParen);
    case Call(b, _) => MinusMonotone(b, afterParen);
    case TypeApp(b, _) => MinusMonotone(b, afterParen);
    case KeyValue(k, _) => MinusMonotone(k, afterParen);
    case Binary(_, l, _) => MinusMonotone(l, afterParen);
    case _ =>
  }

  /** Only a negation at the root wants the parenthesis in front of it. */
  lemma {:induction false} MinusAtRoot(c: Tree, t: nat)
    requires IsExpr(c, t) && MinusFits(c, true) && !IsNegation(c)
    ensures MinusFits(c, false)
  {
    match c
    case Member(b, _) => MinusAtRoot(b, 1);
    case Index(b, _) => MinusAtRoot(b, 1);
    case Slice(b, _, _) => MinusAtRoot(b, 1);
    case Call(b, _) => MinusAtRoot(b, 1);
    case TypeApp(b, _) => MinusAtRoot(b, 1);
    case KeyValue(k, _) => MinusAtRoot(k, 1);
    case Binary(op, l, _) => MinusAtRoot(l, Priority(op));
    case _ =>
  }

  // ----- places

  lemma GroupLength(c: Tree)
    ensures |Yield(Group(c))| == |Yield(c)| + 2
  {
  }

  lemma FitExpr(c: Tree, r: Option<Tree>, fits: bool, t: nat, afterParen: bool)
    requires Reprints(c, r)
    requires fits ==> IsExpr(r.value, t) && MinusFits(r.value, afterParen)
    requires !fits ==> c.Group?  && !IsTypeRef(Lead(c))
    ensures Fits(c, Fit(r.value, fits), t, afterParen)
  {
    GroupLength(r.value);
  }

  lemma GroupLead(c: Tree, t: nat)
    requires IsExpr(c, t) && c.Group?
    ensures !IsTypeRef(Lead(c)) && !IsTypeRef(Lead(c.inner))
  {
  }

  lemma FreePlace(x: Tree, afterParen: bool)
    requires IsExpr(x, 1) && MinusFits(x, afterParen) && Reprints(x, Bare(Strip(x)))
    ensures Fits(x, Free(Strip(x), afterParen), 1, afterParen)
  {
    var r := Bare(Strip(x));
    var fits := afterParen || !IsNegation(r.value);
    if fits {
      if !afterParen { MinusAtRoot(r.value, 1); }
    } else {
      assert x.Group?;
    }
    FitExpr(x, r, fits, 1, afterParen);
  }

  lemma RootPriority(c: Tree, t: nat)
    requires IsExpr(c, t)
    ensures c.Binary? ==> Priority(c.bop) >= t
  {
    hide Priority; hide IsList; hide IsType; hide IsTypeNameTree;
  }

  lemma NotNegation(c: Tree)
    requires MinusFits(c, false)
    ensures !IsNegation(c)
  {
    hide MinusFitsAll;
  }

  lemma GroupAtBase(p: Tree, next: TokenClass)
    ensures FitsBase(Group(p), next)
  {
  }

  lemma BasePlace(x: Tree, next: TokenClass, afterParen: bool)
    requires IsExpr(x, 1) && Reprints(x, Bare(Strip(x))) && FitsBase(x, next)
    ensures var r := Base(Strip(x), next); Fits(x, r, 1, false) && FitsBase(r.value, next)
  {
    hide IsExpr; hide MinusFits; hide Yield; hide Bare; hide Strip; hide NeedsSeal; hide Lead; hide IsTypeRef;
    hide IsBareType; hide TakesBracket;
    var r := Bare(Strip(x));
    if FitsBase(r.value, next) {
      assert !IsNegation(r.value);
      MinusAtRoot(r.value, 1);
    } else {
      assert x.Group?;
      GroupLead(x, 1);
      FitExpr(x, r, false, 1, false);
      GroupAtBase(r.value, next);
    }
  }

  lemma GroupAtRight(op: BinOp, p: Tree)
    ensures RightFits(op, Group(p))
  {
  }

  lemma RightPlace(x: Tree, op: BinOp)
    requires IsExpr(x, Priority(op) + 1) && RightFits(op, x) && MinusFits(x, false) && Reprints(x, Bare(Strip(x)))
    ensures var p := Bare(Strip(x)).value; var r := Fit(p, FitsRight(op, p));
            Fits(x, r, Priority(op) + 1, false) && RightFits(op, r.value)
  {
    hide IsExpr; hide MinusFits; hide Yield; hide Bare; hide Strip; hide NeedsSeal; hide Priority; hide Lead; hide IsTypeRef;
    hide IsRealTypeArg; hide IsGreedy; hide IsBareType; hide TakesBracket; hide IsNegation;
    var r := Bare(Strip(x));
    NoDontcareLead(r.value, 1);
    NoDontcareLead(x, Priority(op) + 1);
    RootPriority(x, Priority(op) + 1);
    NotNegation(x);
    if FitsRight(op, r.value) {
      MinusAtRoot(r.value, 1);
      Raise(r.value, 1, Priority(op) + 1);
    } else {
      assert x.Group?;
      GroupLead(x, Priority(op) + 1);
      FitExpr(x, r, false, Priority(op) + 1, false);
      GroupAtRight(op, r.value);
    }
  }

  lemma NoDontcareLead(c: Tree, t: nat)
    requires IsExpr(c, t)
    ensures IsRealTypeArg(Lead(c)) <==> IsTypeRef(Lead(c))
  {
    ExprLead(c, t);
  }

  /** Sealing closes a tree off without touching its root priority. */
  lemma {:induction false} SealCloses(c: Tree, t: nat)
    requires IsExpr(c, t) && MinusFits(c, true) && Seal(c).Some?
    ensures var s := Seal(c).value;
            && IsExpr(s, t) && !IsOpen(s) && !EndsBare(s) && MinusFits(s, false) && SameLead(c, s)
            && |Yield(s)| == |Yield(c)| + 2
    decreases c, 1
  {
    if !IsTypeRef(Lead(c)) {
      GroupLength(c);
    } else {
      SealRight(c, t);
    }
  }

  lemma {:induction false} SealRight(c: Tree, t: nat)
    requires IsExpr(c, t) && MinusFits(c, true) && Seal(c).Some? && IsTypeRef(Lead(c))
    ensures var s := Seal(c).value;
            && IsExpr(s, t) && !IsOpen(s) && !EndsBare(s) && MinusFits(s, false) && SameLead(c, s)
            && |Yield(s)| == |Yield(c)| + 2
    decreases c, 0
  {
    MinusMonotone(c.right, true);
    SealCloses(c.right, Priority(c.bop) + 1);
    NoDontcareLead(c.right, Priority(c.bop) + 1);
    NoDontcareLead(Seal(c.right).value, Priority(c.bop) + 1);
    MinusAtRoot(c.left, Priority(c.bop));
  }

  lemma GroupAtLeft(op: BinOp, p: Tree)
    ensures LeftFits(op, Group(p))
  {
  }

  lemma NotOpen(op: BinOp, p: Tree)
    requires LeftFits(op, p)
    ensures !IsNegation(p)
  {
    hide EndsBare;
  }

  lemma LeftPlace(x: Tree, op: BinOp)
    requires IsExpr(x, Priority(op)) && LeftFits(op, x) && Reprints(x, Bare(Strip(x)))
    ensures var r := FitLeft(op, Bare(Strip(x)).value);
            Fits(x, r, Priority(op), false) && LeftFits(op, r.value)
  {
    hide IsExpr; hide MinusFits; hide Yield; hide Bare; hide Strip; hide NeedsSeal; hide Priority; hide Lead; hide IsTypeRef;
    hide IsBareType; hide TakesBracket; hide Seal; hide LeftFits; hide IsNegation;
    var r := Bare(Strip(x));
    var p := r.value;
    RootPriority(x, Priority(op));
    if p.Binary? && Priority(p.bop) < Priority(op) {
      assert x.Group?;
      GroupLead(x, Priority(op));
      FitExpr(x, r, false, Priority(op), false);
      GroupAtLeft(op, p);
    } else if LeftFits(op, p) {
      NotOpen(op, p);
      MinusAtRoot(p, 1);
      Raise(p, 1, Priority(op));
    } else {
      LeftSealed(x, op, p);
    }
  }

  lemma LeftSealed(x: Tree, op: BinOp, p: Tree)
    requires LeftFits(op, x) && Reprints(x, Some(p)) && !LeftFits(op, p)
    requires p.Binary? ==> Priority(p.bop) >= Priority(op)
    ensures var r := Seal(p); Fits(x, r, Priority(op), false) && LeftFits(op, r.value)
  {
    assert NeedsSeal(x, p);
    Raise(p, 1, Priority(op));
    SealCloses(p, Priority(op));
  }

  // ----- expressions

  lemma ReprintLeaf(tok: Seen, t: nat)
    requires IsExpr(Leaf(tok), t)
    ensures Reprints(Leaf(tok), Bare(Strip(Leaf(tok))))
  {
    hide IsExprLeaf; hide IsTypeRef;
  }

  lemma TypeNameMinus(c: Tree)
    requires (c.Specialized? || c.Stack?) && MinusFits(c, true)
    ensures MinusFits(c, false)
  {
    hide MinusFitsAll;
  }

  lemma {:induction false} ReprintBraces(es: seq<Tree>)
    requires IsList(Exprs, es) && MinusFitsAll(es, false)
    ensures Reprints(Braces(es), Bare(Strip(Braces(es))))
    decreases Braces(es), 0
  {
    hide IsList; hide MinusFitsAll; hide YieldList; hide BareAll; hide StripAll; hide IsTypeRef;
    ReprintList(Exprs, es, false);
  }

  lemma CastIsExpr(ty: Tree, e: Tree)
    ensures IsExpr(Cast(ty, e), 1) <==> IsType(ty) && IsExpr(e, 1)
    ensures MinusFits(ty, false) && MinusFits(e, false) ==> MinusFits(Cast(ty, e), true)
    ensures |Yield(Cast(ty, e))| == |Yield(ty)| + |Yield(e)| + 2
  {
    hide IsType;
  }

  lemma CastBare(ty: Tree, e: Tree)
    requires Bare(Strip(ty)).Some? && Free(Strip(e), false).Some?
    ensures Bare(Strip(Cast(ty, e))) == Some(Cast(Bare(Strip(ty)).value, Free(Strip(e), false).value))
  {
    hide Free;
  }

  lemma CastParts(ty: Tree, e: Tree, q: Option<Tree>, r: Option<Tree>)
    requires q == Bare(Strip(ty)) && r == Free(Strip(e), false)
    requires IsType(ty) && ReprintsType(ty, q) && Fits(e, r, 1, false)
    ensures Reprints(Cast(ty, e), Bare(Strip(Cast(ty, e))))
  {
    hide IsExpr; hide IsType; hide MinusFits; hide Yield; hide Bare; hide Strip; hide Free; hide SameLead; hide SameRoot;
    hide NeedsSeal; hide Reprints; hide IsTypeNameTree; hide IsPrefixedType;
    var ty', e' := q.value, r.value;
    CastBare(ty, e);
    CastIsExpr(ty, e);
    CastIsExpr(ty', e');
    PrefixRoot(Negate, e, e', ty, ty');
    FormReprints(Cast(ty, e), Cast(ty', e'));
  }

  lemma {:induction false} ReprintCast(ty: Tree, e: Tree)
    requires IsType(ty) && IsExpr(e, 1) && MinusFits(ty, false) && MinusFits(e, false)
    ensures Reprints(Cast(ty, e), Bare(Strip(Cast(ty, e))))
    decreases Cast(ty, e), 0
  {
    hide IsExpr; hide IsType; hide MinusFits; hide Yield; hide Bare; hide Strip; hide Free; hide SameLead; hide SameRoot;
    hide NeedsSeal; hide ReprintsType; hide Reprints;
    ReprintType(ty);
    ReprintFree(e, false);
    CastParts(ty, e, Bare(Strip(ty)), Free(Strip(e), false));
  }

  lemma UnaryIsExpr(op: UnOp, e: Tree)
    ensures IsExpr(Unary(op, e), 1) <==> IsExpr(e, 1)
    ensures MinusFits(e, false) ==> MinusFits(Unary(op, e), true)
    ensures |Yield(Unary(op, e))| == |Yield(e)| + 1
  {
  }

  lemma PrefixRoot(op: UnOp, e: Tree, e': Tree, ty: Tree, ty': Tree)
    ensures SameLead(Unary(op, e), Unary(op, e')) && SameRoot(Unary(op, e), Unary(op, e'))
    ensures !NeedsSeal(Unary(op, e), Unary(op, e'))
    ensures SameLead(Cast(ty, e), Cast(ty', e')) && SameRoot(Cast(ty, e), Cast(ty', e'))
    ensures !NeedsSeal(Cast(ty, e), Cast(ty', e'))
  {
    hide IsTypeRef;
  }

  lemma UnaryBare(op: UnOp, e: Tree)
    requires Free(Strip(e), false).Some?
    ensures Bare(Strip(Unary(op, e))) == Some(Unary(op, Free(Strip(e), false).value))
  {
    hide Free;
  }

  lemma UnaryParts(op: UnOp, e: Tree, r: Option<Tree>)
    requires r == Free(Strip(e), false) && Fits(e, r, 1, false)
    ensures Reprints(Unary(op, e), Bare(Strip(Unary(op, e))))
  {
    hide IsExpr; hide IsType; hide MinusFits; hide Yield; hide Bare; hide Strip; hide Free; hide SameLead; hide SameRoot;
    hide NeedsSeal; hide Reprints; hide Lead;
    var e' := r.value;
    UnaryBare(op, e);
    UnaryIsExpr(op, e);
    UnaryIsExpr(op, e');
    PrefixRoot(op, e, e', e, e');
    FormReprints(Unary(op, e), Unary(op, e'));
  }

  lemma {:induction false} ReprintUnary(op: UnOp, e: Tree)
    requires IsExpr(e, 1) && MinusFits(e, false)
    ensures Reprints(Unary(op, e), Bare(Strip(Unary(op, e))))
    decreases Unary(op, e), 0
  {
    hide IsExpr; hide IsType; hide MinusFits; hide Yield; hide Bare; hide Strip; hide Free; hide SameLead; hide SameRoot;
    hide NeedsSeal; hide ReprintsType; hide Reprints;
    ReprintFree(e, false);
    UnaryParts(op, e, Free(Strip(e), false));
  }

  lemma {:induction false} ReprintExpr(c: Tree, t: nat)
    requires IsExpr(c, t) && MinusFits(c, true)
    ensures Reprints(c, Bare(Strip(c)))
    decreases c, 2
  {
    hide Reprints; hide Bare; hide Yield; hide IsType; hide IsTypeNameTree; hide IsList; hide MinusFitsAll; hide IsPostfixForm;
    hide TakesBracket; hide IsBareType; hide LeftFits; hide RightFits; hide IsExprLeaf; hide IsTypeRef; hide Lead;
    match c
    case Leaf(tok) => ReprintLeaf(tok, t);
    case Dotted(x) => ReprintDotted(x, t);
    case Specialized(_, _) => TypeNameMinus(c); ReprintTypeName(c);
    case Stack(_, _) => TypeNameMinus(c); ReprintTypeName(c);
    case Braces(es) => ReprintBraces(es);
    case Group(e) => ReprintGroup(e, t);
    case Cast(ty, e) => ReprintCast(ty, e);
    case Unary(op, e) => ReprintUnary(op, e);
    case Binary(op, l, r) => ReprintBinary(op, l, r, t);
    case Member(_, _) => ReprintPostfix(c, t);
    case Index(_, _) => ReprintPostfix(c, t);
    case Slice(_, _, _) => ReprintPostfix(c, t);
    case Call(_, _) => ReprintPostfix(c, t);
    case TypeApp(_, _) => ReprintPostfix(c, t);
    case KeyValue(_, _) => ReprintPostfix(c, t);
  }

  lemma {:induction false} ReprintFree(x: Tree, afterParen: bool)
    requires IsExpr(x, 1) && MinusFits(x, afterParen)
    ensures Fits(x, Free(Strip(x), afterParen), 1, afterParen)
    decreases x, 3
  {
    if !afterParen { MinusMonotone(x, true); }
    ReprintExpr(x, 1);
    FreePlace(x, afterParen);
  }

  lemma {:induction false} ReprintBase(x: Tree, next: TokenClass)
    requires IsExpr(x, 1) && MinusFits(x, true) && FitsBase(x, next)
    ensures var r := Base(Strip(x), next); Fits(x, r, 1, false) && FitsBase(r.value, next)
    decreases x, 3
  {
    ReprintExpr(x, 1);
    BasePlace(x, next, true);
  }

  lemma GroupParts(e: Tree, t: nat)
    requires IsExpr(Group(e), t) && MinusFits(Group(e), true)
    ensures IsExpr(e, 1) && !IsTypeRef(Lead(e)) && MinusFits(e, true) && Strip(Group(e)) == Strip(e)
  {
    hide IsTypeRef; hide Lead;
  }

  lemma GroupReprints(e: Tree, r: Option<Tree>)
    requires Reprints(e, r) && !IsTypeRef(Lead(e))
    ensures Reprints(Group(e), r)
  {
    hide IsExpr; hide MinusFits; hide Yield;
    GroupLength(e);
  }

  lemma {:induction false} ReprintGroup(e: Tree, t: nat)
    requires IsExpr(Group(e), t) && MinusFits(Group(e), true)
    ensures Reprints(Group(e), Bare(Strip(Group(e))))
    decreases Group(e), 0
  {
    GroupParts(e, t);
    hide *;
    ReprintExpr(e, 1);
    GroupReprints(e, Bare(Strip(e)));
  }

  lemma {:induction false} ReprintPostfix(c: Tree, t: nat)
    requires IsExpr(c, t) && MinusFits(c, true)
    requires c.Member? || c.Index? || c.Slice? || c.Call? || c.TypeApp? || c.KeyValue?
    ensures Reprints(c, Bare(Strip(c)))
    decreases c, 1
  {
    match c
    case Member(b, n) =>
      ReprintBase(b, DotPrefix);
      JoinMember(b, n, Base(Strip(b), DotPrefix).value);
    case Index(b, i) =>
      ReprintBase(b, BracketOpen);
      ReprintFree(i, false);
      JoinIndex(b, i, Base(Strip(b), BracketOpen).value, Free(Strip(i), false).value);
    case Slice(b, i, j) =>
      ReprintBase(b, BracketOpen);
      ReprintFree(i, false);
      ReprintFree(j, false);
      JoinSlice(b, i, j, Base(Strip(b), BracketOpen).value, Free(Strip(i), false).value, Free(Strip(j), false).value);
    case Call(b, args) =>
      ReprintBase(b, ParenthOpen);
      ReprintList(Args, args, true);
      JoinCall(b, args, Base(Strip(b), ParenthOpen).value, BareAll(StripAll(args), true).value);
    case TypeApp(b, args) =>
      ReprintBase(b, AngleOpen);
      ReprintList(RealTypeArgs, args, false);
      JoinTypeApp(b, args, Base(Strip(b), AngleOpen).value, BareAll(StripAll(args), false).value);
    case KeyValue(k, v) =>
      ReprintBase(k, Equal);
      ReprintFree(v, false);
      JoinValue(k, v, Base(Strip(k), Equal).value, Free(Strip(v), false).value);
  }

  /** A postfix form is reprinted as the same kind of form. */
  lemma FormReprints(c: Tree, p: Tree)
    requires IsExpr(p, 1) && MinusFits(p, true) && SameLead(c, p) && SameRoot(c, p) && |Yield(p)| <= |Yield(c)|
    requires !c.Group? && !NeedsSeal(c, p)
    ensures Reprints(c, Some(p))
  {
    hide IsExpr; hide MinusFits; hide SameLead; hide SameRoot; hide Yield; hide NeedsSeal;
  }

  // ----- postfix forms and key-value pairs from their parts

  lemma MemberIsExpr(b: Tree, n: Seen)
    ensures IsExpr(Member(b, n), 1) <==> IsPostfixForm(b) && IsExpr(b, 1) && IsName(n.klass)
  {
    hide IsPostfixForm; hide TakesBracket; hide IsBareType; hide IsList; hide IsName;
  }

  lemma IndexIsExpr(b: Tree, i: Tree)
    ensures IsExpr(Index(b, i), 1) <==> IsPostfixForm(b) && !TakesBracket(b) && IsExpr(b, 1) && IsExpr(i, 1)
  {
    hide IsPostfixForm; hide TakesBracket; hide IsBareType; hide IsList; hide IsName;
  }

  lemma SliceIsExpr(b: Tree, i: Tree, j: Tree)
    ensures IsExpr(Slice(b, i, j), 1) <==> IsPostfixForm(b) && !TakesBracket(b) && IsExpr(b, 1) && IsExpr(i, 1) && IsExpr(j, 1)
  {
    hide IsPostfixForm; hide TakesBracket; hide IsBareType; hide IsList; hide IsName;
  }

  lemma CallIsExpr(b: Tree, xs: seq<Tree>)
    ensures IsExpr(Call(b, xs), 1) <==> IsPostfixForm(b) && IsExpr(b, 1) && IsList(Args, xs)
  {
    hide IsPostfixForm; hide TakesBracket; hide IsBareType; hide IsList; hide IsName;
  }

  lemma TypeAppIsExpr(b: Tree, xs: seq<Tree>)
    ensures IsExpr(TypeApp(b, xs), 1) <==> IsPostfixForm(b) && !IsBareType(b) && IsExpr(b, 1) && xs != [] && IsList(RealTypeArgs, xs)
  {
    hide IsPostfixForm; hide TakesBracket; hide IsBareType; hide IsList; hide IsName;
  }

  lemma KeyValueIsExpr(k: Tree, v: Tree)
    ensures IsExpr(KeyValue(k, v), 1) <==> IsPostfixForm(k) && IsExpr(k, 1) && IsExpr(v, 1)
  {
    hide IsPostfixForm; hide TakesBracket; hide IsBareType; hide IsList; hide IsName;
  }

  lemma FormsMinus(b: Tree, n: Seen, i: Tree, j: Tree, xs: seq<Tree>)
    requires MinusFits(b, false)
    ensures MinusFits(Member(b, n), true)
    ensures MinusFits(i, false) ==> MinusFits(Index(b, i), true) && MinusFits(KeyValue(b, i), true)
    ensures MinusFits(i, false) && MinusFits(j, false) ==> MinusFits(Slice(b, i, j), true)
    ensures MinusFitsAll(xs, true) ==> MinusFits(Call(b, xs), true)
    ensures MinusFitsAll(xs, false) ==> MinusFits(TypeApp(b, xs), true)
  {
    MinusMonotone(b, true);
  }

  lemma MemberLength(b: Tree, n: Seen)
    ensures |Yield(Member(b, n))| == |Yield(b)| + 2
  {
    hide YieldList;
  }

  lemma IndexLength(b: Tree, i: Tree)
    ensures |Yield(Index(b, i))| == |Yield(b)| + |Yield(i)| + 2
  {
    hide YieldList;
  }

  lemma SliceLength(b: Tree, i: Tree, j: Tree)
    ensures |Yield(Slice(b, i, j))| == |Yield(b)| + |Yield(i)| + |Yield(j)| + 3
  {
    hide YieldList;
  }

  lemma CallLength(b: Tree, xs: seq<Tree>)
    ensures |Yield(Call(b, xs))| == |Yield(b)| + |YieldList(xs)| + 2
  {
    hide YieldList;
  }

  lemma TypeAppLength(b: Tree, xs: seq<Tree>)
    ensures |Yield(TypeApp(b, xs))| == |Yield(b)| + |YieldList(xs)| + 2
  {
    hide YieldList;
  }

  lemma KeyValueLength(k: Tree, v: Tree)
    ensures |Yield(KeyValue(k, v))| == |Yield(k)| + |Yield(v)| + 1
  {
    hide YieldList;
  }

  predicate SameForm(c: Tree, p: Tree) {
    match c
    case Member(b, _) => p.Member? && SameLead(b, p.base)
    case Index(b, _) => p.Index? && SameLead(b, p.base)
    case Slice(b, _, _) => p.Slice? && SameLead(b, p.base)
    case Call(b, _) => p.Call? && SameLead(b, p.base)
    case TypeApp(b, _) => p.TypeApp? && SameLead(b, p.base)
    case KeyValue(k, _) => p.KeyValue? && SameLead(k, p.key)
    case _ => false
  }

  lemma FormRoot(c: Tree, p: Tree)
    requires SameForm(c, p)
    ensures SameLead(c, p) && SameRoot(c, p) && !NeedsSeal(c, p)
  {
    hide IsTypeRef;
  }

  lemma JoinMember(b: Tree, n: Seen, b': Tree)
    requires Fits(b, Some(b'), 1, false) && FitsBase(b', DotPrefix) && IsName(n.klass)
    ensures Reprints(Member(b, n), Some(Member(b', n)))
  {
    hide IsExpr; hide MinusFits; hide Yield; hide YieldList; hide SameRoot; hide NeedsSeal; hide Lead; hide IsTypeRef;
    hide IsList; hide TakesBracket; hide IsBareType; hide IsPostfixForm; hide IsName; hide MinusFitsAll;
    MemberIsExpr(b', n);
    FormsMinus(b', n, b', b', []);
    MemberLength(b, n);
    MemberLength(b', n);
    FormRoot(Member(b, n), Member(b', n));
    FormReprints(Member(b, n), Member(b', n));
  }

  lemma JoinIndex(b: Tree, i: Tree, b': Tree, i': Tree)
    requires Fits(b, Some(b'), 1, false) && FitsBase(b', BracketOpen) && Fits(i, Some(i'), 1, false)
    ensures Reprints(Index(b, i), Some(Index(b', i')))
  {
    hide IsExpr; hide MinusFits; hide Yield; hide YieldList; hide SameRoot; hide NeedsSeal; hide Lead; hide IsTypeRef;
    hide IsList; hide TakesBracket; hide IsBareType; hide IsPostfixForm; hide IsName; hide MinusFitsAll;
    IndexIsExpr(b', i');
    FormsMinus(b', Sym(Comma), i', i', []);
    IndexLength(b, i);
    IndexLength(b', i');
    FormRoot(Index(b, i), Index(b', i'));
    FormReprints(Index(b, i), Index(b', i'));
  }

  lemma JoinSlice(b: Tree, i: Tree, j: Tree, b': Tree, i': Tree, j': Tree)
    requires Fits(b, Some(b'), 1, false) && FitsBase(b', BracketOpen)
    requires Fits(i, Some(i'), 1, false) && Fits(j, Some(j'), 1, false)
    ensures Reprints(Slice(b, i, j), Some(Slice(b', i', j')))
  {
    hide IsExpr; hide MinusFits; hide Yield; hide YieldList; hide SameRoot; hide NeedsSeal; hide Lead; hide IsTypeRef;
    hide IsList; hide TakesBracket; hide IsBareType; hide IsPostfixForm; hide IsName; hide MinusFitsAll;
    SliceIsExpr(b', i', j');
    FormsMinus(b', Sym(Comma), i', j', []);
    SliceLength(b, i, j);
    SliceLength(b', i', j');
    FormRoot(Slice(b, i, j), Slice(b', i', j'));
    FormReprints(Slice(b, i, j), Slice(b', i', j'));
  }

  lemma JoinCall(b: Tree, xs: seq<Tree>, b': Tree, xs': seq<Tree>)
    requires Fits(b, Some(b'), 1, false) && FitsBase(b', ParenthOpen) && FitsList(Args, xs, Some(xs'), true)
    ensures Reprints(Call(b, xs), Some(Call(b', xs')))
  {
    hide IsExpr; hide MinusFits; hide Yield; hide YieldList; hide SameRoot; hide NeedsSeal; hide Lead; hide IsTypeRef;
    hide IsList; hide TakesBracket; hide IsBareType; hide IsPostfixForm; hide IsName; hide MinusFitsAll;
    CallIsExpr(b', xs');
    FormsMinus(b', Sym(Comma), b', b', xs');
    CallLength(b, xs);
    CallLength(b', xs');
    FormRoot(Call(b, xs), Call(b', xs'));
    FormReprints(Call(b, xs), Call(b', xs'));
  }

  lemma JoinTypeApp(b: Tree, xs: seq<Tree>, b': Tree, xs': seq<Tree>)
    requires Fits(b, Some(b'), 1, false) && FitsBase(b', AngleOpen) && FitsList(RealTypeArgs, xs, Some(xs'), false)
    requires xs != []
    ensures Reprints(TypeApp(b, xs), Some(TypeApp(b', xs')))
  {
    hide IsExpr; hide MinusFits; hide Yield; hide YieldList; hide SameRoot; hide NeedsSeal; hide Lead; hide IsTypeRef;
    hide IsList; hide TakesBracket; hide IsBareType; hide IsPostfixForm; hide IsName; hide MinusFitsAll;
    TypeAppIsExpr(b', xs');
    FormsMinus(b', Sym(Comma), b', b', xs');
    TypeAppLength(b, xs);
    TypeAppLength(b', xs');
    FormRoot(TypeApp(b, xs), TypeApp(b', xs'));
    FormReprints(TypeApp(b, xs), TypeApp(b', xs'));
  }

  lemma JoinValue(k: Tree, v: Tree, k': Tree, v': Tree)
    requires Fits(k, Some(k'), 1, false) && FitsBase(k', Equal) && Fits(v, Some(v'), 1, false)
    ensures Reprints(KeyValue(k, v), Some(KeyValue(k', v')))
  {
    hide IsExpr; hide MinusFits; hide Yield; hide YieldList; hide SameRoot; hide NeedsSeal; hide Lead; hide IsTypeRef;
    hide IsList; hide TakesBracket; hide IsBareType; hide IsPostfixForm; hide IsName; hide MinusFitsAll;
    KeyValueIsExpr(k', v');
    FormsMinus(k', Sym(Comma), v', v', []);
    KeyValueLength(k, v);
    KeyValueLength(k', v');
    FormRoot(KeyValue(k, v), KeyValue(k', v'));
    FormReprints(KeyValue(k, v), KeyValue(k', v'));
  }

  lemma BinaryFits(op: BinOp, l: Tree, r: Tree)
    ensures MinusFits(Binary(op, l, r), true) <==> MinusFits(l, true) && MinusFits(r, false)
  {
  }

  lemma BinaryBare(op: BinOp, l: Tree, r: Tree)
    requires Bare(Strip(l)).Some? && Bare(Strip(r)).Some?
    ensures var p, q := Bare(Strip(l)).value, Bare(Strip(r)).value;
            var p', q' := FitLeft(op, p), Fit(q, FitsRight(op, q));
            p'.Some? && q'.Some? ==> Bare(Strip(Binary(op, l, r))) == Some(Binary(op, p'.value, q'.value))
  {
    hide FitLeft; hide Fit; hide FitsRight;
  }

  lemma BinaryJoined(op: BinOp, l: Tree, r: Tree, a: Option<Tree>, b: Option<Tree>)
    requires a == Bare(Strip(l)) && b == Bare(Strip(r)) && Reprints(l, a) && Reprints(r, b)
    requires var p := FitLeft(op, a.value); Fits(l, p, Priority(op), false) && LeftFits(op, p.value)
    requires var q := Fit(b.value, FitsRight(op, b.value)); Fits(r, q, Priority(op) + 1, false) && RightFits(op, q.value)
    ensures Reprints(Binary(op, l, r), Bare(Strip(Binary(op, l, r))))
  {
    hide IsExpr; hide MinusFits; hide Bare; hide Strip; hide LeftFits; hide RightFits; hide Priority; hide FitsRight;
    hide FitLeft; hide Yield; hide NeedsSeal; hide SameRoot; hide SameLead; hide Fit; hide Seal;
    BinaryBare(op, l, r);
    JoinBinary(op, l, r, FitLeft(op, a.value).value, b.value);
  }

  lemma {:induction false} ReprintBinary(op: BinOp, l: Tree, r: Tree, t: nat)
    requires IsExpr(Binary(op, l, r), t) && MinusFits(Binary(op, l, r), true)
    ensures Reprints(Binary(op, l, r), Bare(Strip(Binary(op, l, r))))
    decreases Binary(op, l, r), 1
  {
    hide Reprints; hide Fits; hide IsExpr; hide MinusFits; hide Bare; hide Strip; hide LeftFits; hide RightFits; hide Priority;
    hide FitsRight; hide FitLeft; hide Yield;
    BinaryParts(op, l, r, [], t);
    BinaryFits(op, l, r);
    ReprintExpr(l, Priority(op));
    LeftPlace(l, op);
    ReprintRight(op, r);
    BinaryJoined(op, l, r, Bare(Strip(l)), Bare(Strip(r)));
  }

  lemma {:induction false} ReprintRight(op: BinOp, r: Tree)
    requires IsExpr(r, Priority(op) + 1) && RightFits(op, r) && MinusFits(r, false)
    ensures Reprints(r, Bare(Strip(r)))
    ensures var p := Bare(Strip(r)).value; var q := Fit(p, FitsRight(op, p));
            Fits(r, q, Priority(op) + 1, false) && RightFits(op, q.value)
    decreases r, 3
  {
    MinusMonotone(r, true);
    ReprintExpr(r, Priority(op) + 1);
    RightPlace(r, op);
  }

  lemma BinaryMinus(op: BinOp, l: Tree, r: Tree)
    requires MinusFits(l, false) && MinusFits(r, false)
    ensures MinusFits(Binary(op, l, r), true)
  {
    MinusMonotone(l, true);
  }

  lemma BinaryLength(op: BinOp, l: Tree, r: Tree)
    ensures |Yield(Binary(op, l, r))| == |Yield(l)| + 1 + |Yield(r)|
  {
  }

  lemma BinaryRoot(op: BinOp, l: Tree, r: Tree, l': Tree, r': Tree)
    requires SameLead(l, l')
    ensures SameLead(Binary(op, l, r), Binary(op, l', r')) && SameRoot(Binary(op, l, r), Binary(op, l', r'))
  {
    hide IsTypeRef;
  }

  lemma SealBinary(op: BinOp, l: Tree, r: Tree)
    requires Seal(r).Some?
    ensures Seal(Binary(op, l, r)).Some?
  {
    hide IsTypeRef; hide Lead;
  }

  lemma JoinBinary(op: BinOp, l: Tree, r: Tree, l': Tree, p: Tree)
    requires Fits(l, Some(l'), Priority(op), false) && LeftFits(op, l')
    requires Reprints(r, Some(p))
    requires var q := Fit(p, FitsRight(op, p)); Fits(r, q, Priority(op) + 1, false) && RightFits(op, q.value)
    ensures Reprints(Binary(op, l, r), Some(Binary(op, l', Fit(p, FitsRight(op, p)).value)))
  {
    hide IsExpr; hide MinusFits; hide Yield; hide Seal; hide SameRoot; hide SameLead; hide NeedsSeal; hide LeftFits;
    hide RightFits; hide FitsRight; hide Priority;
    var r' := Fit(p, FitsRight(op, p)).value;
    var c, q := Binary(op, l, r), Binary(op, l', r');
    BinaryParts(op, l', r', [], 1);
    BinaryMinus(op, l', r');
    BinaryLength(op, l, r);
    BinaryLength(op, l', r');
    BinaryRoot(op, l, r, l', r');
    if NeedsSeal(c, q) {
      SealAtRight(op, l, r, l', r');
      assert r' == p;
      SealBinary(op, l', p);
    }
  }

  lemma SealAtRight(op: BinOp, l: Tree, r: Tree, l': Tree, r': Tree)
    requires NeedsSeal(Binary(op, l, r), Binary(op, l', r'))
    ensures NeedsSeal(r, r') && !r'.Group?
  {
    assert IsOpen(Binary(op, l, r)) == IsOpen(r) && IsOpen(Binary(op, l', r')) == IsOpen(r');
    assert EndsBare(Binary(op, l, r)) == EndsBare(r) && EndsBare(Binary(op, l', r')) == EndsBare(r');
  }

  lemma DottedMinus(x: Tree, afterParen: bool)
    ensures MinusFits(Dotted(x), afterParen) <==> MinusFits(x, false)
  {
  }

  lemma DottedName(x: Tree)
    requires x.Leaf? && x.tok.klass == Identifier
    ensures Reprints(Dotted(x), Bare(Strip(Dotted(x))))
  {
    assert Bare(Strip(x)) == Some(x) && Yield(x) == [x.tok] && MinusFits(x, false);
  }

  lemma DottedBare(x: Tree, p: Tree)
    requires Bare(Strip(x)) == Some(p)
    ensures Bare(Strip(Dotted(x))) == Some(Dotted(p))
  {
  }

  lemma DottedIsExpr(p: Tree)
    requires IsTypeNameTree(p, false)
    ensures IsExpr(Dotted(p), 1)
  {
    hide IsTypeNameTree;
  }

  lemma DottedRoot(x: Tree, p: Tree)
    requires (IsTypeLeaf(x) <==> IsTypeLeaf(p)) && (x.Specialized? <==> p.Specialized?)
    ensures SameLead(Dotted(x), Dotted(p)) && SameRoot(Dotted(x), Dotted(p)) && !NeedsSeal(Dotted(x), Dotted(p))
  {
  }

  /** A dotted type name, from the type name behind the dot. */
  lemma DottedReprints(x: Tree, r: Option<Tree>)
    requires IsTypeNameTree(x, false) && r == Bare(Strip(x)) && ReprintsType(x, r)
    ensures Reprints(Dotted(x), Bare(Strip(Dotted(x))))
  {
    hide IsTypeNameTree; hide Yield; hide MinusFits; hide IsType; hide IsExpr; hide SameLead; hide SameRoot; hide NeedsSeal;
    hide IsTypeLeaf; hide IsPrefixedType; hide Bare; hide Strip;
    var p := r.value;
    DottedBare(x, p);
    DottedMinus(p, true);
    MinusMonotone(p, true);
    DottedLength(x);
    DottedLength(p);
    LeafKept(x, r);
    DottedRoot(x, p);
    DottedIsExpr(p);
    FormReprints(Dotted(x), Dotted(p));
  }

  lemma DottedLength(x: Tree)
    ensures |Yield(Dotted(x))| == |Yield(x)| + 1
  {
  }

  lemma LeafKept(x: Tree, r: Option<Tree>)
    requires IsTypeNameTree(x, false) && ReprintsType(x, r)
    ensures IsTypeLeaf(x) <==> IsTypeLeaf(r.value)
  {
    hide IsExpr; hide IsList; hide Yield; hide MinusFits;
  }

  lemma {:induction false} ReprintDotted(x: Tree, t: nat)
    requires IsExpr(Dotted(x), t) && MinusFits(Dotted(x), true)
    ensures Reprints(Dotted(x), Bare(Strip(Dotted(x))))
    decreases Dotted(x), 0
  {
    hide Reprints; hide ReprintsType; hide IsTypeNameTree; hide Yield; hide MinusFits; hide Bare;
    if x.Leaf? && x.tok.klass == Identifier {
      DottedName(x);
    } else {
      assert MinusFits(x, false) by { DottedMinus(x, true); }
      ReprintTypeName(x);
      DottedReprints(x, Bare(Strip(x)));
    }
  }

  // ----- types

  lemma {:induction false} ReprintTypeName(c: Tree)
    requires (IsTypeNameTree(c, false) || IsTypeNameTree(c, true)) && MinusFits(c, false)
    ensures ReprintsType(c, Bare(Strip(c)))
    ensures IsTypeNameTree(c, false) ==> Reprints(c, Bare(Strip(c)))
    decreases c, 0, 1
  {
    hide Reprints; hide ReprintsType; hide Bare; hide Yield; hide MinusFits;
    match c {
      case Stack(b, e) => ReprintStack(b, e);
      case Specialized(b, args) => ReprintSpecialized(b, args);
      case _ => ReprintPrefixed(c);
    }
    if IsTypeNameTree(c, false) { TypeNameReprints(c, Bare(Strip(c))); }
  }

  lemma StackMinus(b: Tree, e: Tree)
    ensures MinusFits(Stack(b, e), false) <==> MinusFits(b, false) && MinusFits(e, false)
  {
  }

  lemma StackName(b: Tree, e: Tree, dot: bool)
    ensures IsTypeNameTree(Stack(b, e), dot)
       <==> IsExpr(e, 1) && (IsPrefixedType(b, dot) || (b.Specialized? && IsTypeNameTree(b, dot)))
    ensures IsPrefixedType(b, dot) ==> IsTypeNameTree(b, dot) && IsPrefixedType(b, true)
    ensures IsType(Stack(b, e)) <==> IsTypeNameTree(Stack(b, e), true)
  {
    hide IsExpr; hide IsList;
  }

  lemma StackLength(b: Tree, e: Tree)
    ensures |Yield(Stack(b, e))| == |Yield(b)| + |Yield(e)| + 2
  {
  }

  lemma StackBare(b: Tree, e: Tree, b': Tree, e': Tree)
    requires Bare(Strip(b)) == Some(b') && Free(Strip(e), false) == Some(e')
    ensures Bare(Strip(Stack(b, e))) == Some(Stack(b', e'))
  {
    hide Free;
  }

  lemma StackReprints(b: Tree, e: Tree)
    requires ReprintsType(b, Bare(Strip(b))) && Fits(e, Free(Strip(e), false), 1, false)
    ensures ReprintsType(Stack(b, e), Bare(Strip(Stack(b, e))))
  {
    hide IsExpr; hide IsTypeNameTree; hide Yield; hide MinusFits; hide Bare; hide Strip; hide IsType; hide SameLead;
    var b', e' := Bare(Strip(b)).value, Free(Strip(e), false).value;
    StackBare(b, e, b', e');
    StackMinus(b', e');
    StackLength(b, e);
    StackLength(b', e');
    StackName(b, e, false);
    StackName(b, e, true);
    StackName(b', e', false);
    StackName(b', e', true);
  }

  lemma {:induction false} ReprintStack(b: Tree, e: Tree)
    requires (IsTypeNameTree(Stack(b, e), false) || IsTypeNameTree(Stack(b, e), true)) && MinusFits(Stack(b, e), false)
    ensures ReprintsType(Stack(b, e), Bare(Strip(Stack(b, e))))
    decreases Stack(b, e), 0, 0
  {
    hide Reprints; hide ReprintsType; hide IsExpr; hide IsTypeNameTree; hide Yield; hide MinusFits; hide Bare; hide Strip;
    hide SameLead;
    StackMinus(b, e);
    StackName(b, e, false);
    StackName(b, e, true);
    ReprintTypeName(b);
    ReprintFree(e, false);
    StackReprints(b, e);
  }

  lemma SpecializedMinus(b: Tree, xs: seq<Tree>)
    ensures MinusFits(Specialized(b, xs), false) <==> MinusFits(b, false) && MinusFitsAll(xs, false)
  {
    hide MinusFitsAll;
  }

  lemma SpecializedName(b: Tree, xs: seq<Tree>, dot: bool)
    ensures IsTypeNameTree(Specialized(b, xs), dot) <==> IsPrefixedType(b, dot) && IsList(TypeArgs, xs)
    ensures IsPrefixedType(b, dot) ==> IsTypeNameTree(b, dot) && IsPrefixedType(b, true)
    ensures IsType(Specialized(b, xs)) <==> IsTypeNameTree(Specialized(b, xs), true)
  {
    hide IsExpr; hide IsList;
  }

  lemma SpecializedLength(b: Tree, xs: seq<Tree>)
    ensures |Yield(Specialized(b, xs))| == |Yield(b)| + |YieldList(xs)| + 2
  {
    hide YieldList;
  }

  lemma SpecializedBare(b: Tree, xs: seq<Tree>, b': Tree, xs': seq<Tree>)
    requires Bare(Strip(b)) == Some(b') && BareAll(StripAll(xs), false) == Some(xs')
    ensures Bare(Strip(Specialized(b, xs))) == Some(Specialized(b', xs'))
  {
    hide BareAll; hide StripAll;
  }

  lemma SpecializedReprints(b: Tree, xs: seq<Tree>)
    requires ReprintsType(b, Bare(Strip(b))) && FitsList(TypeArgs, xs, BareAll(StripAll(xs), false), false)
    ensures ReprintsType(Specialized(b, xs), Bare(Strip(Specialized(b, xs))))
  {
    hide IsExpr; hide IsTypeNameTree; hide Yield; hide MinusFits; hide Bare; hide Strip; hide IsType; hide IsList;
    hide MinusFitsAll; hide YieldList;
    var b', xs' := Bare(Strip(b)).value, BareAll(StripAll(xs), false).value;
    SpecializedBare(b, xs, b', xs');
    SpecializedMinus(b', xs');
    SpecializedLength(b, xs);
    SpecializedLength(b', xs');
    SpecializedName(b, xs, false);
    SpecializedName(b, xs, true);
    SpecializedName(b', xs', false);
    SpecializedName(b', xs', true);
  }

  lemma {:induction false} ReprintSpecialized(b: Tree, args: seq<Tree>)
    requires IsTypeNameTree(Specialized(b, args), false) || IsTypeNameTree(Specialized(b, args), true)
    requires MinusFits(Specialized(b, args), false)
    ensures ReprintsType(Specialized(b, args), Bare(Strip(Specialized(b, args))))
    decreases Specialized(b, args), 0, 0
  {
    hide Reprints; hide ReprintsType; hide IsExpr; hide IsTypeNameTree; hide Yield; hide MinusFits; hide Bare; hide Strip;
    hide SameLead; hide IsList; hide MinusFitsAll;
    SpecializedMinus(b, args);
    SpecializedName(b, args, false);
    SpecializedName(b, args, true);
    ReprintTypeName(b);
    ReprintList(TypeArgs, args, false);
    SpecializedReprints(b, args);
  }

  lemma ReprintPrefixed(c: Tree)
    requires !c.Stack? && !c.Specialized? && (IsTypeNameTree(c, false) || IsTypeNameTree(c, true)) && MinusFits(c, false)
    ensures ReprintsType(c, Bare(Strip(c)))
  {
    hide IsExpr; hide IsList;
    if c.Dotted? { assert Bare(Strip(c.name)) == Some(c.name); }
  }

  lemma TypeNameReprints(c: Tree, r: Option<Tree>)
    requires IsTypeNameTree(c, false) && ReprintsType(c, r)
    ensures Reprints(c, r)
  {
    hide IsList; hide Yield;
    TypeNameLead(c);
    TypeNameLead(r.value);
    MinusMonotone(r.value, true);
  }

  lemma {:induction false} ReprintType(c: Tree)
    requires IsType(c) && MinusFits(c, false)
    ensures ReprintsType(c, Bare(Strip(c)))
    decreases c, 1
  {
    match c
    case Leaf(_) =>
    case Sized(_, _) =>
    case Tuple(args) => ReprintList(TypeArgs, args, false);
    case _ => ReprintTypeName(c);
  }

  // ----- lists

  lemma {:induction false} ReprintList(kind: ListKind, xs: seq<Tree>, afterParen: bool)
    requires IsList(kind, xs) && MinusFitsAll(xs, afterParen)
    ensures FitsList(kind, xs, BareAll(StripAll(xs), afterParen), afterParen)
    decreases xs
  {
    if xs != [] {
      ReprintItem(kind, xs[0], afterParen);
      ReprintList(kind, xs[1..], false);
      var p := Free(Strip(xs[0]), afterParen).value;
      var ps := BareAll(StripAll(xs[1..]), false).value;
      assert StripAll(xs)[1..] == StripAll(xs[1..]);
      assert ([p] + ps)[1..] == ps;
    }
  }

  lemma ReprintOneToken(kind: ListKind, x: Tree, afterParen: bool)
    requires IsOneToken(kind, x)
    ensures Free(Strip(x), afterParen) == Some(x)
  {
  }

  lemma {:induction false} ReprintLongItem(kind: ListKind, x: Tree, afterParen: bool)
    requires (kind.Exprs? || kind.Args?) && IsExpr(x, 1) && MinusFits(x, afterParen)
    ensures var r := Free(Strip(x), afterParen);
            r.Some? && IsItem(kind, r.value) && MinusFits(r.value, afterParen) && |Yield(r.value)| <= |Yield(x)|
    decreases x, 4
  {
    hide IsExpr; hide Free; hide Strip; hide MinusFits; hide Yield;
    ReprintFree(x, afterParen);
  }

  lemma {:induction false} ReprintTypeItem(kind: ListKind, x: Tree, afterParen: bool)
    requires (kind.TypeArgs? || kind.RealTypeArgs?) && IsType(x) && MinusFits(x, afterParen)
    ensures var r := Free(Strip(x), afterParen);
            r.Some? && IsItem(kind, r.value) && MinusFits(r.value, afterParen) && |Yield(r.value)| <= |Yield(x)|
    decreases x, 4
  {
    TypeMinus(x, afterParen);
    ReprintType(x);
    var p := Bare(Strip(x)).value;
    TypeIsFree(Strip(x), p, afterParen);
    TypeMinus(p, afterParen);
    hide *;
    TypeIsItem(kind, p);
  }

  lemma TypeIsItem(kind: ListKind, p: Tree)
    requires (kind.TypeArgs? || kind.RealTypeArgs?) && IsType(p)
    ensures IsItem(kind, p)
  {
    hide IsType;
  }

  /** Types take no sign. */
  lemma TypeMinus(c: Tree, afterParen: bool)
    requires IsType(c)
    ensures MinusFits(c, afterParen) == MinusFits(c, false)
  {
  }

  lemma TypeIsFree(a: Tree, p: Tree, afterParen: bool)
    requires Bare(a) == Some(p) && IsType(p)
    ensures Free(a, afterParen) == Some(p)
  {
    hide Bare;
  }

  lemma {:induction false} ReprintItem(kind: ListKind, x: Tree, afterParen: bool)
    requires IsItem(kind, x) && MinusFits(x, afterParen)
    ensures var r := Free(Strip(x), afterParen);
            r.Some? && IsItem(kind, r.value) && MinusFits(r.value, afterParen) && |Yield(r.value)| <= |Yield(x)|
    decreases x, 5
  {
    if IsOneToken(kind, x) {
      ReprintOneToken(kind, x, afterParen);
    } else {
      hide *;
      LongItem(kind, x);
      if kind.Exprs? || kind.Args? {
        ReprintLongItem(kind, x, afterParen);
      } else {
        ReprintTypeItem(kind, x, afterParen);
      }
    }
  }

  // ----- printing loses nothing but groups

  lemma FitStrips(c: Tree, fits: bool)
    requires Fit(c, fits).Some?
    ensures Strip(Fit(c, fits).value) == Strip(c)
  {
  }

  lemma {:induction false} SealStrips(c: Tree)
    requires Seal(c).Some?
    ensures Strip(Seal(c).value) == Strip(c)
  {
    if IsTypeRef(Lead(c)) { SealStrips(c.right); }
  }

  /** The printed tree strips to the tree that was printed. */
  lemma {:induction false} BareStrips(a: Tree)
    requires Bare(a).Some?
    ensures Strip(Bare(a).value) == a
    decreases a, 1
  {
    match a
    case Leaf(_) =>
    case Dotted(x) => BareStrips(x);
    case Specialized(b, args) => BareStrips(b); AllStrip(args, false);
    case Stack(b, e) => BareStrips(b); FreeStrips(e, false);
    case Sized(_, _) =>
    case Tuple(args) => AllStrip(args, false);
    case Braces(es) => AllStrip(es, false);
    case Cast(ty, e) => BareStrips(ty); FreeStrips(e, false);
    case Unary(_, e) => FreeStrips(e, false);
    case Member(b, _) => BaseStrips(b, DotPrefix);
    case Index(b, i) => BaseStrips(b, BracketOpen); FreeStrips(i, false);
    case Slice(b, i, j) => BaseStrips(b, BracketOpen); FreeStrips(i, false); FreeStrips(j, false);
    case Call(b, args) => BaseStrips(b, ParenthOpen); AllStrip(args, true);
    case TypeApp(b, args) => BaseStrips(b, AngleOpen); AllStrip(args, false);
    case KeyValue(k, v) => BaseStrips(k, Equal); FreeStrips(v, false);
    case Binary(op, l, r) => BinaryStrips(op, l, r);
  }

  lemma {:induction false} BinaryStrips(op: BinOp, l: Tree, r: Tree)
    requires Bare(Binary(op, l, r)).Some?
    ensures Strip(Bare(Binary(op, l, r)).value) == Binary(op, l, r)
    decreases Binary(op, l, r), 0
  {
    BareStrips(l);
    BareStrips(r);
    var p, q := Bare(l).value, Bare(r).value;
    FitStrips(q, FitsRight(op, q));
    if p.Binary? && Priority(p.bop) < Priority(op) {
      FitStrips(p, false);
    } else if !LeftFits(op, p) {
      SealStrips(p);
    }
  }

  lemma {:induction false} FreeStrips(a: Tree, afterParen: bool)
    requires Free(a, afterParen).Some?
    ensures Strip(Free(a, afterParen).value) == a
    decreases a, 2
  {
    BareStrips(a);
    FitStrips(Bare(a).value, afterParen || !IsNegation(Bare(a).value));
  }

  lemma {:induction false} BaseStrips(a: Tree, next: TokenClass)
    requires Base(a, next).Some?
    ensures Strip(Base(a, next).value) == a
    decreases a, 2
  {
    BareStrips(a);
    FitStrips(Bare(a).value, FitsBase(Bare(a).value, next));
  }

  lemma {:induction false} AllStrip(xs: seq<Tree>, afterParen: bool)
    requires BareAll(xs, afterParen).Some?
    ensures StripAll(BareAll(xs, afterParen).value) == xs
    decreases xs
  {
    if xs != [] {
      FreeStrips(xs[0], afterParen);
      AllStrip(xs[1..], false);
      var p := Free(xs[0], afterParen).value;
      var ps := BareAll(xs[1..], false).value;
      assert ([p] + ps)[1..] == ps;
    }
  }
}
