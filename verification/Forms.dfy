/** The written form of every kind of expression and type, token by token. */
module Forms {
  import opened Tokens
  import opened Grammar
  import opened ExprParser
  import opened ParserSound
  import opened ParserComplete
  import opened Precedence

  /** The token of a type's name. */
  predicate IsTypeIdent(tok: Seen) {
    tok.klass == TypeIdentifier
  }

  // ----- one token

  lemma LeafParts(tok: Seen, stop: seq<Seen>)
    requires AtEnd(stop)
    ensures Yield(Leaf(tok)) == [tok] && Stops(stop, 1) && Follows(Leaf(tok), stop)
    ensures IsExpr(Leaf(tok), 1)
       <==> tok.klass in {Integer, True, False, StringLiteral, Error, Identifier, TypeIdentifier,
                          Apply, Key, Actions, State, Entries, Type}
  {
    EndStops(stop);
  }

  /** What stands for itself in an expression: literals, names and types' names. */
  lemma LeafIff(tok: Seen, stop: seq<Seen>)
    requires AtEnd(stop)
    ensures ParseExpr([tok] + stop, 1) == Ok(Leaf(tok), stop)
       <==> tok.klass in {Integer, True, False, StringLiteral, Error, Identifier, TypeIdentifier,
                          Apply, Key, Actions, State, Entries, Type}
  {
    LeafParts(tok, stop);
    hide *;
    ParseIffGrammar([tok] + stop, 1, Leaf(tok), stop);
  }

  /** The builders keep what the lexer has put into tokens with a text, an integer's value for one. */
  lemma TextKept(tok: Token, stop: seq<Seen>)
    requires tok.klass in {Identifier, TypeIdentifier, Integer, StringLiteral, Apply, Key, Actions, State, Entries, Type}
    requires AtEnd(stop)
    ensures Essence(tok) == tok && ParseExpr([tok] + stop, 1) == Ok(Leaf(tok), stop)
  {
    hide ParseExpr; hide AtEnd;
    LeafIff(tok, stop);
  }

  /** What stands for itself as a type. */
  lemma TypeLeafIff(tok: Seen, stop: seq<Seen>)
    requires AtEnd(stop)
    ensures ParseType([tok] + stop) == Ok(Leaf(tok), stop)
       <==> tok.klass in {Bool, Error, Int, Bit, Varbit, StringKw, TypeIdentifier}
  {
    hide ParseType; hide IsTypeNameTree;
    assert Yield(Leaf(tok)) + stop == [tok] + stop;
    if IsType(Leaf(tok)) { CompleteType(Leaf(tok), stop); }
    if ParseType([tok] + stop).Ok? { SoundType([tok] + stop); }
  }

  // ----- operators around names

  lemma NameFits(a: Seen)
    requires IsIdent(a)
    ensures IsExpr(Leaf(a), 1) && IsPostfixForm(Leaf(a)) && !TakesBracket(Leaf(a)) && !IsBareType(Leaf(a))
    ensures !IsTypeRef(Lead(Leaf(a))) && Yield(Leaf(a)) == [a]
    ensures IsItem(Exprs, Leaf(a)) && IsItem(Args, Leaf(a)) && IsItem(TypeArgs, Leaf(a))
  {
  }

  predicate Signs(k: TokenClass, op: UnOp) {
    (k == Exclamation && op == LogNot) || (k == Tilda && op == BitNot) || (k == TokenClass.UnaryMinus && op == Negate)
  }

  lemma SignFits(k: TokenClass, op: UnOp, e: Tree, stop: seq<Seen>)
    requires Signs(k, op) && IsExpr(e, 1) && Follows(e, stop) && AtEnd(stop)
    ensures IsExpr(Unary(op, e), 1) && Follows(Unary(op, e), stop) && Yield(Unary(op, e)) == [Sym(k)] + Yield(e)
  {
    EndStops(stop);
    hide Stops; hide AtEnd;
  }

  /** Each sign makes the node of its name. */
  lemma SignNames(k: TokenClass, op: UnOp, a: Seen, stop: seq<Seen>)
    requires Signs(k, op) && IsIdent(a) && AtEnd(stop)
    ensures ParseExpr([Sym(k), a] + stop, 1) == Ok(Unary(op, Leaf(a)), stop)
  {
    hide *;
    LeafFits(a, 1, stop);
    SignFits(k, op, Leaf(a), stop);
    ReadsAs(Unary(op, Leaf(a)), [Sym(k), a] + stop, stop);
  }

  /** A sign takes everything to its right, whatever the operator. */
  lemma SignTakesAll(k: TokenClass, op: UnOp, a: Seen, l: TokenClass, q: BinOp, b: Seen, stop: seq<Seen>)
    requires Signs(k, op) && IsIdent(a) && Makes(l, q) && IsIdent(b) && AtEnd(stop)
    ensures ParseExpr([Sym(k), a, Sym(l), b] + stop, 1) == Ok(Unary(op, Binary(q, Leaf(a), Leaf(b))), stop)
  {
    hide *;
    var e := Binary(q, Leaf(a), Leaf(b));
    OperatorFits(l, q);
    LeafFits(a, Priority(q), stop);
    LeafFits(b, Priority(q) + 1, stop);
    BinaryFits(q, Leaf(a), Leaf(b), 1, stop);
    SignFits(k, op, e, stop);
    assert Yield(e) == [a, Sym(l), b];
    ReadsAs(Unary(op, e), [Sym(k), a, Sym(l), b] + stop, stop);
  }

  lemma LessOperand(b: Seen, stop: seq<Seen>)
    requires AtEnd(stop)
    ensures IsExpr(Leaf(b), 3) && !IsRealTypeArg(b.klass)
       <==> b.klass in {Integer, True, False, StringLiteral, Identifier, Apply, Key, Actions, State, Entries, Type}
    ensures IsExpr(Leaf(b), 3) && !IsRealTypeArg(b.klass) ==> Follows(Leaf(b), stop)
  {
  }

  lemma LessFits(a: Seen, b: Seen, stop: seq<Seen>)
    requires IsIdent(a) && AtEnd(stop)
    ensures IsExpr(Binary(Less, Leaf(a), Leaf(b)), 1) && Follows(Binary(Less, Leaf(a), Leaf(b)), stop) && Stops(stop, 1)
       <==> IsExpr(Leaf(b), 3) && !IsRealTypeArg(b.klass) && Follows(Leaf(b), stop)
    ensures Yield(Binary(Less, Leaf(a), Leaf(b))) == [a, Sym(AngleOpen), b]
  {
    EndStops(stop);
    LeafFits(a, 2, stop);
    hide Stops; hide IsRealTypeArg; hide AtEnd; hide IsExprLeaf;
    assert Yield(Leaf(b)) == [b];
  }

  /** Behind `<`, what could start a type argument makes it no comparison. */
  lemma LessIff(a: Seen, b: Seen, stop: seq<Seen>)
    requires IsIdent(a) && AtEnd(stop)
    ensures ParseExpr([a, Sym(AngleOpen), b] + stop, 1) == Ok(Binary(Less, Leaf(a), Leaf(b)), stop)
       <==> b.klass in {Integer, True, False, StringLiteral, Identifier, Apply, Key, Actions, State, Entries, Type}
  {
    hide *;
    LessFits(a, b, stop);
    LessOperand(b, stop);
    ParseIffGrammar([a, Sym(AngleOpen), b] + stop, 1, Binary(Less, Leaf(a), Leaf(b)), stop);
  }

  /** What may stand behind a dot: names, types' names and the keywords that are names. */
  lemma MemberIff(a: Seen, n: Seen, stop: seq<Seen>)
    requires IsIdent(a) && AtEnd(stop)
    ensures ParseExpr([a, Sym(DotPrefix), n] + stop, 1) == Ok(Member(Leaf(a), n), stop)
       <==> n.klass in {Identifier, TypeIdentifier, Apply, Key, Actions, State, Entries, Type}
  {
    EndStops(stop);
    NameFits(a);
    hide ParseExpr; hide AtEnd; hide Stops;
    assert Yield(Member(Leaf(a), n)) + stop == [a, Sym(DotPrefix), n] + stop;
    ParseIffGrammar([a, Sym(DotPrefix), n] + stop, 1, Member(Leaf(a), n), stop);
  }

  lemma IndexForm(a: Seen, i: Seen, stop: seq<Seen>)
    requires IsIdent(a) && IsIdent(i) && AtEnd(stop)
    ensures ParseExpr([a, Sym(BracketOpen), i, Sym(BracketClose)] + stop, 1) == Ok(Index(Leaf(a), Leaf(i)), stop)
  {
    NameFits(a);
    NameFits(i);
    var c := Index(Leaf(a), Leaf(i));
    IndexParts(Leaf(a), Leaf(i), 1, stop);
    hide *;
    assert Yield(c) == [a, Sym(BracketOpen), i, Sym(BracketClose)];
    ReadsAs(c, [a, Sym(BracketOpen), i, Sym(BracketClose)] + stop, stop);
  }

  /** The upper bound comes first. */
  lemma SliceForm(a: Seen, i: Seen, j: Seen, stop: seq<Seen>)
    requires IsIdent(a) && IsIdent(i) && IsIdent(j) && AtEnd(stop)
    ensures ParseExpr([a, Sym(BracketOpen), i, Sym(Colon), j, Sym(BracketClose)] + stop, 1)
         == Ok(Slice(Leaf(a), Leaf(i), Leaf(j)), stop)
  {
    NameFits(a);
    NameFits(i);
    NameFits(j);
    var c := Slice(Leaf(a), Leaf(i), Leaf(j));
    SliceParts(Leaf(a), Leaf(i), Leaf(j), 1, stop);
    hide *;
    assert Yield(c) == [a, Sym(BracketOpen), i, Sym(Colon), j, Sym(BracketClose)];
    ReadsAs(c, [a, Sym(BracketOpen), i, Sym(Colon), j, Sym(BracketClose)] + stop, stop);
  }

  // ----- lists

  /** Names with commas between them. */
  function Commas(xs: seq<Seen>): seq<Seen> {
    if |xs| < 2 then xs else [xs[0], Sym(Comma)] + Commas(xs[1..])
  }

  function Leaves(xs: seq<Seen>): (cs: seq<Tree>)
    ensures |cs| == |xs| && forall i :: 0 <= i < |xs| ==> cs[i] == Leaf(xs[i])
  {
    if xs == [] then [] else [Leaf(xs[0])] + Leaves(xs[1..])
  }

  /** Tokens that are items of a list by themselves. */
  predicate Items(kind: ListKind, xs: seq<Seen>) {
    forall i :: 0 <= i < |xs| ==> IsItem(kind, Leaf(xs[i]))
  }

  lemma {:induction false} CommasMore(xs: seq<Seen>)
    requires xs != []
    ensures Commas(xs) == [xs[0]] + YieldMore(Leaves(xs[1..]))
    decreases |xs|
  {
    if |xs| > 1 {
      var rest := xs[1..];
      CommasMore(rest);
      assert Leaves(rest)[0] == Leaf(rest[0]) && Leaves(rest)[1..] == Leaves(rest[1..]);
      assert YieldMore(Leaves(rest)) == [Sym(Comma)] + ([rest[0]] + YieldMore(Leaves(rest[1..])));
    }
  }

  lemma {:induction false} LeavesList(kind: ListKind, xs: seq<Seen>)
    requires Items(kind, xs)
    ensures IsList(kind, Leaves(xs))
    decreases |xs|
  {
    hide IsItem;
    if xs != [] {
      LeavesList(kind, xs[1..]);
      assert Leaves(xs)[1..] == Leaves(xs[1..]);
    }
  }

  lemma CommasYield(kind: ListKind, xs: seq<Seen>)
    requires Items(kind, xs)
    ensures IsList(kind, Leaves(xs)) && YieldList(Leaves(xs)) == Commas(xs)
  {
    LeavesList(kind, xs);
    hide IsItem; hide IsList;
    if xs != [] {
      CommasMore(xs);
      assert Leaves(xs)[1..] == Leaves(xs[1..]);
    }
  }

  /** One token arguments. */
  lemma ArgumentIff(tok: Seen)
    ensures IsItem(Args, Leaf(tok))
       <==> tok.klass in {Dontcare, Integer, True, False, StringLiteral, Error, Identifier, TypeIdentifier,
                          Apply, Key, Actions, State, Entries, Type}
    ensures IsItem(RealTypeArgs, Leaf(tok))
       <==> tok.klass in {Dontcare, Bool, Error, Int, Bit, Varbit, StringKw, TypeIdentifier}
    ensures IsItem(TypeArgs, Leaf(tok))
       <==> tok.klass in {Dontcare, Bool, Error, Int, Bit, Varbit, StringKw, TypeIdentifier,
                          Identifier, Apply, Key, Actions, State, Entries, Type}
    ensures IsItem(Exprs, Leaf(tok))
       <==> tok.klass in {Integer, True, False, StringLiteral, Error, Identifier, TypeIdentifier,
                          Apply, Key, Actions, State, Entries, Type}
  {
  }

  lemma Enclosed(a: Seen, k: Seen, xs: seq<Seen>, l: Seen, stop: seq<Seen>)
    ensures ([a] + ([k] + (xs + [l]))) + stop == [a, k] + xs + [l] + stop
    ensures ([k] + (xs + [l])) + stop == [k] + xs + [l] + stop
    ensures ([a, k] + (xs + [l])) + stop == [a, k] + xs + [l] + stop
  {
  }

  lemma CallForm(a: Seen, xs: seq<Seen>, stop: seq<Seen>)
    requires IsIdent(a) && Items(Args, xs) && AtEnd(stop)
    ensures ParseExpr([a, Sym(ParenthOpen)] + Commas(xs) + [Sym(ParenthClose)] + stop, 1)
         == Ok(Call(Leaf(a), Leaves(xs)), stop)
  {
    NameFits(a);
    CommasYield(Args, xs);
    var c := Call(Leaf(a), Leaves(xs));
    CallParts(Leaf(a), Leaves(xs), 1, stop);
    hide *;
    Enclosed(a, Sym(ParenthOpen), Commas(xs), Sym(ParenthClose), stop);
    ReadsAs(c, [a, Sym(ParenthOpen)] + Commas(xs) + [Sym(ParenthClose)] + stop, stop);
  }

  /** `t.apply()` and the like. */
  lemma ApplyForm(t: Seen, n: Seen, stop: seq<Seen>)
    requires IsIdent(t) && n.klass in {Identifier, TypeIdentifier, Apply, Key, Actions, State, Entries, Type} && AtEnd(stop)
    ensures ParseExpr([t, Sym(DotPrefix), n, Sym(ParenthOpen), Sym(ParenthClose)] + stop, 1)
         == Ok(Call(Member(Leaf(t), n), []), stop)
  {
    NameFits(t);
    var b := Member(Leaf(t), n);
    assert IsExpr(b, 1) && IsPostfixForm(b) && Yield(b) == [t, Sym(DotPrefix), n];
    assert IsList(Args, []) && YieldList([]) == [];
    CallParts(b, [], 1, stop);
    hide *;
    assert Yield(Call(b, [])) == [t, Sym(DotPrefix), n, Sym(ParenthOpen), Sym(ParenthClose)];
    ReadsAs(Call(b, []), [t, Sym(DotPrefix), n, Sym(ParenthOpen), Sym(ParenthClose)] + stop, stop);
  }

  lemma BracesForm(xs: seq<Seen>, stop: seq<Seen>)
    requires Items(Exprs, xs) && AtEnd(stop)
    ensures ParseExpr([Sym(BraceOpen)] + Commas(xs) + [Sym(BraceClose)] + stop, 1) == Ok(Braces(Leaves(xs)), stop)
  {
    CommasYield(Exprs, xs);
    var c := Braces(Leaves(xs));
    assert IsExpr(c, 1) && Follows(c, stop) && Yield(c) == [Sym(BraceOpen)] + (Commas(xs) + [Sym(BraceClose)]) by {
      hide IsList; hide YieldList;
    }
    hide *;
    Enclosed(Sym(BraceOpen), Sym(BraceOpen), Commas(xs), Sym(BraceClose), stop);
    ReadsAs(c, [Sym(BraceOpen)] + Commas(xs) + [Sym(BraceClose)] + stop, stop);
  }

  /** Type arguments behind a name that is no type. */
  lemma TypeAppForm(a: Seen, xs: seq<Seen>, stop: seq<Seen>)
    requires IsIdent(a) && Items(RealTypeArgs, xs) && xs != [] && AtEnd(stop)
    ensures ParseExpr([a, Sym(AngleOpen)] + Commas(xs) + [Sym(AngleClose)] + stop, 1)
         == Ok(TypeApp(Leaf(a), Leaves(xs)), stop)
  {
    NameFits(a);
    CommasYield(RealTypeArgs, xs);
    var c := TypeApp(Leaf(a), Leaves(xs));
    TypeAppParts(Leaf(a), Leaves(xs), 1, stop);
    hide *;
    Enclosed(a, Sym(AngleOpen), Commas(xs), Sym(AngleClose), stop);
    ReadsAs(c, [a, Sym(AngleOpen)] + Commas(xs) + [Sym(AngleClose)] + stop, stop);
  }

  // ----- parentheses, casts, key-value pairs

  lemma GroupForm(a: Seen, stop: seq<Seen>)
    requires IsIdent(a) && AtEnd(stop)
    ensures ParseExpr([Sym(ParenthOpen), a, Sym(ParenthClose)] + stop, 1) == Ok(Group(Leaf(a)), stop)
  {
    NameFits(a);
    GroupIsExpr(Leaf(a), 1, stop);
    hide *;
    assert Yield(Group(Leaf(a))) == [Sym(ParenthOpen), a, Sym(ParenthClose)];
    ReadsAs(Group(Leaf(a)), [Sym(ParenthOpen), a, Sym(ParenthClose)] + stop, stop);
  }

  lemma TypeLeaf(ty: Seen)
    requires ty.klass in {Bool, Error, Int, Bit, Varbit, StringKw, TypeIdentifier}
    ensures IsType(Leaf(ty)) && Yield(Leaf(ty)) == [ty]
  {
  }

  lemma AnyStops(stop: seq<Seen>)
    requires AtEnd(stop)
    ensures Stops(stop, 1)
  {
    hide Stops;
    EndStops(stop);
  }

  /** A type in parentheses makes a cast. */
  lemma CastForm(ty: Seen, a: Seen, stop: seq<Seen>)
    requires ty.klass in {Bool, Error, Int, Bit, Varbit, StringKw, TypeIdentifier} && IsIdent(a) && AtEnd(stop)
    ensures ParseExpr([Sym(ParenthOpen), ty, Sym(ParenthClose), a] + stop, 1) == Ok(Cast(Leaf(ty), Leaf(a)), stop)
  {
    hide *;
    LeafFits(a, 1, stop);
    AnyStops(stop);
    TypeLeaf(ty);
    CastParts(Leaf(ty), Leaf(a), 1, stop);
    var c := Cast(Leaf(ty), Leaf(a));
    assert Yield(c) == [Sym(ParenthOpen), ty, Sym(ParenthClose), a];
    ReadsAs(c, [Sym(ParenthOpen), ty, Sym(ParenthClose), a] + stop, stop);
  }

  lemma ValueForm(a: Seen, b: Seen, stop: seq<Seen>)
    requires IsIdent(a) && IsIdent(b) && AtEnd(stop)
    ensures ParseExpr([a, Sym(Equal), b] + stop, 1) == Ok(KeyValue(Leaf(a), Leaf(b)), stop)
  {
    NameFits(a);
    LeafFits(b, 1, stop);
    EndStops(stop);
    var c := KeyValue(Leaf(a), Leaf(b));
    assert IsExpr(c, 1) && Follows(c, stop) && Yield(c) == [a, Sym(Equal), b] by { hide Stops; hide AtEnd; }
    hide *;
    ReadsAs(c, [a, Sym(Equal), b] + stop, stop);
  }

  lemma DottedParts(a: Seen, stop: seq<Seen>)
    requires (IsIdent(a) || IsTypeIdent(a)) && AtEnd(stop)
    ensures IsExpr(Dotted(Leaf(a)), 1) && Follows(Dotted(Leaf(a)), stop) && Yield(Dotted(Leaf(a))) == [Sym(DotPrefix), a]
  {
    var x := Leaf(a);
    assert Follows(x, stop) && Yield(x) == [a];
    var ts := [Sym(DotPrefix)] + ([a] + stop);
    MakeDotted(x, stop, ts, 1);
    assert Yield(Dotted(x)) == [Sym(DotPrefix)] + Yield(x);
  }

  /** A leading dot, before a name and before a type's name. */
  lemma DottedForm(a: Seen, stop: seq<Seen>)
    requires (IsIdent(a) || IsTypeIdent(a)) && AtEnd(stop)
    ensures ParseExpr([Sym(DotPrefix), a] + stop, 1) == Ok(Dotted(Leaf(a)), stop)
  {
    hide *;
    DottedParts(a, stop);
    ReadsAs(Dotted(Leaf(a)), [Sym(DotPrefix), a] + stop, stop);
  }

  // ----- types

  lemma TypeReadsAs(c: Tree, ts: seq<Seen>, stop: seq<Seen>)
    requires IsType(c) && Yield(c) + stop == ts && AtEnd(stop)
    ensures ParseType(ts) == Ok(c, stop)
  {
    hide ParseType; hide IsType; hide Yield;
    CompleteType(c, stop);
  }

  lemma SizedForm(k: Seen, w: Seen, stop: seq<Seen>)
    requires k.klass in {Int, Bit, Varbit} && w.klass == Integer && AtEnd(stop)
    ensures ParseType([k, Sym(AngleOpen), w, Sym(AngleClose)] + stop) == Ok(Sized(k, Leaf(w)), stop)
  {
    var c := Sized(k, Leaf(w));
    assert IsType(c) && Yield(c) == [k, Sym(AngleOpen), w, Sym(AngleClose)];
    hide *;
    TypeReadsAs(c, [k, Sym(AngleOpen), w, Sym(AngleClose)] + stop, stop);
  }

  lemma TupleParts(cs: seq<Tree>)
    requires IsList(TypeArgs, cs)
    ensures IsType(Tuple(cs)) && Yield(Tuple(cs)) == [Sym(TupleKw), Sym(AngleOpen)] + (YieldList(cs) + [Sym(AngleClose)])
  {
    hide IsList; hide YieldList;
  }

  lemma SpecializedParts(t: Seen, cs: seq<Tree>)
    requires IsTypeIdent(t) && IsList(TypeArgs, cs)
    ensures IsType(Specialized(Leaf(t), cs))
    ensures Yield(Specialized(Leaf(t), cs)) == [t] + ([Sym(AngleOpen)] + (YieldList(cs) + [Sym(AngleClose)]))
  {
    hide IsList; hide YieldList;
    assert Yield(Leaf(t)) == [t];
  }

  lemma TupleForm(xs: seq<Seen>, stop: seq<Seen>)
    requires Items(TypeArgs, xs) && AtEnd(stop)
    ensures ParseType([Sym(TupleKw), Sym(AngleOpen)] + Commas(xs) + [Sym(AngleClose)] + stop) == Ok(Tuple(Leaves(xs)), stop)
  {
    hide *;
    CommasYield(TypeArgs, xs);
    TupleParts(Leaves(xs));
    Enclosed(Sym(TupleKw), Sym(AngleOpen), Commas(xs), Sym(AngleClose), stop);
    TypeReadsAs(Tuple(Leaves(xs)), [Sym(TupleKw), Sym(AngleOpen)] + Commas(xs) + [Sym(AngleClose)] + stop, stop);
  }

  lemma SpecializedForm(t: Seen, xs: seq<Seen>, stop: seq<Seen>)
    requires IsTypeIdent(t) && Items(TypeArgs, xs) && AtEnd(stop)
    ensures ParseType([t, Sym(AngleOpen)] + Commas(xs) + [Sym(AngleClose)] + stop)
         == Ok(Specialized(Leaf(t), Leaves(xs)), stop)
  {
    hide *;
    CommasYield(TypeArgs, xs);
    SpecializedParts(t, Leaves(xs));
    Enclosed(t, Sym(AngleOpen), Commas(xs), Sym(AngleClose), stop);
    TypeReadsAs(Specialized(Leaf(t), Leaves(xs)), [t, Sym(AngleOpen)] + Commas(xs) + [Sym(AngleClose)] + stop, stop);
  }

  /** The size of a header stack. */
  lemma StackForm(t: Seen, a: Seen, stop: seq<Seen>)
    requires IsTypeIdent(t) && IsIdent(a) && AtEnd(stop)
    ensures ParseType([t, Sym(BracketOpen), a, Sym(BracketClose)] + stop) == Ok(Stack(Leaf(t), Leaf(a)), stop)
  {
    NameFits(a);
    var c := Stack(Leaf(t), Leaf(a));
    assert IsType(c) by { hide IsExpr; }
    assert Yield(c) == [t] + ([Sym(BracketOpen)] + ([a] + [Sym(BracketClose)])) by { assert Yield(Leaf(t)) == [t]; }
    hide *;
    TypeReadsAs(c, [t, Sym(BracketOpen), a, Sym(BracketClose)] + stop, stop);
  }
}
