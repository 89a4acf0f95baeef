/** Writing a tree without groups back with as few parentheses as the code's grammar
    allows. The parser drops parentheses from the tree it builds, so this is the inverse
    it should have. */
module Printer {
  import opened Tokens
  import opened Grammar
  import opened Wrappers

  // ----- the tree that the code builds

  /** The tree without its grouping parentheses. */
  function Strip(c: Tree): Tree
    decreases c, 0
  {
    match c
    case Leaf(_) => c
    case Dotted(x) => Dotted(Strip(x))
    case Specialized(b, args) => Specialized(Strip(b), StripAll(args))
    case Stack(b, e) => Stack(Strip(b), Strip(e))
    case Sized(tok, w) => Sized(tok, Strip(w))
    case Tuple(args) => Tuple(StripAll(args))
    case Braces(es) => Braces(StripAll(es))
    case Group(e) => Strip(e)
    case Cast(ty, e) => Cast(Strip(ty), Strip(e))
    case Unary(op, e) => Unary(op, Strip(e))
    case Member(b, n) => Member(Strip(b), n)
    case Index(b, i) => Index(Strip(b), Strip(i))
    case Slice(b, i, j) => Slice(Strip(b), Strip(i), Strip(j))
    case Call(b, args) => Call(Strip(b), StripAll(args))
    case TypeApp(b, args) => TypeApp(Strip(b), StripAll(args))
    case KeyValue(k, v) => KeyValue(Strip(k), Strip(v))
    case Binary(op, l, r) => Binary(op, Strip(l), Strip(r))
  }

  function StripAll(xs: seq<Tree>): (ys: seq<Tree>)
    ensures |ys| == |xs|
    decreases xs
  {
    if xs == [] then [] else [Strip(xs[0])] + StripAll(xs[1..])
  }

  // ----- unary minus

  /** The lexer makes a unary minus only directly behind `(`. */
  predicate MinusFits(c: Tree, afterParen: bool)
    decreases c, 0
  {
    match c
    case Leaf(_) => true
    case Dotted(x) => MinusFits(x, false)
    case Specialized(b, args) => MinusFits(b, false) && MinusFitsAll(args, false)
    case Stack(b, e) => MinusFits(b, false) && MinusFits(e, false)
    case Sized(_, w) => MinusFits(w, false)
    case Tuple(args) => MinusFitsAll(args, false)
    case Braces(es) => MinusFitsAll(es, false)
    case Group(e) => MinusFits(e, true)
    case Cast(ty, e) => MinusFits(ty, false) && MinusFits(e, false)
    case Unary(op, e) => (op == Negate ==> afterParen) && MinusFits(e, false)
    case Member(b, _) => MinusFits(b, afterParen)
    case Index(b, i) => MinusFits(b, afterParen) && MinusFits(i, false)
    case Slice(b, i, j) => MinusFits(b, afterParen) && MinusFits(i, false) && MinusFits(j, false)
    case Call(b, args) => MinusFits(b, afterParen) && MinusFitsAll(args, true)
    case TypeApp(b, args) => MinusFits(b, afterParen) && MinusFitsAll(args, false)
    case KeyValue(k, v) => MinusFits(k, afterParen) && MinusFits(v, false)
    case Binary(_, l, r) => MinusFits(l, afterParen) && MinusFits(r, false)
  }

  predicate MinusFitsAll(xs: seq<Tree>, afterParen: bool)
    decreases xs
  {
    xs == [] || (MinusFits(xs[0], afterParen) && MinusFitsAll(xs[1..], false))
  }

  predicate IsNegation(c: Tree) {
    c.Unary? && c.op == Negate
  }

  // ----- fitting a tree into its place

  /** A tree as it is where that is allowed, else in parentheses, which is impossible when
      its first token would make them a cast. */
  function Fit(c: Tree, fits: bool): Option<Tree> {
    if fits then Some(c) else if IsTypeRef(Lead(c)) then None else Some(Group(c))
  }

  /** Parentheses around the largest tree on the right spine that may have them. */
  function Seal(c: Tree): Option<Tree> {
    if !IsTypeRef(Lead(c)) then Some(Group(c))
    else if !c.Binary? then None
    else
      var r := Seal(c.right);
      if r.Some? then Some(Binary(c.bop, c.left, r.value)) else None
  }

  predicate FitsBase(c: Tree, next: TokenClass) {
    && IsPostfixForm(c)
    && (next == BracketOpen ==> !TakesBracket(c))
    && (next == AngleOpen ==> !IsBareType(c))
  }

  predicate FitsRight(op: BinOp, c: Tree) {
    (c.Binary? ==> Priority(c.bop) > Priority(op)) && RightFits(op, c) && !IsNegation(c)
  }

  function FitLeft(op: BinOp, c: Tree): Option<Tree> {
    if c.Binary? && Priority(c.bop) < Priority(op) then Fit(c, false)
    else if LeftFits(op, c) then Some(c)
    else Seal(c)
  }

  // ----- printing

  /** The tree with parentheses put back inside, none around it. */
  function Bare(a: Tree): Option<Tree>
    decreases a, 0
  {
    match a
    case Leaf(_) => Some(a)
    case Dotted(x) =>
      var p := Bare(x);
      if p.Some? then Some(Dotted(p.value)) else None
    case Specialized(b, args) =>
      var p := Bare(b); var ps := BareAll(args, false);
      if p.Some? && ps.Some? then Some(Specialized(p.value, ps.value)) else None
    case Stack(b, e) =>
      var p := Bare(b); var q := Free(e, false);
      if p.Some? && q.Some? then Some(Stack(p.value, q.value)) else None
    case Sized(_, w) => if w.Leaf? then Some(a) else None
    case Tuple(args) =>
      var ps := BareAll(args, false);
      if ps.Some? then Some(Tuple(ps.value)) else None
    case Braces(es) =>
      var ps := BareAll(es, false);
      if ps.Some? then Some(Braces(ps.value)) else None
    case Group(_) => None
    case Cast(ty, e) =>
      var p := Bare(ty); var q := Free(e, false);
      if p.Some? && q.Some? then Some(Cast(p.value, q.value)) else None
    case Unary(op, e) =>
      var q := Free(e, false);
      if q.Some? then Some(Unary(op, q.value)) else None
    case Member(b, n) =>
      var p := Base(b, DotPrefix);
      if p.Some? then Some(Member(p.value, n)) else None
    case Index(b, i) =>
      var p := Base(b, BracketOpen); var q := Free(i, false);
      if p.Some? && q.Some? then Some(Index(p.value, q.value)) else None
    case Slice(b, i, j) =>
      var p := Base(b, BracketOpen); var q := Free(i, false); var r := Free(j, false);
      if p.Some? && q.Some? && r.Some? then Some(Slice(p.value, q.value, r.value)) else None
    case Call(b, args) =>
      var p := Base(b, ParenthOpen); var ps := BareAll(args, true);
      if p.Some? && ps.Some? then Some(Call(p.value, ps.value)) else None
    case TypeApp(b, args) =>
      var p := Base(b, AngleOpen); var ps := BareAll(args, false);
      if p.Some? && ps.Some? then Some(TypeApp(p.value, ps.value)) else None
    case KeyValue(k, v) =>
      var p := Base(k, Equal); var q := Free(v, false);
      if p.Some? && q.Some? then Some(KeyValue(p.value, q.value)) else None
    case Binary(op, l, r) =>
      var p := Bare(l); var q := Bare(r);
      if p.None? || q.None? then None else
      var p' := FitLeft(op, p.value); var q' := Fit(q.value, FitsRight(op, q.value));
      if p'.Some? && q'.Some? then Some(Binary(op, p'.value, q'.value)) else None
  }

  /** A whole expression, alone or between brackets. */
  function Free(a: Tree, afterParen: bool): Option<Tree>
    decreases a, 1
  {
    var p := Bare(a);
    if p.Some? then Fit(p.value, afterParen || !IsNegation(p.value)) else None
  }

  /** An operand of the postfix operator that starts with `next`. */
  function Base(a: Tree, next: TokenClass): Option<Tree>
    decreases a, 1
  {
    var p := Bare(a);
    if p.Some? then Fit(p.value, FitsBase(p.value, next)) else None
  }

  function BareAll(xs: seq<Tree>, afterParen: bool): (r: Option<seq<Tree>>)
    ensures r.Some? ==> |r.value| == |xs|
    decreases xs
  {
    if xs == [] then Some([]) else
    var p := Free(xs[0], afterParen); var ps := BareAll(xs[1..], false);
    if p.Some? && ps.Some? then Some([p.value] + ps.value) else None
  }

  /** The printed form of an expression that does not stand behind `(`. */
  function Print(a: Tree): Option<Tree> {
    Free(a, false)
  }
}
