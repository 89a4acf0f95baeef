/** Expression trees with their grouping parentheses kept, the tokens they spell, and
    the grammar that build_ast.c accepts, stated by local conditions on the tree. */
module Grammar {
  import opened Tokens

  datatype UnOp = LogNot | BitNot | Negate

  datatype BinOp =
    | And | Or | Equals | NotEquals | Less | Greater | LessEqual | GreaterEqual
    | Add | Sub | BitAnd | BitOr | BitXor | ShiftLeft | ShiftRight | Mul | Div | Mask

  /** One node kind per node that the expression and type builders make, plus `Group`
      for a parenthesised expression, for which the code makes no node. */
  datatype Tree =
    | Leaf(tok: Seen)                             // literal, name, base type, `_`
    | Dotted(name: Tree)                           // `.` name
    | Specialized(base: Tree, typeArgs: seq<Tree>) // T < args >
    | Stack(base: Tree, size: Tree)                // T [ e ]
    | Sized(tok: Seen, width: Tree)               // bit < INTEGER >
    | Tuple(typeArgs: seq<Tree>)                   // tuple < args >
    | Braces(elems: seq<Tree>)                     // { e , e }
    | Group(inner: Tree)                           // ( e )
    | Cast(toType: Tree, arg: Tree)                // ( T ) e
    | Unary(op: UnOp, arg: Tree)
    | Member(base: Tree, field: Seen)
    | Index(base: Tree, at: Tree)
    | Slice(base: Tree, hi: Tree, lo: Tree)
    | Call(base: Tree, args: seq<Tree>)
    | TypeApp(base: Tree, typeArgs: seq<Tree>)
    | KeyValue(key: Tree, value: Tree)
    | Binary(bop: BinOp, left: Tree, right: Tree)

  /** The four comma separated lists: brace expressions, call arguments, type arguments
      of a type, type arguments of an expression. */
  datatype ListKind = Exprs | Args | TypeArgs | RealTypeArgs

  function UnaryClass(op: UnOp): TokenClass {
    match op
    case LogNot => Exclamation
    case BitNot => Tilda
    case Negate => TokenClass.UnaryMinus
  }

  function BinaryClass(op: BinOp): TokenClass {
    match op
    case And => TwoAmpersand
    case Or => TwoPipe
    case Equals => TwoEqual
    case NotEquals => ExclamationEqual
    case Less => AngleOpen
    case Greater => AngleClose
    case LessEqual => AngleOpenEqual
    case GreaterEqual => AngleCloseEqual
    case Add => Plus
    case Sub => Minus
    case BitAnd => Ampersand
    case BitOr => Pipe
    case BitXor => Circumflex
    case ShiftLeft => TwoAngleOpen
    case ShiftRight => TwoAngleClose
    case Mul => Star
    case Div => Slash
    case Mask => ThreeAmpersand
  }

  /** The priority table of the code, not the one of the P4_16 specification. */
  function Priority(op: BinOp): (p: nat)
    ensures 1 <= p <= 5
  {
    match op
    case And => 1 case Or => 1
    case Equals => 2 case NotEquals => 2 case Less => 2 case Greater => 2
    case LessEqual => 2 case GreaterEqual => 2
    case Add => 3 case Sub => 3 case BitAnd => 3 case BitOr => 3 case BitXor => 3
    case ShiftLeft => 3 case ShiftRight => 3
    case Mul => 4 case Div => 4
    case Mask => 5
  }

  // ----- the tokens of a tree

  function Yield(c: Tree): (ts: seq<Seen>)
    ensures ts != []
    decreases c, 0
  {
    match c
    case Leaf(tok) => [tok]
    case Dotted(x) => [Sym(DotPrefix)] + Yield(x)
    case Specialized(b, args) => Yield(b) + ([Sym(AngleOpen)] + (YieldList(args) + [Sym(AngleClose)]))
    case Stack(b, e) => Yield(b) + ([Sym(BracketOpen)] + (Yield(e) + [Sym(BracketClose)]))
    case Sized(tok, w) => [tok, Sym(AngleOpen)] + (Yield(w) + [Sym(AngleClose)])
    case Tuple(args) => [Sym(TupleKw), Sym(AngleOpen)] + (YieldList(args) + [Sym(AngleClose)])
    case Braces(es) => [Sym(BraceOpen)] + (YieldList(es) + [Sym(BraceClose)])
    case Group(e) => [Sym(ParenthOpen)] + (Yield(e) + [Sym(ParenthClose)])
    case Cast(ty, e) => [Sym(ParenthOpen)] + (Yield(ty) + ([Sym(ParenthClose)] + Yield(e)))
    case Unary(op, e) => [Sym(UnaryClass(op))] + Yield(e)
    case Member(b, n) => Yield(b) + [Sym(DotPrefix), n]
    case Index(b, i) => Yield(b) + ([Sym(BracketOpen)] + (Yield(i) + [Sym(BracketClose)]))
    case Slice(b, i, j) =>
      Yield(b) + ([Sym(BracketOpen)] + (Yield(i) + ([Sym(Colon)] + (Yield(j) + [Sym(BracketClose)]))))
    case Call(b, args) => Yield(b) + ([Sym(ParenthOpen)] + (YieldList(args) + [Sym(ParenthClose)]))
    case TypeApp(b, args) => Yield(b) + ([Sym(AngleOpen)] + (YieldList(args) + [Sym(AngleClose)]))
    case KeyValue(k, v) => Yield(k) + ([Sym(Equal)] + Yield(v))
    case Binary(op, l, r) => Yield(l) + ([Sym(BinaryClass(op))] + Yield(r))
  }

  /** The items of a list separated by commas. */
  function YieldList(xs: seq<Tree>): (ts: seq<Seen>)
    decreases xs, 1
  {
    if xs == [] then [] else Yield(xs[0]) + YieldMore(xs[1..])
  }

  function YieldMore(xs: seq<Tree>): (ts: seq<Seen>)
    decreases xs, 0
  {
    if xs == [] then [] else [Sym(Comma)] + (Yield(xs[0]) + YieldMore(xs[1..]))
  }

  /** The class of the first token of a tree, read off its left spine. */
  function Lead(c: Tree): TokenClass {
    match c
    case Leaf(tok) => tok.klass
    case Dotted(_) => DotPrefix
    case Sized(tok, _) => tok.klass
    case Tuple(_) => TupleKw
    case Braces(_) => BraceOpen
    case Group(_) => ParenthOpen
    case Cast(_, _) => ParenthOpen
    case Unary(op, _) => UnaryClass(op)
    case Specialized(b, _) => Lead(b)
    case Stack(b, _) => Lead(b)
    case Member(b, _) => Lead(b)
    case Index(b, _) => Lead(b)
    case Slice(b, _, _) => Lead(b)
    case Call(b, _) => Lead(b)
    case TypeApp(b, _) => Lead(b)
    case KeyValue(k, _) => Lead(k)
    case Binary(_, l, _) => Lead(l)
  }

  // ----- the shape of a tree

  predicate IsTypeLeaf(c: Tree) {
    c.Leaf? && c.tok.klass == TypeIdentifier
  }

  /** A name that the type builders still look behind: `T`, `.T`. */
  predicate IsBareType(c: Tree) {
    IsTypeLeaf(c) || (c.Dotted? && IsTypeLeaf(c.name))
  }

  /** A name or specialised type, after which `[` opens a header stack size. */
  predicate TakesBracket(c: Tree) {
    || IsBareType(c)
    || c.Specialized?
    || (c.Dotted? && c.name.Specialized?)
  }

  /** Prefix forms and key-value pairs take everything to their right. */
  predicate IsGreedy(c: Tree) {
    c.Unary? || c.Cast? || c.KeyValue?
  }

  /** A primary expression, possibly with postfix operators. */
  predicate IsPostfixForm(c: Tree) {
    !c.Binary? && !IsGreedy(c)
  }

  /** The tree ends in a greedy form, so nothing may be appended to it. */
  predicate IsOpen(c: Tree) {
    IsGreedy(c) || (c.Binary? && IsOpen(c.right))
  }

  /** The tree ends in a bare type name, after which `<` opens type arguments. */
  predicate EndsBare(c: Tree) {
    IsBareType(c) || (c.Binary? && EndsBare(c.right))
  }

  // ----- the grammar

  predicate IsExprLeaf(k: TokenClass) {
    k in {Integer, True, False, StringLiteral, Error} || IsNonTypeName(k)
  }

  /** The right operand of `<` may not start like a type, or `<` would open type arguments. */
  predicate RightFits(op: BinOp, r: Tree) {
    op == Less ==> !IsRealTypeArg(Lead(r))
  }

  /** A left operand may not be greedy at its end, and before `<` may not end in a bare type. */
  predicate LeftFits(op: BinOp, l: Tree) {
    !IsOpen(l) && (op == Less ==> !EndsBare(l))
  }

  /** Expressions without an ungrouped operator of priority below `t`. */
  predicate IsExpr(c: Tree, t: nat)
    decreases c, 1
  {
    match c
    case Leaf(tok) => IsExprLeaf(tok.klass) || tok.klass == TypeIdentifier
    case Dotted(x) => (x.Leaf? && x.tok.klass == Identifier) || IsTypeNameTree(x, false)
    case Specialized(_, _) => IsTypeNameTree(c, false)
    case Stack(_, _) => IsTypeNameTree(c, false)
    case Sized(_, _) => false
    case Tuple(_) => false
    case Braces(es) => IsList(Exprs, es)
    case Group(e) => IsExpr(e, 1) && !IsTypeRef(Lead(e))
    case Cast(ty, e) => IsType(ty) && IsExpr(e, 1)
    case Unary(_, e) => IsExpr(e, 1)
    case Member(b, n) => IsPostfixForm(b) && IsExpr(b, 1) && IsName(n.klass)
    case Index(b, i) => IsPostfixForm(b) && !TakesBracket(b) && IsExpr(b, 1) && IsExpr(i, 1)
    case Slice(b, i, j) =>
      IsPostfixForm(b) && !TakesBracket(b) && IsExpr(b, 1) && IsExpr(i, 1) && IsExpr(j, 1)
    case Call(b, args) => IsPostfixForm(b) && IsExpr(b, 1) && IsList(Args, args)
    case TypeApp(b, args) =>
      IsPostfixForm(b) && !IsBareType(b) && IsExpr(b, 1) && args != [] && IsList(RealTypeArgs, args)
    case KeyValue(k, v) => IsPostfixForm(k) && IsExpr(k, 1) && IsExpr(v, 1)
    case Binary(op, l, r) =>
      && Priority(op) >= t
      && IsExpr(l, Priority(op)) && LeftFits(op, l)
      && IsExpr(r, Priority(op) + 1) && RightFits(op, r)
  }

  /** `T`, `T<args>`, `T[e]`, `T<args>[e]`; in a type position also behind a dot. */
  predicate IsTypeNameTree(c: Tree, dotAllowed: bool)
    decreases c, 0
  {
    if c.Stack? then
      IsExpr(c.size, 1) && (IsPrefixedType(c.base, dotAllowed) || (c.base.Specialized? && IsTypeNameTree(c.base, dotAllowed)))
    else if c.Specialized? then
      IsPrefixedType(c.base, dotAllowed) && IsList(TypeArgs, c.typeArgs)
    else
      IsPrefixedType(c, dotAllowed)
  }

  predicate IsPrefixedType(c: Tree, dotAllowed: bool) {
    IsTypeLeaf(c) || (dotAllowed && c.Dotted? && IsTypeLeaf(c.name))
  }

  predicate IsType(c: Tree)
    decreases c, 2
  {
    if c.Leaf? then IsBaseType(c.tok.klass) || c.tok.klass == TypeIdentifier
    else if c.Sized? then c.tok.klass in {Int, Bit, Varbit} && c.width.Leaf? && c.width.tok.klass == Integer
    else if c.Tuple? then IsList(TypeArgs, c.typeArgs)
    else IsTypeNameTree(c, true)
  }

  predicate IsItem(kind: ListKind, c: Tree)
    decreases c, 3
  {
    match kind
    case Exprs => IsExpr(c, 1)
    case Args => (c.Leaf? && c.tok.klass == Dontcare) || IsExpr(c, 1)
    case TypeArgs => (c.Leaf? && (c.tok.klass == Dontcare || IsNonTypeName(c.tok.klass))) || IsType(c)
    case RealTypeArgs => (c.Leaf? && c.tok.klass == Dontcare) || IsType(c)
  }

  predicate IsList(kind: ListKind, xs: seq<Tree>)
    decreases xs
  {
    xs == [] || (IsItem(kind, xs[0]) && IsList(kind, xs[1..]))
  }

  // ----- what may follow a tree in the token stream

  /** At these tokens the operator loop with threshold `t` stops. */
  predicate Stops(ts: seq<Seen>, t: nat) {
    || !IsExprOperator(Kind(ts))
    || (InfixAt(ts) && InfixPriority(Kind(ts)) < t)
  }

  /** The next token is a binary operator rather than `=` or the start of type arguments. */
  predicate InfixAt(ts: seq<Seen>) {
    && IsBinaryOperator(Kind(ts)) && Kind(ts) != Equal
    && (Kind(ts) == AngleOpen ==> !IsRealTypeArg(Kind(ts[1..])))
  }

  /** get_operator_priority: the priority of a token class, 0 where the code asserts. */
  function InfixPriority(k: TokenClass): (p: nat) {
    if k in {TwoAmpersand, TwoPipe} then 1
    else if k in {TwoEqual, ExclamationEqual, AngleOpen, AngleClose, AngleOpenEqual, AngleCloseEqual} then 2
    else if k in {Plus, Minus, Ampersand, Pipe, Circumflex, TwoAngleOpen, TwoAngleClose} then 3
    else if k in {Star, Slash} then 4
    else if k == ThreeAmpersand then 5
    else 0
  }

  /** The tokens behind a tree neither extend its last type name nor one of the operands
      on its right spine. */
  predicate Follows(c: Tree, ts: seq<Seen>) {
    match c
    case Leaf(tok) =>
      && (tok.klass == TypeIdentifier ==> Kind(ts) != AngleOpen && Kind(ts) != BracketOpen)
      && (tok.klass in {Int, Bit, Varbit} ==> Kind(ts) != AngleOpen)
    case Dotted(x) => Follows(x, ts)
    case Specialized(_, _) => Kind(ts) != BracketOpen
    case Cast(_, e) => Stops(ts, 1) && Follows(e, ts)
    case Unary(_, e) => Stops(ts, 1) && Follows(e, ts)
    case KeyValue(_, v) => Stops(ts, 1) && Follows(v, ts)
    case Binary(op, _, r) => Stops(ts, Priority(op) + 1) && Follows(r, ts)
    case _ => true
  }
}
