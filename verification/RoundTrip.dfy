/** Parsing, dropping the parentheses and printing again. */
module RoundTrip {
  import opened Tokens
  import opened Grammar
  import opened ExprParser
  import opened Printer
  import opened ParserComplete
  import opened PrinterTheorems
  import opened MinusRule
  import opened Wrappers

  /** The tree can be written down: some spelling of it is read back as it. */
  ghost predicate Expressible(a: Tree) {
    exists c :: IsExpr(c, 1) && MinusFits(c, false) && Strip(c) == a
  }

  /** No parentheses anywhere in the tree. */
  predicate GroupFree(c: Tree)
    decreases c, 0
  {
    match c
    case Leaf(_) => true
    case Dotted(x) => GroupFree(x)
    case Specialized(b, args) => GroupFree(b) && AllGroupFree(args)
    case Stack(b, e) => GroupFree(b) && GroupFree(e)
    case Sized(_, w) => GroupFree(w)
    case Tuple(args) => AllGroupFree(args)
    case Braces(es) => AllGroupFree(es)
    case Group(_) => false
    case Cast(ty, e) => GroupFree(ty) && GroupFree(e)
    case Unary(_, e) => GroupFree(e)
    case Member(b, _) => GroupFree(b)
    case Index(b, i) => GroupFree(b) && GroupFree(i)
    case Slice(b, i, j) => GroupFree(b) && GroupFree(i) && GroupFree(j)
    case Call(b, args) => GroupFree(b) && AllGroupFree(args)
    case TypeApp(b, args) => GroupFree(b) && AllGroupFree(args)
    case KeyValue(k, v) => GroupFree(k) && GroupFree(v)
    case Binary(_, l, r) => GroupFree(l) && GroupFree(r)
  }

  predicate AllGroupFree(xs: seq<Tree>)
    decreases xs, 1
  {
    xs == [] || (GroupFree(xs[0]) && AllGroupFree(xs[1..]))
  }

  /** Stripping only takes parentheses away: without them the builders' tree is the one that
      was written. */
  lemma {:induction false} StripTakesGroups(c: Tree)
    ensures GroupFree(Strip(c)) && (GroupFree(c) ==> Strip(c) == c)
    decreases c, 0
  {
    hide StripAll; hide AllGroupFree;
    match c
    case Leaf(_) =>
    case Dotted(x) => StripTakesGroups(x);
    case Specialized(b, args) => StripTakesGroups(b); StripTakesAll(args);
    case Stack(b, e) => StripTakesGroups(b); StripTakesGroups(e);
    case Sized(_, w) => StripTakesGroups(w);
    case Tuple(args) => StripTakesAll(args);
    case Braces(es) => StripTakesAll(es);
    case Group(e) => StripTakesGroups(e);
    case Cast(ty, e) => StripTakesGroups(ty); StripTakesGroups(e);
    case Unary(_, e) => StripTakesGroups(e);
    case Member(b, _) => StripTakesGroups(b);
    case Index(b, i) => StripTakesGroups(b); StripTakesGroups(i);
    case Slice(b, i, j) => StripTakesGroups(b); StripTakesGroups(i); StripTakesGroups(j);
    case Call(b, args) => StripTakesGroups(b); StripTakesAll(args);
    case TypeApp(b, args) => StripTakesGroups(b); StripTakesAll(args);
    case KeyValue(k, v) => StripTakesGroups(k); StripTakesGroups(v);
    case Binary(_, l, r) => StripTakesGroups(l); StripTakesGroups(r);
  }

  lemma {:induction false} StripTakesAll(xs: seq<Tree>)
    ensures AllGroupFree(StripAll(xs)) && (AllGroupFree(xs) ==> StripAll(xs) == xs)
    decreases xs, 1
  {
    if xs != [] {
      StripTakesGroups(xs[0]);
      StripTakesAll(xs[1..]);
      assert StripAll(xs)[1..] == StripAll(xs[1..]);
    }
  }

  /** For every spelling of a tree the printed spelling is in the grammar, stands for the
      same tree and is no longer. */
  lemma PrintIsShortest(c: Tree)
    requires IsExpr(c, 1) && MinusFits(c, false)
    ensures var r := Print(Strip(c));
            && r.Some? && IsExpr(r.value, 1) && MinusFits(r.value, false)
            && Strip(r.value) == Strip(c) && |Yield(r.value)| <= |Yield(c)|
  {
    ReprintFree(c, false);
    FreeStrips(Strip(c), false);
  }

  /** What is printed stands for the tree. */
  lemma PrintStrips(a: Tree)
    requires Print(a).Some?
    ensures Strip(Print(a).value) == a
  {
    FreeStrips(a, false);
  }

  /** A tree can be written down exactly when the printer finds a spelling in the grammar. */
  lemma ExpressibleIffPrints(a: Tree)
    ensures Expressible(a) <==>
            var r := Print(a); r.Some? && IsExpr(r.value, 1) && MinusFits(r.value, false)
  {
    if Expressible(a) {
      var c :| IsExpr(c, 1) && MinusFits(c, false) && Strip(c) == a;
      PrintIsShortest(c);
    }
    var r := Print(a);
    if r.Some? && IsExpr(r.value, 1) && MinusFits(r.value, false) {
      FreeStrips(a, false);
    }
  }

  lemma MinusIff(c: Tree, s: seq<Seen>)
    requires IsExpr(c, 1)
    ensures MinusOk(false, Yield(c) + s) <==> MinusFits(c, false) && MinusOk(false, s)
  {
    hide IsExpr; hide Yield; hide MinusOk; hide MinusFits;
    MinusOfExpr(c, 1, false, s);
  }

  lemma NoTokensNoMinus()
    ensures MinusOk(false, [])
  {
  }

  /** Whatever was parsed from lexed tokens prints, and the printed tokens parse, before any
      token that is no operator, to the tree that the code had built. */
  lemma ParsePrintParse(ts: seq<Seen>, c: Tree, rest: seq<Seen>, stop: seq<Seen>)
    requires MinusOk(false, ts) && ParseExpr(ts, 1) == Ok(c, rest) && !IsExprOperator(Kind(stop))
    ensures var r := Print(Strip(c));
            && r.Some? && MinusOk(false, Yield(r.value)) && |Yield(r.value)| <= |Yield(c)|
            && var p := ParseExpr(Yield(r.value) + stop, 1);
               p.Ok? && Strip(p.tree) == Strip(c) && p.rest == stop
  {
    hide *;
    ParseIffGrammar(ts, 1, c, rest);
    MinusIff(c, rest);
    PrintIsShortest(c);
    var p := Print(Strip(c)).value;
    assert Yield(p) + [] == Yield(p);
    MinusIff(p, []);
    NoTokensNoMinus();
    FollowsStop(p, stop);
    CompleteStop(p, stop, 1);
  }

  /** Printing any tree that can be written down and parsing it gives the tree back. */
  lemma PrintParse(a: Tree, stop: seq<Seen>)
    requires Expressible(a) && !IsExprOperator(Kind(stop))
    ensures var r := Print(a); r.Some? && var p := ParseExpr(Yield(r.value) + stop, 1);
            p.Ok? && Strip(p.tree) == a && p.rest == stop
  {
    ExpressibleIffPrints(a);
    var p := Print(a).value;
    FreeStrips(a, false);
    FollowsStop(p, stop);
    CompleteStop(p, stop, 1);
  }

  /** `(.x + y) * z` cannot be written: `(` before a dot always opens a cast. */
  lemma SumBehindDotIsNotExpressible(x: Seen, y: Seen, z: Seen)
    requires x.klass == y.klass == z.klass == Identifier
    ensures !Expressible(Binary(Mul, Binary(Add, Dotted(Leaf(x)), Leaf(y)), Leaf(z)))
  {
    var sum := Binary(Add, Dotted(Leaf(x)), Leaf(y));
    assert Bare(Dotted(Leaf(x))) == Some(Dotted(Leaf(x)));
    assert Bare(sum) == Some(sum);
    assert Lead(sum) == Lead(Dotted(Leaf(x))) == DotPrefix;
    assert FitLeft(Mul, sum) == None;
    assert Bare(Leaf(z)) == Some(Leaf(z));
    assert Bare(Binary(Mul, sum, Leaf(z))) == None;
    ExpressibleIffPrints(Binary(Mul, sum, Leaf(z)));
  }
}
