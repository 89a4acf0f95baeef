/** What the rules of the lexer promise about whole texts. */
module LexTheorems {
  import opened Tokens
  import opened LexRules
  import opened Lexer
  import opened Wrappers

  // ----- tiling

  /** The lexemes of a text, with their windows. */
  datatype Scan = Scan(lexemes: seq<Lexed>, stop: nat)

  predicate Good(r: Lexed) {
    r.Lexed? && r.tok.klass != Unknown
  }

  /** The windows that the lexer takes up to the end of the text or the first failure. */
  function Lexemes(t: string, p: nat, prev: TokenClass): Scan
    requires p <= |t|
    decreases |t| - p
  {
    var r := LexNext(t, p, prev);
    if !Good(r) then Scan([], p)
    else
      var rest := Lexemes(t, r.end + 1, r.tok.klass);
      Scan([r] + rest.lexemes, rest.stop)
  }

  predicate AllSpace(s: string) {
    forall i :: 0 <= i < |s| ==> IsSpace(s[i])
  }

  /** Every window lies behind the one before, with only white space between. */
  ghost predicate Tiled(t: string, p: nat, ls: seq<Lexed>, stop: nat)
    decreases |ls|
  {
    if ls == [] then p == stop <= |t|
    else
      && ls[0].Lexed? && p <= ls[0].start <= ls[0].end < |t|
      && AllSpace(t[p..ls[0].start]) && Tiled(t, ls[0].end + 1, ls[1..], stop)
  }

  /** The windows and the gaps between them, one after the other. */
  function Rebuild(t: string, p: nat, ls: seq<Lexed>): string
    decreases |ls|
  {
    if ls == [] || !ls[0].Lexed? || !(p <= ls[0].start <= ls[0].end < |t|) then ""
    else t[p..ls[0].start] + Window(t, ls[0].start, ls[0].end) + Rebuild(t, ls[0].end + 1, ls[1..])
  }

  lemma {:induction false} Tiling(t: string, p: nat, prev: TokenClass)
    requires p <= |t|
    ensures var s := Lexemes(t, p, prev); Tiled(t, p, s.lexemes, s.stop)
    decreases |t| - p
  {
    hide LexNext;
    hide Tiled;
    hide AllSpace;
    var r := LexNext(t, p, prev);
    TiledNil(t, p);
    if Good(r) {
      NextBehindSpace(t, p, prev);
      Tiling(t, r.end + 1, r.tok.klass);
      var rest := Lexemes(t, r.end + 1, r.tok.klass);
      TiledCons(t, p, r, rest.lexemes, rest.stop);
    }
  }

  lemma TiledNil(t: string, p: nat)
    requires p <= |t|
    ensures Tiled(t, p, [], p)
  {
  }

  lemma TiledCons(t: string, p: nat, r: Lexed, ls: seq<Lexed>, stop: nat)
    requires r.Lexed? && p <= r.start <= r.end < |t| && AllSpace(t[p..r.start]) && Tiled(t, r.end + 1, ls, stop)
    ensures Tiled(t, p, [r] + ls, stop)
  {
    assert ([r] + ls)[1..] == ls;
  }

  /** Windows and gaps rebuild the text that was consumed. */
  lemma {:induction false} TilesRebuild(t: string, p: nat, ls: seq<Lexed>, stop: nat)
    requires Tiled(t, p, ls, stop)
    ensures p <= stop <= |t| && Rebuild(t, p, ls) == t[p..stop]
    decreases |ls|
  {
    hide AllSpace;
    if ls != [] {
      var r := ls[0];
      TilesRebuild(t, r.end + 1, ls[1..], stop);
      Slices(t, p, r.start, r.end + 1, stop);
    }
  }

  lemma Slices(t: string, a: nat, b: nat, c: nat, d: nat)
    requires a <= b <= c <= d <= |t|
    ensures t[a..b] + t[b..c] + t[c..d] == t[a..d]
  {
  }

  lemma NextBehindSpace(t: string, p: nat, prev: TokenClass)
    requires p <= |t|
    ensures var r := LexNext(t, p, prev); r.Lexed? ==> AllSpace(t[p..r.start])
  {
  }

  /** If the text is accepted, its tokens are those of the windows, and behind the last one
      there is only white space up to the end of the text, or to a '\0' in it. */
  lemma {:induction false} TokensOfLexemes(t: string, p: nat, prev: TokenClass)
    requires p <= |t| && Tokenize(t, p, prev).Tokens?
    ensures var s := Lexemes(t, p, prev); var ts := Tokenize(t, p, prev).tokens;
            && |ts| == |s.lexemes| + 1 && ts[|s.lexemes|] == LAST
            && (forall i :: 0 <= i < |s.lexemes| ==> s.lexemes[i].Lexed? && ts[i] == s.lexemes[i].tok)
            && s.stop <= |t| && At(t, RunEnd(t, s.stop, Space)) == '\0'
    decreases |t| - p
  {
    hide LexNext;
    var r := LexNext(t, p, prev);
    if Good(r) {
      TokensOfLexemes(t, r.end + 1, r.tok.klass);
    } else {
      EndBehindSpace(t, p, prev);
    }
  }

  lemma EndBehindSpace(t: string, p: nat, prev: TokenClass)
    requires p <= |t| && LexNext(t, p, prev).AtEnd?
    ensures At(t, RunEnd(t, p, Space)) == '\0'
  {
    hide LexAt;
  }

  // ----- longest match

  predicate IdentLexeme(w: string) {
    && w != [] && (IsLetter(w[0]) || w[0] == '_') && w != "_"
    && forall i :: 0 <= i < |w| ==> InClass(w[i], Ident)
  }

  /** An operator's window holds its spelling, and no longer spelling starts there. */
  lemma LongestOperator(t: string, p: nat, prev: TokenClass, n: nat)
    requires p < |t|
    ensures var r := LexOperator(t, p, prev); Good(r) ==>
            var w := Window(t, r.start, r.end);
            && OpClass(w).Some? && r.tok == Token(SignOr(OpClass(w).value, prev), w, NoInt)
            && (|w| < n <= |t| - p ==> OpClass(t[p..p + n]) == None)
  {
    hide Op1;
    if n <= |t| - p {
      var longer := t[p..p + n];
      assert n >= 2 ==> longer[0] == t[p] && longer[1] == t[p + 1];
      assert n >= 3 ==> longer[2] == t[p + 2];
    }
  }

  /** Which texts are lexed as operators: those that start with one, but with no comment, and
      with no underscore of an identifier. */
  lemma OperatorOrNot(t: string, p: nat, prev: TokenClass)
    requires p < |t| && Good(LexAt(t, p, prev))
    ensures LexAt(t, p, prev).tok.klass !in {Comment, StringLiteral, Integer, Identifier}
       <==> Op1(t[p]).Some? && !(t[p] == '/' && At(t, p + 1) in {'*', '/'}) && !(t[p] == '_' && InClass(At(t, p + 1), Ident))
    ensures LexAt(t, p, prev).tok.klass !in {Comment, StringLiteral, Integer, Identifier} ==>
              LexAt(t, p, prev) == LexOperator(t, p, prev)
  {
    hide LexNumber;
    hide LexString;
    hide LexBlock;
    hide LexLine;
    hide LexIdentifier;
    hide LexOperator;
  }

  /** An identifier's window is one, and no longer text from its start is. */
  lemma LongestIdentifier(t: string, p: nat, prev: TokenClass, n: nat)
    requires p < |t| && Good(LexAt(t, p, prev)) && LexAt(t, p, prev).tok.klass == Identifier
    ensures var r := LexAt(t, p, prev); var w := Window(t, r.start, r.end);
            && IdentLexeme(w) && r.tok == Token(Identifier, w, NoInt)
            && (|w| < n <= |t| - p ==> !IdentLexeme(t[p..p + n]))
  {
    hide LexNumber; hide LexString; hide LexBlock; hide LexLine; hide LexOperator; hide Op1; hide IsNewline;
    var r := LexAt(t, p, prev);
    assert r == LexIdentifier(t, p);
    var w := Window(t, r.start, r.end);
    if |w| < n <= |t| - p {
      assert t[p..p + n][|w|] == t[r.end + 1];
    }
  }
}
