/** From trees to text and back: printer, lexer, symbol lookup and parser together. */
module TextRoundTrip {
  import opened Tokens
  import opened Grammar
  import opened ExprParser
  import opened Printer
  import opened MinusRule
  import opened RoundTrip
  import opened ParserSound
  import opened TreeTokens
  import opened TokenCursor
  import LexRules
  import opened LexTheorems
  import opened Lexer
  import opened Relex
  import opened Wrappers

  /** No keyword stands for a class that the lexer gives to punctuation. */
  ghost predicate WordNames(names: Names) {
    ProperNames(names) && forall n <- names.keywords :: names.keywords[n] !in {Minus, TokenClass.UnaryMinus, ParenthOpen}
  }

  /** The word is lexed, and looked up, as the token that the builders are to see. */
  ghost predicate SpelledBy(tok: Seen, w: Word, names: Names) {
    && WordOk(w)
    && (if tok.klass == Minus || tok.klass == TokenClass.UnaryMinus then w == Op("-")
        else w != Op("-") && Essence(Classify(TokenOf(w, Comma), names)) == tok)
  }

  ghost predicate AllSpelled(ts: seq<Seen>, ws: seq<Word>, names: Names) {
    |ts| == |ws| && forall i :: 0 <= i < |ts| ==> SpelledBy(ts[i], ws[i], names)
  }

  lemma SpelledToken(tok: Seen, w: Word, prev: TokenClass, names: Names)
    requires WordNames(names) && SpelledBy(tok, w, names)
    requires tok.klass == TokenClass.UnaryMinus ==> prev == ParenthOpen
    requires tok.klass == Minus ==> prev != ParenthOpen
    ensures var raw := TokenOf(w, prev);
            && raw.klass != Comment && Essence(Classify(raw, names)) == tok
            && (raw.klass == ParenthOpen <==> tok.klass == ParenthOpen)
  {
    if tok.klass == Minus || tok.klass == TokenClass.UnaryMinus {
    } else {
      NoSign(w, prev);
    }
  }

  lemma OnlyMinus(op: string)
    ensures LexRules.OpClass(op) == LexRules.OpClass("-") ==> op == "-"
    ensures LexRules.OpClass("-").Some? && LexRules.OpClass("-").value == Minus
  {
    if |op| == 1 { assert op == [op[0]]; }
  }

  /** Only a minus depends on what comes before it. */
  lemma NoSign(w: Word, prev: TokenClass)
    requires WordOk(w) && w != Op("-")
    ensures TokenOf(w, prev) == TokenOf(w, Comma) && TokenOf(w, prev).klass != Comment
  {
    if w.Op? { OnlyMinus(w.op); }
  }

  /** The builders see exactly the tokens that were to be written. */
  lemma {:induction false} WrittenView(ts: seq<Seen>, ws: seq<Word>, prev: TokenClass, names: Names)
    requires WordNames(names) && AllSpelled(ts, ws, names) && MinusOk(prev == ParenthOpen, ts)
    ensures AllOk(ws) && View(TokensOf(ws, prev) + [LAST], names) == ts + [Sym(EndOfInput)]
    decreases |ts|
  {
    hide TokenOf; hide SpelledBy; hide Classify; hide Essence; hide View; hide MinusOk; hide TokensOf; hide WordNames;
    SpelledOk(ts, ws, names);
    if ts == [] {
      ViewLast(names);
      assert TokensOf(ws, prev) + [LAST] == [LAST] by { NoTokens(prev); }
    } else {
      var raw := TokenOf(ws[0], prev);
      var rest := TokensOf(ws[1..], raw.klass) + [LAST];
      assert [ts[0]] + ts[1..] == ts;
      SignsCons(prev == ParenthOpen, ts[0], ts[1..]);
      SpelledToken(ts[0], ws[0], prev, names);
      WrittenView(ts[1..], ws[1..], raw.klass, names);
      TokensFirst(ws, prev);
      ViewCons(raw, rest, names);
      assert [ts[0]] + (ts[1..] + [Sym(EndOfInput)]) == ts + [Sym(EndOfInput)];
    }
  }

  lemma SpelledOk(ts: seq<Seen>, ws: seq<Word>, names: Names)
    requires AllSpelled(ts, ws, names)
    ensures AllOk(ws)
  {
    forall i | 0 <= i < |ws| ensures WordOk(ws[i]) { assert SpelledBy(ts[i], ws[i], names); }
  }

  lemma ViewLast(names: Names)
    ensures View([LAST], names) == [Sym(EndOfInput)]
  {
    assert [LAST][1..] == [];
  }

  lemma ViewCons(raw: Token, rest: seq<Token>, names: Names)
    requires raw.klass != Comment
    ensures View([raw] + rest, names) == [Essence(Classify(raw, names))] + View(rest, names)
  {
    assert ([raw] + rest)[1..] == rest;
  }

  // ----- which tokens have a word

  ghost predicate Spellable(tok: Seen, names: Names) {
    exists w :: SpelledBy(tok, w, names)
  }

  ghost predicate AllSpellable(ts: seq<Seen>, names: Names) {
    forall i :: 0 <= i < |ts| ==> Spellable(ts[i], names)
  }

  lemma WordFor(tok: Seen, names: Names) returns (w: Word)
    requires Spellable(tok, names)
    ensures SpelledBy(tok, w, names)
  {
    hide SpelledBy;
    w :| SpelledBy(tok, w, names);
  }

  lemma {:induction false} WordsFor(ts: seq<Seen>, names: Names) returns (ws: seq<Word>)
    requires AllSpellable(ts, names)
    ensures AllSpelled(ts, ws, names)
  {
    hide Spellable; hide SpelledBy;
    if ts == [] {
      ws := [];
    } else {
      assert Spellable(ts[0], names) && AllSpellable(ts[1..], names);
      var w := WordFor(ts[0], names);
      var rest := WordsFor(ts[1..], names);
      ws := [w] + rest;
      forall i | 0 <= i < |ts| ensures SpelledBy(ts[i], ws[i], names) {
        if i > 0 { assert ts[i] == ts[1..][i - 1] && ws[i] == rest[i - 1]; }
      }
    }
  }

  lemma ParenthesesSpelled(names: Names)
    ensures Spellable(Sym(ParenthOpen), names) && Spellable(Sym(ParenthClose), names)
  {
    hide Spelling;
    assert SpelledBy(Sym(ParenthOpen), Op("("), names) && SpelledBy(Sym(ParenthClose), Op(")"), names);
  }

  /** The printed form of a tree needs no words but those of the tree and parentheses. */
  lemma PrintedSpellable(d: Tree, names: Names)
    requires AllSpellable(Yield(Strip(d)), names)
    ensures AllSpellable(Yield(d), names)
  {
    hide Spellable; hide Yield; hide Strip;
    ParenthesesSpelled(names);
    forall i | 0 <= i < |Yield(d)| ensures Spellable(Yield(d)[i], names) {
      StripToken(d, Yield(d)[i]);
    }
  }

  lemma PrintedMinusOk(a: Tree)
    requires Expressible(a)
    ensures Print(a).Some? && MinusOk(false, Yield(Print(a).value))
  {
    hide IsExpr; hide Strip; hide EndsBare; hide Base; hide Lead; hide IsTypeNameTree;
    ExpressibleIffPrints(a);
    var c := Print(a).value;
    MinusOfExpr(c, 1, false, []);
    assert Yield(c) + [] == Yield(c);
  }

  lemma EndStops()
    ensures !IsExprOperator(Kind([Sym(EndOfInput)])) && StartOfInput != ParenthOpen
  {
  }

  /** Writing down a tree, lexing the text and parsing the tokens gives the tree. All that is
      asked is that the tree's own tokens can be written. */
  lemma TextToTree(a: Tree, names: Names) returns (ws: seq<Word>)
    requires WordNames(names) && Expressible(a) && AllSpellable(Yield(a), names)
    ensures AllOk(ws) && Tokenize(WriteAll(ws), 0, StartOfInput).Tokens?
    ensures var p := ParseExpr(View(Tokenize(WriteAll(ws), 0, StartOfInput).tokens, names), 1);
            p.Ok? && Strip(p.tree) == a && p.rest == [Sym(EndOfInput)]
  {
    EndStops();
    hide *;
    PrintedMinusOk(a);
    var c := Print(a).value;
    PrintStrips(a);
    PrintedSpellable(c, names);
    ws := WordsFor(Yield(c), names);
    WrittenView(Yield(c), ws, StartOfInput, names);
    WrittenWordsLex(ws);
    PrintParse(a, [Sym(EndOfInput)]);
  }

  ghost predicate NoComments(ts: seq<Token>) {
    forall i :: 0 <= i < |ts| ==> ts[i].klass != Comment
  }

  /** What the lexer delivers, looked up, obeys the rule about minus signs that printing and
      parsing rely on, as long as no comment is between. */
  lemma {:induction false} LexedMinusOk(ts: seq<Token>, afterParen: bool, names: Names)
    requires WordNames(names) && MinusOk(afterParen, ts) && NoComments(ts)
    ensures MinusOk(afterParen, View(ts, names))
    decreases |ts|
  {
    hide CarriesText;
    if ts != [] {
      LexedMinusOk(ts[1..], ts[0].klass == ParenthOpen, names);
      var v := View(ts, names);
      assert v[1..] == View(ts[1..], names);
    }
  }

  /** A token that the lexer made from a word is spelled by that word once it is looked up. */
  lemma RawSpelled(w: Word, prev: TokenClass, names: Names)
    requires WordNames(names) && WordOk(w)
    ensures SpelledBy(Essence(Classify(TokenOf(w, prev), names)), w, names)
  {
    if w == Op("-") {
    } else {
      NoSign(w, prev);
      NoMinusClass(w, names);
    }
  }

  lemma NoMinusClass(w: Word, names: Names)
    requires WordNames(names) && WordOk(w) && w != Op("-")
    ensures Classify(TokenOf(w, Comma), names).klass !in {Minus, TokenClass.UnaryMinus}
  {
    if w.Op? {
      OnlyMinus(w.op);
      MinusIsLast(w.op, Comma);
    }
  }

  /** What the builders see of a written text: tokens that can be written, then the end. */
  lemma {:induction false} ViewSpellable(ws: seq<Word>, prev: TokenClass, names: Names)
    requires WordNames(names) && AllOk(ws)
    ensures var v := View(TokensOf(ws, prev) + [LAST], names);
            forall i :: 0 <= i < |v| ==> v[i] == Sym(EndOfInput) || Spellable(v[i], names)
    ensures NoComments(TokensOf(ws, prev) + [LAST])
    decreases |ws|
  {
    hide TokenOf; hide SpelledBy; hide Classify; hide WordOk; hide Essence; hide View; hide TokensOf; hide WordNames;
    if ws == [] {
      ViewLast(names);
      assert TokensOf(ws, prev) + [LAST] == [LAST] by { NoTokens(prev); }
    } else {
      var raw := TokenOf(ws[0], prev);
      var rest := TokensOf(ws[1..], raw.klass) + [LAST];
      assert WordOk(ws[0]);
      RawSpelled(ws[0], prev, names);
      NoCommentWord(ws[0], prev);
      ViewSpellable(ws[1..], raw.klass, names);
      TokensFirst(ws, prev);
      ViewCons(raw, rest, names);
    }
  }

  lemma NoCommentWord(w: Word, prev: TokenClass)
    requires WordOk(w)
    ensures TokenOf(w, prev).klass != Comment
  {
    if w == Op("-") {
    } else {
      NoSign(w, prev);
    }
  }

  /** The tokens that an accepted text was parsed from can be written. */
  lemma ParsedSpellable(v: seq<Seen>, c: Tree, rest: seq<Seen>, names: Names)
    requires ParseExpr(v, 1) == Ok(c, rest)
    requires forall i :: 0 <= i < |v| ==> v[i] == Sym(EndOfInput) || Spellable(v[i], names)
    ensures AllSpellable(Yield(c), names)
  {
    hide ParseExpr; hide Spellable; hide IsExpr;
    SoundExpr(v, 1);
    ExprEndFree(c, 1);
    forall i | 0 <= i < |Yield(c)| ensures Spellable(Yield(c)[i], names) {
      assert Yield(c)[i] == v[i] && Yield(c)[i] in Yield(c);
    }
  }

  lemma StrippedSpellable(c: Tree, names: Names)
    requires AllSpellable(Yield(c), names)
    ensures AllSpellable(Yield(Strip(c)), names)
  {
    hide Spellable; hide Yield; hide Strip;
    forall i | 0 <= i < |Yield(Strip(c))| ensures Spellable(Yield(Strip(c))[i], names) {
      StripToken(c, Yield(Strip(c))[i]);
    }
  }

  /** From text to text: an accepted text without comments and without strings that end at a
      backslash is parsed, printed and written down again as a text with no more words, which
      is lexed and parsed to the same tree. */
  lemma TextParsePrint(t: string, names: Names, c: Tree, rest: seq<Seen>) returns (ws: seq<Word>)
    requires WordNames(names) && Tokenize(t, 0, StartOfInput).Tokens?
    requires AllRewritable(t, Lexemes(t, 0, StartOfInput).lexemes)
    requires ParseExpr(View(Tokenize(t, 0, StartOfInput).tokens, names), 1) == Ok(c, rest)
    ensures AllOk(ws) && |ws| <= |Yield(c)| && Tokenize(WriteAll(ws), 0, StartOfInput).Tokens?
    ensures Print(Strip(c)).Some? && AllSpelled(Yield(Print(Strip(c)).value), ws, names)
    ensures var p := ParseExpr(View(Tokenize(WriteAll(ws), 0, StartOfInput).tokens, names), 1);
            p.Ok? && Strip(p.tree) == Strip(c) && p.rest == [Sym(EndOfInput)]
  {
    hide View; hide Tokenize; hide ParseExpr; hide WriteAll; hide TokensOf; hide WordNames; hide Strip;
    hide AllRewritable; hide AllSpellable; hide NoComments; hide AllSpelled; hide Yield; hide MinusOk;
    var ts := Tokenize(t, 0, StartOfInput).tokens;
    var read := WordsOf(t, 0, StartOfInput);
    ViewSpellable(read, StartOfInput, names);
    LexedSigns(t, 0, StartOfInput);
    LexedMinusOk(ts, false, names);
    ParsedSpellable(View(ts, names), c, rest, names);
    StrippedSpellable(c, names);
    ParsePrintParse(View(ts, names), c, rest, [Sym(EndOfInput)]);
    var d := Print(Strip(c)).value;
    PrintStrips(Strip(c));
    PrintedSpellable(d, names);
    ws := WordsFor(Yield(d), names);
    WrittenView(Yield(d), ws, StartOfInput, names);
    WrittenWordsLex(ws);
    assert |ws| == |Yield(d)| by { SameLength(Yield(d), ws, names); }
  }

  lemma SameLength(ts: seq<Seen>, ws: seq<Word>, names: Names)
    requires AllSpelled(ts, ws, names)
    ensures |ws| == |ts|
  {
  }
}
