/** The token cursor of build_ast.c: next_token and peek_token over the token array, with
    comments skipped and identifiers reclassified in place from the symbol table. */
module TokenCursor {
  import opened Tokens

  /** What the symbol table says about names: keyword classes and declared types. */
  datatype Names = Names(keywords: map<string, TokenClass>, types: set<string>)

  /** Keywords never stand for the classes that the cursor itself treats specially. */
  ghost predicate ProperNames(names: Names) {
    forall n <- names.keywords ::
      names.keywords[n] != Identifier && names.keywords[n] != Comment && names.keywords[n] != EndOfInput
  }

  /** next_token's reclassification: keyword first, type name second. */
  function Classify(tok: Token, names: Names): Token {
    if tok.klass != Identifier then tok
    else if tok.lexeme in names.keywords then tok.(klass := names.keywords[tok.lexeme])
    else if tok.lexeme in names.types then tok.(klass := TypeIdentifier)
    else tok
  }

  /** The tokens that the builders get to see. */
  function View(s: seq<Token>, names: Names): (v: seq<Seen>)
    ensures |v| <= |s|
  {
    if s == [] then []
    else if s[0].klass == Comment then View(s[1..], names)
    else [Essence(Classify(s[0], names))] + View(s[1..], names)
  }

  /** A comment, wherever it stands, is not seen; every other token is. */
  lemma {:induction false} CommentUnseen(a: seq<Token>, tok: Token, b: seq<Token>, names: Names)
    ensures if tok.klass == Comment then View(a + [tok] + b, names) == View(a + b, names)
            else |View(a + [tok] + b, names)| == |View(a + b, names)| + 1
    decreases |a|
  {
    if a == [] {
      assert a + [tok] + b == [tok] + b && a + b == b && ([tok] + b)[1..] == b;
    } else {
      assert (a + [tok] + b)[1..] == a[1..] + [tok] + b && (a + b)[1..] == a[1..] + b;
      CommentUnseen(a[1..], tok, b, names);
    }
  }

  lemma ClassifyTwice(tok: Token, names: Names)
    requires ProperNames(names)
    ensures Classify(Classify(tok, names), names) == Classify(tok, names)
    ensures Classify(tok, names).klass == Comment <==> tok.klass == Comment
    ensures Classify(tok, names).klass == EndOfInput <==> tok.klass == EndOfInput
  {
  }

  /** A token after it was fetched once under each of `ns`. */
  function Fetched(tok: Token, ns: seq<Names>): Token
    decreases |ns|
  {
    if ns == [] then tok else Fetched(Classify(tok, ns[0]), ns[1..])
  }

  /** Over a whole parse, where only types are added: an identifier takes its keyword class if
      it has one, else it becomes a type name exactly if some fetch, a peek included, found
      its name declared; once settled it stays. */
  lemma {:induction false} FetchedClass(tok: Token, ns: seq<Names>)
    requires tok.klass == Identifier && ns != []
    requires forall i :: 0 <= i < |ns| ==> ProperNames(ns[i]) && ns[i].keywords == ns[0].keywords
    ensures Fetched(tok, ns) ==
      if tok.lexeme in ns[0].keywords then tok.(klass := ns[0].keywords[tok.lexeme])
      else if exists i :: 0 <= i < |ns| && tok.lexeme in ns[i].types then tok.(klass := TypeIdentifier)
      else tok
  {
    if tok.lexeme in ns[0].keywords || tok.lexeme in ns[0].types {
      SettledStays(Classify(tok, ns[0]), ns[1..]);
    } else if |ns| > 1 {
      FetchedClass(tok, ns[1..]);
      if exists i :: 0 <= i < |ns| && tok.lexeme in ns[i].types {
        var i :| 0 <= i < |ns| && tok.lexeme in ns[i].types;
        assert ns[1..][i - 1] == ns[i];
      }
    }
  }

  lemma {:induction false} SettledStays(tok: Token, ns: seq<Names>)
    requires tok.klass != Identifier
    ensures Fetched(tok, ns) == tok
  {
    if ns != [] { SettledStays(tok, ns[1..]); }
  }

  /** Reclassifying tokens in place does not change what the builders see. */
  lemma {:induction false} ViewStable(s: seq<Token>, s': seq<Token>, names: Names)
    requires ProperNames(names) && |s| == |s'|
    requires forall i :: 0 <= i < |s| ==> s'[i] == s[i] || s'[i] == Classify(s[i], names)
    ensures View(s', names) == View(s, names)
  {
    if s != [] {
      ClassifyTwice(s[0], names);
      ViewStable(s[1..], s'[1..], names);
    }
  }

  ghost predicate EndsOnce(tokens: seq<Token>) {
    && |tokens| > 0 && tokens[|tokens| - 1].klass == EndOfInput
    && forall i :: 0 <= i < |tokens| - 1 ==> tokens[i].klass != EndOfInput
  }

  /** What a cursor at `at` will still deliver: the current token with the class it had when
      it was fetched, and the tokens behind it as they will be fetched. */
  ghost function Ahead(tokens: seq<Token>, at: nat, names: Names): (ts: seq<Seen>)
    requires at < |tokens|
  {
    [Essence(tokens[at])] + View(tokens[at + 1..], names)
  }

  /** The first index from `from` on whose token is no comment, or the end of the array. */
  function NextFrom(tokens: seq<Token>, from: nat): (at: nat)
    requires from <= |tokens|
    ensures from <= at <= |tokens| && (at < |tokens| ==> tokens[at].klass != Comment)
    ensures forall i :: from <= i < at ==> tokens[i].klass == Comment
    decreases |tokens| - from
  {
    if from < |tokens| && tokens[from].klass == Comment then NextFrom(tokens, from + 1) else from
  }

  /** The array once the token at `at` has been looked up. */
  function Settled(tokens: seq<Token>, at: nat, names: Names): (ts: seq<Token>)
    requires at < |tokens|
    ensures |ts| == |tokens|
  {
    tokens[at := Classify(tokens[at], names)]
  }

  lemma SettledAt(tokens: seq<Token>, at: nat, names: Names)
    requires at < |tokens|
    ensures Settled(tokens, at, names)[at] == Classify(tokens[at], names)
  {
  }

  lemma {:induction false} ViewFrom(tokens: seq<Token>, from: nat, names: Names)
    requires from <= |tokens|
    ensures View(tokens[from..], names) == View(tokens[NextFrom(tokens, from)..], names)
    decreases |tokens| - from
  {
    if from < |tokens| && tokens[from].klass == Comment {
      ViewFrom(tokens, from + 1, names);
      assert tokens[from..][1..] == tokens[from + 1..];
    }
  }

  /** Before the end of input there is a next token. */
  lemma MoreBehind(tokens: seq<Token>, at: nat)
    requires EndsOnce(tokens) && at < |tokens| && tokens[at].klass != EndOfInput
    ensures at + 1 < |tokens| && NextFrom(tokens, at + 1) < |tokens|
  {
    assert tokens[|tokens| - 1].klass != Comment;
  }

  lemma SettledEnds(tokens: seq<Token>, at: nat, names: Names)
    requires ProperNames(names) && at < |tokens| && EndsOnce(tokens)
    ensures EndsOnce(Settled(tokens, at, names))
  {
    hide Classify;
    ClassifyTwice(tokens[at], names);
  }

  lemma SettledBehind(tokens: seq<Token>, n: nat, names: Names)
    requires n < |tokens|
    ensures Settled(tokens, n, names)[n] == Classify(tokens[n], names)
    ensures Settled(tokens, n, names)[n + 1..] == tokens[n + 1..]
  {
    hide Classify;
  }

  lemma ViewHere(tokens: seq<Token>, n: nat, names: Names)
    requires n < |tokens| && tokens[n].klass != Comment
    ensures View(tokens[n..], names) == [Essence(Classify(tokens[n], names))] + View(tokens[n + 1..], names)
  {
    hide Classify; hide Essence;
    assert tokens[n..][1..] == tokens[n + 1..];
    ViewFirst(tokens[n..], names);
  }

  lemma AheadIs(tokens: seq<Token>, at: nat, names: Names)
    requires at < |tokens|
    ensures Ahead(tokens, at, names) == [Essence(tokens[at])] + View(tokens[at + 1..], names)
    ensures Ahead(tokens, at, names)[1..] == View(tokens[at + 1..], names)
  {
    hide View; hide Essence;
  }

  /** Settling the next token and moving there. */
  lemma FetchAhead(tokens: seq<Token>, at: nat, names: Names)
    requires ProperNames(names) && at + 1 < |tokens| && NextFrom(tokens, at + 1) < |tokens|
    ensures var n := NextFrom(tokens, at + 1);
            && Settled(tokens, n, names)[n].klass != Comment
            && Ahead(Settled(tokens, n, names), n, names) == Ahead(tokens, at, names)[1..]
  {
    hide *;
    var n := NextFrom(tokens, at + 1);
    ViewFrom(tokens, at + 1, names);
    ViewHere(tokens, n, names);
    ClassifyTwice(tokens[n], names);
    SettledBehind(tokens, n, names);
    AheadIs(tokens, at, names);
    AheadIs(Settled(tokens, n, names), n, names);
  }

  /** Settling the next token and staying. */
  lemma PeekAhead(tokens: seq<Token>, at: nat, names: Names)
    requires ProperNames(names) && at + 1 < |tokens| && NextFrom(tokens, at + 1) < |tokens|
    ensures var n := NextFrom(tokens, at + 1); var ts := Ahead(tokens, at, names);
            && Settled(tokens, n, names)[at] == tokens[at] && Ahead(Settled(tokens, n, names), at, names) == ts
            && |ts| > 1 && ts[1] == Essence(Settled(tokens, n, names)[n])
  {
    hide Classify; hide Essence; hide View;
    var n := NextFrom(tokens, at + 1);
    ViewStable(tokens[at + 1..], Settled(tokens, n, names)[at + 1..], names);
    ViewFrom(tokens, at + 1, names);
    ViewFirst(tokens[n..], names);
  }

  lemma ViewFirst(s: seq<Token>, names: Names)
    requires s != [] && s[0].klass != Comment
    ensures View(s, names) == [Essence(Classify(s[0], names))] + View(s[1..], names)
  {
  }

  // ----- runs of the cursor

  /** A fetch, a peek, or a type declared by a builder. */
  datatype Move = Fetch | Peek | Declare(name: string)

  datatype Place = Place(tokens: seq<Token>, at: nat, names: Names)

  predicate Possible(p: Place, m: Move) {
    m.Declare? || (p.at < |p.tokens| && NextFrom(p.tokens, p.at + 1) < |p.tokens|)
  }

  function Moved(p: Place, m: Move): Place
    requires Possible(p, m)
  {
    match m
    case Declare(name) => p.(names := p.names.(types := p.names.types + {name}))
    case Fetch =>
      var n := NextFrom(p.tokens, p.at + 1);
      Place(Settled(p.tokens, n, p.names), n, p.names)
    case Peek => p.(tokens := Settled(p.tokens, NextFrom(p.tokens, p.at + 1), p.names))
  }

  /** The token that a peek returns. */
  function Looked(p: Place): Token
    requires Possible(p, Peek)
  {
    Classify(p.tokens[NextFrom(p.tokens, p.at + 1)], p.names)
  }

  lemma FetchMoves(tokens: seq<Token>, at: nat, names: Names)
    requires at < |tokens| && NextFrom(tokens, at + 1) < |tokens|
    ensures var p := Place(tokens, at, names); var n := NextFrom(tokens, at + 1);
            Possible(p, Fetch) && Moved(p, Fetch) == Place(Settled(tokens, n, names), n, names)
  {
    hide NextFrom; hide Settled;
  }

  lemma PeekMoves(tokens: seq<Token>, at: nat, names: Names)
    requires at < |tokens| && NextFrom(tokens, at + 1) < |tokens|
    ensures var p := Place(tokens, at, names); var n := NextFrom(tokens, at + 1);
            && Possible(p, Peek) && Moved(p, Peek) == Place(Settled(tokens, n, names), at, names)
            && Looked(p) == Settled(tokens, n, names)[n]
  {
    hide NextFrom; hide Classify;
  }

  predicate AllPossible(p: Place, ms: seq<Move>)
    decreases |ms|
  {
    ms != [] ==> Possible(p, ms[0]) && AllPossible(Moved(p, ms[0]), ms[1..])
  }

  function Run(p: Place, ms: seq<Move>): Place
    requires AllPossible(p, ms)
    decreases |ms|
  {
    if ms == [] then p else Run(Moved(p, ms[0]), ms[1..])
  }

  /** The names under which the token at `i` is looked up during a run. */
  function Lookups(p: Place, ms: seq<Move>, i: nat): seq<Names>
    requires AllPossible(p, ms)
    decreases |ms|
  {
    if ms == [] then []
    else
      (if !ms[0].Declare? && NextFrom(p.tokens, p.at + 1) == i then [p.names] else []) + Lookups(Moved(p, ms[0]), ms[1..], i)
  }

  lemma {:induction false} RunLooksUp(p: Place, ms: seq<Move>, i: nat)
    requires AllPossible(p, ms) && i < |p.tokens|
    ensures |Run(p, ms).tokens| == |p.tokens|
    ensures Run(p, ms).tokens[i] == Fetched(p.tokens[i], Lookups(p, ms, i))
    ensures forall k :: 0 <= k < |Lookups(p, ms, i)| ==> Lookups(p, ms, i)[k].keywords == p.names.keywords
    decreases |ms|
  {
    if ms != [] {
      hide NextFrom; hide Classify;
      var q := Moved(p, ms[0]);
      RunLooksUp(q, ms[1..], i);
      var rest := Lookups(q, ms[1..], i);
      if !ms[0].Declare? && NextFrom(p.tokens, p.at + 1) == i {
        assert Lookups(p, ms, i) == [p.names] + rest;
        FetchedFirst(p.tokens[i], p.names, rest);
      } else {
        assert Lookups(p, ms, i) == [] + rest == rest;
      }
    }
  }

  lemma FetchedFirst(tok: Token, names: Names, rest: seq<Names>)
    ensures Fetched(tok, [names] + rest) == Fetched(Classify(tok, names), rest)
  {
    assert ([names] + rest)[1..] == rest;
  }

  /** Over any run of fetches, peeks and declared types: an identifier that was looked up takes
      its keyword's class if it names one, otherwise becomes a type exactly if its name was one
      at some look, otherwise stays; one that was not looked up stays. */
  lemma ClassAfterRun(p: Place, ms: seq<Move>, i: nat)
    requires ProperNames(p.names) && AllPossible(p, ms) && i < |p.tokens| && p.tokens[i].klass == Identifier
    ensures |Run(p, ms).tokens| == |p.tokens|
    ensures var tok, looks := p.tokens[i], Lookups(p, ms, i);
            Run(p, ms).tokens[i] ==
              if looks == [] then tok
              else if tok.lexeme in p.names.keywords then tok.(klass := p.names.keywords[tok.lexeme])
              else if exists k :: 0 <= k < |looks| && tok.lexeme in looks[k].types then tok.(klass := TypeIdentifier)
              else tok
  {
    RunLooksUp(p, ms, i);
    var looks := Lookups(p, ms, i);
    if looks != [] {
      forall k | 0 <= k < |looks| ensures ProperNames(looks[k]) { assert looks[k].keywords == p.names.keywords; }
      FetchedClass(p.tokens[i], looks);
    }
  }

  /** The globals of build_ast.c that drive parsing. The token array is only read and
      updated in place by index, so its contents stand for it. */
  class Cursor {
    var tokens: seq<Token>
    var names: Names
    var tokenAt: nat
    var prevTokenAt: nat
    ghost var rest: seq<Seen>   // the tokens from the current one on

    /** The array ends in its only end-of-input token; the current token is no comment. */
    ghost predicate Valid()
      reads this
    {
      && ProperNames(names)
      && tokenAt < |tokens| && EndsOnce(tokens)
      && tokens[tokenAt].klass != Comment
      && rest == Ahead(tokens, tokenAt, names)
    }

    /** build_ast_program's start: the first token is the start marker, which is skipped. */
    constructor (tokens: seq<Token>, names: Names)
      requires ProperNames(names) && EndsOnce(tokens) && tokens[0].klass == StartOfInput
      ensures Valid() && this.tokens == tokens && this.names == names && tokenAt == 0
    {
      this.tokens := tokens;
      this.names := names;
      tokenAt := 0;
      prevTokenAt := 0;
      rest := Ahead(tokens, 0, names);
    }

    /** The current token as the builders see it. */
    function Current(): (tok: Seen)
      requires Valid()
      reads this
      ensures rest != [] && tok == rest[0] && tok.klass == Kind(rest)
    {
      Essence(tokens[tokenAt])
    }

    function Here(): Place
      reads this
    {
      Place(tokens, tokenAt, names)
    }

    /** Moves to the next token that is no comment and settles its class in the array. */
    method NextToken()
      requires Valid() && Kind(rest) != EndOfInput
      modifies this
      ensures Valid() && rest == old(rest)[1..] && prevTokenAt == old(tokenAt)
      ensures Possible(old(Here()), Fetch) && Here() == Moved(old(Here()), Fetch)
    {
      hide *;
      Parts();
      NotAtEnd();
      MoreBehind(tokens, tokenAt);
      FetchMoves(tokens, tokenAt, names);
      FetchAhead(tokens, tokenAt, names);
      ghost var next := NextFrom(tokens, tokenAt + 1);
      ghost var settled, tail := Settled(tokens, next, names), rest[1..];
      SettledEnds(tokens, next, names);
      prevTokenAt := tokenAt;
      tokenAt := NextIndex(tokenAt + 1);
      Settle();
      rest := tail;
      assert tokens == settled && tokenAt == next;
      Whole();
    }

    lemma Parts()
      requires Valid()
      ensures ProperNames(names) && tokenAt < |tokens| && EndsOnce(tokens) && tokens[tokenAt].klass != Comment
      ensures rest != [] && rest == Ahead(tokens, tokenAt, names) && Here() == Place(tokens, tokenAt, names)
    {
      hide ProperNames; hide EndsOnce;
    }

    lemma Whole()
      requires ProperNames(names) && tokenAt < |tokens| && EndsOnce(tokens) && tokens[tokenAt].klass != Comment
      requires rest == Ahead(tokens, tokenAt, names)
      ensures Valid() && Here() == Place(tokens, tokenAt, names)
    {
      hide ProperNames; hide EndsOnce; hide Ahead;
    }

    lemma NotAtEnd()
      requires Valid() && Kind(rest) != EndOfInput
      ensures tokens[tokenAt].klass != EndOfInput
    {
    }

    /** The loop of next_token over comments. */
    method NextIndex(from: nat) returns (at: nat)
      requires from <= |tokens| && NextFrom(tokens, from) < |tokens|
      ensures at == NextFrom(tokens, from)
    {
      at := from;
      while tokens[at].klass == Comment
        invariant from <= at < |tokens| && NextFrom(tokens, at) == NextFrom(tokens, from)
        decreases |tokens| - at
      {
        at := at + 1;
      }
    }

    /** The lookup at the end of next_token. */
    method Settle()
      requires tokenAt < |tokens|
      modifies `tokens
      ensures tokens == Settled(old(tokens), tokenAt, names)
    {
      if tokens[tokenAt].klass == Identifier {
        var lexeme := tokens[tokenAt].lexeme;
        if lexeme in names.keywords {
          tokens := tokens[tokenAt := tokens[tokenAt].(klass := names.keywords[lexeme])];
        } else if lexeme in names.types {
          tokens := tokens[tokenAt := tokens[tokenAt].(klass := TypeIdentifier)];
        }
      }
    }

    /** Looks at the next token, settling its class, without moving. */
    method PeekToken() returns (peeked: Token)
      requires Valid() && Kind(rest) != EndOfInput
      modifies this
      ensures Valid() && rest == old(rest) && rest[1..] != [] && rest[1] == Essence(peeked)
      ensures Possible(old(Here()), Peek) && Here() == Moved(old(Here()), Peek)
      ensures peeked == Looked(old(Here()))
    {
      hide *;
      Parts();
      NotAtEnd();
      MoreBehind(tokens, tokenAt);
      PeekAhead(tokens, tokenAt, names);
      PeekMoves(tokens, tokenAt, names);
      FetchMoves(tokens, tokenAt, names);
      ghost var next, seen := NextFrom(tokens, tokenAt + 1), rest;
      ghost var settled := Settled(tokens, next, names);
      prevTokenAt := tokenAt;
      Whole();
      NextToken();
      Parts();
      assert tokens == settled && tokenAt == next;
      peeked := tokens[tokenAt];
      tokenAt := prevTokenAt;
      rest := seen;
      Whole();
    }

    /** new_type, run by the builder of a declared name: later fetches see a type. */
    method NewType(name: string)
      requires Valid()
      modifies `names, `rest
      ensures Valid() && Here() == Moved(old(Here()), Declare(name))
    {
      names := names.(types := names.types + {name});
      rest := Ahead(tokens, tokenAt, names);
    }
  }
}
