/** The lexer of lex.c: its loop over numbered states, with the lexeme window it moves. */
module Lexer {
  import opened Tokens
  import opened LexRules
  import opened Wrappers

  /** parse_integer */
  method ParseInteger(s: string, base: nat) returns (v: nat)
    requires s != [] && AllDigits(s, base, true)
    ensures v == Value(s, base)
  {
    v := if s[0] == '_' then 0 else DigitValue(s[0], base);
    assert s[..1] == [s[0]] && [s[0]][..0] == [];
    var i := 1;
    while i < |s|
      invariant 1 <= i <= |s| && v == Value(s[..i], base)
    {
      assert s[..i + 1][..i] == s[..i];
      if IsDigit(s[i], base) {
        v := v * base + DigitValue(s[i], base);
      }
      i := i + 1;
    }
    assert s[..i] == s;
  }

  /** The state that state 1 goes to on a character that is no white space. */
  function FirstState(c: char): nat {
    if c == ';' then 100 else if c == '<' then 101 else if c == '>' then 102 else if c == '_' then 103
    else if c == ':' then 104 else if c == '(' then 105 else if c == ')' then 106 else if c == '.' then 107
    else if c == '{' then 108 else if c == '}' then 109 else if c == '[' then 110 else if c == ']' then 111
    else if c == ',' then 112 else if c == '-' then 113 else if c == '+' then 114 else if c == '*' then 115
    else if c == '/' then 116 else if c == '=' then 117 else if c == '!' then 118 else if c == '&' then 119
    else if c == '|' then 120 else if c == '^' then 121 else if c == '~' then 122 else if c == '"' then 200
    else if IsDigit(c, 10) then 400 else if IsLetter(c) then 500 else if c == '\0' then 2 else 3
  }

  /** The branches of states 101, 102 and 117 to 120 choose the longest operator. */
  function OperatorAt(t: string, p: nat, state: nat): (TokenClass, nat)
    requires p < |t|
  {
    var d := At(t, p + 1);
    if state == 101 then
      if d == '=' then (AngleOpenEqual, 1) else if d == '<' then (TwoAngleOpen, 1) else (AngleOpen, 0)
    else if state == 102 then
      if d == '=' then (AngleCloseEqual, 1) else if d == '>' then (TwoAngleClose, 1) else (AngleClose, 0)
    else if state == 117 then if d == '=' then (TwoEqual, 1) else (Equal, 0)
    else if state == 118 then if d == '=' then (ExclamationEqual, 1) else (Exclamation, 0)
    else if state == 119 then
      if d != '&' then (Ampersand, 0) else if At(t, p + 2) == '&' then (ThreeAmpersand, 2) else (TwoAmpersand, 1)
    else if d == '|' then (TwoPipe, 1) else (Pipe, 0)
  }

  lemma OperatorIs(t: string, p: nat, state: nat, prev: TokenClass)
    requires p < |t| && state == FirstState(t[p]) && state in {101, 102, 117, 118, 119, 120}
    ensures var (k, n) := OperatorAt(t, p, state);
            p + n < |t| && LexAt(t, p, prev) == Plain(t, k, p, p + n)
  {
    hide LexAt; hide Plain;
    LexAtOperator(t, p, prev);
    var (k, n) := OperatorAt(t, p, state);
    assert p + n < |t|;
  }

  lemma LexAtOperator(t: string, p: nat, prev: TokenClass)
    requires p < |t| && 100 <= FirstState(t[p]) <= 122 && FirstState(t[p]) !in {103, 116}
    ensures LexAt(t, p, prev) == LexOperator(t, p, prev)
  {
    hide LexOperator;
  }

  lemma LexAtIdentifier(t: string, p: nat, prev: TokenClass)
    requires p < |t| && (IsLetter(t[p]) || (t[p] == '_' && InClass(At(t, p + 1), Ident)))
    ensures LexAt(t, p, prev) == LexIdentifier(t, p)
  {
    hide LexIdentifier;
    hide LexOperator;
  }

  lemma UnderscoreIs(t: string, p: nat, prev: TokenClass)
    requires p < |t| && t[p] == '_' && !InClass(At(t, p + 1), Ident)
    ensures LexAt(t, p, prev) == Plain(t, Dontcare, p, p)
  {
  }

  /** What state 1 finds out about the text. */
  lemma FirstOf(c: char)
    ensures var s := FirstState(c);
            && (100 <= s <= 122 || s in {2, 3, 200, 400, 500})
            && (s == 103 <==> c == '_') && (s == 116 <==> c == '/') && (s == 200 <==> c == '"')
            && (s == 400 <==> IsDigit(c, 10)) && (s == 500 <==> IsLetter(c)) && (s == 2 <==> c == '\0')
            && (s == 113 <==> c == '-')
  {
  }

  lemma LexAtString(t: string, p: nat, prev: TokenClass)
    requires p < |t| && t[p] == '"'
    ensures LexAt(t, p, prev) == LexString(t, p)
  {
    hide LexString;
  }

  lemma StringIs(t: string, p: nat, j: nat)
    requires p < j <= |t| && StringEnd(t, p + 1) == j
    ensures if j < |t| then LexString(t, p).Lexed? && LexString(t, p).end == j else LexString(t, p) == Lexed.AssertFailed
  {
  }

  lemma SlashIs(t: string, p: nat, prev: TokenClass)
    requires p < |t| && t[p] == '/'
    ensures LexAt(t, p, prev) == if At(t, p + 1) == '*' then LexBlock(t, p, p + 2)
                                 else if At(t, p + 1) == '/' then LexLine(t, p) else Plain(t, Slash, p, p)
  {
    hide LexBlock;
    hide LexLine;
    hide LexNumber;
    hide LexString;
    hide LexIdentifier;
  }

  lemma LexAtNumber(t: string, p: nat, prev: TokenClass)
    requires p < |t| && IsDigit(t[p], 10)
    ensures LexAt(t, p, prev) == LexNumber(t, p)
  {
    hide LexNumber;
  }

  lemma BlockSkip(t: string, i: nat)
    requires i <= |t| && At(t, i) != '*'
    ensures BlockEnd(t, i) == if i < |t| then BlockEnd(t, i + 1) else |t|
  {
  }

  lemma BlockStep(t: string, i: nat)
    requires i <= |t|
    ensures At(t, i) == '*' && At(t, i + 1) != '/' ==> BlockEnd(t, i) == BlockEnd(t, i + 1)
    ensures At(t, i) == '*' && At(t, i + 1) == '/' ==> BlockEnd(t, i) == i
    ensures BlockEnd(t, |t|) == |t|
  {
  }

  lemma EndClass(k: CharClass)
    ensures InClass('\0', k) <==> k.NoNewline?
  {
  }

  /** The class of a one-character token, by its state. */
  function PunctuationClass(state: nat): TokenClass {
    if state == 100 then Semicolon else if state == 104 then Colon else if state == 105 then ParenthOpen
    else if state == 106 then ParenthClose else if state == 107 then DotPrefix else if state == 108 then BraceOpen
    else if state == 109 then BraceClose else if state == 110 then BracketOpen else if state == 111 then BracketClose
    else if state == 112 then Comma else if state == 114 then Plus else if state == 115 then Star
    else if state == 121 then Circumflex else Tilda
  }

  lemma PunctuationIs(t: string, p: nat, state: nat, prev: TokenClass)
    requires p <= |t| && FirstState(At(t, p)) == state
    requires state in {100, 104, 105, 106, 107, 108, 109, 110, 111, 112, 114, 115, 121, 122}
    ensures p < |t| && LexAt(t, p, prev) == Plain(t, PunctuationClass(state), p, p)
  {
    hide Plain; hide LexNumber;
    LexAtOperator(t, p, prev);
  }

  /** How often a state can still be followed by another one at the same position. */
  function Rank(state: nat): nat {
    if state == 1 then 5 else if state == 400 || state == 405 || state == 103 || state == 116 then 4
    else if state == 0 then 0 else 3
  }

  lemma WindowDigits(t: string, first: nat, last: nat, base: nat)
    requires first <= last < |t| && forall i :: first <= i <= last ==> InClass(t[i], Digits(base, true))
    ensures t[first..last + 1] != [] && AllDigits(t[first..last + 1], base, true)
  {
    hide InClass;
  }

  class Lexer {
    const text: string
    var start: nat        // lexeme[0]
    var end: nat
    var state: nat
    var num: IntInfo      // the integer fields of the token
    var result: Lexed     // what was found, once the state is 0

    constructor (text: string)
      ensures this.text == text && start == end == 0 && state == 0
    {
      this.text := text;
      start, end, state := 0, 0, 0;
      num, result := NoInt, AtEnd(0);
    }

    /** The window of the lexeme in each state. */
    ghost predicate Ok()
      reads this
    {
      && start <= end <= |text|
      && (state == 0 ==> Finished())
      && (state == 1 ==> start == end)
      && (IsFirst(state) ==> start == end && !IsSpace(At(text, end)) && FirstState(At(text, end)) == state)
      && (state == 310 ==> start < end < |text|)
      && (state == 311 ==> start == end < |text| && At(text, end) == '/' && At(text, end + 1) == '/')
      && (state == 401 ==> start == end < |text| && IsDigit(text[end], 10))
      && (402 <= state <= 409 ==> start < |text| && num.IntInfo?)
      && (402 <= state <= 404 ==> num == UNSIZED)
      && (state == 500 ==> start == end < |text|
                           && (IsLetter(text[end]) || (text[end] == '_' && InClass(At(text, end + 1), Ident))))
      && (IsFirst(state) || state == 0 || state == 1 || state == 310 || state == 311 || 401 <= state <= 409 || state == 500)
    }

    /** The states that state 1 goes to on the character at the window. */
    predicate IsFirst(state: nat) {
      state == 2 || state == 3 || 100 <= state <= 122 || state == 200 || state == 400
    }

    /** The lexeme window has moved behind what was found. */
    ghost predicate Finished()
      reads this
    {
      && start <= end <= |text|
      && (result.Lexed? ==> start == end == result.end + 1)
      && (result.AtEnd? ==> start == end == result.start)
    }

    /** The base that the states for digits read. */
    function DigitBase(): nat
      reads this
    {
      if state == 402 || state == 406 then 16 else if state == 403 || state == 407 then 8
      else if state == 404 || state == 408 then 2 else 10
    }

    /** What will be found from here on, if the token before this one is of class `prev`. */
    ghost function Meaning(prev: TokenClass): Lexed
      requires Ok()
      reads this
    {
      if state == 0 then result
      else if state == 1 then LexNext(text, end, prev)
      else if state == 310 then LexBlock(text, start, end + 1)
      else if state == 311 then LexLine(text, start)
      else if state == 401 then LexDecimal(text, start)
      else if state == 405 then LexSized(text, start, end, num)
      else if 402 <= state <= 409 then LexDigits(text, start, end, DigitBase(), state != 409, num)
      else if state == 500 then LexIdentifier(text, start)
      else LexAt(text, end, prev)
    }

    // What Ok and Meaning say in the states of comments and integers.

    lemma FirstIs(prev: TokenClass)
      requires Ok() && IsFirst(state)
      ensures start == end <= |text| && FirstState(At(text, end)) == state && Meaning(prev) == LexAt(text, end, prev)
    {
    }

    lemma BlockIs(prev: TokenClass)
      requires state == 310
      ensures Ok() <==> start < end < |text|
      ensures Ok() ==> Meaning(prev) == LexBlock(text, start, end + 1)
    {
    }

    lemma DecimalIs(prev: TokenClass)
      requires state == 401
      ensures Ok() <==> start == end < |text| && IsDigit(text[end], 10)
      ensures Ok() ==> Meaning(prev) == LexDecimal(text, start)
    {
    }

    lemma SizedIs(prev: TokenClass)
      requires state == 405
      ensures Ok() <==> start <= end <= |text| && start < |text| && num.IntInfo?
      ensures Ok() ==> Meaning(prev) == LexSized(text, start, end, num)
    {
    }

    lemma DigitsIs(prev: TokenClass)
      requires 402 <= state <= 409 && state != 405
      ensures Ok() <==> start <= end <= |text| && start < |text| && num.IntInfo? && (state <= 404 ==> num == UNSIZED)
      ensures Ok() ==> Meaning(prev) == LexDigits(text, start, end, DigitBase(), state != 409, num)
    {
    }

    // ----- moving the window

    /** char_advance; without `ok` its assertion failed. */
    method CharAdvance(n: nat) returns (c: char, ok: bool)
      requires end <= |text|
      modifies `end
      ensures ok == (old(end) + n <= |text|)
      ensures end == (if ok then old(end) + n else old(end)) && c == At(text, end)
    {
      ok := end + n <= |text|;
      if ok {
        end := end + n;
      }
      c := At(text, end);
    }

    /** The loops that advance at least once and then over a class of characters. */
    method AdvanceWhile(k: CharClass) returns (ok: bool)
      requires end <= |text|
      modifies `end
      ensures old(end) <= end <= |text|
      ensures ok <==> old(end) < |text| && (k.NoNewline? ==> RunEnd(text, old(end) + 1, k) < |text|)
      ensures ok ==> end == RunEnd(text, old(end) + 1, k)
    {
      hide InClass;
      EndClass(k);
      var c;
      c, ok := CharAdvance(1);
      while ok && InClass(c, k)
        invariant old(end) <= end <= |text| && c == At(text, end)
        invariant ok ==> old(end) < end && RunEnd(text, old(end) + 1, k) == RunEnd(text, end, k)
        invariant !ok ==> old(end) == |text| || (k.NoNewline? && RunEnd(text, old(end) + 1, k) == |text|)
        decreases |text| - end, ok
      {
        c, ok := CharAdvance(1);
      }
    }

    method Fail(r: Lexed)
      requires r.AssertFailed? || r.BadDigits?
      modifies `state, `result
      ensures state == 0 && result == r && (start <= end <= |text| ==> Finished())
    {
      state, result := 0, r;
    }

    /** Takes the token and moves the window behind it (lexeme_advance). */
    method Accept(r: Lexed)
      requires r.Lexed? && end < |text| && r.end == end
      modifies `start, `end, `state, `result
      ensures state == 0 && result == r && Finished() && end == old(end) + 1
    {
      result := r;
      end := end + 1;
      start := end;
      state := 0;
    }

    // ----- the states

    /** State 1. */
    method Start(ghost prev: TokenClass)
      requires Ok() && state == 1
      modifies `start, `end, `state
      ensures Ok() && Meaning(prev) == old(Meaning(prev))
      ensures end > old(end) || (end == old(end) && Rank(state) < 5)
    {
      hide LexAt;
      hide LexIdentifier;
      hide FirstState;
      hide IsLetter;
      var c := At(text, end);
      FirstOf(c);
      if IsSpace(c) {
        end := end + 1;
        start := end;
        if IsNewline(c) && c as int + At(text, end) as int == '\n' as int + '\r' as int {
          end := end + 1;
          start := end;
        }
      } else {
        state := FirstState(c);
        if state == 500 { LexAtIdentifier(text, end, prev); }
      }
    }

    /** States 2 and 3. */
    method EndOrUnknown(ghost prev: TokenClass)
      requires Ok() && state in {2, 3}
      modifies `start, `end, `state, `result
      ensures state == 0 && Finished() && result == old(Meaning(prev)) && end >= old(end)
    {
      if state == 2 {
        result, state := AtEnd(end), 0;
      } else {
        Accept(Lexed(Token(Unknown, "<unknown>", NoInt), start, end));
      }
    }

    /** The states for one-character tokens. */
    method Punctuation(ghost prev: TokenClass)
      requires Ok() && state in {100, 104, 105, 106, 107, 108, 109, 110, 111, 112, 114, 115, 121, 122}
      modifies `start, `end, `state, `result
      ensures state == 0 && Finished() && result == old(Meaning(prev)) && end > old(end)
    {
      hide LexAt;
      hide PunctuationClass;
      PunctuationIs(text, end, state, prev);
      Accept(Plain(text, PunctuationClass(state), start, end));
    }

    /** State 113: the token before a minus decides what it is. */
    method MinusSign(prev: TokenClass)
      requires Ok() && state == 113
      modifies `start, `end, `state, `result
      ensures state == 0 && Finished() && result == old(Meaning(prev)) && end > old(end)
    {
      var k := if prev == ParenthOpen then TokenClass.UnaryMinus else Minus;
      Accept(Plain(text, k, start, end));
    }

    /** The states for operators of one to three characters. */
    method Operator(ghost prev: TokenClass)
      requires Ok() && state in {101, 102, 117, 118, 119, 120}
      modifies `start, `end, `state, `result
      ensures state == 0 && Finished() && result == old(Meaning(prev)) && end > old(end)
    {
      hide LexAt;
      hide LexNext;
      hide Op1;
      hide Op2;
      hide FirstState;
      FirstOf(At(text, end));
      var d := At(text, end + 1);
      OperatorIs(text, end, state, prev);
      var k, n := Slash, 0;
      if state == 101 {
        if d == '=' { k, n := AngleOpenEqual, 1; } else if d == '<' { k, n := TwoAngleOpen, 1; } else { k := AngleOpen; }
      } else if state == 102 {
        if d == '=' { k, n := AngleCloseEqual, 1; } else if d == '>' { k, n := TwoAngleClose, 1; } else { k := AngleClose; }
      } else if state == 117 {
        if d == '=' { k, n := TwoEqual, 1; } else { k := Equal; }
      } else if state == 118 {
        if d == '=' { k, n := ExclamationEqual, 1; } else { k := Exclamation; }
      } else if state == 119 {
        if d != '&' { k := Ampersand; }
        else if At(text, end + 2) == '&' { k, n := ThreeAmpersand, 2; }
        else { k, n := TwoAmpersand, 1; }
      } else {
        if d == '|' { k, n := TwoPipe, 1; } else { k := Pipe; }
      }
      assert (k, n) == OperatorAt(text, end, state);
      TakeOperator(k, n, prev);
    }

    method TakeOperator(k: TokenClass, n: nat, ghost prev: TokenClass)
      requires start == end && end + n < |text| && LexAt(text, end, prev) == Plain(text, k, end, end + n)
      modifies `start, `end, `state, `result
      ensures state == 0 && Finished() && result == old(LexAt(text, end, prev)) && end > old(end)
    {
      hide LexAt;
      end := end + n;
      Accept(Plain(text, k, start, end));
    }

    /** State 103: an underscore alone, or the start of an identifier. */
    method Underscore(ghost prev: TokenClass)
      requires Ok() && state == 103
      modifies `start, `end, `state, `result
      ensures Ok() && Meaning(prev) == old(Meaning(prev))
      ensures (state == 0 && end > old(end)) || (state == 500 && end == old(end))
    {
      FirstOf(At(text, end));
      hide LexAt;
      hide LexIdentifier;
      hide FirstState;
      if InClass(At(text, end + 1), Ident) {
        LexAtIdentifier(text, end, prev);
        state := 500;
      } else {
        UnderscoreIs(text, end, prev);
        Accept(Plain(text, Dontcare, start, end));
      }
    }

    /** State 116: a slash, or the start of a comment. */
    method SlashSign(ghost prev: TokenClass)
      requires Ok() && state == 116
      modifies `start, `end, `state, `result
      ensures Ok() && Meaning(prev) == old(Meaning(prev))
      ensures ((state == 0 || state == 310) && end > old(end)) || (state == 311 && end == old(end))
    {
      hide LexAt; hide LexBlock; hide LexLine; hide FirstState; hide IsLetter;
      FirstOf(At(text, end));
      SlashIs(text, end, prev);
      if At(text, end + 1) == '*' {
        end := end + 1;
        state := 310;
      } else if At(text, end + 1) == '/' {
        state := 311;
      } else {
        Accept(Plain(text, Slash, start, end));
      }
    }

    /** The loop of state 200: up to the first quote or backslash. */
    method ToQuote() returns (ok: bool)
      requires end < |text|
      modifies `end
      ensures old(end) < end <= |text|
      ensures StringEnd(text, old(end) + 1) == if ok then end else |text|
      ensures ok ==> end < |text|
    {
      var c;
      c, ok := CharAdvance(1);
      while ok && c != '"' && c != '\\'
        invariant old(end) < end <= |text| && c == At(text, end)
        invariant StringEnd(text, old(end) + 1) == if ok then StringEnd(text, end) else |text|
        decreases |text| - end, ok
      {
        c, ok := CharAdvance(1);
      }
    }

    /** State 200: whatever ends the string, it is a string; state 201 is never entered. */
    method Quoted(ghost prev: TokenClass)
      requires Ok() && state == 200
      modifies `start, `end, `state, `result
      ensures state == 0 && Finished() && result == old(Meaning(prev)) && end > old(end)
    {
      hide LexAt;
      hide FirstState;
      hide LexString;
      hide StringEnd;
      FirstOf(At(text, end));
      LexAtString(text, end, prev);
      var ok := ToQuote();
      StringIs(text, start, if ok then end else |text|);
      if ok {
        Accept(LexString(text, start));
      } else {
        Fail(AssertFailed);
      }
    }

    /** The inner loop of state 310: on to the next star. */
    method NextStar() returns (ok: bool)
      requires end < |text|
      modifies `end
      ensures old(end) < end <= |text| && (ok ==> At(text, end) == '*')
      ensures BlockEnd(text, old(end) + 1) == if ok then BlockEnd(text, end) else |text|
    {
      hide BlockEnd; hide At;
      var c;
      c, ok := CharAdvance(1);
      while ok && c != '*'
        invariant old(end) < end <= |text| && c == At(text, end)
        invariant BlockEnd(text, old(end) + 1) == if ok then BlockEnd(text, end) else |text|
        decreases |text| - end, ok
      {
        BlockSkip(text, end);
        if IsNewline(c) && end < |text| && c as int + At(text, end + 1) as int == '\n' as int + '\r' as int {
          c, ok := CharAdvance(1);
          BlockSkip(text, end);
        }
        c, ok := CharAdvance(1);
      }
    }

    /** State 310: a slash behind a star ends the comment. */
    method InBlock(ghost prev: TokenClass)
      requires Ok() && state == 310
      modifies `start, `end, `state, `result
      ensures Ok() && Meaning(prev) == old(Meaning(prev)) && (state == 0 || state == 310) && end > old(end)
    {
      hide Lexer.Ok; hide Lexer.Meaning; hide InClass; hide Within; hide BlockEnd; hide IsLetter;
      BlockIs(prev);
      var ok := NextStar();
      BlockStep(text, end);
      if !ok {
        Fail(AssertFailed);
        FinishedIs(prev);
      } else if At(text, end + 1) == '/' {
        end := end + 1;
        Accept(Lexed(Token(Comment, "", NoInt), start, end));
        FinishedIs(prev);
      } else {
        BlockIs(prev);
      }
    }

    /** State 311: up to the end of the line, which must have one. */
    method InLine(ghost prev: TokenClass)
      requires Ok() && state == 311
      modifies `start, `end, `state, `result
      ensures state == 0 && Finished() && result == old(Meaning(prev)) && end >= old(end)
    {
      var ok := AdvanceWhile(NoNewline);
      if ok {
        Accept(Lexed(Token(Comment, "", NoInt), start, end));
      } else {
        Fail(AssertFailed);
      }
    }

    /** State 500. */
    method InIdentifier(ghost prev: TokenClass)
      requires Ok() && state == 500
      modifies `start, `end, `state, `result
      ensures state == 0 && Finished() && result == old(Meaning(prev)) && end > old(end)
    {
      var ok := AdvanceWhile(Ident);
      end := end - 1;
      Accept(Plain(text, Identifier, start, end));
    }

    /** State 400: the base of an unsized integer. */
    method ChooseBase(ghost prev: TokenClass)
      requires Ok() && state == 400
      modifies `end, `state, `num
      ensures Ok() && Meaning(prev) == old(Meaning(prev))
      ensures (402 <= state <= 404 && end > old(end)) || (state == 401 && end == old(end))
    {
      hide Lexer.Ok;
      hide Lexer.Meaning;
      hide LexAt;
      hide FirstState;
      hide LexDigits;
      hide LexDecimal;
      FirstIs(prev);
      FirstOf(At(text, end));
      LexAtNumber(text, end, prev);
      num := UNSIZED;
      var c := At(text, end + 1);
      if text[end] == '0' && BaseOf(c).Some? {
        state := if c == 'x' || c == 'X' then 402 else if c == 'o' || c == 'O' then 403 else 404;
        end := end + 2;
        DigitsIs(prev);
      } else {
        state := 401;
        DecimalIs(prev);
      }
    }

    /** State 401: a decimal integer, or the width of one. */
    method InDecimal(ghost prev: TokenClass)
      requires Ok() && state == 401
      modifies `start, `end, `state, `num, `result
      ensures Ok() && Meaning(prev) == old(Meaning(prev)) && (state == 0 || state == 405) && end > old(end)
    {
      hide Lexer.Ok;
      hide Lexer.Meaning;
      hide LexSized;
      hide Value;
      hide DigitValue;
      DecimalIs(prev);
      var first := end;
      var ok := AdvanceWhile(Digits(10, false));
      var c := At(text, end);
      if c == 'w' || c == 's' {
        var width := ParseInteger(text[first..end], 10);
        num := IntInfo(true, c == 's', width, 0);
        end := end + 1;
        state := 405;
        SizedIs(prev);
      } else {
        num := UNSIZED;
        end := end - 1;
        InstallInteger(first, 10);
        FinishedIs(prev);
      }
    }

    /** State 405: the base of an integer behind a width. */
    method ChooseSizedBase(ghost prev: TokenClass)
      requires Ok() && state == 405
      modifies `end, `state
      ensures Ok() && Meaning(prev) == old(Meaning(prev))
      ensures (406 <= state <= 408 && end > old(end)) || (state == 409 && end == old(end))
    {
      hide Lexer.Ok;
      hide Lexer.Meaning;
      hide LexDigits;
      SizedIs(prev);
      var c := At(text, end + 1);
      if At(text, end) == '0' && BaseOf(c).Some? {
        state := if c == 'x' || c == 'X' then 406 else if c == 'o' || c == 'O' then 407 else 408;
        end := end + 2;
      } else {
        state := 409;
      }
      DigitsIs(prev);
    }

    /** States 402 to 404 and 406 to 409: the digits. */
    method InDigits(ghost prev: TokenClass)
      requires Ok() && 402 <= state <= 409 && state != 405
      modifies `start, `end, `state, `num, `result
      ensures state == 0 && Finished() && result == old(Meaning(prev)) && end >= old(end)
    {
      hide Lexer.Ok;
      hide Lexer.Meaning;
      hide Value;
      hide DigitValue;
      DigitsIs(prev);
      var first, base := end, DigitBase();
      var ok := AdvanceWhile(Digits(base, state != 409));
      if !ok {
        Fail(AssertFailed);
      } else {
        end := end - 1;
        InstallInteger(first, base);
      }
    }

    /** token_install_integer on text[first..end + 1], and the end of the token. */
    method InstallInteger(first: nat, base: nat)
      requires start <= first <= end < |text| && num.IntInfo?
      requires forall i :: first < i <= end ==> InClass(text[i], Digits(base, true))
      modifies `start, `end, `state, `num, `result
      ensures state == 0 && end >= old(end) && Finished()
      ensures InClass(text[first], Digits(base, true)) ==>
                result == Lexed(Token(Integer, text[old(start)..old(end) + 1],
                                      old(num).(value := Value(text[first..old(end) + 1], base))), old(start), old(end))
      ensures !InClass(text[first], Digits(base, true)) ==> result == BadDigits
    {
      hide Value; hide DigitValue; hide InClass; hide AllDigits;
      if InClass(text[first], Digits(base, true)) {
        WindowDigits(text, first, end, base);
        var value := ParseInteger(text[first..end + 1], base);
        num := num.(value := value);
        Accept(Lexed(Token(Integer, text[start..end + 1], num), start, end));
      } else {
        Fail(BadDigits);
      }
    }

    // ----- next_token

    /** next_token: the loop over the states. */
    method NextToken(prev: TokenClass) returns (r: Lexed)
      requires start == end <= |text|
      modifies this
      ensures r == LexNext(text, old(end), prev) && end <= |text|
      ensures r.Lexed? ==> start == end == r.end + 1
      ensures r.AtEnd? ==> start == end == r.start
    {
      hide LexNext;
      state := 1;
      while state != 0
        invariant Ok() && Meaning(prev) == LexNext(text, old(end), prev)
        decreases |text| + 1 - end, Rank(state)
      {
        Step(prev);
      }
      r := result;
    }

    /** One round of the loop. */
    method Step(prev: TokenClass)
      requires Ok() && state != 0
      modifies this
      ensures Ok() && Meaning(prev) == old(Meaning(prev))
      ensures end > old(end) || (end == old(end) && Rank(state) < Rank(old(state)))
    {
      hide Lexer.Ok;
      hide Lexer.Meaning;
      States();
      if state == 1 {
        Start(prev);
      } else if state in {2, 3} {
        EndOrUnknown(prev);
      } else if state == 103 {
        Underscore(prev);
      } else if state == 113 {
        MinusSign(prev);
      } else if state == 116 {
        SlashSign(prev);
      } else if state in {101, 102, 117, 118, 119, 120} {
        Operator(prev);
      } else if 100 <= state <= 122 {
        Punctuation(prev);
      } else if state == 200 {
        Quoted(prev);
      } else if state == 310 {
        InBlock(prev);
      } else if state == 311 {
        InLine(prev);
      } else if state == 400 {
        ChooseBase(prev);
      } else if state == 401 {
        InDecimal(prev);
      } else if state == 405 {
        ChooseSizedBase(prev);
      } else if state == 500 {
        InIdentifier(prev);
      } else {
        InDigits(prev);
      }
      if state == 0 && Finished() {
        FinishedIs(prev);
      }
    }

    lemma States()
      requires Ok()
      ensures IsFirst(state) || state == 0 || state == 1 || state == 310 || state == 311 || 401 <= state <= 409 || state == 500
    {
    }

    lemma FinishedIs(prev: TokenClass)
      requires state == 0 && Finished()
      ensures Ok() && Meaning(prev) == result
    {
    }
  }

  /** What lex_tokenize ends in; the last three exit. */
  datatype Tokenized = Tokens(tokens: seq<Token>) | UnknownToken | AssertionFailed | MissingDigits

  const FIRST := Token(StartOfInput, "", NoInt)
  const LAST := Token(EndOfInput, "<end-of-input>", NoInt)

  /** The whole text, from the rules. */
  function Tokenize(t: string, p: nat, prev: TokenClass): Tokenized
    requires p <= |t|
    decreases |t| - p
  {
    var r := LexNext(t, p, prev);
    if r.AtEnd? then Tokens([LAST])
    else if r.AssertFailed? then AssertionFailed
    else if r.BadDigits? then MissingDigits
    else if r.tok.klass == Unknown then UnknownToken
    else
      var rest := Tokenize(t, r.end + 1, r.tok.klass);
      if rest.Tokens? then Tokens([r.tok] + rest.tokens) else rest
  }

  /** One round of lex_tokenize that takes a token. */
  lemma TokenTaken(t: string, p: nat, prev: TokenClass)
    requires p <= |t| && LexNext(t, p, prev).Lexed? && LexNext(t, p, prev).tok.klass != Unknown
    ensures var r := LexNext(t, p, prev); var rest := Tokenize(t, r.end + 1, r.tok.klass);
            Tokenize(t, p, prev) == if rest.Tokens? then Tokens([r.tok] + rest.tokens) else rest
  {
    hide LexNext;
  }

  /** One round that ends the text or the program. */
  lemma TokensEnd(t: string, p: nat, prev: TokenClass)
    requires p <= |t|
    ensures var r := LexNext(t, p, prev); var o := Tokenize(t, p, prev);
            && (r.AtEnd? ==> o == Tokens([LAST])) && (r.AssertFailed? ==> o == AssertionFailed)
            && (r.BadDigits? ==> o == MissingDigits) && (r.Lexed? && r.tok.klass == Unknown ==> o == UnknownToken)
  {
    hide LexNext;
  }

  lemma TokenAppended(tokens: seq<Token>, tok: Token, rest: Tokenized, goal: Tokenized)
    requires var o := if rest.Tokens? then Tokens([tok] + rest.tokens) else rest;
             if goal.Tokens? then o.Tokens? && tokens + o.tokens == [FIRST] + goal.tokens else o == goal
    ensures if goal.Tokens? then rest.Tokens? && (tokens + [tok]) + rest.tokens == [FIRST] + goal.tokens
            else rest == goal
  {
    if rest.Tokens? { assert (tokens + [tok]) + rest.tokens == tokens + ([tok] + rest.tokens); }
  }

  /** lex_tokenize */
  method LexTokenize(text: string) returns (r: Tokenized)
    ensures var o := Tokenize(text, 0, StartOfInput); r == if o.Tokens? then Tokens([FIRST] + o.tokens) else o
  {
    hide LexNext;
    hide Tokenize;
    var lexer := new Lexer(text);
    var tokens := [FIRST];
    ghost var goal := Tokenize(text, 0, StartOfInput);
    while true
      invariant lexer.text == text && lexer.start == lexer.end <= |text| && tokens != []
      invariant var o := Tokenize(text, lexer.end, tokens[|tokens| - 1].klass);
                if goal.Tokens? then o.Tokens? && tokens + o.tokens == [FIRST] + goal.tokens else o == goal
      invariant fresh(lexer)
      decreases |text| - lexer.end
    {
      ghost var at, prev := lexer.end, tokens[|tokens| - 1].klass;
      TokensEnd(text, at, prev);
      var found := lexer.NextToken(tokens[|tokens| - 1].klass);
      match found {
        case AssertFailed => return AssertionFailed;
        case BadDigits => return MissingDigits;
        case AtEnd(_) => return Tokens(tokens + [LAST]);
        case Lexed(tok, _, _) =>
          if tok.klass == Unknown {
            return UnknownToken;
          }
          TokenTaken(text, at, prev);
          TokenAppended(tokens, tok, Tokenize(text, lexer.end, tok.klass), goal);
          tokens := tokens + [tok];
      }
    }
  }
}
