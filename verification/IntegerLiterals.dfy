/** Integer literals: their grammar, what they stand for, and that the lexer reads exactly them.
    Values are unbounded here; the code computes them in 32 bits. */
module IntegerLiterals {
  import opened Tokens
  import opened LexRules
  import opened Wrappers

  // ----- values

  function Power(base: nat, k: nat): nat {
    if k == 0 then 1 else base * Power(base, k - 1)
  }

  /** The positional value of a digit string: the first digit counts most. */
  function Positional(s: string, base: nat): nat
    requires AllDigits(s, base, false)
  {
    if s == [] then 0 else DigitValue(s[0], base) * Power(base, |s| - 1) + Positional(s[1..], base)
  }

  /** The digits without the underscores. */
  function Strip(s: string): string {
    if s == [] then [] else if s[|s| - 1] == '_' then Strip(s[..|s| - 1]) else Strip(s[..|s| - 1]) + [s[|s| - 1]]
  }

  lemma {:induction false} StripDigits(s: string, base: nat)
    requires AllDigits(s, base, true)
    ensures AllDigits(Strip(s), base, false) && Value(Strip(s), base) == Value(s, base)
  {
    if s != [] {
      var front, last := s[..|s| - 1], s[|s| - 1];
      StripDigits(front, base);
      if last != '_' {
        assert Strip(s)[..|Strip(s)| - 1] == Strip(front);
      }
    }
  }

  lemma {:induction false} ValueFirst(c: char, s: string, base: nat)
    requires AllDigits([c] + s, base, false)
    ensures AllDigits(s, base, false) && IsDigit(c, base)
    ensures Value([c] + s, base) == DigitValue(c, base) * Power(base, |s|) + Value(s, base)
  {
    hide Value;
    hide DigitValue;
    hide IsDigit;
    FirstDigit(c, s, base);
    if s == [] {
      ValueOfOne(c, base);
      assert [c] + s == [c];
    } else {
      var front, last := s[..|s| - 1], s[|s| - 1];
      assert ([c] + s)[..|s|] == [c] + front && ([c] + s)[|s|] == last;
      ValueFirst(c, front, base);
      ValueLast([c] + s, base);
      ValueLast(s, base);
      Spread(DigitValue(c, base), Power(base, |s| - 1), Value(front, base), base);
    }
  }

  lemma FirstDigit(c: char, s: string, base: nat)
    requires AllDigits([c] + s, base, false)
    ensures AllDigits(s, base, false) && IsDigit(c, base)
  {
    assert ([c] + s)[0] == c;
    assert forall i :: 0 <= i < |s| ==> s[i] == ([c] + s)[i + 1];
  }

  lemma ValueLast(s: string, base: nat)
    requires s != [] && AllDigits(s, base, false)
    ensures IsDigit(s[|s| - 1], base)
    ensures Value(s, base) == Value(s[..|s| - 1], base) * base + DigitValue(s[|s| - 1], base)
  {
    assert InClass(s[|s| - 1], Digits(base, false));
  }

  lemma ValueOfOne(c: char, base: nat)
    requires IsDigit(c, base)
    ensures AllDigits([c], base, false) && Value([c], base) == DigitValue(c, base) && Value([], base) == 0
  {
    assert [c][..0] == [];
  }

  lemma Spread(d: nat, p: nat, v: nat, base: nat)
    ensures (d * p + v) * base == d * (base * p) + v * base
  {
  }

  /** What the lexer computes is the positional value of the digits. */
  lemma {:induction false} ValueIsPositional(s: string, base: nat)
    requires AllDigits(s, base, false)
    ensures Value(s, base) == Positional(s, base)
  {
    if s != [] {
      assert s == [s[0]] + s[1..];
      ValueFirst(s[0], s[1..], base);
      ValueIsPositional(s[1..], base);
    }
  }

  /** ... with any underscores left out. */
  lemma ValueOfLiteral(s: string, base: nat)
    requires AllDigits(s, base, true)
    ensures AllDigits(Strip(s), base, false) && Value(s, base) == Positional(Strip(s), base)
  {
    StripDigits(s, base);
    ValueIsPositional(Strip(s), base);
  }

  function DigitChar(d: nat): char
    requires d < 16
  {
    if d < 10 then ('0' as nat + d) as char else ('a' as nat + (d - 10)) as char
  }

  /** A number in a base, most significant digit first. */
  function PrintNumber(n: nat, base: nat): string
    requires base in {2, 8, 10, 16}
  {
    if n < base then [DigitChar(n)] else PrintNumber(n / base, base) + [DigitChar(n % base)]
  }

  lemma DigitRoundTrip(d: nat, base: nat)
    requires base in {2, 8, 10, 16} && d < base
    ensures IsDigit(DigitChar(d), base) && DigitValue(DigitChar(d), base) == d && DigitChar(d) != '_'
  {
  }

  /** Printing a number in any base and reading the digits gives it back. */
  lemma {:induction false} NumberRoundTrip(n: nat, base: nat)
    requires base in {2, 8, 10, 16}
    ensures var s := PrintNumber(n, base);
            s != [] && AllDigits(s, base, false) && Value(s, base) == n
  {
    var s := PrintNumber(n, base);
    if n < base {
      DigitRoundTrip(n, base);
      assert s[..0] == [];
    } else {
      NumberRoundTrip(n / base, base);
      DigitRoundTrip(n % base, base);
      assert s[..|s| - 1] == PrintNumber(n / base, base);
    }
  }

  // ----- literals

  /** A literal: an optional width with `w` or `s`, an optional base, and the digits. */
  datatype Literal = Literal(sized: bool, signed: bool, width: string, prefix: string, digits: string)

  predicate IsPrefix(prefix: string) {
    prefix == "" || (|prefix| == 2 && prefix[0] == '0' && BaseOf(prefix[1]).Some?)
  }

  function PrefixBase(prefix: string): nat
    requires IsPrefix(prefix)
  {
    if prefix == "" then 10 else BaseOf(prefix[1]).value
  }

  /** Underscores may stand between and before digits of a stated base, and, as the code has
      it, one may stand before the decimal digits behind a width. */
  predicate Valid(l: Literal) {
    && IsPrefix(l.prefix) && l.digits != []
    && (if l.sized then l.width != [] && AllDigits(l.width, 10, false) else l.width == [] && l.signed)
    && InClass(l.digits[0], Digits(PrefixBase(l.prefix), l.prefix != "" || l.sized))
    && AllDigits(l.digits[1..], PrefixBase(l.prefix), l.prefix != "")
  }

  function SizeText(l: Literal): string {
    if l.sized then l.width + (if l.signed then "s" else "w") else ""
  }

  function Text(l: Literal): string {
    SizeText(l) + (l.prefix + l.digits)
  }

  lemma ValidDigits(l: Literal)
    requires Valid(l)
    ensures AllDigits(l.digits, PrefixBase(l.prefix), true) && AllDigits(l.width, 10, true)
  {
    forall i | 0 <= i < |l.digits| ensures InClass(l.digits[i], Digits(PrefixBase(l.prefix), true)) {
      if i > 0 { assert l.digits[i] == l.digits[1..][i - 1]; }
    }
  }

  /** What a literal stands for. */
  function Info(l: Literal): IntInfo
    requires Valid(l)
  {
    ValidDigits(l);
    IntInfo(l.sized, l.signed, Value(l.width, 10), Value(l.digits, PrefixBase(l.prefix)))
  }

  lemma {:induction false} RunEndIs(t: string, i: nat, j: nat, k: CharClass)
    requires i <= j <= |t| && (j < |t| ==> !InClass(t[j], k))
    requires forall x :: i <= x < j ==> InClass(t[x], k)
    ensures RunEnd(t, i, k) == j
    decreases j - i
  {
    if i < j { RunEndIs(t, i + 1, j, k); }
  }

  /** The text `w` stands at `p`, and behind it nothing that could belong to a word. */
  predicate StandsAt(t: string, p: nat, w: string) {
    p + |w| <= |t| && t[p..p + |w|] == w && !InClass(At(t, p + |w|), Ident)
  }

  lemma DigitsLex(t: string, start: nat, q: nat, l: Literal, num: IntInfo)
    requires Valid(l) && start <= q && StandsAt(t, q, l.digits) && num.IntInfo?
    ensures LexDigits(t, start, q, PrefixBase(l.prefix), l.prefix != "", num)
         == Lexed(Token(Integer, t[start..q + |l.digits|], num.(value := Info(l).value)), start, q + |l.digits| - 1)
  {
    hide Value; hide DigitValue; hide InClass; hide IsPrefix; hide PrefixBase;
    var e, base := q + |l.digits|, PrefixBase(l.prefix);
    assert forall x :: q <= x < e ==> t[x] == t[q..e][x - q] == l.digits[x - q];
    forall x | q + 1 <= x < e ensures InClass(t[x], Digits(base, l.prefix != "")) {
      assert l.digits[x - q] == l.digits[1..][x - q - 1];
    }
    DigitsAreIdent(At(t, e), base, l.prefix != "");
    RunEndIs(t, q + 1, e, Digits(base, l.prefix != ""));
    DigitsWider(t[q], base, l.prefix != "" || l.sized);
  }

  lemma DigitsAreIdent(c: char, base: nat, underscores: bool)
    ensures InClass(c, Digits(base, underscores)) ==> InClass(c, Ident)
  {
  }

  lemma DigitsWider(c: char, base: nat, underscores: bool)
    ensures InClass(c, Digits(base, underscores)) ==> InClass(c, Digits(base, true))
  {
  }

  lemma WordThere(t: string, p: nat, w: string)
    requires StandsAt(t, p, w)
    ensures p + |w| <= |t| && t[p..p + |w|] == w
  {
  }

  lemma PrefixOf(l: Literal)
    requires Valid(l)
    ensures l.prefix == "" ==> PrefixBase(l.prefix) == 10
    ensures l.prefix != "" ==> |l.prefix| == 2
  {
  }

  lemma BehindPrefix(t: string, start: nat, q: nat, l: Literal, num: IntInfo)
    requires Valid(l) && start <= q && StandsAt(t, q, l.prefix + l.digits) && num.IntInfo?
    ensures var n := q + |l.prefix + l.digits|;
            && q + |l.prefix| <= n <= |t|
            && LexDigits(t, start, q + |l.prefix|, PrefixBase(l.prefix), l.prefix != "", num)
            == Lexed(Token(Integer, t[start..n], num.(value := Info(l).value)), start, n - 1)
  {
    hide *;
    DigitsStand(t, q, l.prefix, l.digits);
    WordThere(t, q, l.prefix + l.digits);
    DigitsLex(t, start, q + |l.prefix|, l, num);
  }

  /** Behind a width: the base is read off the text correctly. */
  lemma SizedLex(t: string, start: nat, q: nat, l: Literal, num: IntInfo)
    requires Valid(l) && l.sized && start <= q && StandsAt(t, q, l.prefix + l.digits) && num.IntInfo?
    ensures var n := q + |l.prefix + l.digits|;
            LexSized(t, start, q, num) == Lexed(Token(Integer, t[start..n], num.(value := Info(l).value)), start, n - 1)
  {
    PrefixOf(l);
    hide *;
    BaseSeen(t, q, l);
    BehindPrefix(t, start, q, l, num);
    SizedBase(t, start, q, num);
  }

  lemma SizedBase(t: string, start: nat, q: nat, num: IntInfo)
    requires start <= q <= |t| && num.IntInfo?
    ensures LexSized(t, start, q, num) == if At(t, q) == '0' && BaseOf(At(t, q + 1)).Some? then
      LexDigits(t, start, q + 2, BaseOf(At(t, q + 1)).value, true, num)
    else LexDigits(t, start, q, 10, false, num)
  {
    hide LexDigits; hide BaseOf;
  }

  lemma DigitsStand(t: string, q: nat, a: string, b: string)
    requires StandsAt(t, q, a + b)
    ensures StandsAt(t, q + |a|, b)
  {
    assert t[q + |a|..q + |a + b|] == t[q..q + |a + b|][|a|..];
    assert (a + b)[|a|..] == b;
  }

  lemma CharAt(t: string, q: nat, w: string, i: nat)
    requires StandsAt(t, q, w) && i < |w|
    ensures q + i < |t| && t[q + i] == w[i]
  {
    assert t[q..q + |w|][i] == w[i];
  }

  lemma BaseSeen(t: string, q: nat, l: Literal)
    requires Valid(l) && StandsAt(t, q, l.prefix + l.digits)
    ensures l.prefix != "" ==> At(t, q) == '0' && BaseOf(At(t, q + 1)) == Some(PrefixBase(l.prefix))
    ensures l.prefix == "" ==> !(At(t, q) == '0' && BaseOf(At(t, q + 1)).Some?)
  {
    if l.prefix == "" {
      assert l.prefix + l.digits == l.digits;
      NoBaseSeen(t, q, l);
    } else {
      hide StandsAt;
      CharAt(t, q, l.prefix + l.digits, 0);
      CharAt(t, q, l.prefix + l.digits, 1);
    }
  }

  lemma NoBaseSeen(t: string, q: nat, l: Literal)
    requires Valid(l) && l.prefix == "" && StandsAt(t, q, l.digits)
    ensures BaseOf(At(t, q + 1)) == None
  {
    LettersOfBases(At(t, q + 1));
    if |l.digits| > 1 {
      CharAt(t, q, l.digits, 1);
      assert l.digits[1] == l.digits[1..][0];
    }
  }

  lemma LettersOfBases(c: char)
    ensures BaseOf(c).Some? ==> InClass(c, Ident) && !IsDigit(c, 10)
  {
  }

  lemma NumberDecimal(t: string, p: nat)
    requires p < |t| && IsDigit(t[p], 10) && !(At(t, p) == '0' && BaseOf(At(t, p + 1)).Some?)
    ensures LexNumber(t, p) == LexDecimal(t, p)
  {
    hide LexDecimal; hide LexDigits; hide BaseOf; hide IsDigit;
  }

  lemma NumberBased(t: string, p: nat)
    requires At(t, p) == '0' && BaseOf(At(t, p + 1)).Some?
    ensures p < |t| && IsDigit(t[p], 10)
    ensures LexNumber(t, p) == LexDigits(t, p, p + 2, BaseOf(At(t, p + 1)).value, true, UNSIZED)
  {
    hide LexDecimal; hide LexDigits; hide BaseOf;
  }

  lemma UnsizedInfo(l: Literal)
    requires Valid(l) && !l.sized
    ensures Info(l) == UNSIZED.(value := Info(l).value)
  {
  }

  lemma BasedLex(t: string, p: nat, l: Literal)
    requires Valid(l) && !l.sized && l.prefix != "" && StandsAt(t, p, l.prefix + l.digits)
    ensures p < |t| && IsDigit(t[p], 10)
    ensures LexNumber(t, p) == Lexed(Token(Integer, l.prefix + l.digits, Info(l)), p, p + |l.prefix + l.digits| - 1)
  {
    UnsizedInfo(l);
    PrefixOf(l);
    hide *;
    BaseSeen(t, p, l);
    BehindPrefix(t, p, p, l, UNSIZED);
    WordThere(t, p, l.prefix + l.digits);
    NumberBased(t, p);
  }

  lemma PlainLex(t: string, p: nat, l: Literal)
    requires Valid(l) && !l.sized && l.prefix == "" && StandsAt(t, p, l.digits)
    ensures p < |t| && IsDigit(t[p], 10)
    ensures LexNumber(t, p) == Lexed(Token(Integer, l.digits, Info(l)), p, p + |l.digits| - 1)
  {
    UnsizedInfo(l);
    PrefixOf(l);
    hide *;
    assert l.prefix + l.digits == l.digits;
    BaseSeen(t, p, l);
    DigitsLex(t, p, p, l, UNSIZED);
    WordThere(t, p, l.digits);
    UnsizedDecimal(t, p, l);
    NumberDecimal(t, p);
  }

  lemma UnsizedLex(t: string, p: nat, l: Literal)
    requires Valid(l) && !l.sized && StandsAt(t, p, l.prefix + l.digits)
    ensures p < |t| && IsDigit(t[p], 10)
    ensures LexNumber(t, p) == Lexed(Token(Integer, l.prefix + l.digits, Info(l)), p, p + |l.prefix + l.digits| - 1)
  {
    hide *;
    if l.prefix == "" {
      assert l.prefix + l.digits == l.digits;
      PlainLex(t, p, l);
    } else {
      BasedLex(t, p, l);
    }
  }

  /** Every literal is read as what it stands for. */
  lemma LiteralLexes(t: string, p: nat, l: Literal)
    requires Valid(l) && StandsAt(t, p, Text(l))
    ensures p < |t| && IsDigit(t[p], 10)
    ensures LexNumber(t, p) == Lexed(Token(Integer, Text(l), Info(l)), p, p + |Text(l)| - 1)
  {
    hide LexDigits; hide LexSized; hide LexNumber; hide Value; hide StandsAt; hide Valid;
    if l.sized {
      WidthLex(t, p, l);
    } else {
      assert Text(l) == l.prefix + l.digits;
      UnsizedLex(t, p, l);
    }
  }

  /** No `w` or `s` follows an unsized decimal literal. */
  lemma UnsizedDecimal(t: string, p: nat, l: Literal)
    requires Valid(l) && !l.sized && l.prefix == "" && StandsAt(t, p, l.digits)
    ensures p < |t| && IsDigit(t[p], 10)
    ensures LexDecimal(t, p) == LexDigits(t, p, p, 10, false, UNSIZED)
  {
    hide LexDigits;
    hide LexSized;
    var e := p + |l.digits|;
    assert forall x :: p <= x < e ==> t[x] == t[p..e][x - p] == l.digits[x - p];
    forall x | p + 1 <= x < e ensures InClass(t[x], Digits(10, false)) {
      assert l.digits[x - p] == l.digits[1..][x - p - 1];
    }
    DigitsAreIdent(At(t, e), 10, false);
    RunEndIs(t, p + 1, e, Digits(10, false));
  }

  /** A width in the text, up to its `w` or `s`. */
  lemma WidthStands(t: string, p: nat, width: string, signed: bool, rest: string)
    requires width != [] && AllDigits(width, 10, false)
    requires StandsAt(t, p, width + ((if signed then "s" else "w") + rest))
    ensures var e := p + |width|;
            && p < e < |t| && IsDigit(t[p], 10) && t[p..e] == width && t[e] == (if signed then 's' else 'w')
            && RunEnd(t, p + 1, Digits(10, false)) == e
  {
    hide RunEnd;
    var sign := if signed then "s" else "w";
    var e := p + |width|;
    FrontStands(t, p, width, sign + rest);
    assert t[e] == sign[0] && t[p] == width[0];
    assert !IsDigit(t[e], 10);
    RunEndIs(t, p + 1, e, Digits(10, false));
  }

  lemma WidthRead(t: string, p: nat, width: string, signed: bool, rest: string)
    requires width != [] && AllDigits(width, 10, false)
    requires StandsAt(t, p, width + ((if signed then "s" else "w") + rest))
    ensures p < |t| && IsDigit(t[p], 10) && p + |width| + 1 <= |t|
    ensures LexNumber(t, p) == LexSized(t, p, p + |width| + 1, IntInfo(true, signed, Value(width, 10), 0))
  {
    hide Value; hide LexSized; hide RunEnd; hide LexDecimal; hide LexDigits; hide StandsAt; hide AllDigits;
    WidthStands(t, p, width, signed, rest);
    DecimalWidth(t, p, p + |width|);
    assert LexNumber(t, p) == LexDecimal(t, p) by { WidthHasNoBase(t, p, |width|); }
  }

  lemma WidthHasNoBase(t: string, p: nat, n: nat)
    requires 0 < n && p + n < |t| && RunEnd(t, p + 1, Digits(10, false)) == p + n && t[p + n] in {'w', 's'}
    ensures BaseOf(At(t, p + 1)) == None
  {
    if n > 1 { LettersOfBases(t[p + 1]); }
  }

  lemma DecimalWidth(t: string, p: nat, e: nat)
    requires p < e < |t| && IsDigit(t[p], 10) && RunEnd(t, p + 1, Digits(10, false)) == e && t[e] in {'w', 's'}
    ensures AllDigits(t[p..e], 10, true)
    ensures LexDecimal(t, p) == LexSized(t, p, e + 1, IntInfo(true, t[e] == 's', Value(t[p..e], 10), 0))
  {
    hide LexSized;
    hide Value;
  }

  lemma SizedInfo(l: Literal)
    requires Valid(l) && l.sized
    ensures l.width != [] && AllDigits(l.width, 10, false)
    ensures Info(l) == IntInfo(true, l.signed, Value(l.width, 10), Info(l).value)
    ensures Text(l) == SizeText(l) + (l.prefix + l.digits) && SizeText(l) == l.width + (if l.signed then "s" else "w")
  {
    hide Value; hide AllDigits;
  }

  lemma Regroup(a: string, b: string, c: string)
    ensures a + b + c == a + (b + c)
  {
  }

  lemma WidthParts(t: string, p: nat, l: Literal)
    requires Valid(l) && l.sized && StandsAt(t, p, Text(l))
    ensures StandsAt(t, p + |l.width| + 1, l.prefix + l.digits)
  {
    SizedInfo(l);
    hide *;
    DigitsStand(t, p, SizeText(l), l.prefix + l.digits);
  }

  lemma WidthSpan(t: string, p: nat, l: Literal)
    requires Valid(l) && l.sized && StandsAt(t, p, Text(l))
    ensures var n := p + |l.width| + 1 + |l.prefix + l.digits|;
            n == p + |Text(l)| && p < n <= |t| && t[p..n] == Text(l)
  {
    SizedInfo(l);
    hide *;
    WordThere(t, p, Text(l));
  }

  lemma WidthOf(t: string, p: nat, l: Literal)
    requires Valid(l) && l.sized && StandsAt(t, p, Text(l))
    ensures p < |t| && IsDigit(t[p], 10) && p + |l.width| + 1 <= |t|
    ensures LexNumber(t, p) == LexSized(t, p, p + |l.width| + 1, IntInfo(true, l.signed, Value(l.width, 10), 0))
  {
    SizedInfo(l);
    hide *;
    Regroup(l.width, if l.signed then "s" else "w", l.prefix + l.digits);
    WidthRead(t, p, l.width, l.signed, l.prefix + l.digits);
  }

  lemma WidthLex(t: string, p: nat, l: Literal)
    requires Valid(l) && l.sized && StandsAt(t, p, Text(l))
    ensures p < |t| && IsDigit(t[p], 10)
    ensures LexNumber(t, p) == Lexed(Token(Integer, Text(l), Info(l)), p, p + |Text(l)| - 1)
  {
    hide *;
    WidthOf(t, p, l);
    WidthRest(t, p, l);
  }

  lemma WidthRest(t: string, p: nat, l: Literal)
    requires Valid(l) && l.sized && StandsAt(t, p, Text(l)) && p + |l.width| + 1 <= |t|
    ensures LexSized(t, p, p + |l.width| + 1, IntInfo(true, l.signed, Value(l.width, 10), 0))
         == Lexed(Token(Integer, Text(l), Info(l)), p, p + |Text(l)| - 1)
  {
    var num := IntInfo(true, l.signed, Value(l.width, 10), 0);
    assert Info(l) == num.(value := Info(l).value) by { SizedInfo(l); }
    hide *;
    WidthParts(t, p, l);
    WidthSpan(t, p, l);
    SizedLex(t, p, p + |l.width| + 1, l, num);
  }

  lemma FrontStands(t: string, p: nat, a: string, b: string)
    requires StandsAt(t, p, a + b)
    ensures t[p..p + |a|] == a && forall x :: 0 <= x < |a| ==> t[p + x] == a[x]
    ensures b != [] ==> t[p + |a|] == b[0]
  {
    var w := a + b;
    assert forall x :: 0 <= x < |w| ==> t[p + x] == t[p..p + |w|][x] == w[x];
    assert t[p..p + |a|] == t[p..p + |w|][..|a|];
    if b != [] { assert w[|a|] == b[0]; }
  }

  // ----- and nothing else is read as an integer

  /** The digits that were read from `q` on. */
  lemma DigitsRead(t: string, start: nat, q: nat, base: nat, underscores: bool, num: IntInfo)
    requires start <= q <= |t| && num.IntInfo? && LexDigits(t, start, q, base, underscores, num).Lexed?
    ensures var r := LexDigits(t, start, q, base, underscores, num);
            && q <= r.end && r.tok.lexeme == Window(t, start, r.end)
            && InClass(t[q], Digits(base, true)) && AllDigits(t[q + 1..r.end + 1], base, underscores)
            && !InClass(At(t, r.end + 1), Digits(base, underscores))
            && AllDigits(t[q..r.end + 1], base, true) && r.tok.num == num.(value := Value(t[q..r.end + 1], base))
  {
    hide Value; hide DigitValue;
    var r := LexDigits(t, start, q, base, underscores, num);
    forall x | q <= x < r.end + 1 ensures InClass(t[x], Digits(base, true)) {
      if x > q { assert InClass(t[x], Digits(base, underscores)); }
    }
  }

  /** A literal, its window, and no digit behind it. */
  predicate ReadAs(t: string, r: Lexed, l: Literal) {
    && Valid(l) && r.Lexed? && r.start <= r.end < |t|
    && Window(t, r.start, r.end) == Text(l) && r.tok == Token(Integer, Text(l), Info(l))
    && !InClass(At(t, r.end + 1), Digits(PrefixBase(l.prefix), l.prefix != ""))
  }

  /** The literal that stands in t[p..]: its size in t[p..q], its prefix in t[q..first]. */
  lemma LiteralRead(t: string, p: nat, q: nat, first: nat, l: Literal, num: IntInfo)
    requires p <= q <= first <= |t| && t[p..q] == SizeText(l) && t[q..first] == l.prefix && IsPrefix(l.prefix)
    requires if l.sized then l.width != [] && AllDigits(l.width, 10, false) else l.width == [] && l.signed
    requires num == IntInfo(l.sized, l.signed, if l.sized then Value(l.width, 10) else 0, 0)
    requires !l.sized && l.prefix == "" ==> IsDigit(At(t, first), 10)
    requires LexDigits(t, p, first, PrefixBase(l.prefix), l.prefix != "", num).Lexed?
    requires var r := LexDigits(t, p, first, PrefixBase(l.prefix), l.prefix != "", num); l.digits == t[first..r.end + 1]
    ensures ReadAs(t, LexDigits(t, p, first, PrefixBase(l.prefix), l.prefix != "", num), l)
  {
    hide LexDigits; hide RunEnd; hide IsLetter; hide Value; hide DigitValue; hide IsDigit; hide SizeText;
    var r := LexDigits(t, p, first, PrefixBase(l.prefix), l.prefix != "", num);
    DigitsRead(t, p, first, PrefixBase(l.prefix), l.prefix != "", num);
    assert Value([], 10) == 0 by { ValueOfNone(); }
    assert l.digits[1..] == t[first + 1..r.end + 1];
    assert Valid(l);
    assert t[p..r.end + 1] == t[p..q] + (t[q..first] + t[first..r.end + 1]);
  }

  lemma ValueOfNone()
    ensures Value([], 10) == 0
  {
  }

  lemma SizedIsLiteral(t: string, p: nat, q: nat, width: string, signed: bool) returns (l: Literal)
    requires p <= q <= |t| && width != [] && AllDigits(width, 10, false)
    requires t[p..q] == width + (if signed then "s" else "w")
    requires LexSized(t, p, q, IntInfo(true, signed, Value(width, 10), 0)).Lexed?
    ensures ReadAs(t, LexSized(t, p, q, IntInfo(true, signed, Value(width, 10), 0)), l)
  {
    hide LexDigits;
    hide ReadAs;
    hide RunEnd;
    var num := IntInfo(true, signed, Value(width, 10), 0);
    var r := LexSized(t, p, q, num);
    var based := At(t, q) == '0' && BaseOf(At(t, q + 1)).Some?;
    var first := if based then q + 2 else q;
    DigitsRead(t, p, first, if based then BaseOf(At(t, q + 1)).value else 10, based, num);
    l := Literal(true, signed, width, t[q..first], t[first..r.end + 1]);
    LiteralRead(t, p, q, first, l, num);
  }

  lemma UnsizedIsLiteral(t: string, p: nat, first: nat) returns (l: Literal)
    requires p < |t| && IsDigit(t[p], 10) && (first == p || first == p + 2 <= |t|) && IsPrefix(t[p..first])
    requires LexDigits(t, p, first, PrefixBase(t[p..first]), first > p, UNSIZED).Lexed?
    ensures ReadAs(t, LexDigits(t, p, first, PrefixBase(t[p..first]), first > p, UNSIZED), l)
  {
    hide LexDigits;
    hide ReadAs;
    hide RunEnd;
    var r := LexDigits(t, p, first, PrefixBase(t[p..first]), first > p, UNSIZED);
    DigitsRead(t, p, first, PrefixBase(t[p..first]), first > p, UNSIZED);
    l := Literal(false, true, "", t[p..first], t[first..r.end + 1]);
    LiteralRead(t, p, p, first, l, UNSIZED);
  }

  /** The text goes on with `w` at `p`, whatever follows. */
  predicate StandsIn(t: string, p: nat, w: string) {
    p + |w| <= |t| && t[p..p + |w|] == w
  }

  lemma PartsStand(t: string, p: nat, a: string, b: string)
    requires StandsIn(t, p, a + b)
    ensures StandsIn(t, p, a) && StandsIn(t, p + |a|, b)
  {
    var w := t[p..p + |a + b|];
    assert t[p..p + |a|] == w[..|a|] && t[p + |a|..p + |a| + |b|] == w[|a|..];
  }

  lemma CharStands(t: string, p: nat, w: string, i: nat)
    requires StandsIn(t, p, w) && i < |w|
    ensures t[p + i] == w[i]
  {
    assert t[p..p + |w|][i] == w[i];
  }

  /** The digits that are read from `q` on reach as far as those of any literal there. */
  lemma DigitsReach(t: string, start: nat, q: nat, base: nat, underscores: bool, num: IntInfo, digits: string)
    requires start <= q && num.IntInfo? && StandsIn(t, q, digits) && digits != []
    requires InClass(digits[0], Digits(base, true)) && AllDigits(digits[1..], base, underscores)
    ensures LexDigits(t, start, q, base, underscores, num).Lexed?
    ensures LexDigits(t, start, q, base, underscores, num).end + 1 >= q + |digits|
  {
    hide Value;
    CharStands(t, q, digits, 0);
    forall x | q + 1 <= x < q + |digits| ensures InClass(t[x], Digits(base, underscores)) {
      CharStands(t, q, digits, x - q);
      assert digits[x - q] == digits[1..][x - q - 1];
    }
  }

  lemma NoBaseInside(t: string, q: nat, digits: string)
    requires |digits| > 1 && StandsIn(t, q, digits) && AllDigits(digits[1..], 10, false)
    ensures BaseOf(At(t, q + 1)) == None
  {
    CharStands(t, q, digits, 1);
    assert digits[1] == digits[1..][0];
    LettersOfBases(t[q + 1]);
  }

  lemma SizedReach(t: string, p: nat, q: nat, num: IntInfo, l: Literal)
    requires Valid(l) && l.sized && p <= q && StandsIn(t, q, l.prefix + l.digits) && num.IntInfo?
    requires LexSized(t, p, q, num).Lexed?
    ensures LexSized(t, p, q, num).end + 1 >= q + |l.prefix + l.digits|
  {
    PartsStand(t, q, l.prefix, l.digits);
    if l.prefix != "" {
      CharStands(t, q, l.prefix, 0);
      CharStands(t, q, l.prefix, 1);
      DigitsReach(t, p, q + 2, PrefixBase(l.prefix), true, num, l.digits);
    } else if At(t, q) == '0' && BaseOf(At(t, q + 1)).Some? {
      if |l.digits| > 1 { NoBaseInside(t, q, l.digits); }
    } else {
      DigitsReach(t, p, q, 10, false, num, l.digits);
    }
  }

  lemma WidthEnds(t: string, p: nat, l: Literal)
    requires Valid(l) && l.sized && StandsIn(t, p, Text(l))
    ensures var q := p + |l.width|;
            && q + 1 <= |t| && IsDigit(t[p], 10) && RunEnd(t, p + 1, Digits(10, false)) == q && t[q] in {'w', 's'}
            && StandsIn(t, q + 1, l.prefix + l.digits)
  {
    SizedInfo(l);
    hide RunEnd; hide Valid; hide Text; hide SizeText; hide Value; hide StandsIn; hide Info;
    var sign := if l.signed then "s" else "w";
    PartsStand(t, p, SizeText(l), l.prefix + l.digits);
    PartsStand(t, p, l.width, sign);
    CharStands(t, p + |l.width|, sign, 0);
    CharStands(t, p, l.width, 0);
    forall x | p + 1 <= x < p + |l.width| ensures InClass(t[x], Digits(10, false)) { CharStands(t, p, l.width, x - p); }
    assert !IsDigit(t[p + |l.width|], 10);
    RunEndIs(t, p + 1, p + |l.width|, Digits(10, false));
  }

  /** What is read as an integer is as long as any literal that stands there. */
  lemma LiteralFits(t: string, p: nat, l: Literal)
    requires p < |t| && IsDigit(t[p], 10) && LexNumber(t, p).Lexed? && Valid(l) && StandsIn(t, p, Text(l))
    ensures LexNumber(t, p).end + 1 >= p + |Text(l)|
  {
    hide Value; hide LexDigits; hide LexSized; hide StandsIn; hide RunEnd;
    if l.sized {
      WidthEnds(t, p, l);
      WidthHasNoBase(t, p, |l.width|);
      var q := p + |l.width|;
      DecimalWidth(t, p, q);
      SizedReach(t, p, q + 1, IntInfo(true, t[q] == 's', Value(t[p..q], 10), 0), l);
    } else {
      assert Text(l) == l.prefix + l.digits;
      UnsizedFits(t, p, l);
    }
  }

  lemma UnsizedFits(t: string, p: nat, l: Literal)
    requires p < |t| && IsDigit(t[p], 10) && LexNumber(t, p).Lexed? && Valid(l) && !l.sized
    requires StandsIn(t, p, l.prefix + l.digits)
    ensures LexNumber(t, p).end + 1 >= p + |l.prefix + l.digits|
  {
    hide Value;
    PartsStand(t, p, l.prefix, l.digits);
    if l.prefix != "" {
      CharStands(t, p, l.prefix, 0);
      CharStands(t, p, l.prefix, 1);
      DigitsReach(t, p, p + 2, PrefixBase(l.prefix), true, UNSIZED, l.digits);
    } else if |l.digits| > 1 {
      CharStands(t, p, l.digits, 1);
      assert l.digits[1] == l.digits[1..][0] && IsDigit(t[p + 1], 10);
      LettersOfBases(t[p + 1]);
      forall x | p + 1 <= x < p + |l.digits| ensures InClass(t[x], Digits(10, false)) {
        CharStands(t, p, l.digits, x - p);
        assert l.digits[x - p] == l.digits[1..][x - p - 1];
      }
      DecimalReach(t, p);
    }
  }

  lemma DecimalReach(t: string, p: nat)
    requires p < |t| && IsDigit(t[p], 10) && LexDecimal(t, p).Lexed?
    ensures LexDecimal(t, p).end + 1 >= RunEnd(t, p + 1, Digits(10, false))
  {
    hide Value;
  }

  /** Whatever the lexer reads as an integer is the longest literal that stands there. */
  lemma NumberIsLiteral(t: string, p: nat) returns (l: Literal)
    requires p < |t| && IsDigit(t[p], 10) && LexNumber(t, p).Lexed?
    ensures ReadAs(t, LexNumber(t, p), l)
    ensures forall k: Literal :: Valid(k) && StandsIn(t, p, Text(k)) ==> p + |Text(k)| <= LexNumber(t, p).end + 1
  {
    hide LexNumber; hide ReadAs; hide Valid; hide StandsIn; hide Text;
    l := NumberRead(t, p);
    forall k: Literal | Valid(k) && StandsIn(t, p, Text(k)) ensures p + |Text(k)| <= LexNumber(t, p).end + 1 {
      LiteralFits(t, p, k);
    }
  }

  lemma PrefixSlice(t: string, p: nat)
    requires p < |t| && t[p] == '0' && BaseOf(At(t, p + 1)).Some?
    ensures p + 2 <= |t| && IsPrefix(t[p..p + 2]) && t[p..p + 2] != ""
    ensures PrefixBase(t[p..p + 2]) == BaseOf(At(t, p + 1)).value
  {
    assert t[p..p + 2] == [t[p], t[p + 1]];
  }

  lemma SliceEnd(t: string, p: nat, e: nat)
    requires p <= e < |t|
    ensures t[p..e + 1] == t[p..e] + [t[e]]
  {
  }

  lemma NumberRead(t: string, p: nat) returns (l: Literal)
    requires p < |t| && IsDigit(t[p], 10) && LexNumber(t, p).Lexed?
    ensures ReadAs(t, LexNumber(t, p), l)
  {
    hide LexDigits; hide LexSized; hide ReadAs; hide BaseOf; hide RunEnd; hide Value;
    if t[p] == '0' && BaseOf(At(t, p + 1)).Some? {
      PrefixSlice(t, p);
      l := UnsizedIsLiteral(t, p, p + 2);
    } else {
      var e := RunEnd(t, p + 1, Digits(10, false));
      if At(t, e) == 'w' || At(t, e) == 's' {
        SliceEnd(t, p, e);
        l := SizedIsLiteral(t, p, e + 1, t[p..e], t[e] == 's');
      } else {
        assert t[p..p] == "";
        l := UnsizedIsLiteral(t, p, p);
      }
    }
  }
}
