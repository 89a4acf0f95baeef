/** The string hash of hash.c, on 32-bit words. */
module Hash {
  import opened ArenaModel

  const WORD: nat := 0x1_0000_0000
  const P: nat := 257
  const Q: nat := 4294967029
  const SIGMA: nat := 2654435769

  /** One round of fold_string; the product and the sum wrap around. */
  function Fold(k: nat, c: char): nat {
    (P * k + c as nat) % WORD % Q
  }

  function FoldString(s: string): (k: nat)
    ensures k < Q
  {
    if s == [] then 0 else Fold(FoldString(s[..|s| - 1]), s[|s| - 1])
  }

  /** fold_string */
  method FoldLoop(s: string) returns (k: nat)
    ensures k == FoldString(s)
  {
    k := 0;
    var i := 0;
    while i < |s|
      invariant i <= |s| && k == FoldString(s[..i])
    {
      assert s[..i + 1][..i] == s[..i];
      k := Fold(k, s[i]);
      i := i + 1;
    }
    assert s[..i] == s;
  }

  /** The characters of a string as the digits of a number. */
  function Numeral(s: string): nat {
    if s == [] then 0 else 257 * Numeral(s[..|s| - 1]) + s[|s| - 1] as nat
  }

  lemma FoldFits(k: nat, c: char)
    requires 257 * k + c as nat < 4294967029
    ensures Fold(k, c) == 257 * k + c as nat
  {
  }

  /** Up to the modulus nothing of a string is lost. */
  lemma {:induction false} FoldIsNumeral(s: string)
    requires Numeral(s) < 4294967029
    ensures FoldString(s) == Numeral(s)
    decreases |s|
  {
    hide Fold;
    if s != [] {
      FoldIsNumeral(s[..|s| - 1]);
      FoldFits(Numeral(s[..|s| - 1]), s[|s| - 1]);
    }
  }

  predicate Bytes(s: string) {
    forall i :: 0 <= i < |s| ==> s[i] as nat < 256
  }

  lemma {:induction false} NumeralInjective(s: string, t: string)
    requires |s| == |t| && Bytes(s) && Bytes(t) && Numeral(s) == Numeral(t)
    ensures s == t
    decreases |s|
  {
    if s != [] {
      var n := |s| - 1;
      assert Numeral(s[..n]) == Numeral(t[..n]) && s[n] == t[n];
      NumeralInjective(s[..n], t[..n]);
      assert s == s[..n] + [s[n]] && t == t[..n] + [t[n]];
    }
  }

  lemma ShortNumeral(s: string)
    requires |s| <= 3 && Bytes(s)
    ensures Numeral(s) < 257 * 257 * 257
  {
    var n := |s|;
    if n > 0 { assert Numeral(s[..n - 1]) * 257 + s[n - 1] as nat == Numeral(s); }
    if n > 1 { assert s[..n - 1][..n - 2] == s[..n - 2]; }
    if n > 2 { assert s[..n - 2][..n - 3] == []; }
  }

  /** Different names of the same length, up to three bytes, fold to different numbers. */
  lemma ShortNamesApart(s: string, t: string)
    requires |s| == |t| <= 3 && Bytes(s) && Bytes(t) && s != t
    ensures FoldString(s) != FoldString(t)
  {
    ShortNumeral(s);
    ShortNumeral(t);
    FoldIsNumeral(s);
    FoldIsNumeral(t);
    if Numeral(s) == Numeral(t) { NumeralInjective(s, t); }
  }

  /** The top m bits of a word. */
  function TopBits(n: nat, m: nat): nat
    requires m <= 32
  {
    var d := Pow2(32 - m);
    QuotientNat(n, d);
    n / d
  }

  lemma QuotientNat(n: nat, d: nat)
    requires d > 0
    ensures n / d >= 0
  {
    if n / d < 0 { MulMonotone(n / d, -1, d); }
  }

  /** multiply_hash: the top bits of the low word of the product. */
  function MultiplyHash(k: nat, m: nat): nat
    requires m <= 32
  {
    TopBits(k * SIGMA % WORD, m)
  }

  lemma {:induction false} Pow2Add(i: nat, j: nat)
    ensures Pow2(i) * Pow2(j) == Pow2(i + j)
  {
    if i > 0 {
      Pow2Add(i - 1, j);
      assert Pow2(i) * Pow2(j) == 2 * (Pow2(i - 1) * Pow2(j));
    }
  }

  lemma TopBitsRange(n: nat, m: nat)
    requires m <= 32 && n < WORD
    ensures TopBits(n, m) < Pow2(m)
  {
    WordIsPow2();
    Pow2Add(m, 32 - m);
    DivBelow(n, Pow2(m), Pow2(32 - m));
  }

  lemma WordIsPow2()
    ensures Pow2(32) == WORD
  {
    assert Pow2(8) == 256;
    Pow2Add(8, 8);
    Pow2Add(16, 16);
  }

  lemma MultiplyHashRange(k: nat, m: nat)
    requires m <= 32
    ensures MultiplyHash(k, m) < Pow2(m)
  {
    TopBitsRange(k * SIGMA % WORD, m);
  }

  lemma DivBelow(n: nat, p: nat, d: nat)
    requires d > 0 && n < p * d
    ensures n / d < p
  {
    if n / d >= p { MulMonotone(p, n / d, d); }
  }

  /** hash_string: an index below 2^m - 1, the capacity of the table. */
  function HashString(s: string, m: nat): (h: nat)
    requires 0 < m <= 32
    ensures h < Pow2(m) - 1
  {
    MultiplyHash(FoldString(s), m) % (Pow2(m) - 1)
  }

  /** The last reduction only moves the largest hash, to 0. */
  lemma HashStringIs(s: string, m: nat)
    requires 0 < m <= 32
    ensures var h := MultiplyHash(FoldString(s), m);
            HashString(s, m) == if h == Pow2(m) - 1 then 0 else h
  {
    MultiplyHashRange(FoldString(s), m);
    ModTop(MultiplyHash(FoldString(s), m), Pow2(m) - 1);
  }

  lemma ModTop(h: nat, n: nat)
    requires 0 < n && h <= n
    ensures h % n == if h == n then 0 else h
  {
  }
}
