/** Letter numbering of version components: bijective base 26, counted from zero. */
module Letters {
  import opened Orders

  const LETTERS := 26

  /** Letters start at `base`, which is 'a' or 'A'. */
  predicate IsBase(base: char) { base == 'a' || base == 'A' }

  function Letter(d: nat, base: char): char
    requires d < LETTERS && IsBase(base)
  {
    (base as int + d) as char
  }

  predicate IsWord(s: string, base: char) {
    forall i | 0 <= i < |s| :: base as int <= s[i] as int < base as int + LETTERS
  }

  function LetterValue(c: char, base: char): int { c as int - base as int }

  // ---------------------------------------------------------------- what a word stands for

  /** The sum of (d + 1) * 26^i over the letters; the empty word stands for zero. */
  function WordValue(w: string, base: char): int {
    if w == "" then 0 else WordValue(w[..|w| - 1], base) * LETTERS + LetterValue(w[|w| - 1], base) + 1
  }

  /** The number a nonempty word stands for. */
  function Decode(w: string, base: char): int { WordValue(w, base) - 1 }

  predicate ShortLex(a: string, b: string) {
    |a| < |b| || (|a| == |b| && StringLess(a, b))
  }

  // ---------------------------------------------------------------- the steps of the source, as functions

  function Power(c: nat): (p: nat)
    ensures p > 0
  {
    if c == 0 then 1 else Power(c - 1) * LETTERS
  }

  /** Subtract 26, 26^2, ... while possible: what is left, the last power, and the word length. */
  function SkipShorter(n: nat, p: nat, c: nat): (nat, nat, nat)
    requires p > 0
    decreases n
  {
    if n >= p then SkipShorter(n - p, p * LETTERS, c + 1) else (n, p, c)
  }

  /** `n` in base 26 with exactly `c` digits. */
  function FixedDigits(n: nat, c: nat, base: char): string
    requires IsBase(base)
  {
    if c == 0 then "" else FixedDigits(n / LETTERS, c - 1, base) + [Letter(n % LETTERS, base)]
  }

  /** `n` in base 26 without leading zeros. */
  function ShortDigits(n: nat, base: char): string
    requires IsBase(base)
  {
    if n < LETTERS then [Letter(n, base)] else ShortDigits(n / LETTERS, base) + [Letter(n % LETTERS, base)]
  }

  function Reversed(s: string): string {
    if s == "" then "" else Reversed(s[1..]) + [s[0]]
  }

  function Repeat(c: char, n: nat): string { seq(n, _ => c) }

  function Replacement(n: nat, base: char): string
    requires IsBase(base)
  {
    var (rest, _, length) := SkipShorter(n, LETTERS, 1);
    FixedDigits(rest, length, base)
  }

  // ---------------------------------------------------------------- the source's loops

  method CreateLatinReplacements(number: nat, base: char) returns (s: string)
    requires IsBase(base)
    ensures s == Replacement(number, base)
  {
    hide FixedDigits, ShortDigits, Letter, WordsShorterThan, Reversed;
    var n, a := number, LETTERS;
    s := "";
    var p, c := a, 1;
    while n >= p
      invariant n >= 0 && p > 0 && SkipShorter(n, p, c) == SkipShorter(number, LETTERS, 1)
      decreases n
    {
      n := n - p;
      p := p * a;
      c := c + 1;
    }
    ghost var rest := n;
    NoDigitsYet(n, base);
    SkipShorterFacts(number, LETTERS, 1);
    while n >= a
      invariant n >= 0 && ShortDigits(rest, base) == ShortDigits(n, base) + Reversed(s)
    {
      DigitIsMoved(n, s, base);
      s := s + [Letter(n % a, base)];
      n := n / a;
    }
    LastDigitIsMoved(n, s, base);
    s := s + [Letter(n, base)];
    s := Reversed(s);
    PaddedIsFixed(rest, c, base);
    if |s| < c {
      s := Repeat(base, c - |s|) + s;
    }
  }

  lemma {:induction false} ReversedAppend(s: string, c: char)
    ensures Reversed(s + [c]) == [c] + Reversed(s)
  {
    if s != "" {
      ReversedAppend(s[1..], c);
      assert (s + [c])[1..] == s[1..] + [c];
    }
  }

  lemma NoDigitsYet(n: nat, base: char)
    requires IsBase(base)
    ensures ShortDigits(n, base) == ShortDigits(n, base) + Reversed("")
  {
  }

  /** The last digit of `n` goes to the end of the reversed text. */
  lemma DigitIsMoved(n: nat, s: string, base: char)
    requires IsBase(base) && n >= LETTERS
    ensures ShortDigits(n, base) + Reversed(s) == ShortDigits(n / LETTERS, base) + Reversed(s + [Letter(n % LETTERS, base)])
  {
    ReversedAppend(s, Letter(n % LETTERS, base));
  }

  lemma LastDigitIsMoved(n: nat, s: string, base: char)
    requires IsBase(base) && n < LETTERS
    ensures ShortDigits(n, base) + Reversed(s) == Reversed(s + [Letter(n, base)])
  {
    ReversedAppend(s, Letter(n, base));
  }

  lemma {:induction false} PaddedIsFixed(n: nat, c: nat, base: char)
    requires IsBase(base) && 0 < c && n < Power(c)
    ensures var w := ShortDigits(n, base);
            |w| <= c && Repeat(base, c - |w|) + w == FixedDigits(n, c, base)
  {
    if n < LETTERS {
      ZeroDigits(c - 1, base);
    } else {
      PaddedIsFixed(n / LETTERS, c - 1, base);
      var w := ShortDigits(n / LETTERS, base);
      assert Repeat(base, c - 1 - |w|) + (w + [Letter(n % LETTERS, base)])
          == (Repeat(base, c - 1 - |w|) + w) + [Letter(n % LETTERS, base)];
    }
  }

  lemma {:induction false} ZeroDigits(c: nat, base: char)
    requires IsBase(base)
    ensures FixedDigits(0, c, base) == Repeat(base, c)
  {
    if c > 0 {
      ZeroDigits(c - 1, base);
    }
  }

  // ---------------------------------------------------------------- correctness

  /** The rest fits the word length, and the power never grows beyond 26 times the number (or 26). */
  lemma {:induction false} SkipShorterFacts(n: nat, p: nat, c: nat)
    requires 0 < c && p == Power(c)
    ensures var (rest, q, length) := SkipShorter(n, p, c);
            && c <= length && q == Power(length) && rest < q
            && q <= (if n < p then p else LETTERS * n)
            && rest + WordsShorterThan(length) == n + WordsShorterThan(c)
    decreases n
  {
    if n >= p {
      SkipShorterFacts(n - p, p * LETTERS, c + 1);
    }
  }

  /** How many nonempty words are shorter than `c`. */
  function WordsShorterThan(c: nat): nat {
    if c <= 1 then 0 else WordsShorterThan(c - 1) + Power(c - 1)
  }

  /** The power computed on the way stays within 26 * max(n, 1). */
  lemma PowerStaysSmall(n: nat)
    ensures SkipShorter(n, LETTERS, 1).1 <= LETTERS * (if n == 0 then 1 else n)
  {
    assert Power(1) == Power(0) * LETTERS;
    SkipShorterFacts(n, LETTERS, 1);
  }

  lemma {:induction false} FixedDigitsValue(n: nat, c: nat, base: char)
    requires IsBase(base) && n < Power(c)
    ensures var w := FixedDigits(n, c, base);
            && |w| == c && IsWord(w, base)
            && WordValue(w, base) == n + (if c == 0 then 0 else WordsShorterThan(c) + 1)
  {
    if c > 0 {
      FixedDigitsValue(n / LETTERS, c - 1, base);
      var w, init := FixedDigits(n, c, base), FixedDigits(n / LETTERS, c - 1, base);
      assert w[..c - 1] == init;
      ShorterWordsScale(c);
    }
  }

  lemma {:induction false} ShorterWordsScale(c: nat)
    requires c > 0
    ensures WordsShorterThan(c) == if c == 1 then 0 else (WordsShorterThan(c - 1) + 1) * LETTERS
  {
    if c > 2 {
      ShorterWordsScale(c - 1);
    } else if c == 2 {
      assert Power(1) == Power(0) * LETTERS;
    }
  }

  /** The replacement of `n` is a nonempty word that decodes to `n`. */
  lemma ReplacementDecodes(n: nat, base: char)
    requires IsBase(base)
    ensures var w := Replacement(n, base);
            w != "" && IsWord(w, base) && Decode(w, base) == n
  {
    assert Power(1) == Power(0) * LETTERS;
    SkipShorterFacts(n, LETTERS, 1);
    var (rest, _, length) := SkipShorter(n, LETTERS, 1);
    FixedDigitsValue(rest, length, base);
  }

  lemma {:induction false} WordValueBounds(w: string, base: char)
    requires IsWord(w, base)
    ensures WordValue(w, base) >= |w|
  {
    if w != "" {
      WordValueBounds(w[..|w| - 1], base);
    }
  }

  /** Words are ordered by their value exactly as by length first and then alphabetically. */
  lemma {:induction false} ValueOrderIsShortLex(a: string, b: string, base: char)
    requires IsWord(a, base) && IsWord(b, base)
    ensures WordValue(a, base) < WordValue(b, base) <==> ShortLex(a, b)
    ensures WordValue(a, base) == WordValue(b, base) <==> a == b
  {
    if a == "" {
      WordValueBounds(b, base);
    } else if b == "" {
      WordValueBounds(a, base);
    } else {
      var m, n := |a| - 1, |b| - 1;
      ValueOrderIsShortLex(a[..m], b[..n], base);
      assert a == a[..m] + [a[m]] && b == b[..n] + [b[n]];
      var x, y := LetterValue(a[m], base), LetterValue(b[n], base);
      assert 0 <= x < LETTERS && 0 <= y < LETTERS;
      if m == n {
        StringsStrictTotal();
        LexByInit(CharLess, a, b);
      }
    }
  }

  /** Every nonempty word is the replacement of the number it decodes to: numbering is a bijection. */
  lemma EveryWordIsAReplacement(w: string, base: char)
    requires IsBase(base) && IsWord(w, base) && w != ""
    ensures Decode(w, base) >= 0 && Replacement(Decode(w, base), base) == w
  {
    WordValueBounds(w, base);
    ReplacementDecodes(Decode(w, base), base);
    ValueOrderIsShortLex(Replacement(Decode(w, base), base), w, base);
  }

  /** Greater numbers get later words, shorter words first. */
  lemma ReplacementsAreInShortLexOrder(m: nat, n: nat, base: char)
    requires IsBase(base)
    ensures m < n <==> ShortLex(Replacement(m, base), Replacement(n, base))
  {
    ReplacementDecodes(m, base);
    ReplacementDecodes(n, base);
    ValueOrderIsShortLex(Replacement(m, base), Replacement(n, base), base);
  }

  /** The alphabet has 26 letters: the last word of one letter, the first two of two, and the first of three. */
  lemma FirstAndLastWords()
    ensures Replacement(0, 'a') == "a" && Replacement(25, 'a') == "z" && Replacement(25, 'A') == "Z"
    ensures Replacement(26, 'a') == "aa" && Replacement(27, 'a') == "ab" && Replacement(702, 'a') == "aaa"
  {
    assert SkipShorter(0, 26, 1) == (0, 26, 1) && SkipShorter(25, 26, 1) == (25, 26, 1);
    assert SkipShorter(26, 26, 1) == SkipShorter(0, 676, 2) == (0, 676, 2);
    assert SkipShorter(27, 26, 1) == SkipShorter(1, 676, 2) == (1, 676, 2);
    assert SkipShorter(702, 26, 1) == SkipShorter(676, 676, 2) == SkipShorter(0, 17576, 3) == (0, 17576, 3);
    assert FixedDigits(0, 1, 'a') == "a" && FixedDigits(25, 1, 'a') == "z" && FixedDigits(25, 1, 'A') == "Z";
    assert FixedDigits(0, 2, 'a') == "aa" && FixedDigits(1, 2, 'a') == "ab" && FixedDigits(0, 3, 'a') == "aaa";
  }
}
