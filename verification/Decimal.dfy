/** Decimal numerals: what `std::to_string` prints and `std::stoi` reads back. */
module Decimal {

  predicate IsDigit(c: char) { '0' <= c <= '9' }

  predicate AllDigits(s: string) {
    forall i | 0 <= i < |s| :: IsDigit(s[i])
  }

  function DigitValue(c: char): nat
    requires IsDigit(c)
  {
    c as int - '0' as int
  }

  function Digit(d: nat): (c: char)
    requires d < 10
    ensures IsDigit(c) && DigitValue(c) == d
  {
    ('0' as int + d) as char
  }

  function Print(n: nat): (s: string)
    ensures s != "" && AllDigits(s)
  {
    if n < 10 then [Digit(n)] else Print(n / 10) + [Digit(n % 10)]
  }

  function Read(s: string): nat
    requires AllDigits(s)
  {
    if s == "" then 0 else Read(s[..|s| - 1]) * 10 + DigitValue(s[|s| - 1])
  }

  /** Reading undoes printing. */
  lemma {:induction false} ReadPrint(n: nat)
    ensures Read(Print(n)) == n
  {
    var s := Print(n);
    if n < 10 {
      assert s[..0] == "";
    } else {
      ReadPrint(n / 10);
      assert s[..|s| - 1] == Print(n / 10);
    }
  }

  /** `std::to_string` of a signed number. */
  function PrintSigned(n: int): (s: string)
    ensures s != "" && forall i | 0 <= i < |s| :: IsDigit(s[i]) || s[i] == '-'
    ensures s[0] == '-' <==> n < 0
  {
    if n < 0 then "-" + Print(-n) else Print(n)
  }

  lemma PrintSignedInjective(m: int, n: int)
    requires PrintSigned(m) == PrintSigned(n)
    ensures m == n
  {
    if m < 0 {
      assert Print(-m) == PrintSigned(m)[1..] == PrintSigned(n)[1..] == Print(-n);
      ReadPrint(-m);
      ReadPrint(-n);
    } else {
      ReadPrint(m);
      ReadPrint(n);
    }
  }

  // ---------------------------------------------------------------- numerals by position

  const DIGITS := "0123456789"

  function TenTo(m: nat): (p: nat)
    ensures p > 0
  {
    if m == 0 then 1 else 10 * TenTo(m - 1)
  }

  /** The digit `c` stands for `d`. */
  predicate StandsFor(c: char, d: nat) { d < 10 && DIGITS[d] == c }

  /** `s` is a sequence of digits worth `n`, each digit counting by its position. */
  predicate IsWorth(s: string, n: int) {
    if s == "" then n == 0
    else exists d: nat | d < 10 :: StandsFor(s[0], d) && IsWorth(s[1..], n - d * TenTo(|s| - 1))
  }

  lemma StandsForIsDigitValue(c: char, d: nat)
    ensures StandsFor(c, d) <==> IsDigit(c) && DigitValue(c) == d
  {
    assert forall e: nat | e < 10 :: DIGITS[e] == ('0' as int + e) as char;
  }

  lemma AllDigitsRest(s: string)
    requires s != ""
    ensures AllDigits(s) <==> IsDigit(s[0]) && AllDigits(s[1..])
  {
    if IsDigit(s[0]) && AllDigits(s[1..]) {
      forall i | 0 <= i < |s| ensures IsDigit(s[i]) {
        if i > 0 {
          assert s[i] == s[1..][i - 1];
        }
      }
    }
  }

  /** Reading from the front. */
  lemma {:induction false} ReadFromFront(s: string)
    requires AllDigits(s) && s != ""
    ensures Read(s) == DigitValue(s[0]) * TenTo(|s| - 1) + Read(s[1..])
  {
    var n := |s| - 1;
    if n == 0 {
      assert s[..0] == "" && s[1..] == "";
    } else {
      ReadFromFront(s[..n]);
      assert s[..n][1..] == s[1..][..n - 1];
      Distributes(DigitValue(s[0]), TenTo(n - 1), Read(s[1..][..n - 1]));
    }
  }

  lemma Distributes(d: nat, p: nat, r: nat)
    ensures (d * p + r) * 10 == d * (10 * p) + r * 10
  {
  }

  /** What is read is what the digits are worth. */
  lemma {:induction false} ReadIsWorth(s: string, n: int)
    ensures IsWorth(s, n) <==> AllDigits(s) && Read(s) == n
  {
    if s != "" {
      AllDigitsRest(s);
      if d: nat :| d < 10 && StandsFor(s[0], d) && IsWorth(s[1..], n - d * TenTo(|s| - 1)) {
        StandsForIsDigitValue(s[0], d);
        ReadIsWorth(s[1..], n - d * TenTo(|s| - 1));
        ReadFromFront(s);
      }
      if AllDigits(s) && Read(s) == n {
        var d := DigitValue(s[0]);
        ReadFromFront(s);
        StandsForIsDigitValue(s[0], d);
        ReadIsWorth(s[1..], n - d * TenTo(|s| - 1));
      }
    }
  }

  /** A numeral without superfluous zeros. */
  predicate IsShortestNumeral(s: string, n: nat) {
    s != "" && IsWorth(s, n) && (|s| > 1 ==> s[0] != '0')
  }

  lemma {:induction false} PrintStarts(n: nat)
    ensures |Print(n)| > 1 ==> n > 0 && Print(n)[0] != '0'
    ensures n > 0 ==> Print(n)[0] != '0'
  {
    if n >= 10 {
      PrintStarts(n / 10);
    }
  }

  lemma FirstDigits(s: string)
    requires AllDigits(s) && s != ""
    ensures AllDigits(s[..|s| - 1]) && IsDigit(s[|s| - 1])
  {
  }

  lemma PrintNext(n: nat, c: char)
    requires n > 0 && IsDigit(c)
    ensures Print(n * 10 + DigitValue(c)) == Print(n) + [c]
  {
  }

  /** Digits that do not start with zero are what is printed for their number. */
  lemma {:induction false} PrintRead(s: string)
    requires AllDigits(s) && s != "" && (|s| > 1 ==> s[0] != '0')
    ensures Print(Read(s)) == s
    ensures s[0] != '0' ==> Read(s) > 0
  {
    var n := |s| - 1;
    assert s == s[..n] + [s[n]];
    if n == 0 {
      assert Read(s[..0]) == 0;
    } else {
      hide AllDigits;
      FirstDigits(s);
      PrintRead(s[..n]);
      PrintNext(Read(s[..n]), s[n]);
    }
  }

  /** What is printed is the one shortest numeral. */
  lemma PrintIsShortestNumeral(s: string, n: nat)
    ensures s == Print(n) <==> IsShortestNumeral(s, n)
  {
    ReadIsWorth(s, n);
    ReadPrint(n);
    PrintStarts(n);
    if IsShortestNumeral(s, n) {
      PrintRead(s);
    }
  }

  predicate IsSignedNumeral(s: string, n: int) {
    if n < 0 then s != "" && s[0] == '-' && IsShortestNumeral(s[1..], -n) else IsShortestNumeral(s, n)
  }

  lemma PrintSignedIsNumeral(s: string, n: int)
    ensures s == PrintSigned(n) <==> IsSignedNumeral(s, n)
  {
    if n < 0 {
      PrintIsShortestNumeral(if s == "" then "" else s[1..], -n);
      assert s != "" ==> s == [s[0]] + s[1..];
    } else {
      PrintIsShortestNumeral(s, n);
    }
  }
}
