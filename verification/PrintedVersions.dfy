/** Printing of `src/version` versions at a fixed level is a canonical form. */
module PrintedVersions {
  import opened Versions
  import opened Text
  import Decimal

  // ---------------------------------------------------------------- as functions

  /** `getRealLevel`: the level without trailing zeros. */
  function RealLevel(ns: seq<int>): (l: nat)
    ensures l <= |ns|
  {
    if ns == [] then 0 else if ns[|ns| - 1] != 0 then |ns| else RealLevel(ns[..|ns| - 1])
  }

  /** The numbers printed at `level`: up to the real level, then zeros. */
  function Shown(ns: seq<int>, level: nat): seq<int> {
    Resize(ns[..RealLevel(ns)], MaxNat(RealLevel(ns), level))
  }

  /** Each number in decimal. */
  function Numerals(numbers: seq<int>): (pieces: seq<string>)
    ensures |pieces| == |numbers|
    ensures forall i | 0 <= i < |numbers| :: pieces[i] == Decimal.PrintSigned(numbers[i])
  {
    seq(|numbers|, i requires 0 <= i < |numbers| => Decimal.PrintSigned(numbers[i]))
  }

  function Printed(numbers: seq<int>, delimiter: string, level: nat): string {
    Join(Numerals(Shown(numbers, level)), delimiter)
  }

  // ---------------------------------------------------------------- as loops

  method GetRealLevel(numbers: seq<int>) returns (l: nat)
    ensures l == RealLevel(numbers)
  {
    l := |numbers|;
    var i := |numbers|;
    assert numbers[..i] == numbers;
    while i > 0
      invariant 0 <= i <= |numbers| && l == i
      invariant RealLevel(numbers) == RealLevel(numbers[..i])
    {
      assert numbers[..i][..i - 1] == numbers[..i - 1];
      if numbers[i - 1] != 0 {
        return;
      }
      l := l - 1;
      i := i - 1;
    }
  }

  method PrintVersion(numbers: seq<int>, delimiter: string, level: nat) returns (s: string)
    ensures s == Printed(numbers, delimiter, level)
  {
    hide Terminated, Join;
    s := "";
    var i := 0;
    var until := GetRealLevel(numbers);
    ghost var pieces := Numerals(Shown(numbers, level));
    assert Terminated(pieces[..0], delimiter) == "" by { NothingTerminated(delimiter); }
    while i < until
      invariant 0 <= i <= until && s == Terminated(pieces[..i], delimiter)
    {
      TerminatedNext(pieces, i, delimiter);
      assert Shown(numbers, level)[i] == numbers[i];
      s := s + (Decimal.PrintSigned(numbers[i]) + delimiter);
      i := i + 1;
    }
    while i < level
      invariant until <= i <= |pieces| && (i < level ==> |pieces| == level) && s == Terminated(pieces[..i], delimiter)
    {
      TerminatedNext(pieces, i, delimiter);
      assert Shown(numbers, level)[i] == 0;
      s := s + (Decimal.PrintSigned(0) + delimiter);
      i := i + 1;
    }
    assert pieces[..i] == pieces;
    CutNumerals(pieces, delimiter);
    if s != "" {
      s := s[..|s| - |delimiter|];
    }
  }

  lemma NothingTerminated(delimiter: string)
    ensures Terminated([], delimiter) == ""
  {
  }

  lemma CutNumerals(pieces: seq<string>, delimiter: string)
    requires forall i | 0 <= i < |pieces| :: pieces[i] != ""
    ensures var s := Terminated(pieces, delimiter);
            if s == "" then Join(pieces, delimiter) == ""
            else |delimiter| <= |s| && s[..|s| - |delimiter|] == Join(pieces, delimiter)
  {
    if pieces != [] {
      CutTerminated(pieces, delimiter);
    }
  }

  // ---------------------------------------------------------------- canonical form

  /** A delimiter that no printed number can be mistaken for. */
  predicate Separates(delimiter: string) {
    delimiter != "" && !Decimal.IsDigit(delimiter[0]) && delimiter[0] != '-'
  }

  /** Contains nothing but digits and signs. */
  predicate Plain(s: string) {
    forall i | 0 <= i < |s| :: Decimal.IsDigit(s[i]) || s[i] == '-'
  }

  /** What follows a piece: nothing, or the delimiter and more. */
  predicate Follows(u: string, delimiter: string) { u == "" || delimiter <= u }

  lemma PieceEndsFirst(x: string, y: string, u: string, v: string, delimiter: string)
    requires Separates(delimiter) && Plain(y) && Follows(u, delimiter)
    requires |x| < |y|
    ensures x + u != y + v
  {
    if u != "" {
      assert (x + u)[|x|] == u[0] == delimiter[0];
      assert (y + v)[|x|] == y[|x|];
    }
  }

  lemma PieceSplits(x: string, y: string, u: string, v: string, delimiter: string)
    requires Separates(delimiter) && Plain(x) && Plain(y) && Follows(u, delimiter) && Follows(v, delimiter)
    requires x + u == y + v
    ensures x == y && u == v
  {
    if |x| < |y| {
      PieceEndsFirst(x, y, u, v, delimiter);
    }
    if |y| < |x| {
      PieceEndsFirst(y, x, v, u, delimiter);
    }
    assert x == (x + u)[..|x|] && y == (y + v)[..|y|];
    assert u == (x + u)[|x|..] && v == (y + v)[|y|..];
  }

  /** What `Join` puts after the first piece. */
  function Tail(pieces: seq<string>, delimiter: string): string
    requires pieces != []
  {
    if |pieces| == 1 then "" else delimiter + Join(pieces[1..], delimiter)
  }

  lemma JoinSplits(pieces: seq<string>, delimiter: string)
    requires pieces != []
    ensures Join(pieces, delimiter) == pieces[0] + Tail(pieces, delimiter)
    ensures Follows(Tail(pieces, delimiter), delimiter)
  {
    if |pieces| == 1 {
      assert pieces[0] + "" == pieces[0];
    }
  }

  /** Nonempty plain pieces can be read off the joined text. */
  lemma {:induction false} JoinInjective(a: seq<string>, b: seq<string>, delimiter: string)
    requires Separates(delimiter) && Join(a, delimiter) == Join(b, delimiter)
    requires forall i | 0 <= i < |a| :: a[i] != "" && Plain(a[i])
    requires forall i | 0 <= i < |b| :: b[i] != "" && Plain(b[i])
    ensures a == b
    decreases |a|, 1
  {
    if a != [] {
      JoinSplits(a, delimiter);
    }
    if b != [] {
      JoinSplits(b, delimiter);
    }
    if a != [] && b != [] {
      PieceSplits(a[0], b[0], Tail(a, delimiter), Tail(b, delimiter), delimiter);
      TailInjective(a, b, delimiter);
    }
  }

  lemma {:induction false} TailInjective(a: seq<string>, b: seq<string>, delimiter: string)
    requires Separates(delimiter) && a != [] && b != [] && a[0] == b[0]
    requires Tail(a, delimiter) == Tail(b, delimiter)
    requires forall i | 0 <= i < |a| :: a[i] != "" && Plain(a[i])
    requires forall i | 0 <= i < |b| :: b[i] != "" && Plain(b[i])
    ensures a == b
    decreases |a|, 0
  {
    if |a| > 1 && |b| > 1 {
      assert Join(a[1..], delimiter) == Tail(a, delimiter)[|delimiter|..];
      assert Join(b[1..], delimiter) == Tail(b, delimiter)[|delimiter|..];
      JoinInjective(a[1..], b[1..], delimiter);
      assert a == [a[0]] + a[1..] && b == [b[0]] + b[1..];
    }
  }

  lemma NumeralsInjective(a: seq<int>, b: seq<int>)
    requires Numerals(a) == Numerals(b)
    ensures a == b
  {
    assert |a| == |Numerals(a)| == |b|;
    forall i | 0 <= i < |a| ensures a[i] == b[i] {
      assert Numerals(a)[i] == Numerals(b)[i];
      Decimal.PrintSignedInjective(a[i], b[i]);
    }
  }

  lemma {:induction false} RealLevelFacts(ns: seq<int>)
    ensures var l := RealLevel(ns);
            && (l > 0 ==> ns[l - 1] != 0)
            && (forall i: nat | l <= i :: DigitAt(ns, i) == 0)
  {
    if ns != [] && ns[|ns| - 1] == 0 {
      var init := ns[..|ns| - 1];
      RealLevelFacts(init);
      forall i: nat | RealLevel(ns) <= i ensures DigitAt(ns, i) == 0 {
        assert DigitAt(init, i) == 0;
      }
    }
  }

  lemma ShownDigits(ns: seq<int>, level: nat)
    ensures SameNumbers(Shown(ns, level), ns)
  {
    RealLevelFacts(ns);
    var l := RealLevel(ns);
    forall i: nat ensures DigitAt(Shown(ns, level), i) == DigitAt(ns, i) {
      assert i < l ==> DigitAt(ns[..l], i) == DigitAt(ns, i);
    }
  }

  lemma SameNumbersReachAsFar(a: seq<int>, b: seq<int>)
    requires SameNumbers(a, b)
    ensures RealLevel(a) >= RealLevel(b)
  {
    RealLevelFacts(a);
    RealLevelFacts(b);
    var l := RealLevel(b);
    if l > 0 {
      assert DigitAt(a, l - 1) == DigitAt(b, l - 1) == b[l - 1];
    }
  }

  /** Versions without extra, of any lengths, are equal exactly when they print the same at any one level. */
  lemma PrintingIsCanonical(a: Version, b: Version, delimiter: string, level: nat)
    requires a.extra == [] && b.extra == [] && Separates(delimiter)
    ensures TupleEqual(a, b) <==> Printed(a.numbers, delimiter, level) == Printed(b.numbers, delimiter, level)
  {
    ResizedEqualIsSameNumbers(a.numbers, b.numbers, MaxNat(a.Level(), b.Level()));
    var sa, sb := Shown(a.numbers, level), Shown(b.numbers, level);
    ShownDigits(a.numbers, level);
    ShownDigits(b.numbers, level);
    if TupleEqual(a, b) {
      SameNumbersReachAsFar(a.numbers, b.numbers);
      SameNumbersReachAsFar(b.numbers, a.numbers);
      assert |sa| == |sb|;
      forall i | 0 <= i < |sa| ensures sa[i] == sb[i] {
        assert sa[i] == DigitAt(sa, i) == DigitAt(a.numbers, i);
        assert sb[i] == DigitAt(sb, i) == DigitAt(b.numbers, i);
      }
      assert sa == sb;
    }
    if Printed(a.numbers, delimiter, level) == Printed(b.numbers, delimiter, level) {
      JoinInjective(Numerals(sa), Numerals(sb), delimiter);
      NumeralsInjective(sa, sb);
      forall i: nat ensures DigitAt(a.numbers, i) == DigitAt(b.numbers, i) {
        assert DigitAt(sa, i) == DigitAt(a.numbers, i);
        assert DigitAt(sb, i) == DigitAt(b.numbers, i);
      }
    }
  }

  // ---------------------------------------------------------------- what is printed

  /** The numbers that a version shows at `level`: at least that many, and beyond it up to the last that is not zero. */
  ghost predicate ShownAs(shown: seq<int>, numbers: seq<int>, level: nat) {
    && |shown| >= level
    && (forall i: nat :: DigitAt(shown, i) == DigitAt(numbers, i))
    && (|shown| > level ==> shown[|shown| - 1] != 0)
  }

  lemma ShownIsShownAs(shown: seq<int>, numbers: seq<int>, level: nat)
    ensures shown == Shown(numbers, level) <==> ShownAs(shown, numbers, level)
  {
    var all := Shown(numbers, level);
    ShownDigits(numbers, level);
    RealLevelFacts(numbers);
    assert |all| > level ==> all[|all| - 1] == DigitAt(numbers, |all| - 1);
    if ShownAs(shown, numbers, level) {
      ShownNoLonger(shown, all, numbers, level);
      ShownNoLonger(all, shown, numbers, level);
      forall i | 0 <= i < |all| ensures shown[i] == all[i] {
        assert shown[i] == DigitAt(shown, i) && all[i] == DigitAt(all, i);
      }
    }
  }

  lemma ShownNoLonger(a: seq<int>, b: seq<int>, numbers: seq<int>, level: nat)
    requires ShownAs(a, numbers, level) && ShownAs(b, numbers, level)
    ensures |a| <= |b|
  {
    var last := if a == [] then 0 else |a| - 1;
    assert DigitAt(a, last) == DigitAt(numbers, last) == DigitAt(b, last);
  }

  /** `s` is the numbers as shortest decimal numerals, in order, with the delimiter between them. */
  ghost predicate Writes(s: string, numbers: seq<int>, delimiter: string)
    decreases |numbers|, 1
  {
    if numbers == [] then s == ""
    else if |numbers| == 1 then Decimal.IsSignedNumeral(s, numbers[0])
    else exists k: nat :: WritesFirst(s, numbers, delimiter, k)
  }

  ghost predicate WritesFirst(s: string, numbers: seq<int>, delimiter: string, k: nat)
    requires |numbers| > 1
    decreases |numbers|, 0
  {
    && k + |delimiter| <= |s|
    && Decimal.IsSignedNumeral(s[..k], numbers[0]) && s[k..k + |delimiter|] == delimiter
    && Writes(s[k + |delimiter|..], numbers[1..], delimiter)
  }

  lemma {:induction false} JoinWrites(s: string, numbers: seq<int>, delimiter: string)
    ensures s == Join(Numerals(numbers), delimiter) <==> Writes(s, numbers, delimiter)
    decreases |numbers|
  {
    if |numbers| == 1 {
      Decimal.PrintSignedIsNumeral(s, numbers[0]);
    } else if |numbers| > 1 {
      hide Join, Decimal.PrintSigned, Decimal.IsSignedNumeral, Writes, WritesFirst;
      var rest := Join(Numerals(numbers[1..]), delimiter);
      JoinFirst(numbers, delimiter);
      JoinWrites(rest, numbers[1..], delimiter);
      JoinedWrites(numbers, delimiter, rest);
      if Writes(s, numbers, delimiter) {
        var k := WrittenFirst(s, numbers, delimiter);
        JoinWrites(s[k + |delimiter|..], numbers[1..], delimiter);
      }
    }
  }

  lemma JoinedWrites(numbers: seq<int>, delimiter: string, rest: string)
    requires |numbers| > 1 && Writes(rest, numbers[1..], delimiter)
    ensures Writes(Decimal.PrintSigned(numbers[0]) + (delimiter + rest), numbers, delimiter)
  {
    hide Decimal.PrintSigned, Decimal.IsSignedNumeral;
    var first := Decimal.PrintSigned(numbers[0]);
    Decimal.PrintSignedIsNumeral(first, numbers[0]);
    PartsOf(first, delimiter, rest);
    assert WritesFirst(first + (delimiter + rest), numbers, delimiter, |first|);
  }

  lemma WrittenFirst(s: string, numbers: seq<int>, delimiter: string) returns (k: nat)
    requires |numbers| > 1 && Writes(s, numbers, delimiter)
    ensures k + |delimiter| <= |s| && Writes(s[k + |delimiter|..], numbers[1..], delimiter)
    ensures s == Decimal.PrintSigned(numbers[0]) + (delimiter + s[k + |delimiter|..])
  {
    hide Decimal.PrintSigned, Decimal.IsSignedNumeral;
    k :| WritesFirst(s, numbers, delimiter, k);
    Decimal.PrintSignedIsNumeral(s[..k], numbers[0]);
    assert s == s[..k] + (s[k..k + |delimiter|] + s[k + |delimiter|..]);
  }

  lemma JoinFirst(numbers: seq<int>, delimiter: string)
    requires |numbers| > 1
    ensures Join(Numerals(numbers), delimiter)
         == Decimal.PrintSigned(numbers[0]) + (delimiter + Join(Numerals(numbers[1..]), delimiter))
  {
    assert Numerals(numbers)[1..] == Numerals(numbers[1..]);
  }

  lemma PartsOf(a: string, b: string, c: string)
    ensures var s := a + (b + c);
            s[..|a|] == a && s[|a|..|a| + |b|] == b && s[|a| + |b|..] == c
  {
  }

  /** The printed text is the shown numbers as shortest decimal numerals, in order, cut by the delimiters. */
  lemma PrintedIsShownInDecimal(s: string, numbers: seq<int>, delimiter: string, level: nat)
    ensures s == Printed(numbers, delimiter, level) <==>
            exists shown: seq<int> :: ShownAs(shown, numbers, level) && Writes(s, shown, delimiter)
  {
    var all := Shown(numbers, level);
    ShownIsShownAs(all, numbers, level);
    JoinWrites(s, all, delimiter);
    if shown: seq<int> :| ShownAs(shown, numbers, level) && Writes(s, shown, delimiter) {
      ShownIsShownAs(shown, numbers, level);
    }
  }
}
