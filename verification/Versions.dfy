/** Versions of `src/version1` and their order, in the two readings of the comparison of extras. */
module Versions {
  import opened Orders

  datatype ExtraItem = Word(word: string) | Number(number: int)

  /** A version is a branch when `branch` is nonempty, otherwise numbers with an optional pre-release part. */
  datatype Version = Version(numbers: seq<int>, extra: seq<ExtraItem>, branch: string) {
    predicate IsBranch() { branch != "" }
    function Level(): nat { |numbers| }
  }

  const MAX_NUMBER := 999_999_999
  const BASE := MAX_NUMBER + 1
  const MINIMUM_LEVEL := 3

  // ---------------------------------------------------------------- comparison, as written

  /** Items compare by kind first (words before numbers), then by content. */
  predicate ItemLess(a: ExtraItem, b: ExtraItem) {
    match (a, b)
    case (Word(x), Word(y)) => StringLess(x, y)
    case (Word(_), Number(_)) => true
    case (Number(_), Word(_)) => false
    case (Number(x), Number(y)) => x < y
  }

  /** `Extra::operator<`: a version without extra is greater than the same version with one. */
  predicate ExtraLess(a: seq<ExtraItem>, b: seq<ExtraItem>) {
    if a == [] && b == [] then false
    else if b == [] then true
    else if a == [] then false
    else LexLess(ItemLess, a, b)
  }

  /**
    * Since C++20, tuples compare element by element with `<=>` where an element has it, and with `<` otherwise.
    * The extras of `src/version1` inherit `<=>` from `std::vector`, so their own `operator<` is not called
    * (`Inherited`). Those of `src/version` have only the `operator<` they declare (`Declared`), and so had those of
    * `src/version1` before C++20.
    */
  datatype Reading = Inherited | Declared

  function CompareExtras(reading: Reading, a: seq<ExtraItem>, b: seq<ExtraItem>): int {
    match reading
    case Inherited => LexCompare(ItemLess, a, b)
    case Declared => Compare(ExtraLess, a, b)
  }

  /** `vector::resize`: cut, or extend with `fill`. */
  function Resize(ns: seq<int>, level: nat): (r: seq<int>)
    ensures |r| == level
    ensures forall i | 0 <= i < level :: r[i] == DigitAt(ns, i)
  {
    if level <= |ns| then ns[..level] else ns + seq(level - |ns|, _ => 0)
  }

  /** The number at position `i`, missing ones being zero. */
  function DigitAt(ns: seq<int>, i: nat): int {
    if i < |ns| then ns[i] else 0
  }

  function MaxNat(a: nat, b: nat): nat { if a < b then b else a }

  /** The tuple comparison of (numbers, extra) after resizing both to the longer level. */
  function CompareTuples(reading: Reading, v1: Version, v2: Version): int {
    var level := MaxNat(v1.Level(), v2.Level());
    var c := LexCompare(IntLess, Resize(v1.numbers, level), Resize(v2.numbers, level));
    if c != 0 then c else CompareExtras(reading, v1.extra, v2.extra)
  }

  predicate TupleEqual(v1: Version, v2: Version) {
    var level := MaxNat(v1.Level(), v2.Level());
    Resize(v1.numbers, level) == Resize(v2.numbers, level) && v1.extra == v2.extra
  }

  predicate LessBy(reading: Reading, v1: Version, v2: Version) {
    if v1.IsBranch() && v2.IsBranch() then StringLess(v1.branch, v2.branch)
    else if v1.IsBranch() || v2.IsBranch() then !StringLess(v1.branch, v2.branch)
    else CompareTuples(reading, v1, v2) < 0
  }

  predicate GreaterBy(reading: Reading, v1: Version, v2: Version) {
    if v1.IsBranch() && v2.IsBranch() then StringLess(v2.branch, v1.branch)
    else if v1.IsBranch() || v2.IsBranch() then !StringLess(v2.branch, v1.branch)
    else CompareTuples(reading, v1, v2) > 0
  }

  predicate LessEqBy(reading: Reading, v1: Version, v2: Version) {
    if v1.IsBranch() && v2.IsBranch() then !StringLess(v2.branch, v1.branch)
    else if v1.IsBranch() || v2.IsBranch() then StringLess(v2.branch, v1.branch)
    else CompareTuples(reading, v1, v2) <= 0
  }

  predicate GreaterEqBy(reading: Reading, v1: Version, v2: Version) {
    if v1.IsBranch() && v2.IsBranch() then !StringLess(v1.branch, v2.branch)
    else if v1.IsBranch() || v2.IsBranch() then StringLess(v1.branch, v2.branch)
    else CompareTuples(reading, v1, v2) >= 0
  }

  /** Equality is elementwise in both readings. */
  predicate Equal(v1: Version, v2: Version) {
    if v1.IsBranch() || v2.IsBranch() then v1.branch == v2.branch
    else TupleEqual(v1, v2)
  }

  // The operators of `src/version1` as this repository builds it, with C++23.

  predicate Less(v1: Version, v2: Version) { LessBy(Inherited, v1, v2) }

  predicate Greater(v1: Version, v2: Version) { GreaterBy(Inherited, v1, v2) }

  predicate LessEq(v1: Version, v2: Version) { LessEqBy(Inherited, v1, v2) }

  predicate GreaterEq(v1: Version, v2: Version) { GreaterEqBy(Inherited, v1, v2) }

  /** `std::min` and `std::max`: the first argument wins between equivalent ones. */
  function Min(a: Version, b: Version): Version { if Less(b, a) then b else a }

  function Max(a: Version, b: Version): Version { if Less(a, b) then b else a }

  // ---------------------------------------------------------------- comparison, what it means

  lemma ItemsStrictTotal()
    ensures StrictTotal(IntLess) && StrictTotal(ItemLess)
  {
    StringsStrictTotal();
  }

  /** The order of extras: the empty one is least when it is inherited, greatest when it is declared. */
  predicate ExtraBelow(reading: Reading, a: seq<ExtraItem>, b: seq<ExtraItem>) {
    match reading
    case Inherited => LexLess(ItemLess, a, b)
    case Declared => a != [] && (b == [] || LexLess(ItemLess, a, b))
  }

  lemma ExtrasStrictTotal(reading: Reading, a: seq<ExtraItem>, b: seq<ExtraItem>, c: seq<ExtraItem>)
    ensures !ExtraBelow(reading, a, a)
    ensures ExtraBelow(reading, a, b) || ExtraBelow(reading, b, a) || a == b
    ensures ExtraBelow(reading, a, b) && ExtraBelow(reading, b, c) ==> ExtraBelow(reading, a, c)
  {
    ItemsStrictTotal();
    LexIrreflexive(ItemLess, a);
    LexTrichotomous(ItemLess, a, b);
    if LexLess(ItemLess, a, b) && LexLess(ItemLess, b, c) {
      LexTransitive(ItemLess, a, b, c);
    }
  }

  lemma CompareExtrasIsBelow(reading: Reading, a: seq<ExtraItem>, b: seq<ExtraItem>)
    ensures CompareExtras(reading, a, b) < 0 <==> ExtraBelow(reading, a, b)
    ensures CompareExtras(reading, a, b) > 0 <==> ExtraBelow(reading, b, a)
  {
    ItemsStrictTotal();
    LexCompareIsLexLess(ItemLess, a, b);
    ExtrasStrictTotal(reading, a, b, a);
  }

  /** The zero-extended numbers first differ at `k`, and `a` is smaller there. */
  ghost predicate NumbersLessAt(a: seq<int>, b: seq<int>, k: nat) {
    && (forall i: nat | i < k :: DigitAt(a, i) == DigitAt(b, i))
    && DigitAt(a, k) < DigitAt(b, k)
  }

  ghost predicate NumbersLess(a: seq<int>, b: seq<int>) {
    exists k: nat :: NumbersLessAt(a, b, k)
  }

  ghost predicate SameNumbers(a: seq<int>, b: seq<int>) {
    forall i: nat :: DigitAt(a, i) == DigitAt(b, i)
  }

  /** The order the operators compute in a reading, with no resizing in it: branches by name below all numbers. */
  ghost predicate BelowBy(reading: Reading, a: Version, b: Version) {
    if a.IsBranch() then
      b.IsBranch() ==> StringLess(a.branch, b.branch)
    else
      && !b.IsBranch()
      && (NumbersLess(a.numbers, b.numbers) || (SameNumbers(a.numbers, b.numbers) && ExtraBelow(reading, a.extra, b.extra)))
  }

  lemma ResizedLessIsNumbersLess(a: seq<int>, b: seq<int>, level: nat)
    requires |a| <= level && |b| <= level
    ensures LexLess(IntLess, Resize(a, level), Resize(b, level)) <==> NumbersLess(a, b)
  {
    var n1, n2 := Resize(a, level), Resize(b, level);
    LexIsFirstDifference(IntLess, n1, n2);
    if k: nat :| FirstDifference(IntLess, n1, n2, k) {
      forall i: nat | i < k ensures DigitAt(a, i) == DigitAt(b, i) {
        assert n1[..k][i] == n2[..k][i];
      }
      assert NumbersLessAt(a, b, k);
    }
    if k: nat :| NumbersLessAt(a, b, k) {
      assert FirstDifference(IntLess, n1, n2, k);
    }
  }

  lemma ResizedEqualIsSameNumbers(a: seq<int>, b: seq<int>, level: nat)
    requires |a| <= level && |b| <= level
    ensures Resize(a, level) == Resize(b, level) <==> SameNumbers(a, b)
  {
    if Resize(a, level) == Resize(b, level) {
      forall i: nat ensures DigitAt(a, i) == DigitAt(b, i) {
        if i < level {
          assert Resize(a, level)[i] == Resize(b, level)[i];
        }
      }
    }
  }

  lemma NumbersTotalPreorder(a: seq<int>, b: seq<int>, c: seq<int>)
    ensures !NumbersLess(a, a)
    ensures NumbersLess(a, b) || NumbersLess(b, a) || SameNumbers(a, b)
    ensures NumbersLess(a, b) ==> !SameNumbers(a, b) && !NumbersLess(b, a)
    ensures NumbersLess(a, b) && NumbersLess(b, c) ==> NumbersLess(a, c)
    ensures NumbersLess(a, b) && SameNumbers(b, c) ==> NumbersLess(a, c)
    ensures SameNumbers(a, b) && NumbersLess(b, c) ==> NumbersLess(a, c)
  {
    if !SameNumbers(a, b) {
      var level := MaxNat(|a|, |b|);
      ResizedEqualIsSameNumbers(a, b, level);
      ResizedLessIsNumbersLess(a, b, level);
      ResizedLessIsNumbersLess(b, a, level);
      LexTrichotomous(IntLess, Resize(a, level), Resize(b, level));
    }
    if j: nat :| NumbersLessAt(a, b, j) {
      forall k: nat ensures !NumbersLessAt(b, a, k) {
        assert k < j ==> DigitAt(a, k) == DigitAt(b, k);
      }
    }
    if j: nat, k: nat :| NumbersLessAt(a, b, j) && NumbersLessAt(b, c, k) {
      assert NumbersLessAt(a, c, if j < k then j else k);
    }
    if j: nat :| NumbersLessAt(a, b, j) && SameNumbers(b, c) {
      assert NumbersLessAt(a, c, j);
    }
    if j: nat :| NumbersLessAt(b, c, j) && SameNumbers(a, b) {
      assert NumbersLessAt(a, c, j);
    }
  }

  /** In either reading, the operators of any two versions, of any lengths, agree with one order. */
  lemma OperatorsMeanBelowBy(reading: Reading, a: Version, b: Version)
    ensures LessBy(reading, a, b) <==> BelowBy(reading, a, b)
    ensures GreaterBy(reading, a, b) <==> BelowBy(reading, b, a)
    ensures LessEqBy(reading, a, b) <==> !BelowBy(reading, b, a)
    ensures GreaterEqBy(reading, a, b) <==> !BelowBy(reading, a, b)
    ensures Equal(a, b) <==> !BelowBy(reading, a, b) && !BelowBy(reading, b, a)
  {
    StringsStrictTotal();
    if !a.IsBranch() && !b.IsBranch() {
      hide LexCompare, CompareExtras, ExtraBelow, LexLess;
      var level := MaxNat(a.Level(), b.Level());
      ItemsStrictTotal();
      LexCompareIsLexLess(IntLess, Resize(a.numbers, level), Resize(b.numbers, level));
      ResizedLessIsNumbersLess(a.numbers, b.numbers, level);
      ResizedLessIsNumbersLess(b.numbers, a.numbers, level);
      ResizedEqualIsSameNumbers(a.numbers, b.numbers, level);
      NumbersTotalPreorder(a.numbers, b.numbers, a.numbers);
      CompareExtrasIsBelow(reading, a.extra, b.extra);
      ExtrasStrictTotal(reading, a.extra, b.extra, a.extra);
      ExtrasStrictTotal(reading, b.extra, a.extra, b.extra);
    }
  }

  /** In either reading, all operators together form one total preorder over versions of every length. */
  lemma ReadingIsTotalPreorder(reading: Reading, a: Version, b: Version, c: Version)
    ensures LessEqBy(reading, a, b) || LessEqBy(reading, b, a)
    ensures LessEqBy(reading, a, b) && LessEqBy(reading, b, c) ==> LessEqBy(reading, a, c)
    ensures LessBy(reading, a, b) && LessBy(reading, b, c) ==> LessBy(reading, a, c)
    ensures LessBy(reading, a, b) <==> !LessEqBy(reading, b, a)
    ensures Equal(a, b) <==> LessEqBy(reading, a, b) && LessEqBy(reading, b, a)
    ensures GreaterBy(reading, a, b) <==> LessBy(reading, b, a)
    ensures GreaterEqBy(reading, a, b) <==> LessEqBy(reading, b, a)
    ensures a.IsBranch() && !b.IsBranch() ==> LessBy(reading, a, b)
  {
    OperatorsMeanBelowBy(reading, a, b);
    OperatorsMeanBelowBy(reading, b, c);
    OperatorsMeanBelowBy(reading, a, c);
    OperatorsMeanBelowBy(reading, b, a);
    hide LessBy, LessEqBy, GreaterBy, GreaterEqBy, Equal;
    BelowTransitive(reading, a, b, c);
    BelowTransitive(reading, b, c, a);
    BelowTransitive(reading, c, a, b);
    BelowTransitive(reading, c, b, a);
    BelowAsymmetric(reading, a, b);
  }

  lemma BelowAsymmetric(reading: Reading, a: Version, b: Version)
    ensures !(BelowBy(reading, a, b) && BelowBy(reading, b, a))
  {
    StringsStrictTotal();
    NumbersTotalPreorder(a.numbers, b.numbers, a.numbers);
    ExtrasStrictTotal(reading, a.extra, b.extra, a.extra);
  }

  /** The order is transitive, and so is its negation. */
  lemma BelowTransitive(reading: Reading, a: Version, b: Version, c: Version)
    ensures BelowBy(reading, a, b) && BelowBy(reading, b, c) ==> BelowBy(reading, a, c)
    ensures BelowBy(reading, a, c) ==> BelowBy(reading, a, b) || BelowBy(reading, b, c)
  {
    hide ExtraBelow;
    StringsStrictTotal();
    NumbersTotalPreorder(a.numbers, b.numbers, c.numbers);
    NumbersTotalPreorder(a.numbers, c.numbers, b.numbers);
    NumbersTotalPreorder(b.numbers, a.numbers, c.numbers);
    NumbersTotalPreorder(b.numbers, c.numbers, a.numbers);
    NumbersTotalPreorder(c.numbers, b.numbers, a.numbers);
    ExtrasStrictTotal(reading, a.extra, b.extra, c.extra);
    ExtrasStrictTotal(reading, a.extra, c.extra, b.extra);
    ExtrasStrictTotal(reading, b.extra, a.extra, c.extra);
    ExtrasStrictTotal(reading, b.extra, c.extra, a.extra);
  }

  // ---------------------------------------------------------------- pre-releases and branches, item by item

  /** What the order of two different items is meant to be. */
  ghost predicate ItemBefore(x: ExtraItem, y: ExtraItem) {
    match x
    case Number(m) => y.Number? && m < y.number
    case Word(w) => y.Number? || Alphabetical(w, y.word)
  }

  /**
    * Pre-releases of the same numbers, in either reading: where their extras first differ, numbers compare by value,
    * words alphabetically, and words come before numbers; an extra that is the start of another comes before it, except
    that with the declared order the empty one comes after all.
    */
  lemma FirstDifferentItemDecides(reading: Reading, a: Version, b: Version, k: nat)
    requires !a.IsBranch() && !b.IsBranch() && SameNumbers(a.numbers, b.numbers)
    requires k <= |a.extra| && k <= |b.extra| && a.extra[..k] == b.extra[..k]
    ensures k < |a.extra| && k < |b.extra| && a.extra[k] != b.extra[k] ==>
              (LessBy(reading, a, b) <==> ItemBefore(a.extra[k], b.extra[k]))
    ensures k == |a.extra| < |b.extra| ==> (LessBy(reading, a, b) <==> k > 0 || reading == Inherited)
  {
    OperatorsMeanBelowBy(reading, a, b);
    NumbersTotalPreorder(a.numbers, b.numbers, a.numbers);
    ItemsStrictTotal();
    LexAfterSame(ItemLess, a.extra, b.extra, k);
    if k < |a.extra| && k < |b.extra| && a.extra[k] != b.extra[k] {
      assert a.extra[k..][0] == a.extra[k] && b.extra[k..][0] == b.extra[k];
      if a.extra[k].Word? && b.extra[k].Word? {
        StringLessIsAlphabetical(a.extra[k].word, b.extra[k].word);
      }
    }
  }

  /** Of two branches, the one whose name comes first alphabetically is less, in either reading. */
  lemma BranchesAreAlphabetical(reading: Reading, a: Version, b: Version)
    requires a.IsBranch() && b.IsBranch()
    ensures LessBy(reading, a, b) <==> Alphabetical(a.branch, b.branch)
  {
    StringLessIsAlphabetical(a.branch, b.branch);
  }

  // ---------------------------------------------------------------- the operators as built

  ghost predicate Below(a: Version, b: Version) { BelowBy(Inherited, a, b) }

  lemma OperatorsMeanBelow(a: Version, b: Version)
    ensures Less(a, b) <==> Below(a, b)
    ensures Greater(a, b) <==> Below(b, a)
    ensures LessEq(a, b) <==> !Below(b, a)
    ensures GreaterEq(a, b) <==> !Below(a, b)
    ensures Equal(a, b) <==> !Below(a, b) && !Below(b, a)
  {
    OperatorsMeanBelowBy(Inherited, a, b);
  }

  lemma OrderIsTotalPreorder(a: Version, b: Version, c: Version)
    ensures LessEq(a, b) || LessEq(b, a)
    ensures LessEq(a, b) && LessEq(b, c) ==> LessEq(a, c)
    ensures Less(a, b) && Less(b, c) ==> Less(a, c)
    ensures Less(a, b) <==> !LessEq(b, a)
    ensures Equal(a, b) <==> LessEq(a, b) && LessEq(b, a)
    ensures Greater(a, b) <==> Less(b, a)
    ensures GreaterEq(a, b) <==> LessEq(b, a)
    ensures a.IsBranch() && !b.IsBranch() ==> Less(a, b)
  {
    ReadingIsTotalPreorder(Inherited, a, b, c);
  }

  // ---------------------------------------------------------------- where the readings differ

  /** All operators give the same in both readings. */
  predicate ReadingsAgree(a: Version, b: Version) {
    && (LessBy(Inherited, a, b) <==> LessBy(Declared, a, b))
    && (GreaterBy(Inherited, a, b) <==> GreaterBy(Declared, a, b))
    && (LessEqBy(Inherited, a, b) <==> LessEqBy(Declared, a, b))
    && (GreaterEqBy(Inherited, a, b) <==> GreaterEqBy(Declared, a, b))
  }

  /** They do unless a release meets a pre-release of the same numbers. */
  lemma ReadingsAgreeExactlyWhen(a: Version, b: Version)
    ensures ReadingsAgree(a, b) <==>
            a.IsBranch() || b.IsBranch() || !SameNumbers(a.numbers, b.numbers) || (a.extra == [] <==> b.extra == [])
  {
    hide LessBy, LessEqBy, GreaterBy, GreaterEqBy, Equal;
    OperatorsMeanBelowBy(Inherited, a, b);
    OperatorsMeanBelowBy(Declared, a, b);
    NumbersTotalPreorder(a.numbers, b.numbers, a.numbers);
    NumbersTotalPreorder(b.numbers, a.numbers, b.numbers);
  }

  /** As built, 1.2.3 is less than 1.2.3-rc1; with the declared order it is the other way round. */
  lemma ReleaseIsBelowItsPreRelease()
    ensures var release, candidate := Version([1, 2, 3], [], ""), Version([1, 2, 3], [Word("rc1")], "");
            && Less(release, candidate) && !Less(candidate, release)
            && LessBy(Declared, candidate, release) && !LessBy(Declared, release, candidate)
  {
    var release, candidate := Version([1, 2, 3], [], ""), Version([1, 2, 3], [Word("rc1")], "");
    forall reading: Reading ensures (LessBy(reading, release, candidate) <==> reading == Inherited)
                                 && (LessBy(reading, candidate, release) <==> reading == Declared)
    {
      OperatorsMeanBelowBy(reading, release, candidate);
      OperatorsMeanBelowBy(reading, candidate, release);
      NumbersTotalPreorder(release.numbers, candidate.numbers, release.numbers);
    }
  }
}
