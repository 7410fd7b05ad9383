/** Lexicographic comparison of sequences, as `std::lexicographical_compare` does it. */
module Orders {

  /** A strict total order: the element comparisons all satisfy this. */
  ghost predicate StrictTotal<T(!new)>(less: (T, T) -> bool) {
    && (forall x :: !less(x, x))
    && (forall x, y :: less(x, y) || less(y, x) || x == y)
    && (forall x, y, z :: less(x, y) && less(y, z) ==> less(x, z))
  }

  predicate LexLess<T>(less: (T, T) -> bool, a: seq<T>, b: seq<T>) {
    b != [] &&
    (a == [] || less(a[0], b[0]) || (!less(b[0], a[0]) && LexLess(less, a[1..], b[1..])))
  }

  lemma {:induction false} LexIrreflexive<T(!new)>(less: (T, T) -> bool, a: seq<T>)
    requires StrictTotal(less)
    ensures !LexLess(less, a, a)
  {
    if a != [] {
      LexIrreflexive(less, a[1..]);
    }
  }

  lemma {:induction false} LexTrichotomous<T(!new)>(less: (T, T) -> bool, a: seq<T>, b: seq<T>)
    requires StrictTotal(less)
    ensures LexLess(less, a, b) || LexLess(less, b, a) || a == b
  {
    if a != [] && b != [] && a[0] == b[0] {
      LexTrichotomous(less, a[1..], b[1..]);
      assert a == [a[0]] + a[1..] && b == [b[0]] + b[1..];
    }
  }

  lemma {:induction false} LexTransitive<T(!new)>(less: (T, T) -> bool, a: seq<T>, b: seq<T>, c: seq<T>)
    requires StrictTotal(less)
    requires LexLess(less, a, b) && LexLess(less, b, c)
    ensures LexLess(less, a, c)
  {
    if a != [] && !less(a[0], c[0]) {
      assert a[0] == b[0] == c[0];
      LexTransitive(less, a[1..], b[1..], c[1..]);
    }
  }

  /** Where two equally long sequences first differ decides. */
  ghost predicate FirstDifference<T>(less: (T, T) -> bool, a: seq<T>, b: seq<T>, k: nat) {
    && k < |a| && k < |b|
    && a[..k] == b[..k]
    && less(a[k], b[k])
  }

  lemma {:induction false} LexIsFirstDifference<T(!new)>(less: (T, T) -> bool, a: seq<T>, b: seq<T>)
    requires StrictTotal(less) && |a| == |b|
    ensures LexLess(less, a, b) <==> exists k: nat :: FirstDifference(less, a, b, k)
  {
    if a != [] {
      LexIsFirstDifference(less, a[1..], b[1..]);
      if LexLess(less, a, b) {
        if less(a[0], b[0]) {
          assert FirstDifference(less, a, b, 0);
        } else {
          var k: nat :| FirstDifference(less, a[1..], b[1..], k);
          assert a[..k + 1] == [a[0]] + a[1..][..k] && b[..k + 1] == [b[0]] + b[1..][..k];
          assert FirstDifference(less, a, b, k + 1);
        }
      }
      if k: nat :| FirstDifference(less, a, b, k) {
        if k > 0 {
          assert a[0] == a[..k][0] == b[..k][0] == b[0];
          assert a[1..][..k - 1] == a[..k][1..] && b[1..][..k - 1] == b[..k][1..];
          assert FirstDifference(less, a[1..], b[1..], k - 1);
        }
      }
    }
  }

  /** Position `k` decides: everything before is the same, and there `a` ends or has the smaller element. */
  ghost predicate DecidesAt<T>(less: (T, T) -> bool, a: seq<T>, b: seq<T>, k: nat) {
    && k <= |a| && k < |b|
    && a[..k] == b[..k]
    && (k == |a| || less(a[k], b[k]))
  }

  /** Sequences of any lengths are compared at the first position where they differ or one of them ends. */
  lemma {:induction false} LexIsDecidedAt<T(!new)>(less: (T, T) -> bool, a: seq<T>, b: seq<T>)
    requires StrictTotal(less)
    ensures LexLess(less, a, b) <==> exists k: nat :: DecidesAt(less, a, b, k)
  {
    if a == [] {
      if b != [] {
        assert DecidesAt(less, a, b, 0);
      }
    } else if b != [] {
      LexIsDecidedAt(less, a[1..], b[1..]);
      if less(a[0], b[0]) {
        assert DecidesAt(less, a, b, 0);
      } else if k: nat :| DecidesAt(less, a[1..], b[1..], k) && a[0] == b[0] {
        assert a[..k + 1] == [a[0]] + a[1..][..k] && b[..k + 1] == [b[0]] + b[1..][..k];
        assert DecidesAt(less, a, b, k + 1);
      }
      if k: nat :| DecidesAt(less, a, b, k) && k > 0 {
        assert a[0] == a[..k][0] == b[..k][0] == b[0];
        assert a[1..][..k - 1] == a[..k][1..] && b[1..][..k - 1] == b[..k][1..];
        assert DecidesAt(less, a[1..], b[1..], k - 1);
      }
    }
  }

  /** After a common start, the rests decide. */
  lemma {:induction false} LexAfterSame<T(!new)>(less: (T, T) -> bool, a: seq<T>, b: seq<T>, k: nat)
    requires StrictTotal(less) && k <= |a| && k <= |b| && a[..k] == b[..k]
    ensures LexLess(less, a, b) <==> LexLess(less, a[k..], b[k..])
  {
    if k > 0 {
      assert a[0] == a[..k][0] == b[..k][0] == b[0];
      assert a[1..][..k - 1] == a[..k][1..] && b[1..][..k - 1] == b[..k][1..];
      LexAfterSame(less, a[1..], b[1..], k - 1);
      assert a[1..][k - 1..] == a[k..] && b[1..][k - 1..] == b[k..];
    } else {
      assert a[0..] == a && b[0..] == b;
    }
  }

  /** Equally long sequences may also be compared without their last elements first. */
  lemma {:induction false} LexByInit<T(!new)>(less: (T, T) -> bool, a: seq<T>, b: seq<T>)
    requires StrictTotal(less) && |a| == |b| > 0
    ensures var n := |a| - 1;
            LexLess(less, a, b) <==> LexLess(less, a[..n], b[..n]) || (a[..n] == b[..n] && less(a[n], b[n]))
  {
    var n := |a| - 1;
    if n > 0 {
      LexByInit(less, a[1..], b[1..]);
      assert a[..n][1..] == a[1..][..n - 1] && b[..n][1..] == b[1..][..n - 1];
      assert a[..n] == [a[0]] + a[1..][..n - 1] && b[..n] == [b[0]] + b[1..][..n - 1];
    }
  }

  // ---------------------------------------------------------------- three-way comparison

  /** `synth-three-way`: negative, zero or positive. */
  function Compare<T>(less: (T, T) -> bool, a: T, b: T): int {
    if less(a, b) then -1 else if less(b, a) then 1 else 0
  }

  /** The three-way comparison of two vectors: the first elements that differ decide, then the lengths. */
  function LexCompare<T>(less: (T, T) -> bool, a: seq<T>, b: seq<T>): int {
    if a == [] then (if b == [] then 0 else -1)
    else if b == [] then 1
    else
      var c := Compare(less, a[0], b[0]);
      if c != 0 then c else LexCompare(less, a[1..], b[1..])
  }

  /** Its sign is that of the lexicographic order. */
  lemma {:induction false} LexCompareIsLexLess<T(!new)>(less: (T, T) -> bool, a: seq<T>, b: seq<T>)
    requires StrictTotal(less)
    ensures LexCompare(less, a, b) < 0 <==> LexLess(less, a, b)
    ensures LexCompare(less, a, b) > 0 <==> LexLess(less, b, a)
    ensures LexCompare(less, a, b) == 0 <==> a == b
  {
    if a != [] && b != [] {
      LexCompareIsLexLess(less, a[1..], b[1..]);
      assert a == [a[0]] + a[1..] && b == [b[0]] + b[1..];
    }
  }

  // ---------------------------------------------------------------- element orders

  predicate CharLess(a: char, b: char) { a < b }

  predicate IntLess(a: int, b: int) { a < b }

  predicate StringLess(a: string, b: string) { LexLess(CharLess, a, b) }

  lemma StringsStrictTotal()
    ensures StrictTotal(CharLess) && StrictTotal(StringLess)
  {
    forall a: string ensures !StringLess(a, a) {
      LexIrreflexive(CharLess, a);
    }
    forall a: string, b: string ensures StringLess(a, b) || StringLess(b, a) || a == b {
      LexTrichotomous(CharLess, a, b);
    }
    forall a: string, b: string, c: string | StringLess(a, b) && StringLess(b, c) ensures StringLess(a, c) {
      LexTransitive(CharLess, a, b, c);
    }
  }

  /** Alphabetically: at the first difference the smaller character, or the end of `a`, comes first. */
  ghost predicate Alphabetical(a: string, b: string) {
    exists k: nat :: AlphabeticalAt(a, b, k)
  }

  ghost predicate AlphabeticalAt(a: string, b: string, k: nat) {
    k <= |a| && k < |b| && a[..k] == b[..k] && (k == |a| || a[k] < b[k])
  }

  lemma StringLessIsAlphabetical(a: string, b: string)
    ensures StringLess(a, b) <==> Alphabetical(a, b)
  {
    StringsStrictTotal();
    LexIsDecidedAt(CharLess, a, b);
    if k: nat :| DecidesAt(CharLess, a, b, k) {
      assert AlphabeticalAt(a, b, k);
    }
    if k: nat :| AlphabeticalAt(a, b, k) {
      assert DecidesAt(CharLess, a, b, k);
    }
  }
}
