/** Successor and predecessor of a version: carry and borrow in base `BASE`. */
module VersionSteps {
  import opened Orders
  import opened Versions

  // ---------------------------------------------------------------- the ends of a level

  /** `checkAndNormalizeLevel`, for a level that is not rejected. */
  function NormalLevel(level: nat): nat { MaxNat(level, MINIMUM_LEVEL) }

  function MinVersion(level: nat): Version {
    Version(seq(NormalLevel(level) - 1, _ => 0) + [1], [], "")
  }

  function MaxVersion(level: nat): Version {
    Version(seq(NormalLevel(level), _ => MAX_NUMBER), [], "")
  }

  // ---------------------------------------------------------------- stepping, as a function

  /** The carry stops inside the first `l` numbers (missing ones being zero). */
  predicate CarryStops(ns: seq<int>, l: nat) {
    exists i | 0 <= i < l :: DigitAt(ns, i) != MAX_NUMBER
  }

  predicate BorrowStops(ns: seq<int>, l: nat) {
    exists i | 0 <= i < l :: DigitAt(ns, i) != 0
  }

  /** How a step ends: `Throws` at an exception, `Leaves` when its pointer leaves `numbers`, which is undefined. */
  datatype Effect = Fine | Throws | Leaves

  predicate CanIncrement(v: Version, l: nat) {
    v.Level() > 0 && (Equal(v, MaxVersion(v.Level())) || CarryStops(v.numbers, l))
  }

  predicate CanDecrement(v: Version, l: nat) {
    v.Level() > 0 && (Equal(v, MinVersion(v.Level())) || BorrowStops(v.numbers, l))
  }

  function IncrementEffect(v: Version, l: nat): Effect {
    if v.Level() == 0 then Throws else if CanIncrement(v, l) then Fine else Leaves
  }

  function DecrementEffect(v: Version, l: nat): Effect {
    if v.Level() == 0 then Throws else if CanDecrement(v, l) then Fine else Leaves
  }

  function CarryFrom(ns: seq<int>, k: nat): (r: seq<int>)
    requires k < |ns| && CarryStops(ns, k + 1)
    ensures |r| == |ns|
    decreases k
  {
    if ns[k] == MAX_NUMBER then
      assert ns[k] == DigitAt(ns, k);
      assert CarryStops(ns[k := 0], k) by { CarryMovesOn(ns, k); }
      CarryFrom(ns[k := 0], k - 1)
    else
      ns[k := ns[k] + 1]
  }

  lemma CarryMovesOn(ns: seq<int>, k: nat)
    requires k < |ns| && ns[k] == MAX_NUMBER
    ensures CarryStops(ns[k := 0], k) <==> CarryStops(ns, k + 1)
  {
    var moved := ns[k := 0];
    if i :| 0 <= i < k + 1 && DigitAt(ns, i) != MAX_NUMBER {
      assert DigitAt(moved, i) != MAX_NUMBER;
    }
    if i :| 0 <= i < k && DigitAt(moved, i) != MAX_NUMBER {
      assert DigitAt(ns, i) != MAX_NUMBER;
    }
  }

  function BorrowFrom(ns: seq<int>, k: nat): (r: seq<int>)
    requires k < |ns| && BorrowStops(ns, k + 1)
    ensures |r| == |ns|
    decreases k
  {
    if ns[k] == 0 then
      assert ns[k] == DigitAt(ns, k);
      assert BorrowStops(ns[k := MAX_NUMBER], k) by { BorrowMovesOn(ns, k); }
      BorrowFrom(ns[k := MAX_NUMBER], k - 1)
    else
      ns[k := ns[k] - 1]
  }

  lemma BorrowMovesOn(ns: seq<int>, k: nat)
    requires k < |ns| && ns[k] == 0
    ensures BorrowStops(ns[k := MAX_NUMBER], k) <==> BorrowStops(ns, k + 1)
  {
    var moved := ns[k := MAX_NUMBER];
    if i :| 0 <= i < k + 1 && DigitAt(ns, i) != 0 {
      assert DigitAt(moved, i) != 0;
    }
    if i :| 0 <= i < k && DigitAt(moved, i) != 0 {
      assert DigitAt(ns, i) != 0;
    }
  }

  /** `setLevel(l)` when `l` is above the version's level. */
  function Raised(ns: seq<int>, l: nat): (r: seq<int>)
    ensures |r| == MaxNat(|ns|, l)
    ensures forall i: nat :: DigitAt(r, i) == DigitAt(ns, i)
  {
    if l > |ns| then Resize(ns, l) else ns
  }

  lemma RaisedStops(ns: seq<int>, l: nat)
    ensures CarryStops(ns, l) <==> CarryStops(Raised(ns, l), l)
    ensures BorrowStops(ns, l) <==> BorrowStops(Raised(ns, l), l)
    ensures CarryStops(ns, l) || BorrowStops(ns, l) ==> l > 0
  {
    assert forall i: nat :: DigitAt(Raised(ns, l), i) == DigitAt(ns, i);
  }

  function Incremented(v: Version, l: nat): Version
    requires CanIncrement(v, l)
  {
    if Equal(v, MaxVersion(v.Level())) then v
    else
      RaisedStops(v.numbers, l);
      v.(numbers := CarryFrom(Raised(v.numbers, l), l - 1))
  }

  function Decremented(v: Version, l: nat): Version
    requires CanDecrement(v, l)
  {
    if Equal(v, MinVersion(v.Level())) then v
    else
      RaisedStops(v.numbers, l);
      v.(numbers := BorrowFrom(Raised(v.numbers, l), l - 1))
  }

  /** `++v`, and the value `getNextVersion()` returns. */
  function Successor(v: Version): Version
    requires CanIncrement(v, v.Level())
  {
    Incremented(v, v.Level())
  }

  function Predecessor(v: Version): Version
    requires CanDecrement(v, v.Level())
  {
    Decremented(v, v.Level())
  }

  // ---------------------------------------------------------------- stepping, as the source does it

  /** A version object whose `numbers` are updated in place. */
  class VersionVariable {
    var numbers: seq<int>
    const extra: seq<ExtraItem>
    const branch: string

    constructor (v: Version)
      ensures Value() == v
    {
      numbers, extra, branch := v.numbers, v.extra, v.branch;
    }

    function Value(): Version
      reads this
    {
      Version(numbers, extra, branch)
    }

    /** The pointer walks down from position `l - 1`; it leaves the array exactly when `CanIncrement` fails. */
    method IncrementVersion(l: nat) returns (effect: Effect)
      modifies this
      ensures effect == IncrementEffect(old(Value()), l)
      ensures effect.Fine? ==> Value() == Incremented(old(Value()), l)
      ensures effect.Throws? ==> Value() == old(Value())
    {
      if |numbers| == 0 {
        return Throws; // there are no bounds for this level
      }
      if Equal(Value(), MaxVersion(|numbers|)) {
        return Fine;
      }
      hide Equal, MaxVersion, MinVersion, InRange;
      RaisedStops(numbers, l);
      if l > |numbers| {
        numbers := Resize(numbers, l);
      }
      ghost var raised := numbers;
      var current := l - 1;
      while true
        invariant -1 <= current < |numbers|
        invariant CarryStops(numbers, current + 1) <==> CarryStops(raised, l)
        invariant CarryStops(raised, l) ==> CarryFrom(numbers, current) == CarryFrom(raised, l - 1)
        decreases current
      {
        if current < 0 {
          return Leaves;
        }
        if numbers[current] != MAX_NUMBER {
          break;
        }
        CarryMovesOn(numbers, current);
        numbers := numbers[current := 0];
        current := current - 1;
      }
      assert DigitAt(numbers, current) != MAX_NUMBER;
      numbers := numbers[current := numbers[current] + 1];
      return Fine;
    }

    /** The pointer walks down from position `l - 1`; it leaves the array exactly when `CanDecrement` fails. */
    method DecrementVersion(l: nat) returns (effect: Effect)
      modifies this
      ensures effect == DecrementEffect(old(Value()), l)
      ensures effect.Fine? ==> Value() == Decremented(old(Value()), l)
      ensures effect.Throws? ==> Value() == old(Value())
    {
      if |numbers| == 0 {
        return Throws; // there are no bounds for this level
      }
      if Equal(Value(), MinVersion(|numbers|)) {
        return Fine;
      }
      hide Equal, MaxVersion, MinVersion, InRange;
      RaisedStops(numbers, l);
      if l > |numbers| {
        numbers := Resize(numbers, l);
      }
      ghost var raised := numbers;
      var current := l - 1;
      while true
        invariant -1 <= current < |numbers|
        invariant BorrowStops(numbers, current + 1) <==> BorrowStops(raised, l)
        invariant BorrowStops(raised, l) ==> BorrowFrom(numbers, current) == BorrowFrom(raised, l - 1)
        decreases current
      {
        if current < 0 {
          return Leaves;
        }
        if numbers[current] != 0 {
          break;
        }
        BorrowMovesOn(numbers, current);
        numbers := numbers[current := MAX_NUMBER];
        current := current - 1;
      }
      assert DigitAt(numbers, current) != 0;
      numbers := numbers[current := numbers[current] - 1];
      return Fine;
    }
  }

  // ---------------------------------------------------------------- numbers in base BASE

  predicate InRange(ns: seq<int>) {
    forall i | 0 <= i < |ns| :: 0 <= ns[i] <= MAX_NUMBER
  }

  /** The numbers read as one natural number in base `BASE`, most significant first. */
  function Rank(ns: seq<int>): int {
    if ns == [] then 0 else Rank(ns[..|ns| - 1]) * BASE + ns[|ns| - 1]
  }

  /** What one unit at a position with `m` positions after it is worth. */
  function Weight(m: nat): (w: nat)
    ensures w > 0
  {
    if m == 0 then 1 else Weight(m - 1) * BASE
  }

  lemma {:induction false} RankBounds(ns: seq<int>)
    requires InRange(ns)
    ensures 0 <= Rank(ns) < Weight(|ns|)
  {
    if ns != [] {
      RankBounds(ns[..|ns| - 1]);
    }
  }

  lemma {:induction false} RankUpdate(ns: seq<int>, k: nat, x: int)
    requires k < |ns|
    ensures Rank(ns[k := x]) == Rank(ns) + (x - ns[k]) * Weight(|ns| - 1 - k)
  {
    var n := |ns| - 1;
    if k == n {
      assert ns[k := x][..n] == ns[..n];
    } else {
      RankUpdate(ns[..n], k, x);
      assert ns[k := x][..n] == ns[..n][k := x];
      var d, w := x - ns[k], Weight(n - 1 - k);
      assert d * w * BASE == d * (w * BASE);
    }
  }

  /** Carrying adds one unit at position `k`; borrowing takes one away. */
  lemma {:induction false} CarryAddsUnit(ns: seq<int>, k: nat)
    requires k < |ns| && CarryStops(ns, k + 1) && InRange(ns)
    ensures InRange(CarryFrom(ns, k))
    ensures Rank(CarryFrom(ns, k)) == Rank(ns) + Weight(|ns| - 1 - k)
    decreases k
  {
    hide Rank;
    if ns[k] == MAX_NUMBER {
      RankUpdate(ns, k, 0);
      CarryMovesOn(ns, k);
      CarryAddsUnit(ns[k := 0], k - 1);
    } else {
      RankUpdate(ns, k, ns[k] + 1);
    }
  }

  lemma {:induction false} BorrowTakesUnit(ns: seq<int>, k: nat)
    requires k < |ns| && BorrowStops(ns, k + 1) && InRange(ns)
    ensures InRange(BorrowFrom(ns, k))
    ensures Rank(BorrowFrom(ns, k)) == Rank(ns) - Weight(|ns| - 1 - k)
    decreases k
  {
    hide Rank;
    if ns[k] == 0 {
      RankUpdate(ns, k, MAX_NUMBER);
      BorrowMovesOn(ns, k);
      BorrowTakesUnit(ns[k := MAX_NUMBER], k - 1);
    } else {
      RankUpdate(ns, k, ns[k] - 1);
    }
  }

  lemma LeadingRankDecides(p: int, q: int, x: int, y: int)
    requires 0 <= x <= MAX_NUMBER && 0 <= y <= MAX_NUMBER
    ensures p * BASE + x < q * BASE + y <==> p < q || (p == q && x < y)
    ensures p * BASE + x == q * BASE + y <==> p == q && x == y
  {
  }

  /** At equal length, the lexicographic order is the order of the ranks. */
  lemma {:induction false} RankOrder(a: seq<int>, b: seq<int>)
    requires |a| == |b| && InRange(a) && InRange(b)
    ensures LexLess(IntLess, a, b) <==> Rank(a) < Rank(b)
    ensures a == b <==> Rank(a) == Rank(b)
  {
    if a != [] {
      hide LexLess, InRange, Rank;
      var n := |a| - 1;
      RankLast(a);
      RankLast(b);
      RankOrder(a[..n], b[..n]);
      LastDecides(a, b);
      LeadingRankDecides(Rank(a[..n]), Rank(b[..n]), a[n], b[n]);
    }
  }

  lemma LastDecides(a: seq<int>, b: seq<int>)
    requires |a| == |b| > 0
    ensures var n := |a| - 1;
            && (LexLess(IntLess, a, b) <==> LexLess(IntLess, a[..n], b[..n]) || (a[..n] == b[..n] && a[n] < b[n]))
            && (a == b <==> a[..n] == b[..n] && a[n] == b[n])
  {
    hide LexLess, StrictTotal;
    ItemsStrictTotal();
    LexByInit(IntLess, a, b);
    var n := |a| - 1;
    assert a == a[..n] + [a[n]] && b == b[..n] + [b[n]];
  }

  lemma RankLast(ns: seq<int>)
    requires InRange(ns) && ns != []
    ensures var n := |ns| - 1;
            InRange(ns[..n]) && 0 <= ns[n] <= MAX_NUMBER && Rank(ns) == Rank(ns[..n]) * BASE + ns[n]
  {
  }

  // ---------------------------------------------------------------- releases of one level

  /** A release with at most `level` numbers, all of them legal. */
  predicate ReleaseUpTo(v: Version, level: nat) {
    !v.IsBranch() && v.extra == [] && v.Level() <= level && InRange(v.numbers)
  }

  /** A release of exactly this level, which is at least the minimum level. */
  predicate ReleaseAt(v: Version, level: nat) {
    MINIMUM_LEVEL <= level && v.Level() == level && ReleaseUpTo(v, level)
  }

  /** The place of a release among all releases of `level`. */
  function Place(v: Version, level: nat): int {
    Rank(Resize(v.numbers, level))
  }

  lemma ResizeSame(ns: seq<int>)
    ensures Resize(ns, |ns|) == ns
  {
  }

  /** Releases of up to `level` numbers are ordered like their places, which are integers. */
  lemma PlaceOrder(a: Version, b: Version, level: nat)
    requires ReleaseUpTo(a, level) && ReleaseUpTo(b, level)
    ensures Less(a, b) <==> Place(a, level) < Place(b, level)
    ensures LessEq(a, b) <==> Place(a, level) <= Place(b, level)
    ensures Equal(a, b) <==> Place(a, level) == Place(b, level)
    ensures a.Level() == b.Level() && Equal(a, b) ==> a == b
    ensures 0 <= Place(a, level) < Weight(level)
  {
    OperatorsMeanBelow(a, b);
    ExtrasStrictTotal(Inherited, [], [], []);
    var na, nb := Resize(a.numbers, level), Resize(b.numbers, level);
    ResizedLessIsNumbersLess(a.numbers, b.numbers, level);
    ResizedLessIsNumbersLess(b.numbers, a.numbers, level);
    ResizedEqualIsSameNumbers(a.numbers, b.numbers, level);
    assert InRange(na) && InRange(nb);
    RankOrder(na, nb);
    RankOrder(nb, na);
    RankBounds(na);
    if a.Level() == b.Level() && Equal(a, b) {
      ResizeSame(a.numbers);
      ResizeSame(b.numbers);
    }
  }

  lemma {:induction false} PlaceOfMax(n: nat)
    ensures var ns := seq(n, _ => MAX_NUMBER); InRange(ns) && Rank(ns) == Weight(n) - 1
  {
    if n > 0 {
      PlaceOfMax(n - 1);
      var ns := seq(n, _ => MAX_NUMBER);
      assert ns[..n - 1] == seq(n - 1, _ => MAX_NUMBER);
    }
  }

  lemma {:induction false} RankOfZeros(n: nat)
    ensures Rank(seq(n, _ => 0)) == 0
  {
    if n > 0 {
      RankOfZeros(n - 1);
      assert seq(n, _ => 0)[..n - 1] == seq(n - 1, _ => 0);
    }
  }

  lemma GreatestOfLevel(level: nat)
    requires MINIMUM_LEVEL <= level
    ensures ReleaseAt(MaxVersion(level), level) && Place(MaxVersion(level), level) == Weight(level) - 1
  {
    PlaceOfMax(level);
    ResizeSame(MaxVersion(level).numbers);
  }

  lemma LeastOfLevel(level: nat)
    requires MINIMUM_LEVEL <= level
    ensures ReleaseAt(MinVersion(level), level) && Place(MinVersion(level), level) == 1
  {
    RankOfZeros(level - 1);
    var ns := MinVersion(level).numbers;
    assert ns[..level - 1] == seq(level - 1, _ => 0);
    ResizeSame(ns);
  }

  lemma OnlyGreatestHasNoCarryStop(v: Version, level: nat)
    requires ReleaseAt(v, level) && !CarryStops(v.numbers, level)
    ensures Equal(v, MaxVersion(level))
  {
    forall i | 0 <= i < level ensures v.numbers[i] == MAX_NUMBER {
      assert DigitAt(v.numbers, i) == MAX_NUMBER;
    }
    assert v.numbers == MaxVersion(level).numbers;
  }

  lemma BorrowStopsAboveZero(v: Version, level: nat)
    requires ReleaseAt(v, level)
    ensures BorrowStops(v.numbers, level) <==> Place(v, level) != 0
  {
    RankOfZeros(level);
    ResizeSame(v.numbers);
    RankOrder(v.numbers, seq(level, _ => 0));
    if i :| 0 <= i < level && DigitAt(v.numbers, i) != 0 {
      assert v.numbers[i] != seq(level, _ => 0)[i];
    } else {
      forall i | 0 <= i < level ensures v.numbers[i] == 0 {
        assert DigitAt(v.numbers, i) == 0;
      }
      assert v.numbers == seq(level, _ => 0);
    }
  }

  /** The two ends, and when stepping at the own level is defined. */
  lemma EndsOfLevel(v: Version, level: nat)
    requires ReleaseAt(v, level)
    ensures ReleaseAt(MaxVersion(level), level) && Place(MaxVersion(level), level) == Weight(level) - 1
    ensures ReleaseAt(MinVersion(level), level) && Place(MinVersion(level), level) == 1
    ensures CanIncrement(v, level)
    ensures CanDecrement(v, level) <==> Place(v, level) != 0
  {
    hide Less, Place, Equal;
    GreatestOfLevel(level);
    LeastOfLevel(level);
    if !CarryStops(v.numbers, level) {
      OnlyGreatestHasNoCarryStop(v, level);
    }
    BorrowStopsAboveZero(v, level);
    PlaceOrder(v, MinVersion(level), level);
  }

  /** `++v` moves to the next place, except at the greatest version, where it does nothing. */
  lemma SuccessorPlace(v: Version, level: nat)
    requires ReleaseAt(v, level)
    ensures CanIncrement(v, level) && ReleaseAt(Successor(v), level)
    ensures Successor(v) == v <==> v == MaxVersion(level)
    ensures v != MaxVersion(level) ==> Place(Successor(v), level) == Place(v, level) + 1
  {
    hide Rank, Less, Equal;
    EndsOfLevel(v, level);
    PlaceOrder(v, MaxVersion(level), level);
    if v != MaxVersion(level) {
      RaisedStops(v.numbers, level);
      CarryAddsUnit(v.numbers, level - 1);
      ResizeSame(v.numbers);
      ResizeSame(Successor(v).numbers);
    }
  }

  /** `--v` moves to the previous place, except at the least version; at zero it leaves the array. */
  lemma PredecessorPlace(v: Version, level: nat)
    requires ReleaseAt(v, level)
    ensures CanDecrement(v, level) <==> Place(v, level) != 0
    ensures DecrementEffect(v, level) == if Place(v, level) == 0 then Leaves else Fine
    ensures Place(v, level) != 0 ==>
              && ReleaseAt(Predecessor(v), level)
              && (Predecessor(v) == v <==> v == MinVersion(level))
              && (v != MinVersion(level) ==> Place(Predecessor(v), level) == Place(v, level) - 1)
  {
    hide Rank, Less, Equal;
    EndsOfLevel(v, level);
    PlaceOrder(v, MinVersion(level), level);
    if v != MinVersion(level) && Place(v, level) != 0 {
      RaisedStops(v.numbers, level);
      BorrowTakesUnit(v.numbers, level - 1);
      ResizeSame(v.numbers);
      ResizeSame(Predecessor(v).numbers);
    }
  }

  /** Stepping up and then down returns to `v` exactly away from the greatest version and from zero. */
  lemma UpThenDown(v: Version, level: nat)
    requires ReleaseAt(v, level)
    ensures CanIncrement(v, level) && CanDecrement(Successor(v), level)
    ensures Predecessor(Successor(v)) == v <==> v != MaxVersion(level) && Place(v, level) != 0
  {
    hide Less, Place, Equal;
    SuccessorPlace(v, level);
    EndsOfLevel(v, level);
    PlaceOrder(v, MaxVersion(level), level);
    PredecessorPlace(Successor(v), level);
    PlaceOrder(Successor(v), MinVersion(level), level);
    PlaceOrder(Predecessor(Successor(v)), v, level);
    assert 1 < Weight(level) by {
      assert Weight(level) == Weight(level - 1) * BASE;
    }
  }

  /** Where stepping down is defined, stepping up again returns to `v` exactly away from the least version. */
  lemma DownThenUp(v: Version, level: nat)
    requires ReleaseAt(v, level)
    ensures CanDecrement(v, level) ==>
              CanIncrement(Predecessor(v), level) && (Successor(Predecessor(v)) == v <==> v != MinVersion(level))
  {
    PredecessorPlace(v, level);
    EndsOfLevel(v, level);
    if CanDecrement(v, level) {
      SuccessorPlace(Predecessor(v), level);
      PlaceOrder(v, MinVersion(level), level);
      PlaceOrder(v, MaxVersion(level), level);
      PlaceOrder(Successor(Predecessor(v)), v, level);
      assert 2 < Weight(level) by {
        assert Weight(level) == Weight(level - 1) * BASE;
      }
    }
  }

  /** Nothing of that level or shorter lies strictly between a release and its successor. */
  lemma NothingBetween(v: Version, w: Version, level: nat)
    requires ReleaseAt(v, level) && ReleaseUpTo(w, level)
    ensures CanIncrement(v, level) && !(Less(v, w) && Less(w, Successor(v)))
  {
    SuccessorPlace(v, level);
    PlaceOrder(v, w, level);
    PlaceOrder(w, Successor(v), level);
  }

  /**
    * Incrementing at any level `l`: at or below the own level it adds one unit at position `l`,
    * above it the version is first extended with zeros.
    */
  lemma IncrementAtLevel(v: Version, level: nat, l: nat)
    requires ReleaseAt(v, level) && 0 < l && CanIncrement(v, l) && v != MaxVersion(level)
    ensures var top := MaxNat(level, l);
            Place(Incremented(v, l), top) == Place(v, top) + Weight(top - l)
    ensures Less(v, Incremented(v, l))
  {
    hide Rank, Less, Equal;
    var top, raised := MaxNat(level, l), Raised(v.numbers, l);
    assert !Equal(v, MaxVersion(level)) by {
      EndsOfLevel(v, level);
      PlaceOrder(v, MaxVersion(level), level);
    }
    RaisedStops(v.numbers, l);
    assert InRange(raised);
    assert raised == Resize(v.numbers, top);
    CarryAddsUnit(raised, l - 1);
    var w := Incremented(v, l);
    assert Place(w, top) == Rank(w.numbers) by { ResizeSame(w.numbers); }
    PlaceOrder(v, w, top);
  }

  /**
    * At its own level, the increment of a version with legal numbers leaves the array exactly when all
    * numbers are maximal and the version is not equal to the greatest one of its level.
    */
  lemma IncrementStaysInside(v: Version)
    requires v.Level() > 0 && InRange(v.numbers)
    ensures IncrementEffect(v, v.Level()) ==
            if (forall i | 0 <= i < v.Level() :: v.numbers[i] == MAX_NUMBER)
               && (v.IsBranch() || v.extra != [] || v.Level() < MINIMUM_LEVEL)
            then Leaves else Fine
  {
    var level := v.Level();
    var top := MaxVersion(level);
    if i :| 0 <= i < level && v.numbers[i] != MAX_NUMBER {
      assert DigitAt(v.numbers, i) != MAX_NUMBER;
    } else {
      assert !CarryStops(v.numbers, level);
      if level >= MINIMUM_LEVEL {
        assert v.numbers == top.numbers;
      } else {
        assert Resize(v.numbers, MINIMUM_LEVEL)[level] == 0;
        assert Resize(top.numbers, MINIMUM_LEVEL)[level] == MAX_NUMBER;
      }
    }
  }

  /** Incrementing the pre-release of the greatest version of level 3 leaves the array. */
  lemma GreatestPreReleaseLeaves()
    ensures IncrementEffect(Version([MAX_NUMBER, MAX_NUMBER, MAX_NUMBER], [Word("rc1")], ""), 3) == Leaves
  {
    IncrementStaysInside(Version([MAX_NUMBER, MAX_NUMBER, MAX_NUMBER], [Word("rc1")], ""));
  }

  // ---------------------------------------------------------------- versions of every length, with any extra or branch

  /** Only the greatest version itself is equal to it at its own level. */
  lemma EqualToEnds(v: Version)
    requires v.Level() > 0
    ensures Equal(v, MaxVersion(v.Level())) <==> v == MaxVersion(v.Level())
    ensures Equal(v, MinVersion(v.Level())) <==> v == MinVersion(v.Level())
  {
    var level := v.Level();
    if level < MINIMUM_LEVEL {
      assert Resize(v.numbers, MINIMUM_LEVEL)[level] == 0;
      assert Resize(v.numbers, MINIMUM_LEVEL)[MINIMUM_LEVEL - 1] == 0;
      assert Resize(MaxVersion(level).numbers, MINIMUM_LEVEL)[level] == MAX_NUMBER;
      assert Resize(MinVersion(level).numbers, MINIMUM_LEVEL)[MINIMUM_LEVEL - 1] == 1;
    } else {
      ResizeSame(v.numbers);
      ResizeSame(MaxVersion(level).numbers);
      ResizeSame(MinVersion(level).numbers);
    }
  }

  /** `++v` adds one to the numbers, read in base 10^9, and keeps everything else; only `max` stays. */
  lemma IncrementAddsOne(v: Version)
    requires v.Level() > 0 && InRange(v.numbers) && IncrementEffect(v, v.Level()) == Fine
    ensures var w := Successor(v);
            && w == v.(numbers := w.numbers) && w.Level() == v.Level() && InRange(w.numbers)
            && (if v == MaxVersion(v.Level()) then w == v else Rank(w.numbers) == Rank(v.numbers) + 1)
  {
    hide Rank, Equal;
    EqualToEnds(v);
    if v != MaxVersion(v.Level()) {
      RaisedStops(v.numbers, v.Level());
      CarryAddsUnit(v.numbers, v.Level() - 1);
    }
  }

  /** `--v` takes one away, and is undefined exactly when all numbers are zero; only `min` stays. */
  lemma DecrementTakesOne(v: Version)
    requires v.Level() > 0 && InRange(v.numbers)
    ensures DecrementEffect(v, v.Level()) == if forall i | 0 <= i < v.Level() :: v.numbers[i] == 0 then Leaves else Fine
    ensures DecrementEffect(v, v.Level()) == Fine ==>
              var w := Predecessor(v);
              && w == v.(numbers := w.numbers) && w.Level() == v.Level() && InRange(w.numbers)
              && (if v == MinVersion(v.Level()) then w == v else Rank(w.numbers) == Rank(v.numbers) - 1)
  {
    hide Rank, Equal;
    EqualToEnds(v);
    assert forall i | 0 <= i < v.Level() :: DigitAt(v.numbers, i) == v.numbers[i];
    if v != MinVersion(v.Level()) && BorrowStops(v.numbers, v.Level()) {
      RaisedStops(v.numbers, v.Level());
      BorrowTakesUnit(v.numbers, v.Level() - 1);
    }
    if v == MinVersion(v.Level()) {
      assert v.numbers[v.Level() - 1] == 1;
    }
  }

  /** The ends of the shortest levels, and one carry, in numbers. */
  lemma StepsInNumbers()
    ensures MinVersion(1) == MinVersion(3) == Version([0, 0, 1], [], "")
    ensures MaxVersion(2) == MaxVersion(3) == Version([999_999_999, 999_999_999, 999_999_999], [], "")
    ensures var v := Version([1, 0, 999_999_999], [], "");
            IncrementEffect(v, 3) == Fine && Successor(v) == Version([1, 1, 0], [], "")
  {
    var v := Version([1, 0, 999_999_999], [], "");
    EqualToEnds(v);
    assert DigitAt(v.numbers, 0) != MAX_NUMBER;
    assert v.numbers[2 := 0] == [1, 0, 0] && DigitAt([1, 0, 0], 0) != MAX_NUMBER;
    assert CarryFrom([1, 0, 999_999_999], 2) == CarryFrom([1, 0, 0], 1) == [1, 1, 0];
  }
}
