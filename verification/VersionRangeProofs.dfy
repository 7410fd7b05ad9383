/** What the vector of a range means: exactness of `|=` and `&=` at one level, and when it stays sorted. */
module VersionRangeProofs {
  import opened Versions
  import opened VersionSteps
  import opened VersionRanges
  import opened Options
  import I = Intervals

  // ---------------------------------------------------------------- pairs as intervals of places

  /** A pair of releases of one level, in order. */
  predicate PairAt(p: Pair, level: nat) {
    ReleaseAt(p.first, level) && ReleaseAt(p.second, level) && LessEq(p.first, p.second)
  }

  ghost predicate AllAt(range: seq<Pair>, level: nat) {
    forall i | 0 <= i < |range| :: PairAt(range[i], level)
  }

  function SpanOf(p: Pair, level: nat): I.Span {
    I.Span(Place(p.first, level), Place(p.second, level))
  }

  function Spans(range: seq<Pair>, level: nat): (s: seq<I.Span>)
    ensures |s| == |range|
    ensures forall i | 0 <= i < |range| :: s[i] == SpanOf(range[i], level)
  {
    seq(|range|, i requires 0 <= i < |range| => SpanOf(range[i], level))
  }

  /** A pair of numeric versions whose upper bound `++` can step. */
  predicate Steppable(p: Pair) {
    !p.IsBranch() && CanIncrement(p.second, p.second.Level())
  }

  predicate AllSteppable(range: seq<Pair>) {
    forall i | 0 <= i < |range| :: Steppable(range[i])
  }

  lemma PairFacts(p: Pair, level: nat)
    requires PairAt(p, level)
    ensures Steppable(p) && SpanOf(p, level).Proper()
  {
    EndsOfLevel(p.second, level);
    PlaceOrder(p.first, p.second, level);
  }

  /** Every upper bound in a range of one level can be stepped. */
  lemma AllFacts(range: seq<Pair>, level: nat)
    requires AllAt(range, level)
    ensures AllSteppable(range) && I.AllProper(Spans(range, level))
  {
    forall i | 0 <= i < |range| ensures Steppable(range[i]) && SpanOf(range[i], level).Proper() {
      PairFacts(range[i], level);
    }
  }

  /** The comparisons of the loop, read on places. */
  lemma TwoPairs(a: Pair, p: Pair, level: nat)
    requires PairAt(a, level) && PairAt(p, level)
    ensures var x, y := SpanOf(a, level), SpanOf(p, level);
            && Steppable(a)
            && (Skips(a, p) <==> x.hi + 1 < y.lo)
            && (!Skips(a, p) ==> (GoesBefore(a, p) <==> y.hi < x.lo))
            && (Less(a.second, p.first) <==> x.hi < y.lo)
  {
    PairFacts(a, level);
    PairFacts(p, level);
    SuccessorPlace(a.second, level);
    PlaceOrder(a.second, p.first, level);
    PlaceOrder(p.second, a.first, level);
    PlaceOrder(Successor(a.second), p.first, level);
    OrderIsTotalPreorder(a.first, p.second, a.first);
    EndsOfLevel(a.second, level);
    PlaceOrder(p.first, MaxVersion(level), level);
  }

  lemma MinMaxPlaces(a: Version, b: Version, level: nat)
    requires ReleaseAt(a, level) && ReleaseAt(b, level)
    ensures ReleaseAt(Min(a, b), level) && ReleaseAt(Max(a, b), level)
    ensures Place(Min(a, b), level) == I.Lesser(Place(a, level), Place(b, level))
    ensures Place(Max(a, b), level) == I.Greater(Place(a, level), Place(b, level))
  {
    PlaceOrder(a, b, level);
    PlaceOrder(b, a, level);
  }

  /** Merging and swallowing take the lesser lower and the greater upper place. */
  lemma MergedPlaces(a: Pair, p: Pair, level: nat)
    requires PairAt(a, level) && PairAt(p, level)
    ensures var x, y := SpanOf(a, level), SpanOf(p, level);
            && PairAt(Hull(a, p), level)
            && SpanOf(Hull(a, p), level) == I.Span(I.Lesser(x.lo, y.lo), I.Greater(x.hi, y.hi))
            && PairAt(Pair(a.first, Max(a.second, p.second)), level)
            && SpanOf(Pair(a.first, Max(a.second, p.second)), level) == I.Span(x.lo, I.Greater(x.hi, y.hi))
  {
    PairFacts(a, level);
    PairFacts(p, level);
    MinMaxPlaces(a.first, p.first, level);
    MinMaxPlaces(a.second, p.second, level);
    PlaceOrder(Min(a.first, p.first), Max(a.second, p.second), level);
    PlaceOrder(a.first, Max(a.second, p.second), level);
  }

  lemma AnyHasIsCovers(range: seq<Pair>, v: Version, level: nat)
    requires AllAt(range, level) && ReleaseUpTo(v, level)
    ensures AnyHas(range, v) <==> I.Covers(Spans(range, level), Place(v, level))
  {
    forall i | 0 <= i < |range| ensures range[i].Has(v) <==> Spans(range, level)[i].Has(Place(v, level)) {
      PlaceOrder(range[i].first, v, level);
      PlaceOrder(v, range[i].second, level);
    }
  }

  // ---------------------------------------------------------------- |= on ranges is |= on intervals

  lemma SpansOfParts(a: seq<Pair>, b: seq<Pair>, level: nat)
    ensures Spans(a + b, level) == Spans(a, level) + Spans(b, level)
  {
  }

  lemma SpansOfSlices(range: seq<Pair>, i: nat, level: nat)
    requires i <= |range|
    ensures Spans(range[i..], level) == Spans(range, level)[i..]
    ensures Spans(range[..i], level) == Spans(range, level)[..i]
  {
  }

  lemma SpansOfOne(p: Pair, level: nat)
    ensures Spans([p], level) == [SpanOf(p, level)]
  {
  }

  lemma {:induction false} AbsorbOnPlaces(m: Pair, rest: seq<Pair>, level: nat)
    requires PairAt(m, level) && AllAt(rest, level)
    ensures AllAt(Absorb(m, rest), level)
    ensures Spans(Absorb(m, rest), level) == I.Absorb(SpanOf(m, level), Spans(rest, level))
    decreases |rest|
  {
    hide Less, LessEq, Greater, Equal, Place;
    SpansOfOne(m, level);
    if rest != [] {
      assert PairAt(rest[0], level);
      TwoPairs(m, rest[0], level);
      if Less(m.second, rest[0].first) {
        SpansOfParts([m], rest, level);
      } else {
        var grown := Pair(m.first, Max(m.second, rest[0].second));
        assert PairAt(grown, level)
            && SpanOf(grown, level) == I.Span(SpanOf(m, level).lo, I.Greater(SpanOf(m, level).hi, SpanOf(rest[0], level).hi)) by {
          MergedPlaces(m, rest[0], level);
        }
        AbsorbOnPlaces(grown, rest[1..], level);
        SpansOfSlices(rest, 1, level);
      }
    }
  }

  lemma MergeOnPlaces(range: seq<Pair>, p: Pair, level: nat)
    requires range != [] && PairAt(range[0], level) && AllAt(range[1..], level) && PairAt(p, level)
    ensures var merged, x, y := Absorb(Hull(range[0], p), range[1..]), SpanOf(range[0], level), SpanOf(p, level);
            && AllAt(merged, level)
            && Spans(merged, level)
               == I.Absorb(I.Span(I.Lesser(x.lo, y.lo), I.Greater(x.hi, y.hi)), Spans(range, level)[1..])
  {
    hide Less, LessEq, Greater, Equal, Place;
    MergedPlaces(range[0], p, level);
    AbsorbOnPlaces(Hull(range[0], p), range[1..], level);
    SpansOfSlices(range, 1, level);
  }

  lemma PutBeforeOnPlaces(range: seq<Pair>, p: Pair, level: nat)
    requires AllAt(range, level) && PairAt(p, level)
    ensures AllAt([p] + range + [p], level)
    ensures Spans([p] + range + [p], level) == [SpanOf(p, level)] + Spans(range, level) + [SpanOf(p, level)]
  {
    hide Less, LessEq, Greater, Equal, Place;
    SpansOfOne(p, level);
    SpansOfParts([p] + range, [p], level);
    SpansOfParts([p], range, level);
  }

  lemma {:induction false} InsertOnPlaces(range: seq<Pair>, p: Pair, level: nat)
    requires AllAt(range, level) && PairAt(p, level)
    ensures AllAt(Insert(range, p), level)
    ensures Spans(Insert(range, p), level) == I.Insert(Spans(range, level), SpanOf(p, level))
  {
    hide Less, LessEq, Greater, Equal, Place;
    AllFacts(range, level);
    if range == [] {
      SpansOfOne(p, level);
    } else {
      TwoPairs(range[0], p, level);
      if Skips(range[0], p) {
        InsertOnPlaces(range[1..], p, level);
        SpansOfSlices(range, 1, level);
        SpansOfOne(range[0], level);
        SpansOfParts([range[0]], Insert(range[1..], p), level);
      } else if GoesBefore(range[0], p) {
        PutBeforeOnPlaces(range, p, level);
      } else {
        MergeOnPlaces(range, p, level);
      }
    }
  }

  lemma {:induction false} InsertsBeforeOnPlaces(range: seq<Pair>, p: Pair, level: nat)
    requires AllAt(range, level) && PairAt(p, level)
    ensures InsertsBefore(range, p) <==> I.InsertsBefore(Spans(range, level), SpanOf(p, level))
  {
    hide Less, LessEq, Greater, Equal, Place;
    AllFacts(range, level);
    if range != [] {
      assert PairAt(range[0], level);
      TwoPairs(range[0], p, level);
      SpansOfSlices(range, 1, level);
      InsertsBeforeOnPlaces(range[1..], p, level);
    }
  }

  lemma {:induction false} InsertAllOnPlaces(range: seq<Pair>, ps: seq<Pair>, level: nat)
    requires AllAt(range, level) && AllAt(ps, level)
    ensures AllAt(InsertAll(range, ps), level)
    ensures Spans(InsertAll(range, ps), level) == I.InsertAll(Spans(range, level), Spans(ps, level))
  {
    hide Less, LessEq, Greater, Equal, Place;
    AllFacts(range, level);
    AllFacts(ps, level);
    if ps != [] {
      var n := |ps| - 1;
      InsertAllOnPlaces(range, ps[..n], level);
      var before := InsertAll(range, ps[..n]);
      assert PairAt(ps[n], level);
      assert AllAt(Insert(before, ps[n]), level)
          && Spans(Insert(before, ps[n]), level) == I.Insert(Spans(before, level), SpanOf(ps[n], level)) by {
        InsertOnPlaces(before, ps[n], level);
      }
      SpansOfSlices(ps, n, level);
    }
  }

  /** At one level, no step of `|=` throws or leaves an array. */
  lemma {:induction false} StepsAreFine(range: seq<Pair>, p: Pair)
    requires AllSteppable(range)
    ensures StepsOf(range, p) == Fine
  {
    if range != [] {
      assert Steppable(range[0]);
      assert IncrementEffect(range[0].second, range[0].second.Level()) == Fine;
      StepsAreFine(range[1..], p);
    }
  }

  lemma {:induction false} EachIsFine(range: seq<Pair>, ps: seq<Pair>, level: nat)
    requires AllAt(range, level) && AllAt(ps, level)
    ensures InsertEach(range, ps) == Progress(InsertAll(range, ps), Fine)
  {
    hide Less, LessEq, Greater, Equal, Place, StepsOf, Insert, PairAt;
    if ps != [] {
      var n := |ps| - 1;
      EachIsFine(range, ps[..n], level);
      InsertAllOnPlaces(range, ps[..n], level);
      AllFacts(InsertAll(range, ps[..n]), level);
      StepsAreFine(InsertAll(range, ps[..n]), ps[n]);
    }
  }

  // ---------------------------------------------------------------- exactness of union

  /** The vectors `|=` can build: ascending disjoint main pairs, and leftover copies inside earlier main pairs. */
  ghost predicate HasShape(range: seq<Pair>, level: nat) {
    AllAt(range, level) && I.HasShape(Spans(range, level))
  }

  /** The versions of up to `level` numbers in the fold of `ps` over `range` are those of `range` and of `ps`. */
  lemma InsertAllIsExact(range: seq<Pair>, ps: seq<Pair>, v: Version, level: nat)
    requires HasShape(range, level) && AllAt(ps, level) && ReleaseUpTo(v, level)
    ensures HasShape(InsertAll(range, ps), level)
    ensures AnyHas(InsertAll(range, ps), v) <==> AnyHas(range, v) || AnyHas(ps, v)
  {
    InsertAllOnPlaces(range, ps, level);
    AllFacts(ps, level);
    I.InsertAllIsExact(Spans(range, level), Spans(ps, level));
    AnyHasIsCovers(range, v, level);
    AnyHasIsCovers(ps, v, level);
    AnyHasIsCovers(InsertAll(range, ps), v, level);
  }

  lemma EmptyHasShape(level: nat)
    ensures HasShape([], level)
  {
    I.EmptyHasShape();
    assert Spans([], level) == [];
  }

  /** Folding any pairs of one level with `|=` into the empty range keeps exactly the versions in some pair. */
  lemma UnionIsExact(ps: seq<Pair>, v: Version, level: nat)
    requires AllAt(ps, level) && ReleaseUpTo(v, level)
    ensures var u := NowPairs(InsertEach([], ps));
            u.effect == Fine && (u.value.HasVersion(v) <==> AnyHas(ps, v))
  {
    EmptyHasShape(level);
    EachIsFine([], ps, level);
    InsertAllIsExact([], ps, v, level);
  }

  /** The union of two ranges built this way has exactly the versions of either, and is built this way again. */
  lemma UnionOfRangesIsExact(a: seq<Pair>, b: seq<Pair>, v: Version, level: nat)
    requires HasShape(a, level) && HasShape(b, level) && ReleaseUpTo(v, level)
    ensures var u := UnionState(RangeValue(a, ""), RangeValue(b, ""), false);
            && u.effect == Fine
            && HasShape(u.value.range, level)
            && (u.value.HasVersion(v) <==> RangeValue(a, "").HasVersion(v) || RangeValue(b, "").HasVersion(v))
  {
    EachIsFine(a, b, level);
    InsertAllIsExact(a, b, v, level);
  }

  // ---------------------------------------------------------------- exactness of intersection

  lemma IntersectPlaces(a: Pair, b: Pair, level: nat)
    requires PairAt(a, level) && PairAt(b, level)
    ensures var x, y := SpanOf(a, level), SpanOf(b, level);
            match a.Intersect(b)
            case None => x.hi < y.lo || y.hi < x.lo
            case Some(o) => PairAt(o, level) && SpanOf(o, level) == I.Span(I.Greater(x.lo, y.lo), I.Lesser(x.hi, y.hi))
  {
    PairFacts(a, level);
    PairFacts(b, level);
    MinMaxPlaces(a.first, b.first, level);
    MinMaxPlaces(a.second, b.second, level);
    var rp := Pair(Max(a.first, b.first), Min(a.second, b.second));
    PlaceOrder(rp.second, rp.first, level);
    PlaceOrder(rp.first, rp.second, level);
    OrderIsTotalPreorder(rp.first, rp.second, rp.first);
  }

  lemma IntersectHas(a: Pair, b: Pair, v: Version, level: nat)
    requires PairAt(a, level) && PairAt(b, level) && ReleaseUpTo(v, level)
    ensures var o := a.Intersect(b);
            (o.Some? ==> PairAt(o.value, level)) && (a.Has(v) && b.Has(v) <==> o.Some? && o.value.Has(v))
  {
    IntersectPlaces(a, b, level);
    var o := a.Intersect(b);
    PlaceOrder(a.first, v, level);
    PlaceOrder(v, a.second, level);
    PlaceOrder(b.first, v, level);
    PlaceOrder(v, b.second, level);
    if o.Some? {
      PlaceOrder(o.value.first, v, level);
      PlaceOrder(v, o.value.second, level);
    }
  }

  lemma AnyHasOfAppend(a: seq<Pair>, b: seq<Pair>, v: Version)
    ensures AnyHas(a + b, v) <==> AnyHas(a, v) || AnyHas(b, v)
  {
    if i :| 0 <= i < |a| && a[i].Has(v) {
      assert (a + b)[i].Has(v);
    }
    if i :| 0 <= i < |b| && b[i].Has(v) {
      assert (a + b)[|a| + i].Has(v);
    }
    if i :| 0 <= i < |a + b| && (a + b)[i].Has(v) {
      assert i >= |a| ==> b[i - |a|].Has(v);
    }
  }

  lemma AnyHasOfLast(a: seq<Pair>, v: Version)
    requires a != []
    ensures AnyHas(a, v) <==> AnyHas(a[..|a| - 1], v) || a[|a| - 1].Has(v)
  {
    var p := a[|a| - 1];
    assert a == a[..|a| - 1] + [p];
    AnyHasOfAppend(a[..|a| - 1], [p], v);
    assert [p][0] == p;
  }

  lemma {:induction false} RowIsExact(p: Pair, others: seq<Pair>, v: Version, level: nat)
    requires PairAt(p, level) && AllAt(others, level) && ReleaseUpTo(v, level)
    ensures AllAt(RowIntersections(p, others), level)
    ensures AnyHas(RowIntersections(p, others), v) <==> p.Has(v) && AnyHas(others, v)
  {
    hide Less, LessEq, Greater, Equal, Place;
    if others != [] {
      var n := |others| - 1;
      RowIsExact(p, others[..n], v, level);
      AnyHasOfLast(others, v);
      IntersectHas(p, others[n], v, level);
      if p.Intersect(others[n]).Some? {
        AnyHasOfLast(RowIntersections(p, others), v);
      }
    }
  }

  lemma {:induction false} IntersectionsAreExact(a: seq<Pair>, b: seq<Pair>, v: Version, level: nat)
    requires AllAt(a, level) && AllAt(b, level) && ReleaseUpTo(v, level)
    ensures AllAt(Intersections(a, b), level)
    ensures AnyHas(Intersections(a, b), v) <==> AnyHas(a, v) && AnyHas(b, v)
  {
    hide Less, LessEq, Greater, Equal, Place;
    if a != [] {
      var n := |a| - 1;
      IntersectionsAreExact(a[..n], b, v, level);
      RowIsExact(a[n], b, v, level);
      AnyHasOfLast(a, v);
      AnyHasOfAppend(Intersections(a[..n], b), RowIntersections(a[n], b), v);
    }
  }

  /** `A & B` has a version exactly when both have it, whatever order the vectors are in. */
  lemma IntersectionIsExact(a: seq<Pair>, b: seq<Pair>, v: Version, level: nat)
    requires AllAt(a, level) && AllAt(b, level) && ReleaseUpTo(v, level)
    ensures var r := IntersectState(RangeValue(a, ""), RangeValue(b, ""));
            && r.effect == Fine
            && HasShape(r.value.range, level)
            && (r.value.HasVersion(v) <==> RangeValue(a, "").HasVersion(v) && RangeValue(b, "").HasVersion(v))
  {
    AllFacts(a, level);
    AllFacts(b, level);
    IntersectionsAreExact(a, b, v, level);
    EmptyHasShape(level);
    EachIsFine([], Intersections(a, b), level);
    InsertAllIsExact([], Intersections(a, b), v, level);
  }

  /**
    * With branches in play, a successful `A & B` still has exactly the common versions, unless the left side
    * is empty and the right side is a branch: then the source returns the branch.
    */
  lemma IntersectionWithBranches(a: RangeValue, b: RangeValue, level: nat)
    requires AllAt(a.range, level) && AllAt(b.range, level)
    requires (a.IsBranch() ==> a.range == []) && (b.IsBranch() ==> b.range == [])
    ensures var r := IntersectState(a, b);
            r.effect == Fine ==>
              ((forall v: Version | v.IsBranch() || ReleaseUpTo(v, level) ::
                 r.value.HasVersion(v) <==> a.HasVersion(v) && b.HasVersion(v))
               <==> !(a.IsEmpty() && b.IsBranch()))
  {
    AllFacts(a.range, level);
    AllFacts(b.range, level);
    var r := IntersectState(a, b);
    if r.effect == Fine {
      if a.IsEmpty() && b.IsBranch() {
        var v := Version([], [], b.branch);
        assert r.value.HasVersion(v) && !a.HasVersion(v);
      } else {
        forall v: Version | v.IsBranch() || ReleaseUpTo(v, level)
          ensures r.value.HasVersion(v) <==> a.HasVersion(v) && b.HasVersion(v)
        {
          if !v.IsBranch() {
            IntersectionIsExact(a.range, b.range, v, level);
          }
        }
      }
    }
  }

  // ---------------------------------------------------------------- sortedness

  /** Ascending and pairwise disjoint: what the header promises of the vector. */
  ghost predicate Sorted(range: seq<Pair>, level: nat) {
    && AllAt(range, level)
    && (forall i, j | 0 <= i < j < |range| :: Less(range[i].second, range[j].first))
  }

  lemma SortedOnPlaces(range: seq<Pair>, level: nat)
    requires AllAt(range, level)
    ensures Sorted(range, level) <==> I.Sorted(Spans(range, level))
  {
    AllFacts(range, level);
    var s := Spans(range, level);
    forall i, j | 0 <= i < j < |range| ensures Less(range[i].second, range[j].first) <==> s[i].hi < s[j].lo {
      PlaceOrder(range[i].second, range[j].first, level);
    }
  }

  /** Sorted vectors, as constructors and intersections make them, are of the shape that unions keep exact. */
  lemma SortedHasShape(range: seq<Pair>, level: nat)
    requires Sorted(range, level)
    ensures HasShape(range, level)
  {
    SortedOnPlaces(range, level);
    I.SortedHasShape(Spans(range, level));
  }

  /** The branch of `|=` that inserts before a pair is taken. */
  predicate InsertsBefore(range: seq<Pair>, p: Pair) {
    range != [] && if Skips(range[0], p) then InsertsBefore(range[1..], p) else GoesBefore(range[0], p)
  }

  /** A sorted vector stays sorted under `|=` exactly when no pair is inserted before another. */
  lemma StaysSortedExactlyWhen(range: seq<Pair>, p: Pair, level: nat)
    requires Sorted(range, level) && PairAt(p, level)
    ensures Sorted(Insert(range, p), level) <==> !InsertsBefore(range, p)
  {
    PairFacts(p, level);
    InsertOnPlaces(range, p, level);
    InsertsBeforeOnPlaces(range, p, level);
    SortedOnPlaces(range, level);
    SortedOnPlaces(Insert(range, p), level);
    I.StaysSortedExactlyWhen(Spans(range, level), SpanOf(p, level));
  }

  lemma MeetOnPlaces(a: Pair, b: Pair, level: nat)
    requires PairAt(a, level) && PairAt(b, level)
    ensures var o, m := a.Intersect(b), I.Meet(SpanOf(a, level), SpanOf(b, level));
            (o.Some? <==> m.Proper()) && (o.Some? ==> PairAt(o.value, level) && SpanOf(o.value, level) == m)
  {
    IntersectPlaces(a, b, level);
    if a.Intersect(b).Some? {
      PairFacts(a.Intersect(b).value, level);
    }
  }

  lemma AddedOnPlaces(before: seq<Pair>, o: Option<Pair>, spans: seq<I.Span>, m: I.Span, level: nat)
    requires AllAt(before, level) && Spans(before, level) == spans
    requires o.Some? ==> PairAt(o.value, level) && SpanOf(o.value, level) == m
    ensures var after := if o.Some? then before + [o.value] else before;
            AllAt(after, level) && Spans(after, level) == if o.Some? then spans + [m] else spans
  {
    hide Less, LessEq, Greater, Equal, Place;
    if o.Some? {
      SpansOfOne(o.value, level);
      SpansOfParts(before, [o.value], level);
    }
  }

  lemma NextInRow(p: Pair, others: seq<Pair>, o: Option<Pair>, after: seq<Pair>, spans: seq<I.Span>, level: nat)
    requires others != [] && o == p.Intersect(others[|others| - 1])
    requires o.Some? <==> I.Meet(SpanOf(p, level), SpanOf(others[|others| - 1], level)).Proper()
    requires var init := others[..|others| - 1];
             && after == (if o.Some? then RowIntersections(p, init) + [o.value] else RowIntersections(p, init))
             && spans == I.MeetRow(SpanOf(p, level), Spans(init, level))
    ensures RowIntersections(p, others) == after
    ensures I.MeetRow(SpanOf(p, level), Spans(others, level))
         == if o.Some? then spans + [I.Meet(SpanOf(p, level), SpanOf(others[|others| - 1], level))] else spans
  {
    hide Less, LessEq, Greater, Equal, Place;
    SpansOfSlices(others, |others| - 1, level);
  }

  lemma NextRowOnPlaces(a: seq<Pair>, b: seq<Pair>, level: nat)
    requires a != []
    requires var init := a[..|a| - 1];
             && AllAt(Intersections(init, b), level)
             && Spans(Intersections(init, b), level) == I.MeetAll(Spans(init, level), Spans(b, level))
    requires var p := a[|a| - 1];
             && AllAt(RowIntersections(p, b), level)
             && Spans(RowIntersections(p, b), level) == I.MeetRow(SpanOf(p, level), Spans(b, level))
    ensures AllAt(Intersections(a, b), level)
    ensures Spans(Intersections(a, b), level) == I.MeetAll(Spans(a, level), Spans(b, level))
  {
    hide Less, LessEq, Greater, Equal, Place;
    var n := |a| - 1;
    SpansOfSlices(a, n, level);
    SpansOfParts(Intersections(a[..n], b), RowIntersections(a[n], b), level);
  }

  lemma {:induction false} RowOnPlaces(p: Pair, others: seq<Pair>, level: nat)
    requires PairAt(p, level) && AllAt(others, level)
    ensures AllAt(RowIntersections(p, others), level)
    ensures Spans(RowIntersections(p, others), level) == I.MeetRow(SpanOf(p, level), Spans(others, level))
  {
    if others != [] {
      var init, last := others[..|others| - 1], others[|others| - 1];
      RowOnPlaces(p, init, level);
      var o, m := p.Intersect(last), I.Meet(SpanOf(p, level), SpanOf(last, level));
      var before, spans := RowIntersections(p, init), I.MeetRow(SpanOf(p, level), Spans(init, level));
      MeetOnPlaces(p, last, level);
      AddedOnPlaces(before, o, spans, m, level);
      NextInRow(p, others, o, if o.Some? then before + [o.value] else before, spans, level);
    }
  }

  lemma {:induction false} IntersectionsOnPlaces(a: seq<Pair>, b: seq<Pair>, level: nat)
    requires AllAt(a, level) && AllAt(b, level)
    ensures AllAt(Intersections(a, b), level)
    ensures Spans(Intersections(a, b), level) == I.MeetAll(Spans(a, level), Spans(b, level))
  {
    hide Less, LessEq, Greater, Equal, Place;
    if a != [] {
      IntersectionsOnPlaces(a[..|a| - 1], b, level);
      RowOnPlaces(a[|a| - 1], b, level);
      NextRowOnPlaces(a, b, level);
    }
  }

  /** The intersection of sorted disjoint vectors is sorted and disjoint again. */
  lemma IntersectionStaysSorted(a: seq<Pair>, b: seq<Pair>, level: nat)
    requires Sorted(a, level) && Sorted(b, level)
    ensures var r := IntersectState(RangeValue(a, ""), RangeValue(b, ""));
            r.effect == Fine && Sorted(r.value.range, level)
  {
    hide Less, LessEq, Greater, Equal, Place;
    AllFacts(a, level);
    AllFacts(b, level);
    SortedOnPlaces(a, level);
    SortedOnPlaces(b, level);
    IntersectionsOnPlaces(a, b, level);
    var found := Intersections(a, b);
    I.MeetAllIsSorted(Spans(a, level), Spans(b, level));
    I.FoldOfSortedIsSorted(Spans(found, level));
    InsertAllOnPlaces([], found, level);
    EachIsFine([], found, level);
    assert Spans([], level) == [];
    SortedOnPlaces(InsertAll([], found), level);
  }

  /** While intersecting sorted vectors, no collected pair is ever inserted before another. */
  lemma IntersectionNeverInsertsBefore(a: seq<Pair>, b: seq<Pair>, k: nat, level: nat)
    requires Sorted(a, level) && Sorted(b, level)
    ensures var found := Intersections(a, b);
            k < |found| ==> !InsertsBefore(InsertAll([], found[..k]), found[k])
  {
    hide Less, LessEq, Greater, Equal, Place;
    AllFacts(a, level);
    AllFacts(b, level);
    SortedOnPlaces(a, level);
    SortedOnPlaces(b, level);
    IntersectionsOnPlaces(a, b, level);
    var found := Intersections(a, b);
    I.MeetAllIsSorted(Spans(a, level), Spans(b, level));
    if k < |found| {
      var upTo := Spans(found, level)[..k + 1];
      SpansOfSlices(found, k, level);
      assert upTo[..k] == Spans(found, level)[..k];
      I.FoldOfSortedIsSorted(upTo);
      InsertAllOnPlaces([], found[..k], level);
      assert Spans([], level) == [];
      assert PairAt(found[k], level);
      InsertsBeforeOnPlaces(InsertAll([], found[..k]), found[k], level);
    }
  }

  /** A pair put below the only pair of a vector ends up in it twice, and the vector is not sorted. */
  lemma PairBelowIsKeptTwice(a: Pair, p: Pair, level: nat)
    requires PairAt(a, level) && PairAt(p, level) && Less(p.second, a.first)
    ensures Insert([a], p) == [p, a, p] && !Sorted(Insert([a], p), level)
  {
    TwoPairs(a, p, level);
    PairFacts(a, level);
    PairFacts(p, level);
    PlaceOrder(p.second, a.first, level);
    assert [p] + [a] + [p] == [p, a, p];
    assert Insert([a], p)[1] == a && Insert([a], p)[2] == p;
    PlaceOrder(a.second, p.first, level);
  }

  /** The header's promise that the vector is always sorted is broken by adding 2.0.0 and then 1.0.0. */
  lemma SortedIsNotAlwaysKept()
    ensures var one, two := Version([1, 0, 0], [], ""), Version([2, 0, 0], [], "");
            !Sorted(InsertAll([], [Pair(two, two), Pair(one, one)]), 3)
  {
    hide Less, LessEq, Greater, Equal, Insert;
    var one, two := Version([1, 0, 0], [], ""), Version([2, 0, 0], [], "");
    OperatorsMeanBelow(one, two);
    OrderIsTotalPreorder(one, one, one);
    OrderIsTotalPreorder(two, two, two);
    assert NumbersLessAt(one.numbers, two.numbers, 0);
    PairBelowIsKeptTwice(Pair(two, two), Pair(one, one), 3);
    TwoInsertions(Pair(two, two), Pair(one, one));
  }

  lemma TwoInsertions(a: Pair, p: Pair)
    ensures InsertAll([], [a, p]) == Insert([a], p)
  {
    hide Less, LessEq, Greater, Equal;
    assert [a, p][..1] == [a];
    assert [a][..0] == [];
    assert InsertAll([], [a]) == Insert([], a) == [a];
  }

  // ---------------------------------------------------------------- versions finer than the bounds

  /** The branch `++v == rhs.first` is taken: a pair is joined to one it only touches. */
  predicate TouchMerges(range: seq<Pair>, p: Pair) {
    range != [] &&
    if Skips(range[0], p) then TouchMerges(range[1..], p)
    else Less(range[0].second, p.first) && Equal(Next(range[0].second), p.first)
  }

  lemma {:induction false} TouchMergesOnPlaces(range: seq<Pair>, p: Pair, level: nat)
    requires AllAt(range, level) && PairAt(p, level)
    ensures TouchMerges(range, p) <==> I.TouchMerges(Spans(range, level), SpanOf(p, level))
  {
    hide Less, LessEq, Greater, Equal, Place;
    if range != [] {
      assert PairAt(range[0], level);
      TwoPairs(range[0], p, level);
      SpansOfSlices(range, 1, level);
      TouchMergesOnPlaces(range[1..], p, level);
    }
  }

  /** Where `v` lies among the releases of the level: at an even place, or at an odd one between two of them. */
  ghost predicate LiesAt(v: Version, level: nat, x: int) {
    forall w: Version | ReleaseAt(w, level) ::
      (LessEq(w, v) <==> 2 * Place(w, level) <= x) && (LessEq(v, w) <==> x <= 2 * Place(w, level))
  }

  /** Every numeric version, of any level and with any extra, lies somewhere. */
  lemma {:induction false} LiesSomewhere(v: Version, level: nat, j: nat) returns (x: int)
    requires !v.IsBranch() && j <= Weight(level)
    requires forall w: Version | ReleaseAt(w, level) && 0 <= Place(w, level) < j :: Less(w, v)
    ensures LiesAt(v, level, x)
    decreases Weight(level) - j
  {
    hide Less, LessEq, Place, ReleaseAt;
    if j == Weight(level) {
      x := 2 * j;
      forall w: Version | ReleaseAt(w, level)
        ensures LessEq(w, v) && !LessEq(v, w) && 2 * Place(w, level) < x
      {
        PlaceIsBelow(w, level);
        OrderIsTotalPreorder(w, v, w);
      }
    } else if w0: Version :| ReleaseAt(w0, level) && Place(w0, level) == j && !Less(w0, v) {
      x := if LessEq(w0, v) then 2 * j else 2 * j - 1;
      forall w: Version | ReleaseAt(w, level)
        ensures (LessEq(w, v) <==> 2 * Place(w, level) <= x) && (LessEq(v, w) <==> x <= 2 * Place(w, level))
      {
        PlaceIsBelow(w, level);
        PlacesCompare(w, w0, level);
        OrderIsTotalPreorder(w, v, w0);
        OrderIsTotalPreorder(v, w0, w);
        OrderIsTotalPreorder(w, w0, v);
        OrderIsTotalPreorder(w0, w, v);
        OrderIsTotalPreorder(v, w, w0);
        OrderIsTotalPreorder(w0, v, w);
      }
    } else {
      x := LiesSomewhere(v, level, j + 1);
    }
  }

  lemma PlaceIsBelow(w: Version, level: nat)
    requires ReleaseAt(w, level)
    ensures 0 <= Place(w, level) < Weight(level)
  {
    PlaceOrder(w, w, level);
  }

  lemma PlacesCompare(a: Version, b: Version, level: nat)
    requires ReleaseAt(a, level) && ReleaseAt(b, level)
    ensures Less(a, b) <==> Place(a, level) < Place(b, level)
    ensures LessEq(a, b) <==> Place(a, level) <= Place(b, level)
    ensures LessEq(b, a) <==> Place(b, level) <= Place(a, level)
  {
    PlaceOrder(a, b, level);
    PlaceOrder(b, a, level);
  }

  lemma AnyHasWhereItLies(range: seq<Pair>, v: Version, level: nat, x: int)
    requires AllAt(range, level) && LiesAt(v, level, x)
    ensures AnyHas(range, v) <==> I.Covers(I.Double(Spans(range, level)), x)
  {
    forall i | 0 <= i < |range| ensures range[i].Has(v) <==> I.Double(Spans(range, level))[i].Has(x) {
      assert PairAt(range[i], level);
      assert ReleaseAt(range[i].first, level) && ReleaseAt(range[i].second, level);
    }
  }

  /** Without the touching branch, `|=` adds exactly the versions of `p`: finer ones and pre-releases included. */
  lemma ExactWithoutTouching(range: seq<Pair>, p: Pair, v: Version, level: nat)
    requires HasShape(range, level) && PairAt(p, level) && !TouchMerges(range, p) && !v.IsBranch()
    ensures AnyHas(Insert(range, p), v) <==> AnyHas(range, v) || p.Has(v)
  {
    hide Less, LessEq, Greater, Equal, Place;
    var x := LiesSomewhere(v, level, 0);
    InsertOnPlaces(range, p, level);
    TouchMergesOnPlaces(range, p, level);
    PairFacts(p, level);
    I.ExactBetween(Spans(range, level), SpanOf(p, level), x);
    AnyHasWhereItLies(range, v, level, x);
    AnyHasWhereItLies([p], v, level, x);
    AnyHasWhereItLies(Insert(range, p), v, level, x);
    CoversOne(p, v, level, x);
  }

  lemma CoversOne(p: Pair, v: Version, level: nat, x: int)
    ensures AnyHas([p], v) <==> p.Has(v)
    ensures I.Covers(I.Double(Spans([p], level)), x) <==> I.Doubled(SpanOf(p, level)).Has(x)
  {
    assert [p][0] == p;
    assert I.Double(Spans([p], level)) == [I.Doubled(SpanOf(p, level))];
    I.CoverOfOne(I.Doubled(SpanOf(p, level)), x);
  }

  /** The first version of the next finer level after `v`. */
  function Finer(v: Version): Version { Version(v.numbers + [1], [], "") }

  lemma FinerLies(v: Version, level: nat)
    requires ReleaseAt(v, level)
    ensures LiesAt(Finer(v), level, 2 * Place(v, level) + 1)
  {
    hide Less, LessEq, Equal, Place;
    FinerPlaceOf(v, level);
    FinerPlace(v, level);
    forall w: Version | ReleaseAt(w, level)
      ensures (LessEq(w, Finer(v)) <==> 2 * Place(w, level) <= 2 * Place(v, level) + 1)
           && (LessEq(Finer(v), w) <==> 2 * Place(v, level) + 1 <= 2 * Place(w, level))
    {
      FinerPlace(w, level);
      PlaceOrder(w, Finer(v), level + 1);
      PlaceOrder(Finer(v), w, level + 1);
    }
  }

  /** The touching branch always lets in a version one level finer that no pair had. */
  lemma MergeAdmitsFinerVersions(range: seq<Pair>, p: Pair, level: nat) returns (finer: Version)
    requires HasShape(range, level) && PairAt(p, level) && TouchMerges(range, p)
    ensures ReleaseUpTo(finer, level + 1)
    ensures AnyHas(Insert(range, p), finer) && !AnyHas(range, finer) && !p.Has(finer)
  {
    hide Less, LessEq, Greater, Equal, Place;
    var s, q := Spans(range, level), SpanOf(p, level);
    AllFacts(range, level);
    PairFacts(p, level);
    TouchMergesOnPlaces(range, p, level);
    InsertOnPlaces(range, p, level);
    assert s[0..] == s;
    var t := I.TouchedAt(s, q, 0);
    assert PairAt(range[t], level);
    finer := Finer(range[t].second);
    var x := 2 * (q.lo - 1) + 1;
    FinerLies(range[t].second, level);
    I.TouchingJoins(s, q);
    I.NothingJoinedBefore(s, q);
    I.JoinsIsCovers(s, q.lo - 1);
    I.JoinsIsCovers(I.Insert(s, q), q.lo - 1);
    AnyHasWhereItLies(range, finer, level, x);
    AnyHasWhereItLies([p], finer, level, x);
    AnyHasWhereItLies(Insert(range, p), finer, level, x);
    CoversOne(p, finer, level, x);
  }

  /**
    * `|=` adds exactly the versions of the pair, of every level and pre-releases included, exactly when it does not
    * join the pair to one that it only touches.
    */
  lemma ExactForAllVersionsExactlyWhen(range: seq<Pair>, p: Pair, level: nat)
    requires HasShape(range, level) && PairAt(p, level)
    ensures (forall v: Version | !v.IsBranch() :: AnyHas(Insert(range, p), v) <==> AnyHas(range, v) || p.Has(v))
            <==> !TouchMerges(range, p)
  {
    hide HasShape, PairAt, Insert, AnyHas, TouchMerges, Pair.Has;
    if TouchMerges(range, p) {
      var finer := MergeAdmitsFinerVersions(range, p, level);
    } else {
      forall v: Version | !v.IsBranch() ensures AnyHas(Insert(range, p), v) <==> AnyHas(range, v) || p.Has(v) {
        ExactWithoutTouching(range, p, v, level);
      }
    }
  }

  /** One level further down, places are `BASE` times as far apart. */
  lemma FinerPlace(v: Version, level: nat)
    requires ReleaseAt(v, level)
    ensures Place(v, level + 1) == Place(v, level) * BASE
  {
    ResizeSame(v.numbers);
    assert Resize(v.numbers, level + 1) == v.numbers + [0];
    assert (v.numbers + [0])[..level] == v.numbers;
  }

  lemma FinerPlaceOf(v: Version, level: nat)
    requires ReleaseAt(v, level)
    ensures Place(Version(v.numbers + [1], [], ""), level + 1) == Place(v, level) * BASE + 1
  {
    ResizeSame(v.numbers);
    ResizeSame(v.numbers + [1]);
    assert (v.numbers + [1])[..level] == v.numbers;
  }

  // ---------------------------------------------------------------- a range united with itself

  /** The upper bound of a pair comes right before the lower bound of the next one. */
  predicate NeighboursTouch(range: seq<Pair>, i: nat)
    requires i + 1 < |range|
  {
    Equal(Next(range[i].second), range[i + 1].first)
  }

  lemma NeighboursOnPlaces(range: seq<Pair>, i: nat, level: nat)
    requires Sorted(range, level) && i + 1 < |range|
    ensures NeighboursTouch(range, i) <==> SpanOf(range[i], level).hi + 1 == SpanOf(range[i + 1], level).lo
  {
    assert PairAt(range[i], level) && PairAt(range[i + 1], level);
    TwoPairs(range[i], range[i + 1], level);
  }

  /** A vector of one level is determined by its places. */
  lemma PlacesDetermine(a: seq<Pair>, b: seq<Pair>, level: nat)
    requires AllAt(a, level) && AllAt(b, level) && Spans(a, level) == Spans(b, level)
    ensures a == b
  {
    forall i | 0 <= i < |a| ensures a[i] == b[i] {
      assert PairAt(a[i], level) && PairAt(b[i], level);
      assert Spans(a, level)[i] == Spans(b, level)[i];
      PlaceOrder(a[i].first, b[i].first, level);
      PlaceOrder(a[i].second, b[i].second, level);
    }
  }

  /** `|=` with a pair of the same sorted vector changes nothing, or makes it shorter when the pair before touches it. */
  lemma InsertPresent(range: seq<Pair>, i: nat, level: nat)
    requires Sorted(range, level) && i < |range|
    ensures StepsOf(range, range[i]) == Fine
    ensures if i > 0 && NeighboursTouch(range, i - 1) then |Insert(range, range[i])| < |range|
            else Insert(range, range[i]) == range
  {
    hide Less, LessEq, Greater, Equal, Place, Insert, StepsOf, NeighboursTouch, PairAt;
    assert PairAt(range[i], level);
    AllFacts(range, level);
    StepsAreFine(range, range[i]);
    SortedOnPlaces(range, level);
    InsertOnPlaces(range, range[i], level);
    I.InsertPresent(Spans(range, level), i);
    if i > 0 {
      NeighboursOnPlaces(range, i - 1, level);
    }
    if !(i > 0 && NeighboursTouch(range, i - 1)) {
      PlacesDetermine(Insert(range, range[i]), range, level);
    }
  }

  lemma {:induction false} OwnPairs(range: seq<Pair>, n: nat, level: nat)
    requires Sorted(range, level) && n <= |range|
    ensures if exists i: nat :: i + 1 < n && NeighboursTouch(range, i) then InsertOwn(range, n).effect == Leaves
            else InsertOwn(range, n) == Progress(range, Fine)
  {
    hide NeighboursTouch, Sorted, Insert, StepsOf;
    if n > 0 {
      OwnPairs(range, n - 1, level);
      InsertPresent(range, n - 1, level);
      if n > 1 && NeighboursTouch(range, n - 2) {
        assert n - 2 + 1 < n;
      }
    }
  }

  /** `v |= v` leaves a sorted range as it is, unless two of its pairs touch: then it is undefined. */
  lemma UnionWithItself(range: seq<Pair>, level: nat)
    requires Sorted(range, level)
    ensures var v := RangeValue(range, "");
            var u := UnionState(v, v, true);
            if exists i: nat :: i + 1 < |range| && NeighboursTouch(range, i) then u.effect == Leaves
            else u == After(v, Fine)
  {
    OwnPairs(range, |range|, level);
  }

  // ---------------------------------------------------------------- an empty range and a branch

  /** The empty range `&=` the branch `main` is that branch, though the two have no version in common. */
  lemma EmptyMeetsBranch()
    ensures var main := RangeValue([], "main");
            && IntersectState(EMPTY, main) == After(main, Fine)
            && main.HasVersion(Version([], [], "main")) && !EMPTY.HasVersion(Version([], [], "main"))
  {
  }
}
