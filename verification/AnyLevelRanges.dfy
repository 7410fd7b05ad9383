/** What `|=` and `&=` do to ranges whose bounds are any numeric versions, of different levels and with extras. */
module AnyLevelRanges {
  import opened Versions
  import opened VersionSteps
  import opened VersionRanges
  import opened Options
  import P = VersionRangeProofs
  import I = Intervals

  // ---------------------------------------------------------------- intersection

  /** The intersection of two pairs has exactly the versions that both have, of every level and extra. */
  lemma IntersectHasExactly(a: Pair, b: Pair, v: Version)
    requires !a.IsBranch() && !b.IsBranch() && !v.IsBranch()
    ensures var o := a.Intersect(b);
            a.Has(v) && b.Has(v) <==> o.Some? && o.value.Has(v)
  {
    hide Less, LessEq, Greater, Equal;
    var lo, hi := Max(a.first, b.first), Min(a.second, b.second);
    MaxIsLeastAbove(a.first, b.first, v);
    MinIsGreatestBelow(a.second, b.second, v);
    OrderIsTotalPreorder(lo, v, hi);
    OrderIsTotalPreorder(hi, lo, hi);
    OrderIsTotalPreorder(lo, hi, lo);
  }

  lemma MaxIsLeastAbove(a: Version, b: Version, v: Version)
    ensures LessEq(Max(a, b), v) <==> LessEq(a, v) && LessEq(b, v)
  {
    hide Less, LessEq, Greater, Equal;
    OrderIsTotalPreorder(a, b, v);
    OrderIsTotalPreorder(b, a, v);
  }

  lemma MinIsGreatestBelow(a: Version, b: Version, v: Version)
    ensures LessEq(v, Min(a, b)) <==> LessEq(v, a) && LessEq(v, b)
  {
    hide Less, LessEq, Greater, Equal;
    OrderIsTotalPreorder(v, a, b);
    OrderIsTotalPreorder(v, b, a);
    OrderIsTotalPreorder(b, a, b);
  }

  lemma {:induction false} RowHasExactly(p: Pair, others: seq<Pair>, v: Version)
    requires !p.IsBranch() && AllNumeric(others) && !v.IsBranch()
    ensures AnyHas(RowIntersections(p, others), v) <==> p.Has(v) && AnyHas(others, v)
  {
    hide Less, LessEq, Greater, Equal, AnyHas, Pair.Has, Pair.Intersect;
    if others == [] {
      NothingHas(v);
    } else {
      var n := |others| - 1;
      RowHasExactly(p, others[..n], v);
      P.AnyHasOfLast(others, v);
      IntersectHasExactly(p, others[n], v);
      if p.Intersect(others[n]).Some? {
        P.AnyHasOfLast(RowIntersections(p, others), v);
      }
    }
  }

  lemma NothingHas(v: Version)
    ensures !AnyHas([], v)
  {
  }

  /** All intersections of two vectors together have exactly the versions that both have. */
  lemma {:induction false} IntersectionsHaveExactly(a: seq<Pair>, b: seq<Pair>, v: Version)
    requires AllNumeric(a) && AllNumeric(b) && !v.IsBranch()
    ensures AnyHas(Intersections(a, b), v) <==> AnyHas(a, v) && AnyHas(b, v)
  {
    hide Less, LessEq, Greater, Equal, AnyHas, Pair.Has, Pair.Intersect;
    if a == [] {
      NothingHas(v);
    } else {
      var n := |a| - 1;
      IntersectionsHaveExactly(a[..n], b, v);
      RowHasExactly(a[n], b, v);
      P.AnyHasOfLast(a, v);
      P.AnyHasOfAppend(Intersections(a[..n], b), RowIntersections(a[n], b), v);
    }
  }

  // ---------------------------------------------------------------- the order of finitely many versions, in integers

  /** How many of `vs` are below `w`. */
  function Rank(vs: seq<Version>, w: Version): nat {
    if vs == [] then 0 else (if Less(vs[0], w) then 1 else 0) + Rank(vs[1..], w)
  }

  lemma {:induction false} RankGrows(vs: seq<Version>, a: Version, b: Version)
    requires LessEq(a, b)
    ensures Rank(vs, a) <= Rank(vs, b)
    ensures a in vs && Less(a, b) ==> Rank(vs, a) < Rank(vs, b)
  {
    hide Less, LessEq, Equal, Greater;
    if vs != [] {
      RankGrows(vs[1..], a, b);
      OrderIsTotalPreorder(vs[0], a, b);
      OrderIsTotalPreorder(vs[0], b, a);
      OrderIsTotalPreorder(a, b, vs[0]);
      OrderIsTotalPreorder(a, a, a);
      OrderIsTotalPreorder(b, vs[0], a);
      assert vs == [vs[0]] + vs[1..];
    }
  }

  /** Versions of the list are ordered like their ranks. */
  lemma RankOrders(vs: seq<Version>, a: Version, b: Version)
    requires a in vs && b in vs
    ensures Less(a, b) <==> Rank(vs, a) < Rank(vs, b)
    ensures LessEq(a, b) <==> Rank(vs, a) <= Rank(vs, b)
  {
    hide Less, LessEq, Equal, Greater, Rank;
    OrderIsTotalPreorder(a, b, a);
    OrderIsTotalPreorder(b, a, b);
    if LessEq(a, b) {
      RankGrows(vs, a, b);
    }
    if LessEq(b, a) {
      RankGrows(vs, b, a);
    }
  }

  // ---------------------------------------------------------------- pairs as intervals of doubled ranks

  /** A pair of numeric versions in order. */
  predicate Ordered(p: Pair) { !p.IsBranch() && LessEq(p.first, p.second) }

  predicate AllOrdered(range: seq<Pair>) { forall i | 0 <= i < |range| :: Ordered(range[i]) }

  predicate Listed(p: Pair, vs: seq<Version>) { p.first in vs && p.second in vs }

  predicate AllListed(range: seq<Pair>, vs: seq<Version>) { forall i | 0 <= i < |range| :: Listed(range[i], vs) }

  function Bounds(range: seq<Pair>): (vs: seq<Version>)
    ensures AllListed(range, vs)
  {
    if range == [] then []
    else
      var vs := [range[0].first, range[0].second] + Bounds(range[1..]);
      assert forall i | 0 < i < |range| :: range[i] == range[1..][i - 1];
      vs
  }

  function SpanOf(p: Pair, vs: seq<Version>): I.Span { I.Span(2 * Rank(vs, p.first), 2 * Rank(vs, p.second)) }

  function Spans(range: seq<Pair>, vs: seq<Version>): (s: seq<I.Span>)
    ensures |s| == |range|
    ensures forall i | 0 <= i < |range| :: s[i] == SpanOf(range[i], vs)
  {
    seq(|range|, i requires 0 <= i < |range| => SpanOf(range[i], vs))
  }

  lemma SpansOfParts(a: seq<Pair>, b: seq<Pair>, vs: seq<Version>)
    ensures Spans(a + b, vs) == Spans(a, vs) + Spans(b, vs)
  {
  }

  lemma SpansOfRest(range: seq<Pair>, vs: seq<Version>)
    requires range != []
    ensures Spans(range[1..], vs) == Spans(range, vs)[1..]
  {
  }

  lemma SpansOfOne(p: Pair, vs: seq<Version>)
    ensures Spans([p], vs) == [SpanOf(p, vs)]
  {
  }

  lemma AnyHasIsCovers(range: seq<Pair>, vs: seq<Version>, v: Version)
    requires AllListed(range, vs) && v in vs
    ensures AnyHas(range, v) <==> I.Covers(Spans(range, vs), 2 * Rank(vs, v))
  {
    hide Less, LessEq, Rank;
    forall i | 0 <= i < |range| ensures range[i].Has(v) <==> Spans(range, vs)[i].Has(2 * Rank(vs, v)) {
      assert Listed(range[i], vs);
      RankOrders(vs, range[i].first, v);
      RankOrders(vs, v, range[i].second);
    }
  }

  /** Merging takes the lesser lower and the greater upper rank. */
  lemma MergedRanks(a: Pair, p: Pair, vs: seq<Version>)
    requires Listed(a, vs) && Listed(p, vs)
    ensures var x, y := SpanOf(a, vs), SpanOf(p, vs);
            && Listed(Hull(a, p), vs)
            && SpanOf(Hull(a, p), vs) == I.Span(I.Lesser(x.lo, y.lo), I.Greater(x.hi, y.hi))
            && Listed(Pair(a.first, Max(a.second, p.second)), vs)
            && SpanOf(Pair(a.first, Max(a.second, p.second)), vs) == I.Span(x.lo, I.Greater(x.hi, y.hi))
  {
    hide Less, LessEq, Rank;
    RankOrders(vs, p.first, a.first);
    RankOrders(vs, a.second, p.second);
  }

  lemma {:induction false} AbsorbRanks(m: Pair, rest: seq<Pair>, vs: seq<Version>)
    requires Listed(m, vs) && AllListed(rest, vs)
    ensures AllListed(Absorb(m, rest), vs)
    ensures Spans(Absorb(m, rest), vs) == I.Absorb(SpanOf(m, vs), Spans(rest, vs))
    decreases |rest|
  {
    hide Less, LessEq, Rank, SpanOf, Listed;
    SpansOfOne(m, vs);
    if rest != [] {
      assert Listed(rest[0], vs);
      BelowIsBelow(m, rest[0], vs);
      if Less(m.second, rest[0].first) {
        SpansOfParts([m], rest, vs);
      } else {
        MergedRanks(m, rest[0], vs);
        AbsorbRanks(Pair(m.first, Max(m.second, rest[0].second)), rest[1..], vs);
        SpansOfRest(rest, vs);
      }
    }
  }

  /** Even places are never adjacent. */
  lemma BelowIsBelow(a: Pair, p: Pair, vs: seq<Version>)
    requires Listed(a, vs) && Listed(p, vs)
    ensures Less(a.second, p.first) <==> SpanOf(a, vs).hi < SpanOf(p, vs).lo
    ensures SpanOf(a, vs).hi < SpanOf(p, vs).lo <==> SpanOf(a, vs).hi + 1 < SpanOf(p, vs).lo
    ensures Greater(a.first, p.second) <==> SpanOf(p, vs).hi < SpanOf(a, vs).lo
  {
    hide Less, Greater, Rank;
    RankOrders(vs, a.second, p.first);
    RankOrders(vs, p.second, a.first);
    OrderIsTotalPreorder(a.first, p.second, a.first);
  }

  // ---------------------------------------------------------------- |= adds exactly one pair

  /** The pair that `p` joins although it only touches it. */
  function Touched(range: seq<Pair>, p: Pair): (t: nat)
    requires P.TouchMerges(range, p)
    ensures t < |range|
  {
    if Skips(range[0], p) then 1 + Touched(range[1..], p) else 0
  }

  /** What `|=` adds: `p`, and when it joins a pair that it only touches, also what lies between the two. */
  function Added(range: seq<Pair>, p: Pair): Pair {
    if P.TouchMerges(range, p) then Pair(range[Touched(range, p)].second, p.second) else p
  }

  /** The main pairs ascend and are disjoint, and every other pair lies within an earlier main one. */
  ghost predicate Shape(range: seq<Pair>, main: seq<bool>) {
    && |main| == |range| && AllOrdered(range)
    && (forall i, j | 0 <= i < j < |range| && main[i] && main[j] :: Less(range[i].second, range[j].first))
    && (forall j | 0 <= j < |range| && !main[j] :: LiesWithinMain(range, main, j))
  }

  ghost predicate LiesWithinMain(range: seq<Pair>, main: seq<bool>, j: nat)
    requires |main| == |range| && j < |range|
  {
    exists i :: 0 <= i < j && main[i] && Encloses(range[i], range[j])
  }

  predicate Encloses(a: Pair, b: Pair) { LessEq(a.first, b.first) && LessEq(b.second, a.second) }

  ghost predicate HasShape(range: seq<Pair>) { exists main: seq<bool> :: Shape(range, main) }

  lemma ShapeIsShape(range: seq<Pair>, main: seq<bool>, vs: seq<Version>)
    requires AllListed(range, vs) && AllNumeric(range) && |main| == |range|
    ensures Shape(range, main) <==> I.Shape(Spans(range, vs), main)
  {
    hide Less, LessEq, Rank;
    var s := Spans(range, vs);
    forall i | 0 <= i < |range| ensures Ordered(range[i]) <==> s[i].Proper() {
      assert Listed(range[i], vs);
      RankOrders(vs, range[i].first, range[i].second);
    }
    forall i, j | 0 <= i < |range| && 0 <= j < |range|
      ensures (Less(range[i].second, range[j].first) <==> s[i].hi < s[j].lo) && (Encloses(range[i], range[j]) <==> I.Within(s[j], s[i]))
    {
      assert Listed(range[i], vs) && Listed(range[j], vs);
      RankOrders(vs, range[i].second, range[j].first);
      RankOrders(vs, range[i].first, range[j].first);
      RankOrders(vs, range[j].second, range[i].second);
    }
    forall j | 0 <= j < |range| ensures LiesWithinMain(range, main, j) <==> I.CoveredByEarlierMain(s, main, j) {
      if i :| 0 <= i < j && main[i] && Encloses(range[i], range[j]) {
        assert I.Within(s[j], s[i]);
      }
      if i :| 0 <= i < j && main[i] && I.Within(s[j], s[i]) {
        assert Encloses(range[i], range[j]);
      }
    }
  }

  /** Without touching, `|=` on versions is `|=` on intervals of doubled ranks. */
  lemma {:induction false} InsertRanks(range: seq<Pair>, p: Pair, vs: seq<Version>)
    requires AllListed(range, vs) && Listed(p, vs) && !P.TouchMerges(range, p)
    ensures AllListed(Insert(range, p), vs)
    ensures Spans(Insert(range, p), vs) == I.Insert(Spans(range, vs), SpanOf(p, vs))
  {
    hide Less, LessEq, Greater, Equal, Rank, SpanOf, Listed, Next;
    SpansOfOne(p, vs);
    if range != [] {
      assert Listed(range[0], vs);
      BelowIsBelow(range[0], p, vs);
      SpansOfRest(range, vs);
      if Skips(range[0], p) {
        InsertRanks(range[1..], p, vs);
        SpansOfOne(range[0], vs);
        SpansOfParts([range[0]], Insert(range[1..], p), vs);
      } else if GoesBefore(range[0], p) {
        SpansOfParts([p] + range, [p], vs);
        SpansOfParts([p], range, vs);
      } else {
        MergedRanks(range[0], p, vs);
        AbsorbRanks(Hull(range[0], p), range[1..], vs);
      }
    }
  }

  /** All pairs before the one that is touched end below where that one ends. */
  ghost predicate EndBelowTouched(range: seq<Pair>, p: Pair)
    requires P.TouchMerges(range, p)
  {
    forall j | 0 <= j < Touched(range, p) :: Less(range[j].second, range[Touched(range, p)].second)
  }

  lemma MainTouchedEndsLast(range: seq<Pair>, main: seq<bool>, p: Pair)
    requires Shape(range, main) && P.TouchMerges(range, p) && main[Touched(range, p)]
    ensures EndBelowTouched(range, p)
  {
    hide Less, LessEq, Greater, Equal, Touched;
    var t := Touched(range, p);
    forall j | 0 <= j < t ensures Less(range[j].second, range[t].second) {
      assert Ordered(range[t]);
      var c := j;
      if !main[j] {
        assert LiesWithinMain(range, main, j);
        c :| 0 <= c < j && main[c] && Encloses(range[c], range[j]);
      } else {
        OrderIsTotalPreorder(range[j].second, range[j].second, range[j].second);
      }
      assert LessEq(range[j].second, range[c].second) && Less(range[c].second, range[t].first);
      LessChain(range[j].second, range[c].second, range[t].first, range[t].second);
    }
  }

  lemma LessChain(a: Version, b: Version, c: Version, d: Version)
    requires LessEq(a, b) && Less(b, c) && LessEq(c, d)
    ensures Less(a, d)
  {
    hide Less, LessEq, Greater, Equal;
    OrderIsTotalPreorder(a, b, c);
    OrderIsTotalPreorder(b, c, a);
    OrderIsTotalPreorder(c, d, a);
    OrderIsTotalPreorder(c, a, b);
    OrderIsTotalPreorder(d, a, c);
    OrderIsTotalPreorder(a, d, c);
    OrderIsTotalPreorder(c, d, a);
    OrderIsTotalPreorder(d, a, b);
    OrderIsTotalPreorder(c, b, a);
  }

  lemma TouchedRest(range: seq<Pair>, p: Pair)
    requires P.TouchMerges(range, p) && Skips(range[0], p)
    ensures P.TouchMerges(range[1..], p) && Touched(range, p) == 1 + Touched(range[1..], p)
    ensures EndBelowTouched(range, p) ==> EndBelowTouched(range[1..], p)
    ensures Added(range, p) == Added(range[1..], p)
    ensures EndBelowTouched(range, p) ==> Less(range[0].second, Added(range, p).first)
  {
    hide Less, LessEq, Greater, Equal, Next;
    if EndBelowTouched(range, p) {
      forall j | 0 <= j < Touched(range[1..], p) ensures Less(range[1..][j].second, range[1..][Touched(range[1..], p)].second) {
        assert Less(range[j + 1].second, range[Touched(range, p)].second);
      }
    }
  }

  /** Joining a pair that is only touched is merging with the pair that reaches back to its end. */
  lemma {:induction false} TouchRanks(range: seq<Pair>, p: Pair, vs: seq<Version>)
    requires AllListed(range, vs) && AllOrdered(range) && Listed(p, vs) && P.TouchMerges(range, p) && EndBelowTouched(range, p)
    requires Ordered(p)
    ensures AllListed(Insert(range, p), vs)
    ensures Spans(Insert(range, p), vs) == I.Insert(Spans(range, vs), SpanOf(Added(range, p), vs))
  {
    hide Less, LessEq, Greater, Equal, Rank, SpanOf, Listed, Next, EndBelowTouched, Touched, Insert, Absorb, I.Insert;
    SpansOfRest(range, vs);
    assert Listed(range[0], vs);
    if Skips(range[0], p) {
      TouchedRest(range, p);
      AddedListed(range[1..], p, vs);
      BelowIsBelow(range[0], Added(range, p), vs);
      TouchRanks(range[1..], p, vs);
      SpansOfOne(range[0], vs);
      SpansOfParts([range[0]], Insert(range[1..], p), vs);
      InsertSkips(range, p, Spans(range, vs), SpanOf(Added(range, p), vs));
    } else {
      TouchRanksHere(range, p, vs);
    }
  }

  lemma AddedListed(range: seq<Pair>, p: Pair, vs: seq<Version>)
    requires AllListed(range, vs) && Listed(p, vs)
    ensures Listed(Added(range, p), vs)
  {
    if P.TouchMerges(range, p) {
      assert Listed(range[Touched(range, p)], vs);
    }
  }

  lemma InsertSkips(range: seq<Pair>, p: Pair, s: seq<I.Span>, q: I.Span)
    requires range != [] && s != []
    ensures Skips(range[0], p) ==> Insert(range, p) == [range[0]] + Insert(range[1..], p)
    ensures s[0].hi + 1 < q.lo ==> I.Insert(s, q) == [s[0]] + I.Insert(s[1..], q)
  {
  }

  lemma TouchRanksHere(range: seq<Pair>, p: Pair, vs: seq<Version>)
    requires AllListed(range, vs) && AllOrdered(range) && Listed(p, vs) && Ordered(p)
    requires P.TouchMerges(range, p) && !Skips(range[0], p)
    ensures AllListed(Insert(range, p), vs)
    ensures Spans(Insert(range, p), vs) == I.Insert(Spans(range, vs), SpanOf(Added(range, p), vs))
  {
    hide Less, LessEq, Greater, Equal, Rank, Next, Absorb;
    var a := range[0];
    assert Listed(a, vs) && Ordered(a);
    assert Added(range, p) == Pair(a.second, p.second);
    RankOrders(vs, a.first, a.second);
    RankOrders(vs, a.second, p.first);
    RankOrders(vs, p.first, p.second);
    MergedRanks(a, p, vs);
    AbsorbRanks(Hull(a, p), range[1..], vs);
    SpansOfRest(range, vs);
  }

  /**
    * `|=` on any vector that unions can build, with bounds of any levels and extras: the shape is kept, and exactly
    * the versions of the pair come in, and those between it and a pair that it only touches.
    */
  lemma InsertAddsExactly(range: seq<Pair>, main: seq<bool>, p: Pair, v: Version)
    requires Shape(range, main) && Ordered(p) && !v.IsBranch()
    requires P.TouchMerges(range, p) ==> main[Touched(range, p)]
    ensures HasShape(Insert(range, p))
    ensures AnyHas(Insert(range, p), v) <==> AnyHas(range, v) || Added(range, p).Has(v)
  {
    hide Less, LessEq, Greater, Equal, Rank, Shape, Insert, AnyHas, P.TouchMerges, Next;
    var vs := Bounds(range) + (Bounds([p]) + [v]);
    ListedInMore(range, p, v);
    assert AllOrdered(range) && |main| == |range| by { ShapeFacts(range, main); }
    if P.TouchMerges(range, p) {
      MainTouchedEndsLast(range, main, p);
      TouchRanks(range, p, vs);
    } else {
      InsertRanks(range, p, vs);
    }
    AddedListed(range, p, vs);
    AddedIsProper(range, p, vs);
    ShapeIsShape(range, main, vs);
    assert I.HasShape(Spans(range, vs));
    I.InsertIsExact(Spans(range, vs), SpanOf(Added(range, p), vs));
    InsertNumeric(range, p);
    var after: seq<bool> :| I.Shape(Spans(Insert(range, p), vs), after);
    ShapeIsShape(Insert(range, p), after, vs);
    AnyHasIsCovers(range, vs, v);
    AnyHasIsCovers(Insert(range, p), vs, v);
    AnyHasIsCovers([Added(range, p)], vs, v);
    OneCovers(Added(range, p), vs, v);
  }

  lemma ShapeFacts(range: seq<Pair>, main: seq<bool>)
    requires Shape(range, main)
    ensures AllOrdered(range) && |main| == |range|
  {
  }

  lemma ListedInMore(range: seq<Pair>, p: Pair, v: Version)
    ensures var vs := Bounds(range) + (Bounds([p]) + [v]);
            AllListed(range, vs) && Listed(p, vs) && v in vs
  {
    var vs := Bounds(range) + (Bounds([p]) + [v]);
    assert Listed([p][0], Bounds([p]));
    forall i | 0 <= i < |range| ensures Listed(range[i], vs) {
      assert Listed(range[i], Bounds(range));
    }
  }

  lemma AddedIsProper(range: seq<Pair>, p: Pair, vs: seq<Version>)
    requires AllListed(range, vs) && Listed(p, vs) && Ordered(p)
    ensures SpanOf(Added(range, p), vs).Proper()
  {
    hide Less, LessEq, Greater, Equal, Rank, Next;
    RankOrders(vs, p.first, p.second);
    if P.TouchMerges(range, p) {
      TouchedIsBelow(range, p);
      assert Listed(range[Touched(range, p)], vs);
      RankOrders(vs, range[Touched(range, p)].second, p.first);
    }
  }

  lemma {:induction false} TouchedIsBelow(range: seq<Pair>, p: Pair)
    requires P.TouchMerges(range, p)
    ensures Less(range[Touched(range, p)].second, p.first)
  {
    if Skips(range[0], p) {
      TouchedIsBelow(range[1..], p);
    }
  }

  lemma OneCovers(p: Pair, vs: seq<Version>, v: Version)
    ensures AnyHas([p], v) <==> p.Has(v)
    ensures I.Covers(Spans([p], vs), 2 * Rank(vs, v)) <==> SpanOf(p, vs).Has(2 * Rank(vs, v))
  {
    assert [p][0] == p;
    SpansOfOne(p, vs);
    I.CoverOfOne(SpanOf(p, vs), 2 * Rank(vs, v));
  }

  // ---------------------------------------------------------------- folds

  /** No step of the fold joins a pair to one that it only touches. */
  ghost predicate NeverTouches(range: seq<Pair>, ps: seq<Pair>) {
    forall k | 0 <= k < |ps| :: !P.TouchMerges(InsertAll(range, ps[..k]), ps[k])
  }

  lemma NeverTouchesLast(range: seq<Pair>, ps: seq<Pair>)
    requires ps != [] && NeverTouches(range, ps)
    ensures var n := |ps| - 1; NeverTouches(range, ps[..n]) && !P.TouchMerges(InsertAll(range, ps[..n]), ps[n])
  {
    var n := |ps| - 1;
    forall k | 0 <= k < n ensures !P.TouchMerges(InsertAll(range, ps[..n][..k]), ps[..n][k]) {
      assert ps[..n][..k] == ps[..k];
    }
  }

  /** Folding any pairs with `|=` that never only touch keeps exactly the versions of some pair: all levels, all extras. */
  lemma {:induction false} FoldIsExact(range: seq<Pair>, ps: seq<Pair>, v: Version)
    requires HasShape(range) && AllOrdered(ps) && NeverTouches(range, ps) && !v.IsBranch()
    ensures HasShape(InsertAll(range, ps))
    ensures AnyHas(InsertAll(range, ps), v) <==> AnyHas(range, v) || AnyHas(ps, v)
  {
    hide Less, LessEq, Greater, Equal, Shape, Insert, AnyHas, P.TouchMerges, NeverTouches, Ordered, Pair.Has;
    if ps == [] {
      NothingHas(v);
    } else {
      var n := |ps| - 1;
      NeverTouchesLast(range, ps);
      FoldIsExact(range, ps[..n], v);
      var before := InsertAll(range, ps[..n]);
      var main: seq<bool> :| Shape(before, main);
      InsertAddsExactly(before, main, ps[n], v);
      P.AnyHasOfLast(ps, v);
    }
  }

  lemma NothingHasShape()
    ensures HasShape([])
  {
    assert Shape([], []);
  }

  /** `A & B` for any numeric pairs: what is collected is ordered, and where it never only touches, the result is exact. */
  lemma IntersectionIsExact(a: seq<Pair>, b: seq<Pair>, v: Version)
    requires AllNumeric(a) && AllNumeric(b) && NeverTouches([], Intersections(a, b)) && !v.IsBranch()
    ensures var r := IntersectState(RangeValue(a, ""), RangeValue(b, ""));
            r.effect == Fine ==> (r.value.HasVersion(v) <==> AnyHas(a, v) && AnyHas(b, v))
  {
    hide Less, LessEq, Greater, Equal, AnyHas, NeverTouches, Insert, Shape;
    var found := Intersections(a, b);
    IntersectionsAreOrdered(a, b);
    IntersectionsHaveExactly(a, b, v);
    NothingHasShape();
    NothingHas(v);
    FoldIsExact([], found, v);
    if InsertEach([], found).effect == Fine {
      InsertEachIsAll([], found);
    }
  }

  lemma {:induction false} RowIsOrdered(p: Pair, others: seq<Pair>)
    requires !p.IsBranch() && AllNumeric(others)
    ensures AllOrdered(RowIntersections(p, others))
  {
    hide Less, LessEq, Equal;
    if others != [] {
      var q := others[|others| - 1];
      RowIsOrdered(p, others[..|others| - 1]);
      var lo, hi := Max(p.first, q.first), Min(p.second, q.second);
      OrderIsTotalPreorder(hi, lo, hi);
      OrderIsTotalPreorder(lo, hi, lo);
    }
  }

  lemma {:induction false} IntersectionsAreOrdered(a: seq<Pair>, b: seq<Pair>)
    requires AllNumeric(a) && AllNumeric(b)
    ensures AllOrdered(Intersections(a, b))
  {
    if a != [] {
      IntersectionsAreOrdered(a[..|a| - 1], b);
      RowIsOrdered(a[|a| - 1], b);
    }
  }

  // ---------------------------------------------------------------- branches

  /** A range has the branch of its name and no other, or the numeric versions between the bounds of some pair. */
  lemma MembershipByKind(r: RangeValue, v: Version)
    requires r.branch != "" ==> r.range == []
    ensures v.branch != "" ==> (r.HasVersion(v) <==> r.branch == v.branch)
    ensures v.branch == "" ==>
              (r.HasVersion(v) <==> exists i | 0 <= i < |r.range| :: LessEq(r.range[i].first, v) && LessEq(v, r.range[i].second))
  {
    hide LessEq;
    if i :| 0 <= i < |r.range| && LessEq(r.range[i].first, v) && LessEq(v, r.range[i].second) {
      assert r.range[i].Has(v);
    }
    if i :| 0 <= i < |r.range| && r.range[i].Has(v) {
      assert LessEq(r.range[i].first, v) && LessEq(v, r.range[i].second);
    }
  }

  /** The empty range united with a pair that has a branch in it is that branch, the first one when there are two. */
  lemma EmptyTakesBranch(p: Pair, v: Version)
    requires p.first.branch != "" || p.second.branch != ""
    ensures var u := UnionPairState(EMPTY, p);
            && u.effect == Fine
            && (u.value.HasVersion(v) <==> v.branch == if p.first.branch != "" then p.first.branch else p.second.branch)
  {
  }

  /** A pair with a branch in it wins over the other one in an intersection, the left one first. */
  lemma BranchPairsWin(a: Pair, b: Pair)
    ensures a.first.branch != "" || a.second.branch != "" ==> a.Intersect(b) == Some(a)
    ensures a.first.branch == "" && a.second.branch == "" && (b.first.branch != "" || b.second.branch != "") ==>
              a.Intersect(b) == Some(b)
  {
  }

  /**
    * With a branch on the left every operator throws; with one on the right it throws unless the left side is empty,
    * and then takes the branch. Otherwise only a step `++v` can throw.
    */
  lemma BranchRules(v: RangeValue, rhs: RangeValue, p: Pair, own: bool)
    ensures v.branch != "" ==>
              UnionState(v, rhs, own) == IntersectState(v, rhs) == UnionPairState(v, p) == After(v, Throws)
    ensures v.branch == "" && rhs.branch != "" ==>
              UnionState(v, rhs, own) == IntersectState(v, rhs)
              == if v.range == [] then After(RangeValue([], rhs.branch), Fine) else After(v, Throws)
    ensures v.branch == "" && p.IsBranch() && v.range != [] ==> UnionPairState(v, p) == After(v, Throws)
    ensures v.branch == "" && !p.IsBranch() && UnionPairState(v, p).effect == Throws ==>
              UnionPairState(v, p).value == RangeValue(v.range, "") && exists i | 0 <= i < |v.range| :: v.range[i].second.numbers == []
  {
    if v.branch == "" && !p.IsBranch() && StepsOf(v.range, p) == Throws {
      ThrowsAtShort(v.range, p);
    }
  }

  lemma {:induction false} ThrowsAtShort(range: seq<Pair>, p: Pair)
    requires StepsOf(range, p) == Throws
    ensures exists i | 0 <= i < |range| :: range[i].second.numbers == []
  {
    if IncrementEffect(range[0].second, range[0].second.Level()) == Throws {
      assert range[0].second.numbers == [];
    } else {
      ThrowsAtShort(range[1..], p);
      var i :| 0 <= i < |range[1..]| && range[1..][i].second.numbers == [];
      assert range[i + 1].second.numbers == [];
    }
  }
}
