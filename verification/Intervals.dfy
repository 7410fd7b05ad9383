/**
  * `|=` of version ranges seen through places: the same vector edits on closed integer intervals.
  * VersionRangeProofs shows that ranges of one level behave exactly like this.
  */
module Intervals {

  datatype Span = Span(lo: int, hi: int) {
    predicate Proper() { lo <= hi }

    predicate Has(x: int) { lo <= x <= hi }
  }

  function Lesser(a: int, b: int): int { if b < a then b else a }

  function Greater(a: int, b: int): int { if a < b then b else a }

  function Absorb(m: Span, rest: seq<Span>): seq<Span>
    decreases |rest|
  {
    if rest == [] then [m]
    else if m.hi < rest[0].lo then [m] + rest
    else Absorb(Span(m.lo, Greater(m.hi, rest[0].hi)), rest[1..])
  }

  function Insert(s: seq<Span>, p: Span): seq<Span> {
    if s == [] then [p]
    else if s[0].hi + 1 < p.lo then [s[0]] + Insert(s[1..], p)
    else if p.hi < s[0].lo then [p] + s + [p]
    else Absorb(Span(Lesser(s[0].lo, p.lo), Greater(s[0].hi, p.hi)), s[1..])
  }

  function InsertAll(s: seq<Span>, ps: seq<Span>): seq<Span> {
    if ps == [] then s else Insert(InsertAll(s, ps[..|ps| - 1]), ps[|ps| - 1])
  }

  ghost predicate AllProper(s: seq<Span>) {
    forall i | 0 <= i < |s| :: s[i].Proper()
  }

  ghost predicate Covers(s: seq<Span>, x: int) {
    exists i :: 0 <= i < |s| && s[i].Has(x)
  }

  // ---------------------------------------------------------------- covers

  lemma CoverOfAppend(a: seq<Span>, b: seq<Span>, x: int)
    ensures Covers(a + b, x) <==> Covers(a, x) || Covers(b, x)
  {
    if i :| 0 <= i < |a| && a[i].Has(x) {
      assert (a + b)[i].Has(x);
    }
    if i :| 0 <= i < |b| && b[i].Has(x) {
      assert (a + b)[|a| + i].Has(x);
    }
    if i :| 0 <= i < |a + b| && (a + b)[i].Has(x) {
      assert i >= |a| ==> b[i - |a|].Has(x);
    }
  }

  lemma CoverOfOne(p: Span, x: int)
    ensures Covers([p], x) <==> p.Has(x)
  {
    assert [p][0] == p;
  }

  // ---------------------------------------------------------------- the invariant

  ghost predicate Within(a: Span, b: Span) { b.lo <= a.lo && a.hi <= b.hi }

  ghost predicate CoveredByEarlierMain(s: seq<Span>, main: seq<bool>, j: nat)
    requires |main| == |s| && j < |s|
  {
    exists i :: 0 <= i < j && main[i] && Within(s[j], s[i])
  }

  /**
    * The vector is made of main spans, strictly ascending and disjoint, and of leftover copies ("ghosts"),
    * each within one earlier main span.
    */
  ghost predicate Shape(s: seq<Span>, main: seq<bool>) {
    && |main| == |s|
    && AllProper(s)
    && (forall i, j | 0 <= i < j < |s| && main[i] && main[j] :: s[i].hi < s[j].lo)
    && (forall j | 0 <= j < |s| && !main[j] :: CoveredByEarlierMain(s, main, j))
  }

  ghost predicate HasShape(s: seq<Span>) {
    exists main: seq<bool> :: Shape(s, main)
  }

  /** The same while the span at `k` is still growing and may reach into the main spans after it. */
  ghost predicate GrowingShape(s: seq<Span>, main: seq<bool>, k: nat) {
    && |main| == |s| && k < |s| && main[k]
    && AllProper(s)
    && (forall i, j | 0 <= i < j < |s| && i != k && main[i] && main[j] :: s[i].hi < s[j].lo)
    && (forall j | k < j < |s| && main[j] :: s[k].lo < s[j].lo)
    && (forall j | 0 <= j < |s| && !main[j] :: CoveredByEarlierMain(s, main, j))
  }

  /** When the next span starts beyond the growing one, it is a main span and growing is over. */
  lemma GrowthEnds(s: seq<Span>, main: seq<bool>, k: nat)
    requires GrowingShape(s, main, k)
    requires k + 1 < |s| ==> s[k].hi < s[k + 1].lo
    ensures Shape(s, main)
  {
    if k + 1 < |s| {
      assert s[k + 1].Proper();
      if !main[k + 1] {
        var c := NextGhost(s, main, k);
      }
    }
  }

  function Swallowed(s: seq<Span>, k: nat): seq<Span>
    requires k + 1 < |s|
  {
    s[..k] + [Span(s[k].lo, Greater(s[k].hi, s[k + 1].hi))] + s[k + 2..]
  }

  /** A ghost right after the growing span already lies within it or within an earlier main span. */
  lemma NextGhost(s: seq<Span>, main: seq<bool>, k: nat) returns (c: nat)
    requires GrowingShape(s, main, k) && k + 1 < |s| && !main[k + 1]
    ensures c <= k && main[c] && Within(s[k + 1], s[c]) && s[k + 1].hi <= s[k].hi
  {
    assert CoveredByEarlierMain(s, main, k + 1);
    c :| 0 <= c < k + 1 && main[c] && Within(s[k + 1], s[c]);
    assert c < k ==> s[c].hi < s[k].lo;
  }

  lemma SwallowedSlices(s: seq<Span>, k: nat)
    requires k + 1 < |s|
    ensures var next, m := Swallowed(s, k), Span(s[k].lo, Greater(s[k].hi, s[k + 1].hi));
            |next| == |s| - 1 && next[k] == m && next[..k] == s[..k] && next[k + 1..] == s[k + 2..]
  {
  }

  /** Where the entry at `j` was before the entry after `k` was erased. */
  function Before(j: nat, k: nat): nat { if j <= k then j else j + 1 }

  /** `next` and `nextMain` are `s` and `main` without entry `k + 1`, except that `next[k]` has grown to `m`. */
  ghost predicate Erased<T>(s: seq<T>, next: seq<T>, k: nat) {
    && k + 1 < |s| && |next| == |s| - 1
    && (forall j: nat | j < |next| && j != k :: next[j] == s[Before(j, k)])
  }

  lemma SwallowedErases(s: seq<Span>, main: seq<bool>, k: nat)
    requires |main| == |s| && k + 1 < |s|
    ensures Erased(s, Swallowed(s, k), k)
    ensures Erased(main, main[..k + 1] + main[k + 2..], k) && (main[..k + 1] + main[k + 2..])[k] == main[k]
  {
  }

  lemma ErasedGhosts(s: seq<Span>, main: seq<bool>, next: seq<Span>, nextMain: seq<bool>, k: nat, j: nat)
    requires GrowingShape(s, main, k) && Erased(s, next, k) && Erased(main, nextMain, k) && nextMain[k]
    requires Within(s[k], next[k]) && (main[k + 1] ==> Within(s[k + 1], next[k]))
    requires j < |next| && !nextMain[j]
    ensures CoveredByEarlierMain(next, nextMain, j)
  {
    assert CoveredByEarlierMain(s, main, Before(j, k));
    var c :| 0 <= c < Before(j, k) && main[c] && Within(s[Before(j, k)], s[c]);
    var c1 := if c <= k then c else c - 1;
    assert nextMain[c1] && Within(next[j], next[c1]);
  }

  lemma GrowthSwallows(s: seq<Span>, main: seq<bool>, k: nat)
    requires GrowingShape(s, main, k) && k + 1 < |s| && s[k + 1].lo <= s[k].hi
    ensures GrowingShape(Swallowed(s, k), main[..k + 1] + main[k + 2..], k)
  {
    var next, nextMain := Swallowed(s, k), main[..k + 1] + main[k + 2..];
    SwallowedErases(s, main, k);
    SwallowedSlices(s, k);
    assert s[k].Proper() && s[k + 1].Proper();
    if !main[k + 1] {
      var c := NextGhost(s, main, k);
    }
    ErasedIsGrowing(s, main, next, nextMain, k);
  }

  lemma ErasedIsGrowing(s: seq<Span>, main: seq<bool>, next: seq<Span>, nextMain: seq<bool>, k: nat)
    requires GrowingShape(s, main, k) && Erased(s, next, k) && Erased(main, nextMain, k) && nextMain[k]
    requires next[k].Proper() && next[k].lo == s[k].lo && s[k].hi <= next[k].hi
    requires main[k + 1] ==> Within(s[k + 1], next[k])
    ensures GrowingShape(next, nextMain, k)
  {
    forall j | 0 <= j < |next| && !nextMain[j] ensures CoveredByEarlierMain(next, nextMain, j) {
      ErasedGhosts(s, main, next, nextMain, k, j);
    }
    forall i: nat, j: nat | i < j < |next| && i != k && nextMain[i] && nextMain[j] ensures next[i].hi < next[j].lo {
      assert main[Before(i, k)] && main[Before(j, k)];
    }
    forall j: nat | k < j < |next| && nextMain[j] ensures next[k].lo < next[j].lo {
      assert main[Before(j, k)];
    }
    forall j: nat | j < |next| ensures next[j].Proper() {
      assert j != k ==> s[Before(j, k)].Proper();
    }
  }

  /** Where three parts of a vector meet, the middle one may be replaced by another of the same cover. */
  lemma CoverOfMiddle(a: seq<Span>, b: seq<Span>, b': seq<Span>, c: seq<Span>, x: int)
    requires Covers(a, x) || Covers(c, x) || (Covers(b, x) <==> Covers(b', x))
    ensures Covers(a + b + c, x) <==> Covers(a + b' + c, x)
  {
    CoverOfAppend(a + b, c, x);
    CoverOfAppend(a, b, x);
    CoverOfAppend(a + b', c, x);
    CoverOfAppend(a, b', x);
  }

  lemma CoverOfTwo(p: Span, q: Span, x: int)
    ensures Covers([p, q], x) <==> p.Has(x) || q.Has(x)
  {
    assert [p, q] == [p] + [q];
    CoverOfAppend([p], [q], x);
    CoverOfOne(p, x);
    CoverOfOne(q, x);
  }

  /** Swallowing the next span loses no integer and adds none. */
  lemma SwallowKeepsCover(s: seq<Span>, main: seq<bool>, k: nat, x: int)
    requires GrowingShape(s, main, k) && k + 1 < |s| && s[k + 1].lo <= s[k].hi
    ensures Covers(Swallowed(s, k), x) <==> Covers(s, x)
  {
    var m := Span(s[k].lo, Greater(s[k].hi, s[k + 1].hi));
    assert s == s[..k] + [s[k], s[k + 1]] + s[k + 2..];
    CoverOfOne(m, x);
    CoverOfTwo(s[k], s[k + 1], x);
    if !main[k + 1] {
      var c := NextGhost(s, main, k);
      if c < k && s[c].Has(x) {
        assert s[..k][c].Has(x);
      }
    }
    CoverOfMiddle(s[..k], [m], [s[k], s[k + 1]], s[k + 2..], x);
  }

  /** The absorbing phase ends in a proper shape with the same cover. */
  lemma {:induction false} AbsorbKeepsShape(s: seq<Span>, main: seq<bool>, k: nat)
    requires GrowingShape(s, main, k)
    ensures HasShape(s[..k] + Absorb(s[k], s[k + 1..]))
    ensures forall x :: Covers(s[..k] + Absorb(s[k], s[k + 1..]), x) <==> Covers(s, x)
    decreases |s|
  {
    hide CoveredByEarlierMain;
    var rest := s[k + 1..];
    if rest == [] || s[k].hi < rest[0].lo {
      GrowthEnds(s, main, k);
      assert Absorb(s[k], rest) == [s[k]] + rest && s[..k] + ([s[k]] + rest) == s;
    } else {
      var next := Swallowed(s, k);
      GrowthSwallows(s, main, k);
      forall x ensures Covers(next, x) <==> Covers(s, x) {
        SwallowKeepsCover(s, main, k, x);
      }
      AbsorbKeepsShape(next, main[..k + 1] + main[k + 2..], k);
      assert next[..k] + Absorb(next[k], next[k + 1..]) == s[..k] + Absorb(s[k], rest) by {
        SwallowedSlices(s, k);
        assert rest[1..] == s[k + 2..];
      }
    }
  }

  /** Every span before `i` is skipped by `p`. */
  ghost predicate SkippedUpTo(s: seq<Span>, p: Span, i: nat) {
    i <= |s| && forall k | 0 <= k < i :: s[k].hi + 1 < p.lo
  }

  /** A ghost is skipped whenever everything before it is; so what stops the scan is a main span. */
  lemma GhostIsSkipped(s: seq<Span>, main: seq<bool>, p: Span, i: nat)
    requires Shape(s, main) && SkippedUpTo(s, p, i) && i < |s| && !main[i]
    ensures s[i].hi + 1 < p.lo
  {
    assert CoveredByEarlierMain(s, main, i);
    var c :| 0 <= c < i && main[c] && Within(s[i], s[c]);
  }

  lemma AppendKeepsShape(s: seq<Span>, main: seq<bool>, p: Span)
    requires Shape(s, main) && p.Proper() && SkippedUpTo(s, p, |s|)
    ensures Shape(s + [p], main + [true])
  {
    var next, nextMain := s + [p], main + [true];
    forall j | 0 <= j < |next| && !nextMain[j] ensures CoveredByEarlierMain(next, nextMain, j) {
      var c :| 0 <= c < j && main[c] && Within(s[j], s[c]);
      assert nextMain[c] && Within(next[j], next[c]);
    }
  }

  /** Where the entry at `j` was before one was put in at `i`. */
  function Shifted(j: nat, i: nat): nat { if j < i then j else if j == 0 then 0 else j - 1 }

  /** `next` is `s` with `p` put in at `i` and `q` appended. */
  ghost predicate PutIn<T>(s: seq<T>, next: seq<T>, i: nat, p: T, q: T) {
    && i < |s| && |next| == |s| + 2 && next[i] == p && next[|s| + 1] == q
    && (forall j: nat | j < |s| + 1 && j != i :: next[j] == s[Shifted(j, i)])
  }

  lemma InsertBeforeKeepsShape(s: seq<Span>, main: seq<bool>, p: Span, i: nat)
    requires Shape(s, main) && p.Proper() && SkippedUpTo(s, p, i) && i < |s| && p.hi < s[i].lo
    ensures Shape(s[..i] + [p] + s[i..] + [p], main[..i] + [true] + main[i..] + [false])
  {
    hide CoveredByEarlierMain;
    assert s[i].Proper();
    if !main[i] {
      GhostIsSkipped(s, main, p, i);
    }
    var next, nextMain := s[..i] + [p] + s[i..] + [p], main[..i] + [true] + main[i..] + [false];
    assert PutIn(s, next, i, p, p) && PutIn(main, nextMain, i, true, false);
    PutInShape(s, main, p, i, next, nextMain);
  }

  lemma PutInGhosts(s: seq<Span>, main: seq<bool>, p: Span, i: nat, next: seq<Span>, nextMain: seq<bool>, j: nat)
    requires Shape(s, main) && i < |s|
    requires PutIn(s, next, i, p, p) && PutIn(main, nextMain, i, true, false)
    requires j < |next| && !nextMain[j]
    ensures CoveredByEarlierMain(next, nextMain, j)
  {
    if j == |s| + 1 {
      assert nextMain[i] && Within(next[j], next[i]);
    } else {
      var j0 := Shifted(j, i);
      assert CoveredByEarlierMain(s, main, j0);
      var c :| 0 <= c < j0 && main[c] && Within(s[j0], s[c]);
      var c1 := if c < i then c else c + 1;
      assert nextMain[c1] && Within(next[j], next[c1]);
    }
  }

  lemma PutInShape(s: seq<Span>, main: seq<bool>, p: Span, i: nat, next: seq<Span>, nextMain: seq<bool>)
    requires Shape(s, main) && p.Proper() && SkippedUpTo(s, p, i) && i < |s| && p.hi < s[i].lo && main[i]
    requires PutIn(s, next, i, p, p) && PutIn(main, nextMain, i, true, false)
    ensures Shape(next, nextMain)
  {
    hide CoveredByEarlierMain;
    assert s[i].Proper();
    forall j: nat, k: nat | j < k < |next| && nextMain[j] && nextMain[k] ensures next[j].hi < next[k].lo {
      assert j != i ==> main[Shifted(j, i)];
      assert k != i ==> main[Shifted(k, i)];
    }
    forall j: nat | j < |next| ensures next[j].Proper() {
      assert j != i && j != |s| + 1 ==> s[Shifted(j, i)].Proper();
    }
    forall j: nat | j < |next| && !nextMain[j] ensures CoveredByEarlierMain(next, nextMain, j) {
      PutInGhosts(s, main, p, i, next, nextMain, j);
    }
  }

  lemma MergeStartsGrowth(s: seq<Span>, main: seq<bool>, p: Span, i: nat)
    requires Shape(s, main) && p.Proper() && SkippedUpTo(s, p, i) && i < |s|
    requires p.lo <= s[i].hi + 1 && s[i].lo <= p.hi
    ensures GrowingShape(s[i := Span(Lesser(s[i].lo, p.lo), Greater(s[i].hi, p.hi))], main, i)
  {
    if !main[i] {
      GhostIsSkipped(s, main, p, i);
    }
    var next := s[i := Span(Lesser(s[i].lo, p.lo), Greater(s[i].hi, p.hi))];
    forall j | 0 <= j < |next| && !main[j] ensures CoveredByEarlierMain(next, main, j) {
      var c :| 0 <= c < j && main[c] && Within(s[j], s[c]);
      assert Within(next[j], next[c]);
    }
  }

  lemma MergeCover(s: seq<Span>, p: Span, i: nat, x: int)
    requires i < |s| && s[i].Proper() && p.Proper() && p.lo <= s[i].hi + 1 && s[i].lo <= p.hi
    ensures Covers(s[i := Span(Lesser(s[i].lo, p.lo), Greater(s[i].hi, p.hi))], x) <==> Covers(s, x) || p.Has(x)
  {
    var m := Span(Lesser(s[i].lo, p.lo), Greater(s[i].hi, p.hi));
    assert s == s[..i] + [s[i]] + s[i + 1..] && s[i := m] == s[..i] + [m] + s[i + 1..];
    CoverOfOne(s[i], x);
    CoverOfOne(m, x);
    CoverOfAppend(s[..i] + [s[i]], s[i + 1..], x);
    CoverOfAppend(s[..i], [s[i]], x);
    CoverOfAppend(s[..i] + [m], s[i + 1..], x);
    CoverOfAppend(s[..i], [m], x);
  }

  lemma InsertBeforeCover(s: seq<Span>, p: Span, i: nat, x: int)
    requires i <= |s|
    ensures Covers(s[..i] + [p] + s[i..] + [p], x) <==> Covers(s, x) || p.Has(x)
  {
    CoverOfAppend(s[..i] + [p] + s[i..], [p], x);
    CoverOfAppend(s[..i] + [p], s[i..], x);
    CoverOfAppend(s[..i], [p], x);
    CoverOfAppend(s[..i], s[i..], x);
    CoverOfOne(p, x);
    assert s[..i] + s[i..] == s;
  }

  /** What an insertion has to achieve: a vector of the shape with exactly the old integers and those of `p`. */
  ghost predicate Adds(s: seq<Span>, p: Span, final: seq<Span>) {
    HasShape(final) && forall x :: Covers(final, x) <==> Covers(s, x) || p.Has(x)
  }

  lemma AppendAdds(s: seq<Span>, main: seq<bool>, p: Span)
    requires Shape(s, main) && p.Proper() && SkippedUpTo(s, p, |s|)
    ensures Adds(s, p, s + [p])
  {
    AppendKeepsShape(s, main, p);
    forall x ensures Covers(s + [p], x) <==> Covers(s, x) || p.Has(x) {
      CoverOfAppend(s, [p], x);
      CoverOfOne(p, x);
    }
  }

  lemma InsertBeforeAdds(s: seq<Span>, main: seq<bool>, p: Span, i: nat)
    requires Shape(s, main) && p.Proper() && SkippedUpTo(s, p, i) && i < |s| && p.hi < s[i].lo
    ensures Adds(s, p, s[..i] + ([p] + s[i..] + [p]))
  {
    InsertBeforeKeepsShape(s, main, p, i);
    forall x ensures Covers(s[..i] + [p] + s[i..] + [p], x) <==> Covers(s, x) || p.Has(x) {
      InsertBeforeCover(s, p, i, x);
    }
    assert s[..i] + ([p] + s[i..] + [p]) == s[..i] + [p] + s[i..] + [p];
  }

  lemma MergeAdds(s: seq<Span>, main: seq<bool>, p: Span, i: nat)
    requires Shape(s, main) && p.Proper() && SkippedUpTo(s, p, i) && i < |s|
    requires p.lo <= s[i].hi + 1 && s[i].lo <= p.hi
    ensures Adds(s, p, s[..i] + Absorb(Span(Lesser(s[i].lo, p.lo), Greater(s[i].hi, p.hi)), s[i + 1..]))
  {
    MergeStartsGrowth(s, main, p, i);
    var next := s[i := Span(Lesser(s[i].lo, p.lo), Greater(s[i].hi, p.hi))];
    AbsorbKeepsShape(next, main, i);
    assert next[..i] == s[..i] && next[i + 1..] == s[i + 1..];
    forall x ensures Covers(next, x) <==> Covers(s, x) || p.Has(x) {
      MergeCover(s, p, i, x);
    }
  }

  /** Inserting keeps the shape, whatever was skipped so far. */
  lemma {:induction false} InsertFromAdds(s: seq<Span>, main: seq<bool>, p: Span, i: nat)
    requires Shape(s, main) && p.Proper() && SkippedUpTo(s, p, i)
    ensures Adds(s, p, s[..i] + Insert(s[i..], p))
    decreases |s| - i
  {
    hide Adds, Shape;
    if i == |s| {
      AppendAdds(s, main, p);
      assert s[..i] + [p] == s + [p];
    } else {
      assert s[i..][0] == s[i] && s[i..][1..] == s[i + 1..];
      if s[i].hi + 1 < p.lo {
        InsertFromAdds(s, main, p, i + 1);
        assert s[..i] + ([s[i]] + Insert(s[i + 1..], p)) == s[..i + 1] + Insert(s[i + 1..], p);
      } else if p.hi < s[i].lo {
        InsertBeforeAdds(s, main, p, i);
      } else {
        MergeAdds(s, main, p, i);
      }
    }
  }

  /** One insertion into a vector of the shape: the old integers and those of `p`, no more and no less. */
  lemma InsertIsExact(s: seq<Span>, p: Span)
    requires HasShape(s) && p.Proper()
    ensures HasShape(Insert(s, p))
    ensures forall x :: Covers(Insert(s, p), x) <==> Covers(s, x) || p.Has(x)
  {
    var main: seq<bool> :| Shape(s, main);
    InsertFromAdds(s, main, p, 0);
    assert s[0..] == s && s[..0] + Insert(s, p) == Insert(s, p);
  }

  lemma {:induction false} InsertAllIsExact(s: seq<Span>, ps: seq<Span>)
    requires HasShape(s) && AllProper(ps)
    ensures HasShape(InsertAll(s, ps))
    ensures forall x :: Covers(InsertAll(s, ps), x) <==> Covers(s, x) || Covers(ps, x)
  {
    if ps != [] {
      var n := |ps| - 1;
      InsertAllIsExact(s, ps[..n]);
      InsertIsExact(InsertAll(s, ps[..n]), ps[n]);
      forall x ensures Covers(ps, x) <==> Covers(ps[..n], x) || ps[n].Has(x) {
        assert ps == ps[..n] + [ps[n]];
        CoverOfAppend(ps[..n], [ps[n]], x);
        CoverOfOne(ps[n], x);
      }
    }
  }

  lemma EmptyHasShape()
    ensures HasShape([])
  {
    assert Shape([], []);
  }

  // ---------------------------------------------------------------- between the integers

  /** The branch that joins a span to one it only touches is taken. */
  predicate TouchMerges(s: seq<Span>, p: Span) {
    s != [] && if s[0].hi + 1 < p.lo then TouchMerges(s[1..], p) else s[0].hi + 1 == p.lo
  }

  /** Twice as far apart; odd places then stand for what lies between two integers. */
  function Doubled(p: Span): Span { Span(2 * p.lo, 2 * p.hi) }

  function Double(s: seq<Span>): (d: seq<Span>)
    ensures |d| == |s|
    ensures forall i | 0 <= i < |s| :: d[i] == Doubled(s[i])
  {
    seq(|s|, i requires 0 <= i < |s| => Doubled(s[i]))
  }

  lemma DoubleParts(a: seq<Span>, b: seq<Span>)
    ensures Double(a + b) == Double(a) + Double(b)
  {
  }

  lemma DoubleRest(s: seq<Span>)
    requires s != []
    ensures Double(s[1..]) == Double(s)[1..]
  {
  }

  lemma {:induction false} AbsorbOnDouble(m: Span, rest: seq<Span>)
    ensures Absorb(Doubled(m), Double(rest)) == Double(Absorb(m, rest))
    decreases |rest|
  {
    DoubleParts([m], rest);
    if rest != [] && m.hi >= rest[0].lo {
      DoubleRest(rest);
      AbsorbOnDouble(Span(m.lo, Greater(m.hi, rest[0].hi)), rest[1..]);
    }
  }

  /** Apart from joining what only touches, insertion does not depend on how far apart the integers are. */
  lemma {:induction false} InsertOnDouble(s: seq<Span>, p: Span)
    requires !TouchMerges(s, p)
    ensures Insert(Double(s), Doubled(p)) == Double(Insert(s, p))
  {
    if s == [] {
      assert Double([p]) == [Doubled(p)];
    } else {
      DoubleRest(s);
      if s[0].hi + 1 < p.lo {
        InsertOnDouble(s[1..], p);
        DoubleParts([s[0]], Insert(s[1..], p));
      } else if p.hi < s[0].lo {
        DoubleParts([p] + s, [p]);
        DoubleParts([p], s);
      } else {
        AbsorbOnDouble(Span(Lesser(s[0].lo, p.lo), Greater(s[0].hi, p.hi)), s[1..]);
      }
    }
  }

  lemma DoubleHasShape(s: seq<Span>)
    requires HasShape(s)
    ensures HasShape(Double(s))
  {
    var main: seq<bool> :| Shape(s, main);
    var d := Double(s);
    forall j | 0 <= j < |d| && !main[j] ensures CoveredByEarlierMain(d, main, j) {
      var i :| 0 <= i < j && main[i] && Within(s[j], s[i]);
      assert Within(d[j], d[i]);
    }
    assert Shape(d, main);
  }

  /** Without such a join, insertion adds exactly `p`, also between the integers. */
  lemma ExactBetween(s: seq<Span>, p: Span, x: int)
    requires HasShape(s) && p.Proper() && !TouchMerges(s, p)
    ensures Covers(Double(Insert(s, p)), x) <==> Covers(Double(s), x) || Doubled(p).Has(x)
  {
    DoubleHasShape(s);
    InsertOnDouble(s, p);
    InsertIsExact(Double(s), Doubled(p));
  }

  /** The span that is touched. */
  lemma {:induction false} TouchedAt(s: seq<Span>, p: Span, i: nat) returns (t: nat)
    requires i <= |s| && TouchMerges(s[i..], p) && SkippedUpTo(s, p, i)
    ensures t < |s| && SkippedUpTo(s, p, t) && s[t].hi + 1 == p.lo
    decreases |s| - i
  {
    assert s[i..][0] == s[i] && s[i..][1..] == s[i + 1..];
    t := i;
    if s[i].hi + 1 < p.lo {
      t := TouchedAt(s, p, i + 1);
    }
  }

  /** A span of `s` that has both `x` and the integer after it. */
  ghost predicate Joins(s: seq<Span>, x: int) {
    exists i | 0 <= i < |s| :: s[i].lo <= x < s[i].hi
  }

  lemma JoinsIsCovers(s: seq<Span>, x: int)
    ensures Covers(Double(s), 2 * x + 1) <==> Joins(s, x)
  {
    if i :| 0 <= i < |s| && s[i].lo <= x < s[i].hi {
      assert Double(s)[i].Has(2 * x + 1);
    }
    if i :| 0 <= i < |s| && Double(s)[i].Has(2 * x + 1) {
      assert s[i].lo <= x < s[i].hi;
    }
  }

  lemma {:induction false} AbsorbStartsWith(m: Span, rest: seq<Span>)
    ensures Absorb(m, rest) != [] && Within(m, Absorb(m, rest)[0])
    decreases |rest|
  {
    if rest != [] && m.hi >= rest[0].lo {
      AbsorbStartsWith(Span(m.lo, Greater(m.hi, rest[0].hi)), rest[1..]);
    }
  }

  lemma {:induction false} TouchingJoins(s: seq<Span>, p: Span)
    requires p.Proper() && AllProper(s) && TouchMerges(s, p)
    ensures Joins(Insert(s, p), p.lo - 1)
  {
    assert s[0].Proper();
    if s[0].hi + 1 < p.lo {
      TouchingJoins(s[1..], p);
      var i :| 0 <= i < |Insert(s[1..], p)| && Insert(s[1..], p)[i].lo <= p.lo - 1 < Insert(s[1..], p)[i].hi;
      assert Insert(s, p)[i + 1] == Insert(s[1..], p)[i];
    } else {
      AbsorbStartsWith(Span(Lesser(s[0].lo, p.lo), Greater(s[0].hi, p.hi)), s[1..]);
      assert Insert(s, p)[0].lo <= p.lo - 1 < Insert(s, p)[0].hi;
    }
  }

  /** Before a join, no span reached over the touching point. */
  lemma NothingJoinedBefore(s: seq<Span>, p: Span)
    requires HasShape(s) && TouchMerges(s, p)
    ensures !Joins(s, p.lo - 1)
  {
    var main: seq<bool> :| Shape(s, main);
    assert s[0..] == s;
    var t := TouchedAt(s, p, 0);
    TouchedIsMain(s, main, p, t);
    forall j | 0 <= j < |s| ensures !(s[j].lo <= p.lo - 1 < s[j].hi) {
      NotJoinedAt(s, main, p, t, j);
    }
  }

  lemma TouchedIsMain(s: seq<Span>, main: seq<bool>, p: Span, t: nat)
    requires Shape(s, main) && t < |s| && SkippedUpTo(s, p, t) && s[t].hi + 1 == p.lo
    ensures main[t]
  {
    assert main[t] || CoveredByEarlierMain(s, main, t);
  }

  lemma {:induction false} NotJoinedAt(s: seq<Span>, main: seq<bool>, p: Span, t: nat, j: nat)
    requires Shape(s, main) && t < |s| && SkippedUpTo(s, p, t) && s[t].hi + 1 == p.lo && main[t] && j < |s|
    ensures !(s[j].lo <= p.lo - 1 < s[j].hi)
  {
    if j > t && !main[j] {
      assert CoveredByEarlierMain(s, main, j);
      var c :| 0 <= c < j && main[c] && Within(s[j], s[c]);
      NotJoinedAt(s, main, p, t, c);
    }
  }

  // ---------------------------------------------------------------- sortedness

  /** Ascending and pairwise disjoint. */
  ghost predicate Sorted(s: seq<Span>) {
    AllProper(s) && forall i, j | 0 <= i < j < |s| :: s[i].hi < s[j].lo
  }

  lemma SortedHasShape(s: seq<Span>)
    requires Sorted(s)
    ensures HasShape(s)
  {
    assert Shape(s, seq(|s|, _ => true));
  }

  /** The branch that inserts before a span is taken. */
  predicate InsertsBefore(s: seq<Span>, p: Span) {
    s != [] && if s[0].hi + 1 < p.lo then InsertsBefore(s[1..], p) else p.hi < s[0].lo
  }

  lemma SortedCons(a: Span, s: seq<Span>)
    requires a.Proper()
    ensures Sorted([a] + s) <==> Sorted(s) && (s != [] ==> a.hi < s[0].lo)
  {
    hide Sorted;
    var t := [a] + s;
    assert t[0] == a && t[1..] == s;
    if Sorted(t) {
      SortedRest(t);
    }
    if Sorted(s) && (s != [] ==> a.hi < s[0].lo) {
      SortedFrom(t);
    }
  }

  lemma SortedFrom(t: seq<Span>)
    requires t != [] && t[0].Proper() && Sorted(t[1..]) && (|t| > 1 ==> t[0].hi < t[1].lo)
    ensures Sorted(t)
  {
    var s := t[1..];
    forall i | 0 <= i < |t| ensures t[i].Proper() && (i > 0 ==> t[0].hi < t[i].lo) {
      if i > 0 {
        BelowAll(t[0], s, i - 1);
        assert t[i] == s[i - 1];
      }
    }
    forall i, j | 0 < i < j < |t| ensures t[i].hi < t[j].lo {
      assert t[i] == s[i - 1] && t[j] == s[j - 1];
    }
  }

  lemma BelowAll(a: Span, s: seq<Span>, j: nat)
    requires Sorted(s) && j < |s| && a.hi < s[0].lo
    ensures a.hi < s[j].lo
  {
    assert s[0].Proper();
  }

  lemma {:induction false} AbsorbKeepsSorted(m: Span, rest: seq<Span>)
    requires m.Proper() && Sorted(rest)
    ensures Sorted(Absorb(m, rest)) && Absorb(m, rest) != [] && Absorb(m, rest)[0].lo == m.lo
    decreases |rest|
  {
    if rest == [] || m.hi < rest[0].lo {
      SortedCons(m, rest);
      assert [m] + [] == [m];
    } else {
      AbsorbKeepsSorted(Span(m.lo, Greater(m.hi, rest[0].hi)), rest[1..]);
    }
  }

  /** A sorted vector stays sorted exactly when nothing is inserted before a span. */
  lemma {:induction false} StaysSortedExactlyWhen(s: seq<Span>, p: Span)
    requires Sorted(s) && p.Proper()
    ensures Sorted(Insert(s, p)) <==> !InsertsBefore(s, p)
    ensures Insert(s, p) != []
    ensures !InsertsBefore(s, p) ==> Insert(s, p)[0].lo == (if s == [] then p.lo else Lesser(s[0].lo, p.lo))
  {
    if s != [] {
      if s[0].hi + 1 < p.lo {
        StaysSortedExactlyWhen(s[1..], p);
        SortedCons(s[0], Insert(s[1..], p));
        assert s[0].Proper() && (|s| > 1 ==> s[0].hi < s[1].lo);
      } else if p.hi < s[0].lo {
        var final := [p] + s + [p];
        assert final[0] == p && final[|final| - 1] == p;
      } else {
        AbsorbKeepsSorted(Span(Lesser(s[0].lo, p.lo), Greater(s[0].hi, p.hi)), s[1..]);
      }
    }
  }

  /** A span wholly after the others is appended or joined to the last one. */
  lemma {:induction false} AfterAllNeverInsertsBefore(s: seq<Span>, p: Span)
    requires Sorted(s) && p.Proper()
    requires forall i | 0 <= i < |s| :: s[i].hi < p.lo
    ensures !InsertsBefore(s, p)
  {
    if s != [] {
      assert s[0].Proper();
      AfterAllNeverInsertsBefore(s[1..], p);
    }
  }

  /** Folding a sorted vector into the empty one never inserts before, and gives a sorted vector. */
  lemma {:induction false} FoldOfSortedIsSorted(ps: seq<Span>)
    requires Sorted(ps)
    ensures Sorted(InsertAll([], ps))
    ensures ps != [] ==> !InsertsBefore(InsertAll([], ps[..|ps| - 1]), ps[|ps| - 1])
  {
    if ps != [] {
      var n := |ps| - 1;
      FoldOfSortedIsSorted(ps[..n]);
      var before := InsertAll([], ps[..n]);
      EmptyHasShape();
      InsertAllIsExact([], ps[..n]);
      forall i | 0 <= i < |before| ensures before[i].hi < ps[n].lo {
        assert before[i].Has(before[i].hi);
        assert Covers(before, before[i].hi);
        var k :| 0 <= k < n && ps[..n][k].Has(before[i].hi);
        assert ps[k].hi < ps[n].lo;
      }
      AfterAllNeverInsertsBefore(before, ps[n]);
      StaysSortedExactlyWhen(before, ps[n]);
    }
  }

  // ---------------------------------------------------------------- intersection

  function Meet(a: Span, b: Span): Span { Span(Greater(a.lo, b.lo), Lesser(a.hi, b.hi)) }

  function MeetRow(p: Span, others: seq<Span>): seq<Span> {
    if others == [] then []
    else
      var before, o := MeetRow(p, others[..|others| - 1]), Meet(p, others[|others| - 1]);
      if o.Proper() then before + [o] else before
  }

  function MeetAll(a: seq<Span>, b: seq<Span>): seq<Span> {
    if a == [] then [] else MeetAll(a[..|a| - 1], b) + MeetRow(a[|a| - 1], b)
  }

  lemma SortedAppend(s: seq<Span>, t: seq<Span>)
    requires Sorted(s) && Sorted(t) && forall i, j | 0 <= i < |s| && 0 <= j < |t| :: s[i].hi < t[j].lo
    ensures Sorted(s + t)
  {
  }

  lemma {:induction false} MeetRowIsSorted(p: Span, others: seq<Span>)
    requires Sorted(others)
    ensures Sorted(MeetRow(p, others))
    ensures forall o | o in MeetRow(p, others) :: Within(o, p) && others != [] && o.hi <= others[|others| - 1].hi
  {
    if others != [] {
      var n := |others| - 1;
      MeetRowIsSorted(p, others[..n]);
      var before, o := MeetRow(p, others[..n]), Meet(p, others[n]);
      assert others[n].Proper();
      assert n > 0 ==> others[..n][n - 1].hi < others[n].lo;
      if o.Proper() {
        forall i | 0 <= i < |before| ensures before[i].hi < o.lo {
          assert before[i] in before;
        }
        SortedAppend(before, [o]);
      }
    }
  }

  /** Intersecting sorted vectors in the order of the double loop gives a sorted vector. */
  lemma {:induction false} MeetAllIsSorted(a: seq<Span>, b: seq<Span>)
    requires Sorted(a) && Sorted(b)
    ensures Sorted(MeetAll(a, b))
    ensures forall o | o in MeetAll(a, b) :: a != [] && o.hi <= a[|a| - 1].hi
  {
    if a != [] {
      var n := |a| - 1;
      MeetAllIsSorted(a[..n], b);
      MeetRowIsSorted(a[n], b);
      var before, row := MeetAll(a[..n], b), MeetRow(a[n], b);
      assert a[n].Proper();
      assert n > 0 ==> a[..n][n - 1].hi < a[n].lo;
      forall i, j | 0 <= i < |before| && 0 <= j < |row| ensures before[i].hi < row[j].lo {
        assert before[i] in before && row[j] in row;
      }
      SortedAppend(before, row);
    }
  }

  // ---------------------------------------------------------------- inserting what is there

  lemma {:induction false} AbsorbIsNoLonger(m: Span, rest: seq<Span>)
    ensures |Absorb(m, rest)| <= |rest| + 1
    decreases |rest|
  {
    if rest != [] && m.hi >= rest[0].lo {
      AbsorbIsNoLonger(Span(m.lo, Greater(m.hi, rest[0].hi)), rest[1..]);
    }
  }

  /** A span of a sorted vector merges into itself, unless it touches the one before it. */
  lemma {:induction false} InsertPresent(s: seq<Span>, i: nat)
    requires Sorted(s) && i < |s|
    ensures if i > 0 && s[i - 1].hi + 1 == s[i].lo then |Insert(s, s[i])| < |s| else Insert(s, s[i]) == s
  {
    hide Sorted;
    SortedRest(s);
    if i == 0 {
      FirstPresent(s);
    } else if s[0].hi + 1 < s[i].lo {
      InsertPresent(s[1..], i - 1);
      assert s[1..][i - 1] == s[i] && (i > 1 ==> s[1..][i - 2] == s[i - 1]);
      assert s == [s[0]] + s[1..];
    } else {
      FirstTouches(s, i);
    }
  }

  lemma SortedRest(s: seq<Span>)
    requires Sorted(s) && s != []
    ensures Sorted(s[1..]) && (|s| > 1 ==> s[0].hi < s[1].lo)
  {
  }

  lemma FirstPresent(s: seq<Span>)
    requires Sorted(s) && s != []
    ensures Insert(s, s[0]) == s
  {
    assert s[0].Proper();
    assert s == [s[0]] + s[1..];
    assert Absorb(s[0], s[1..]) == [s[0]] + s[1..];
  }

  lemma FirstTouches(s: seq<Span>, i: nat)
    requires Sorted(s) && 0 < i < |s| && s[0].hi + 1 >= s[i].lo
    ensures i == 1 && s[0].hi + 1 == s[1].lo && |Insert(s, s[1])| < |s|
  {
    assert s[0].Proper() && s[1].Proper();
    assert s[0].hi < s[1].lo;
    AbsorbIsNoLonger(Span(s[0].lo, s[1].hi), s[1..][1..]);
  }
}
