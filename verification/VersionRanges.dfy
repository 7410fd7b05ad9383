/** Version ranges of `src/version1`: a vector of closed pairs edited in place by `|=` and `&=`. */
module VersionRanges {
  import opened Versions
  import opened VersionSteps
  import opened Options

  datatype Pair = Pair(first: Version, second: Version) {
    predicate IsBranch() { first.IsBranch() || second.IsBranch() }

    predicate Has(v: Version) { LessEq(first, v) && LessEq(v, second) }

    /** What a pair with a branch in it prints. */
    function BranchName(): string { if first.IsBranch() then first.branch else second.branch }

    function Intersect(rhs: Pair): Option<Pair> {
      if IsBranch() then Some(this)
      else if rhs.IsBranch() then Some(rhs)
      else
        var rp := Pair(Max(first, rhs.first), Min(second, rhs.second));
        if Greater(rp.first, rp.second) then None else Some(rp)
    }
  }

  /** The value of a range object. A branch name, when present, replaces the pairs. */
  datatype RangeValue = RangeValue(range: seq<Pair>, branch: string) {
    predicate IsBranch() { branch != "" }

    predicate IsEmpty() { range == [] && !IsBranch() }

    predicate HasVersion(v: Version) {
      if IsBranch() && v.IsBranch() then branch == v.branch
      else if IsBranch() || v.IsBranch() then false
      else AnyHas(range, v)
    }
  }

  const EMPTY := RangeValue([], "")

  predicate AnyHas(range: seq<Pair>, v: Version) {
    exists i | 0 <= i < |range| :: range[i].Has(v)
  }

  // ---------------------------------------------------------------- |= and &=, as functions

  predicate AllNumeric(range: seq<Pair>) {
    forall i | 0 <= i < |range| :: !range[i].IsBranch()
  }

  function Hull(a: Pair, b: Pair): Pair {
    Pair(Min(a.first, b.first), Max(a.second, b.second))
  }

  /** After a merge into `m`: swallow following pairs until one starts beyond `m`. */
  function Absorb(m: Pair, rest: seq<Pair>): seq<Pair>
    decreases |rest|
  {
    if rest == [] then [m]
    else if Less(m.second, rest[0].first) then [m] + rest
    else Absorb(Pair(m.first, Max(m.second, rest[0].second)), rest[1..])
  }

  /** `++v`, where that is defined. */
  function Next(v: Version): Version {
    if CanIncrement(v, v.Level()) then Successor(v) else v
  }

  /** `p` lies after `a` and does not even touch it. */
  predicate Skips(a: Pair, p: Pair) {
    Less(a.second, p.first) && !Equal(Next(a.second), p.first)
  }

  /** `p` lies before `a`. */
  predicate GoesBefore(a: Pair, p: Pair) {
    !Less(a.second, p.first) && Greater(a.first, p.second)
  }

  /** `range |= p` on the vector. Inserting before a pair also appends a second copy at the end. */
  function Insert(range: seq<Pair>, p: Pair): seq<Pair> {
    if range == [] then [p]
    else if Skips(range[0], p) then [range[0]] + Insert(range[1..], p)
    else if GoesBefore(range[0], p) then [p] + range + [p]
    else Absorb(Hull(range[0], p), range[1..])
  }

  /** How the steps `++v` end that the loop of `|=` makes: one for each pair below `p`, up to the one it touches. */
  function StepsOf(range: seq<Pair>, p: Pair): Effect {
    if range == [] || !Less(range[0].second, p.first) then Fine
    else
      var effect := IncrementEffect(range[0].second, range[0].second.Level());
      if effect != Fine then effect
      else if Equal(Next(range[0].second), p.first) then Fine
      else StepsOf(range[1..], p)
  }

  lemma {:induction false} AbsorbNumeric(m: Pair, rest: seq<Pair>)
    requires !m.IsBranch() && AllNumeric(rest)
    ensures AllNumeric(Absorb(m, rest))
    decreases |rest|
  {
    if rest != [] && !Less(m.second, rest[0].first) {
      AbsorbNumeric(Pair(m.first, Max(m.second, rest[0].second)), rest[1..]);
    }
  }

  lemma {:induction false} InsertNumeric(range: seq<Pair>, p: Pair)
    requires AllNumeric(range) && !p.IsBranch()
    ensures AllNumeric(Insert(range, p))
  {
    if range != [] {
      if Skips(range[0], p) {
        InsertNumeric(range[1..], p);
      } else if !GoesBefore(range[0], p) {
        AbsorbNumeric(Hull(range[0], p), range[1..]);
      }
    }
  }

  /** What remains to be computed when the loop of `|=` stands at `i`. */
  ghost predicate Scanning(start: seq<Pair>, rhs: Pair, range: seq<Pair>, i: nat, added: bool) {
    && i <= |range|
    && (!added ==> range == start && Insert(start, rhs) == start[..i] + Insert(start[i..], rhs)
                   && StepsOf(start, rhs) == StepsOf(start[i..], rhs))
    && (added ==> 0 < i && StepsOf(start, rhs) == Fine && Insert(start, rhs) == range[..i - 1] + Absorb(range[i - 1], range[i..]))
  }

  lemma ScanSkips(start: seq<Pair>, rhs: Pair, i: nat)
    requires i < |start| && Scanning(start, rhs, start, i, false)
    requires Skips(start[i], rhs) && IncrementEffect(start[i].second, start[i].second.Level()) == Fine
    ensures Scanning(start, rhs, start, i + 1, false)
  {
    hide Less, Greater, Equal, IncrementEffect;
    assert start[i..][1..] == start[i + 1..];
    assert start[..i] + ([start[i]] + Insert(start[i + 1..], rhs)) == start[..i + 1] + Insert(start[i + 1..], rhs);
  }

  /** A step that does not end well is where the loop ends. */
  lemma ScanFails(start: seq<Pair>, rhs: Pair, i: nat)
    requires i < |start| && Scanning(start, rhs, start, i, false) && Less(start[i].second, rhs.first)
    requires IncrementEffect(start[i].second, start[i].second.Level()) != Fine
    ensures StepsOf(start, rhs) == IncrementEffect(start[i].second, start[i].second.Level())
  {
    hide Less, Greater, Equal, IncrementEffect;
  }

  lemma ScanInserts(start: seq<Pair>, rhs: Pair, i: nat)
    requires i < |start| && Scanning(start, rhs, start, i, false)
    requires !Skips(start[i], rhs) && GoesBefore(start[i], rhs)
    ensures StepsOf(start, rhs) == Fine && Insert(start, rhs) == start[..i] + [rhs] + start[i..] + [rhs]
  {
    hide Less, Greater, Equal, IncrementEffect;
    assert start[..i] + ([rhs] + start[i..] + [rhs]) == start[..i] + [rhs] + start[i..] + [rhs];
  }

  lemma ScanMerges(start: seq<Pair>, rhs: Pair, i: nat)
    requires i < |start| && Scanning(start, rhs, start, i, false)
    requires !Skips(start[i], rhs) && !GoesBefore(start[i], rhs)
    requires Less(start[i].second, rhs.first) ==> IncrementEffect(start[i].second, start[i].second.Level()) == Fine
    ensures Scanning(start, rhs, start[i := Hull(start[i], rhs)], i + 1, true)
  {
    hide Less, Greater, Equal, IncrementEffect;
    var next := start[i := Hull(start[i], rhs)];
    assert start[i..][1..] == start[i + 1..] == next[i + 1..];
    assert next[..i] == start[..i];
  }

  lemma ScanAppends(start: seq<Pair>, rhs: Pair)
    requires Scanning(start, rhs, start, |start|, false)
    ensures StepsOf(start, rhs) == Fine && Insert(start, rhs) == start + [rhs]
  {
    assert start[..|start|] == start && start[|start|..] == [];
  }

  lemma ScanStops(start: seq<Pair>, rhs: Pair, range: seq<Pair>, i: nat)
    requires Scanning(start, rhs, range, i, true)
    requires i < |range| ==> Less(range[i - 1].second, range[i].first)
    ensures range == Insert(start, rhs) && StepsOf(start, rhs) == Fine
  {
    hide Less, Greater, Equal;
    AbsorbStops(range[i - 1], range[i..]);
    assert range == range[..i - 1] + ([range[i - 1]] + range[i..]);
  }

  lemma AbsorbStops(m: Pair, rest: seq<Pair>)
    requires rest != [] ==> Less(m.second, rest[0].first)
    ensures Absorb(m, rest) == [m] + rest
  {
  }

  lemma ScanSwallows(start: seq<Pair>, rhs: Pair, range: seq<Pair>, i: nat)
    requires Scanning(start, rhs, range, i, true)
    requires i < |range| && !Less(range[i - 1].second, range[i].first)
    ensures var m := Pair(range[i - 1].first, Max(range[i - 1].second, range[i].second));
            Scanning(start, rhs, range[..i - 1] + [m] + range[i + 1..], i, true)
  {
    hide Less, Greater, Equal;
    var m := Pair(range[i - 1].first, Max(range[i - 1].second, range[i].second));
    var next := range[..i - 1] + [m] + range[i + 1..];
    assert range[i..][1..] == range[i + 1..] == next[i..];
    assert next[..i - 1] == range[..i - 1];
  }

  /** `|=` with each pair in turn. */
  function InsertAll(range: seq<Pair>, ps: seq<Pair>): seq<Pair> {
    if ps == [] then range else Insert(InsertAll(range, ps[..|ps| - 1]), ps[|ps| - 1])
  }

  /** A vector on its way, and how the work on it has ended. */
  datatype Progress = Progress(range: seq<Pair>, effect: Effect)

  function InsertOne(range: seq<Pair>, p: Pair): Progress {
    var effect := StepsOf(range, p);
    Progress(if effect == Fine then Insert(range, p) else range, effect)
  }

  /** `|=` with each pair in turn, up to the first that does not end well. */
  function InsertEach(range: seq<Pair>, ps: seq<Pair>): Progress {
    if ps == [] then Progress(range, Fine)
    else
      var before := InsertEach(range, ps[..|ps| - 1]);
      if before.effect != Fine then before else InsertOne(before.range, ps[|ps| - 1])
  }

  /**
    * The first `n` rounds of `|=` with the pairs of the same vector, which the loop reads while it is changed. When the
    * vector grows or shrinks, the iterators of the loop are invalid.
    */
  function InsertOwn(range: seq<Pair>, n: nat): (r: Progress)
    ensures r.effect != Leaves ==> |r.range| == |range|
  {
    if n == 0 then Progress(range, Fine)
    else
      var before := InsertOwn(range, n - 1);
      if before.effect != Fine || n > |range| then before
      else
        var after := InsertOne(before.range, before.range[n - 1]);
        if |after.range| != |range| then after.(effect := Leaves) else after
  }

  lemma {:induction false} InsertEachIsAll(range: seq<Pair>, ps: seq<Pair>)
    requires InsertEach(range, ps).effect == Fine
    ensures InsertEach(range, ps).range == InsertAll(range, ps)
  {
    if ps != [] {
      InsertEachIsAll(range, ps[..|ps| - 1]);
    }
  }

  lemma InsertEachNext(range: seq<Pair>, ps: seq<Pair>, i: nat)
    requires i < |ps|
    ensures var before := InsertEach(range, ps[..i]);
            InsertEach(range, ps[..i + 1]) == if before.effect != Fine then before else InsertOne(before.range, ps[i])
  {
    assert ps[..i + 1][..i] == ps[..i];
  }

  lemma InsertEachAppend(range: seq<Pair>, ps: seq<Pair>, p: Pair)
    requires InsertEach(range, ps).effect == Fine
    ensures InsertEach(range, ps + [p]) == InsertOne(InsertEach(range, ps).range, p)
  {
    assert (ps + [p])[..|ps|] == ps;
  }

  /** What has not ended well stays so. */
  lemma {:induction false} InsertEachStops(range: seq<Pair>, ps: seq<Pair>, more: seq<Pair>)
    requires InsertEach(range, ps).effect != Fine
    ensures InsertEach(range, ps + more) == InsertEach(range, ps)
    decreases |more|
  {
    if more == [] {
      assert ps + more == ps;
    } else {
      var n := |more| - 1;
      InsertEachStops(range, ps, more[..n]);
      assert (ps + more)[..|ps| + n] == ps + more[..n];
    }
  }

  /** The intersections of one pair with each pair of a vector, in order. */
  function RowIntersections(p: Pair, others: seq<Pair>): seq<Pair> {
    if others == [] then []
    else
      var before := RowIntersections(p, others[..|others| - 1]);
      match p.Intersect(others[|others| - 1])
      case None => before
      case Some(o) => before + [o]
  }

  /** All nonempty intersections in the order the double loop meets them. */
  function Intersections(a: seq<Pair>, b: seq<Pair>): seq<Pair> {
    if a == [] then [] else Intersections(a[..|a| - 1], b) + RowIntersections(a[|a| - 1], b)
  }

  lemma IntersectNumeric(p: Pair, q: Pair)
    requires !p.IsBranch() && !q.IsBranch()
    ensures p.Intersect(q).Some? ==> !p.Intersect(q).value.IsBranch()
  {
  }

  /** One more step of the inner loop of `&=`: what is collected grows by the next intersection, if any. */
  lemma NextIntersection(before: seq<Pair>, p: Pair, others: seq<Pair>, j: nat)
    requires j < |others|
    ensures var done, o := before + RowIntersections(p, others[..j]), p.Intersect(others[j]);
            before + RowIntersections(p, others[..j + 1]) == if o.Some? then done + [o.value] else done
  {
    assert others[..j + 1][..j] == others[..j];
  }

  lemma NextRow(a: seq<Pair>, b: seq<Pair>, i: nat)
    requires i < |a|
    ensures Intersections(a[..i + 1], b) == Intersections(a[..i], b) + RowIntersections(a[i], b)
  {
    assert a[..i + 1][..i] == a[..i];
  }

  /** The rest of a row comes after its start, and the rest of the rows after the first ones. */
  lemma {:induction false} RowContinues(p: Pair, others: seq<Pair>, j: nat) returns (more: seq<Pair>)
    requires j <= |others|
    ensures RowIntersections(p, others) == RowIntersections(p, others[..j]) + more
    decreases |others|
  {
    if j == |others| {
      more := [];
      assert others[..j] == others;
    } else {
      var n := |others| - 1;
      more := RowContinues(p, others[..n], j);
      assert others[..n][..j] == others[..j];
      var o := p.Intersect(others[n]);
      if o.Some? {
        more := more + [o.value];
      }
    }
  }

  lemma {:induction false} RowsContinue(a: seq<Pair>, b: seq<Pair>, i: nat) returns (more: seq<Pair>)
    requires i <= |a|
    ensures Intersections(a, b) == Intersections(a[..i], b) + more
    decreases |a|
  {
    if i == |a| {
      more := [];
      assert a[..i] == a;
    } else {
      var n := |a| - 1;
      more := RowsContinue(a[..n], b, i);
      assert a[..n][..i] == a[..i];
      more := more + RowIntersections(a[n], b);
    }
  }

  /** What has not ended well stays so. */
  lemma {:induction false} InsertOwnStops(range: seq<Pair>, m: nat, n: nat)
    requires m <= n && InsertOwn(range, m).effect != Fine
    ensures InsertOwn(range, n) == InsertOwn(range, m)
    decreases n
  {
    hide InsertOne;
    if m < n {
      InsertOwnStops(range, m, n - 1);
    }
  }

  /** What the loop of `|=` with a range has to reach from `start`. */
  function UnionGoal(start: seq<Pair>, ps: seq<Pair>, own: bool): Progress {
    if own then InsertOwn(start, |start|) else InsertEach(start, ps)
  }

  /** The loop has done the first `i` pairs. */
  ghost predicate UnionSoFar(start: seq<Pair>, ps: seq<Pair>, own: bool, i: nat, range: seq<Pair>) {
    if own then i <= |start| == |range| && InsertOwn(start, i) == Progress(range, Fine)
    else i <= |ps| && InsertEach(start, ps[..i]) == Progress(range, Fine)
  }

  lemma UnionStarts(start: seq<Pair>, ps: seq<Pair>, own: bool)
    ensures UnionSoFar(start, ps, own, 0, start)
  {
  }

  lemma UnionStep(start: seq<Pair>, ps: seq<Pair>, own: bool, i: nat, range: seq<Pair>)
    requires UnionSoFar(start, ps, own, i, range) && i < if own then |start| else |ps|
    ensures var after := InsertOne(range, if own then range[i] else ps[i]);
            if after.effect == Throws then UnionGoal(start, ps, own) == after
            else if after.effect == Leaves || (own && |after.range| != |start|) then UnionGoal(start, ps, own).effect == Leaves
            else UnionSoFar(start, ps, own, i + 1, after.range)
  {
    hide InsertOne;
    if own {
      if InsertOwn(start, i + 1).effect != Fine {
        InsertOwnStops(start, i + 1, |start|);
      }
      InsertOneSize(range, range[i]);
    } else {
      InsertEachNext(start, ps, i);
      if InsertEach(start, ps[..i + 1]).effect != Fine {
        InsertEachStops(start, ps[..i + 1], ps[i + 1..]);
        assert ps[..i + 1] + ps[i + 1..] == ps;
      }
    }
  }

  lemma InsertOneSize(range: seq<Pair>, p: Pair)
    ensures InsertOne(range, p).effect != Fine ==> InsertOne(range, p).range == range
  {
  }

  lemma UnionEnds(start: seq<Pair>, ps: seq<Pair>, own: bool, range: seq<Pair>)
    requires UnionSoFar(start, ps, own, if own then |start| else |ps|, range)
    ensures UnionGoal(start, ps, own) == Progress(range, Fine)
  {
    assert ps[..|ps|] == ps;
  }

  lemma RowStarts(before: seq<Pair>, p: Pair, others: seq<Pair>)
    ensures before + RowIntersections(p, others[..0]) == before
  {
  }

  /** One more step of the inner loop of `&=`, when `collected` has given `range` so far. */
  lemma CollectStep(before: seq<Pair>, p: Pair, others: seq<Pair>, j: nat, collected: seq<Pair>, range: seq<Pair>)
    requires j < |others| && collected == before + RowIntersections(p, others[..j])
    requires InsertEach([], collected) == Progress(range, Fine)
    ensures var o, next := p.Intersect(others[j]), before + RowIntersections(p, others[..j + 1]);
            if o.None? then next == collected
            else
              && next == collected + [o.value]
              && InsertEach([], next) == InsertOne(range, o.value)
              && (InsertOne(range, o.value).effect != Fine ==>
                    InsertEach([], before + RowIntersections(p, others)) == InsertOne(range, o.value))
  {
    hide InsertOne, InsertEach, RowIntersections, Pair.Intersect;
    NextIntersection(before, p, others, j);
    var o := p.Intersect(others[j]);
    if o.Some? {
      var next := before + RowIntersections(p, others[..j + 1]);
      var more := RowContinues(p, others, j + 1);
      InsertEachAppend([], collected, o.value);
      MoreIsIgnored(next, more);
      assert next + more == before + RowIntersections(p, others);
    }
  }

  lemma MoreIsIgnored(ps: seq<Pair>, more: seq<Pair>)
    ensures InsertEach([], ps).effect != Fine ==> InsertEach([], ps + more) == InsertEach([], ps)
  {
    if InsertEach([], ps).effect != Fine {
      InsertEachStops([], ps, more);
    }
  }

  /** A range object after an operator, and how the operator ended. */
  datatype After = After(value: RangeValue, effect: Effect)

  function NowPairs(progress: Progress): After { After(RangeValue(progress.range, ""), progress.effect) }

  /** The start of every operator: branches on either side. */
  function Branching(v: RangeValue, isBranch: bool, name: string, otherwise: After): After {
    if v.IsBranch() then After(v, Throws)
    else if isBranch then
      if v.IsEmpty() then After(RangeValue([], name), Fine) else After(v, Throws)
    else otherwise
  }

  /** `v |= rhs` with a pair. */
  function UnionPairState(v: RangeValue, rhs: Pair): After {
    Branching(v, rhs.IsBranch(), if rhs.IsBranch() then rhs.BranchName() else "", NowPairs(InsertOne(v.range, rhs)))
  }

  /** `v |= rhs`; `own` says that both are the same object. */
  function UnionState(v: RangeValue, rhs: RangeValue, own: bool): After {
    Branching(v, rhs.IsBranch(), rhs.branch,
              NowPairs(UnionGoal(v.range, rhs.range, own)))
  }

  /** `v &= rhs`: collected in a new object, which replaces the old one at the end. */
  function IntersectState(v: RangeValue, rhs: RangeValue): After {
    var collected := InsertEach([], Intersections(v.range, rhs.range));
    Branching(v, rhs.IsBranch(), rhs.branch,
              if collected.effect == Fine then NowPairs(collected) else After(v, collected.effect))
  }

  /** `auto v = a; ++v == b`. */
  method NextIs(a: Version, b: Version) returns (equal: bool, effect: Effect)
    ensures effect == IncrementEffect(a, a.Level())
    ensures effect == Fine ==> (equal <==> Equal(Next(a), b))
  {
    var v := new VersionVariable(a);
    effect := v.IncrementVersion(|v.numbers|);
    equal := effect == Fine && Equal(v.Value(), b);
  }

  // ---------------------------------------------------------------- the range object

  /** An effect of `Leaves` means undefined behaviour: nothing is promised of the object then. */
  class VersionRange {
    var range: seq<Pair>
    var branch: string

    function Value(): RangeValue
      reads this
    {
      RangeValue(range, branch)
    }

    ghost predicate Valid()
      reads this
    {
      AllNumeric(range) && (branch != "" ==> range == [])
    }

    constructor Empty()
      ensures Valid() && Value() == EMPTY
    {
      range, branch := [], "";
    }

    method HasVersion(v: Version) returns (has: bool)
      ensures has == Value().HasVersion(v)
    {
      if branch != "" && v.IsBranch() {
        return branch == v.branch;
      }
      if branch != "" || v.IsBranch() {
        return false;
      }
      for i := 0 to |range|
        invariant forall k | 0 <= k < i :: !range[k].Has(v)
      {
        if range[i].Has(v) {
          return true;
        }
      }
      return false;
    }

    /** The object is now as `after` says, unless the operator was undefined. */
    ghost predicate Is(after: After, effect: Effect)
      reads this
    {
      effect == after.effect && (effect != Leaves ==> Valid() && Value() == after.value)
    }

    /** `|=` with one pair. */
    method UnionPair(rhs: Pair) returns (effect: Effect)
      requires Valid()
      modifies this
      ensures Is(UnionPairState(old(Value()), rhs), effect)
    {
      if branch != "" {
        return Throws;
      }
      if rhs.IsBranch() {
        if range != [] {
          return Throws;
        }
        range, branch := [], rhs.BranchName();
        return Fine;
      }
      effect := InsertPair(rhs);
    }

    /** The loop of `|=`. */
    method InsertPair(rhs: Pair) returns (effect: Effect)
      requires Valid() && branch == "" && !rhs.IsBranch()
      modifies this`range
      ensures effect == StepsOf(old(range), rhs)
      ensures effect != Leaves ==> Valid() && range == InsertOne(old(range), rhs).range
    {
      hide Less, Greater, Equal, IncrementEffect, Hull, Absorb, Insert, StepsOf;
      ghost var start := range;
      assert start[0..] == start && start[..0] + Insert(start, rhs) == Insert(start, rhs);
      var added, i := false, 0;
      ghost var inserted := false;
      while i < |range|
        invariant !inserted && Scanning(start, rhs, range, i, added)
        decreases |range| - i
      {
        if !added {
          var merge := false;
          if Less(range[i].second, rhs.first) {
            var stepped;
            merge, stepped := NextIs(range[i].second, rhs.first);
            if stepped != Fine {
              ScanFails(start, rhs, i);
              return stepped;
            }
          } else if Greater(range[i].first, rhs.second) {
            ScanInserts(start, rhs, i);
            range := range[..i] + [rhs] + range[i..];
            inserted := true;
            break;
          } else {
            merge := true;
          }
          if merge {
            ScanMerges(start, rhs, i);
            range := range[i := Hull(range[i], rhs)];
            added := true;
          } else {
            ScanSkips(start, rhs, i);
          }
        } else {
          if Less(range[i - 1].second, range[i].first) {
            break;
          }
          ScanSwallows(start, rhs, range, i);
          var m := Pair(range[i - 1].first, Max(range[i - 1].second, range[i].second));
          range := range[..i - 1] + [m] + range[i + 1..]; // the previous pair grows, this one is erased
          i := i - 1;
        }
        i := i + 1;
      }
      if added {
        ScanStops(start, rhs, range, i);
      } else {
        if !inserted {
          ScanAppends(start, rhs);
        }
        range := range + [rhs]; // a second copy when it was inserted above
      }
      InsertNumeric(start, rhs);
      return Fine;
    }

    /** `|=` with another range object, or with this one. */
    method Union(rhs: VersionRange) returns (effect: Effect)
      requires Valid() && rhs.Valid()
      modifies this
      ensures Is(UnionState(old(Value()), old(rhs.Value()), rhs == this), effect)
    {
      if branch != "" {
        return Throws;
      }
      if rhs.branch != "" {
        if range != [] {
          return Throws;
        }
        range, branch := [], rhs.branch;
        return Fine;
      }
      hide InsertOne, InsertEach, InsertOwn, UnionGoal, UnionSoFar;
      ghost var start, ps, own := range, rhs.range, rhs == this;
      var end := |rhs.range|;
      UnionStarts(start, ps, own);
      for i := 0 to end
        invariant Valid() && rhs.Valid() && branch == "" && (!own ==> rhs.range == ps) && (own ==> |range| == end)
        invariant UnionSoFar(start, ps, own, i, range)
      {
        UnionStep(start, ps, own, i, range);
        effect := UnionPair(rhs.range[i]);
        if effect != Fine {
          return effect;
        }
        if rhs == this && |range| != end { // the iterators of the loop are invalid now
          return Leaves;
        }
      }
      UnionEnds(start, ps, own, range);
      return Fine;
    }

    /** `&=` with another range object: every pair with every pair, collected with `|=`. */
    method Intersect(rhs: VersionRange) returns (effect: Effect)
      requires Valid() && rhs.Valid()
      modifies this
      ensures Is(IntersectState(old(Value()), old(rhs.Value())), effect)
    {
      if branch != "" {
        return Throws;
      }
      if rhs.branch != "" {
        if range != [] {
          return Throws;
        }
        range, branch := [], rhs.branch;
        return Fine;
      }
      var vr := new VersionRange.Empty();
      ghost var a, b := range, rhs.range;
      for i := 0 to |range|
        invariant AllNumeric(a) && AllNumeric(b) && unchanged(this) && unchanged(rhs)
        invariant vr.Valid() && vr.branch == "" && fresh(vr)
        invariant InsertEach([], Intersections(a[..i], b)) == Progress(vr.range, Fine)
      {
        NextRow(a, b, i);
        effect := vr.CollectRow(range[i], rhs.range, Intersections(a[..i], b));
        if effect != Fine {
          ghost var more := RowsContinue(a, b, i + 1);
          InsertEachStops([], Intersections(a[..i + 1], b), more);
          return effect;
        }
      }
      assert a[..|a|] == a;
      range, branch := vr.range, vr.branch;
      return Fine;
    }

    /** The inner loop of `&=`: collect the intersections of `p` with each of `others`. */
    method CollectRow(p: Pair, others: seq<Pair>, ghost before: seq<Pair>) returns (effect: Effect)
      requires Valid() && branch == "" && !p.IsBranch() && AllNumeric(others)
      requires InsertEach([], before) == Progress(range, Fine)
      modifies this
      ensures var after := InsertEach([], before + RowIntersections(p, others));
              && effect == after.effect && (effect != Leaves ==> Valid() && branch == "" && range == after.range)
    {
      hide InsertOne, InsertEach, RowIntersections, Pair.Intersect;
      ghost var collected := before;
      RowStarts(before, p, others);
      for j := 0 to |others|
        invariant Valid() && branch == ""
        invariant collected == before + RowIntersections(p, others[..j])
        invariant InsertEach([], collected) == Progress(range, Fine)
      {
        CollectStep(before, p, others, j, collected, range);
        var o := p.Intersect(others[j]);
        if o.Some? {
          IntersectNumeric(p, others[j]);
          effect := UnionPair(o.value);
          if effect != Fine {
            return effect;
          }
          collected := collected + [o.value];
        }
      }
      assert others[..|others|] == others;
      return Fine;
    }
  }
}
