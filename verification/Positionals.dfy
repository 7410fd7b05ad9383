/** How positional values are handed out to positional options. */
module Positionals {

  datatype Occurrences = Optional | ZeroOrMore | Required | OneOrMore

  /** A positional option; `named` says that it can also be given by name. */
  datatype Positional = Positional(occurrences: Occurrences, named: bool) {
    predicate RequiresValue() { occurrences == Required || occurrences == OneOrMore }

    predicate EatsUnbounded() { occurrences == ZeroOrMore || occurrences == OneOrMore }

    function Least(): nat { if RequiresValue() then 1 else 0 }
  }

  /** A value handed to the option at an index; the consume-after option comes after all others. */
  datatype Delivery = Delivery(option: nat, value: string)

  // ---------------------------------------------------------------- counting

  function CountRequired(opts: seq<Positional>): nat {
    if opts == [] then 0 else opts[0].Least() + CountRequired(opts[1..])
  }

  predicate AnyUnbounded(opts: seq<Positional>) {
    exists i | 0 <= i < |opts| :: opts[i].EatsUnbounded()
  }

  lemma {:induction false} CountRequiredNext(opts: seq<Positional>, i: nat)
    requires i < |opts|
    ensures CountRequired(opts[..i + 1]) == CountRequired(opts[..i]) + opts[i].Least()
    decreases i
  {
    if i > 0 {
      CountRequiredNext(opts[1..], i - 1);
      assert opts[1..][..i] == opts[..i + 1][1..] && opts[1..][..i - 1] == opts[..i][1..];
    } else {
      assert opts[..1][1..] == [];
    }
  }

  /** An option that can never be matched: everything was eaten before it, or consume-after is active. */
  ghost predicate NeverMatched(opts: seq<Positional>, consumeAfter: bool, j: nat)
    requires j < |opts|
  {
    && !opts[j].RequiresValue()
    && if consumeAfter then |opts| > 1 else !opts[j].named && AnyUnbounded(opts[..j])
  }

  method ExaminePositionals(opts: seq<Positional>, consumeAfter: bool)
    returns (numPositionalRequired: nat, hasUnlimitedPositionals: bool, errorParsing: bool)
    ensures numPositionalRequired == CountRequired(opts)
    ensures hasUnlimitedPositionals <==> opts != [] && (consumeAfter || AnyUnbounded(opts))
    ensures errorParsing <==> exists j: nat :: j < |opts| && NeverMatched(opts, consumeAfter, j)
  {
    numPositionalRequired, hasUnlimitedPositionals, errorParsing := 0, false, false;
    if opts != [] {
      var unboundedFound := false;
      for i := 0 to |opts|
        invariant numPositionalRequired == CountRequired(opts[..i])
        invariant unboundedFound <==> AnyUnbounded(opts[..i])
        invariant errorParsing <==> exists j: nat :: j < i && NeverMatched(opts, consumeAfter, j)
      {
        var opt := opts[i];
        CountRequiredNext(opts, i);
        ghost var before := errorParsing;
        if opt.RequiresValue() {
          numPositionalRequired := numPositionalRequired + 1;
        } else if consumeAfter {
          if |opts| > 1 {
            errorParsing := true;
          }
        } else if unboundedFound && !opt.named {
          errorParsing := true;
        }
        assert errorParsing <==> before || NeverMatched(opts, consumeAfter, i);
        AnyUnboundedNext(opts, i);
        unboundedFound := unboundedFound || opt.EatsUnbounded();
      }
      assert opts[..|opts|] == opts;
      hasUnlimitedPositionals := unboundedFound || consumeAfter;
    }
  }

  lemma AnyUnboundedNext(opts: seq<Positional>, i: nat)
    requires i < |opts|
    ensures AnyUnbounded(opts[..i + 1]) <==> AnyUnbounded(opts[..i]) || opts[i].EatsUnbounded()
  {
    var before, after := opts[..i], opts[..i + 1];
    assert after == before + [opts[i]];
    if j :| 0 <= j < |after| && after[j].EatsUnbounded() {
      assert j < i ==> before[j].EatsUnbounded();
    }
    if j :| 0 <= j < |before| && before[j].EatsUnbounded() {
      assert after[j].EatsUnbounded();
    }
    if opts[i].EatsUnbounded() {
      assert after[i].EatsUnbounded();
    }
  }

  // ---------------------------------------------------------------- allocations

  function Sum(counts: seq<nat>): nat {
    if counts == [] then 0 else counts[0] + Sum(counts[1..])
  }

  /** `count` values suit the option. */
  predicate Suits(opt: Positional, count: nat) {
    opt.Least() <= count && (opt.EatsUnbounded() || count <= 1)
  }

  /** All `n` values are given out, each option within its limits. */
  predicate Feasible(opts: seq<Positional>, counts: seq<nat>, n: nat) {
    |counts| == |opts| && Sum(counts) == n && forall i | 0 <= i < |opts| :: Suits(opts[i], counts[i])
  }

  /** How many values the next option takes when `spare` values are not needed by anyone. */
  function Take(opt: Positional, spare: nat): nat {
    match opt.occurrences
    case Required => 1
    case Optional => if spare > 0 then 1 else 0
    case ZeroOrMore => spare
    case OneOrMore => 1 + spare
  }

  /** The number of values each option gets from the loop. */
  function Greedy(opts: seq<Positional>, spare: nat): seq<nat> {
    if opts == [] then []
    else [Take(opts[0], spare)] + Greedy(opts[1..], spare - (Take(opts[0], spare) - opts[0].Least()))
  }

  /** The deliveries in which the options from index `first` on take `counts` consecutive values of `vals`. */
  function Deliveries(first: nat, counts: seq<nat>, vals: seq<string>): seq<Delivery>
    requires Sum(counts) <= |vals|
    decreases |counts|
  {
    if counts == [] then []
    else Row(first, vals[..counts[0]]) + Deliveries(first + 1, counts[1..], vals[counts[0]..])
  }

  /** All of `vals` for one option. */
  function Row(option: nat, vals: seq<string>): seq<Delivery> {
    seq(|vals|, i requires 0 <= i < |vals| => Delivery(option, vals[i]))
  }

  /** The greedy counts respect the limits, and with enough room they use up exactly everything. */
  lemma {:induction false} GreedyIsFeasible(opts: seq<Positional>, spare: nat)
    requires AnyUnbounded(opts) || CountRequired(opts) + spare <= |opts|
    ensures Feasible(opts, Greedy(opts, spare), CountRequired(opts) + spare)
  {
    if opts != [] {
      var left := spare - (Take(opts[0], spare) - opts[0].Least());
      CountRequiredAtMostAll(opts[1..]);
      if !opts[0].EatsUnbounded() {
        UnboundedLater(opts);
      }
      GreedyIsFeasible(opts[1..], left);
      var rest := Greedy(opts[1..], left);
      assert Greedy(opts, spare)[1..] == rest;
      assert forall i | 1 <= i < |opts| :: opts[i] == opts[1..][i - 1] && Greedy(opts, spare)[i] == rest[i - 1];
    }
  }

  lemma {:induction false} CountRequiredAtMostAll(opts: seq<Positional>)
    ensures CountRequired(opts) <= |opts|
  {
    if opts != [] {
      CountRequiredAtMostAll(opts[1..]);
    }
  }

  lemma UnboundedLater(opts: seq<Positional>)
    requires opts != [] && !opts[0].EatsUnbounded()
    ensures AnyUnbounded(opts) <==> AnyUnbounded(opts[1..])
  {
    if i :| 0 <= i < |opts| && opts[i].EatsUnbounded() {
      assert opts[1..][i - 1].EatsUnbounded();
    }
    if i :| 0 <= i < |opts[1..]| && opts[1..][i].EatsUnbounded() {
      assert opts[i + 1].EatsUnbounded();
    }
  }

  lemma {:induction false} FeasibleNeeds(opts: seq<Positional>, counts: seq<nat>, n: nat)
    requires Feasible(opts, counts, n)
    ensures CountRequired(opts) <= n && (AnyUnbounded(opts) || n <= |opts|)
  {
    if opts != [] {
      FeasibleTail(opts, counts, n);
      FeasibleNeeds(opts[1..], counts[1..], n - counts[0]);
      if !opts[0].EatsUnbounded() {
        UnboundedLater(opts);
      }
    }
  }

  lemma FeasibleTail(opts: seq<Positional>, counts: seq<nat>, n: nat)
    requires opts != [] && Feasible(opts, counts, n)
    ensures |counts| == |opts| && counts[0] <= n && Feasible(opts[1..], counts[1..], n - counts[0])
    ensures Suits(opts[0], counts[0])
  {
    assert forall i | 0 <= i < |opts| - 1 :: opts[1..][i] == opts[i + 1] && counts[1..][i] == counts[i + 1];
  }

  /** The two checks of the source let through exactly the numbers of values that can be given out at all. */
  lemma ChecksMeanFeasible(opts: seq<Positional>, n: nat)
    ensures CountRequired(opts) <= n && (AnyUnbounded(opts) || n <= |opts|)
       <==> exists counts: seq<nat> :: Feasible(opts, counts, n)
  {
    if CountRequired(opts) <= n && (AnyUnbounded(opts) || n <= |opts|) {
      GreedyIsFeasible(opts, n - CountRequired(opts));
    }
    if counts: seq<nat> :| Feasible(opts, counts, n) {
      FeasibleNeeds(opts, counts, n);
    }
  }

  /** `counts` gives less than `other` to the first option they differ on. */
  predicate LexSmaller(counts: seq<nat>, other: seq<nat>) {
    counts != [] && other != [] &&
    (counts[0] < other[0] || (counts[0] == other[0] && LexSmaller(counts[1..], other[1..])))
  }

  /** Of all ways to give out the values, the loop picks the one that serves earlier options first. */
  lemma {:induction false} GreedyIsGreatest(opts: seq<Positional>, counts: seq<nat>, n: nat)
    requires Feasible(opts, counts, n)
    ensures CountRequired(opts) <= n
    ensures var best := Greedy(opts, n - CountRequired(opts));
            counts == best || LexSmaller(counts, best)
  {
    hide Feasible, Greedy, CountRequired, Suits, LexSmaller;
    FeasibleNeeds(opts, counts, n);
    var best := Greedy(opts, n - CountRequired(opts));
    if opts == [] {
      NothingToGive(opts, counts, n);
    } else {
      FeasibleTail(opts, counts, n);
      FeasibleNeeds(opts[1..], counts[1..], n - counts[0]);
      GreedyIsGreatest(opts[1..], counts[1..], n - counts[0]);
      RequiredAfterFirst(opts);
      GreedyNext(opts, 0, n - CountRequired(opts));
      assert opts[0..] == opts;
      FirstTakesMost(opts[0], counts[0], n - CountRequired(opts[1..]));
      LaterDecides(counts, best);
    }
  }

  lemma NothingToGive(opts: seq<Positional>, counts: seq<nat>, n: nat)
    requires opts == [] && Feasible(opts, counts, n)
    ensures CountRequired(opts) <= n && counts == Greedy(opts, n - CountRequired(opts))
  {
  }

  /** No suitable count that leaves enough for the others is greater than what the loop gives. */
  lemma FirstTakesMost(opt: Positional, count: nat, available: nat)
    requires Suits(opt, count) && count <= available
    ensures opt.Least() <= available && count <= Take(opt, available - opt.Least())
  {
  }

  lemma LaterDecides(counts: seq<nat>, best: seq<nat>)
    requires counts != [] && best != [] && counts[0] <= best[0]
    requires counts[0] == best[0] ==> counts[1..] == best[1..] || LexSmaller(counts[1..], best[1..])
    ensures counts == best || LexSmaller(counts, best)
  {
    assert counts == [counts[0]] + counts[1..] && best == [best[0]] + best[1..];
  }

  // ---------------------------------------------------------------- the values of the deliveries

  function Values(ds: seq<Delivery>): (v: seq<string>)
    ensures |v| == |ds|
    ensures forall i | 0 <= i < |ds| :: v[i] == ds[i].value
  {
    seq(|ds|, i requires 0 <= i < |ds| => ds[i].value)
  }

  /** How many values an option gets. */
  function Received(ds: seq<Delivery>, option: nat): nat {
    if ds == [] then 0 else (if ds[0].option == option then 1 else 0) + Received(ds[1..], option)
  }

  lemma {:induction false} ReceivedAppend(a: seq<Delivery>, b: seq<Delivery>, option: nat)
    ensures Received(a + b, option) == Received(a, option) + Received(b, option)
  {
    if a == [] {
      assert a + b == b;
    } else {
      ReceivedAppend(a[1..], b, option);
      assert (a + b)[1..] == a[1..] + b;
    }
  }

  lemma RowNext(option: nat, vals: seq<string>, start: nat, i: nat)
    requires start <= i < |vals|
    ensures Row(option, vals[start..i + 1]) == Row(option, vals[start..i]) + [Delivery(option, vals[i])]
  {
  }

  lemma AppendEach(ds: seq<Delivery>, option: nat, vals: seq<string>, start: nat, i: nat)
    requires start <= i < |vals|
    ensures (ds + Row(option, vals[start..i])) + [Delivery(option, vals[i])] == ds + Row(option, vals[start..i + 1])
  {
    RowNext(option, vals, start, i);
  }

  lemma AppendNone(ds: seq<Delivery>, option: nat, vals: seq<string>, start: nat)
    requires start <= |vals|
    ensures ds + Row(option, vals[start..start]) == ds
  {
  }

  lemma {:induction false} RowReceived(first: nat, vals: seq<string>, option: nat)
    ensures Received(Row(first, vals), option) == if option == first then |vals| else 0
  {
    if vals != [] {
      RowReceived(first, vals[1..], option);
      assert Row(first, vals)[1..] == Row(first, vals[1..]);
    }
  }

  /** Deliveries by counts hand out the first values in order, and each option gets its count. */
  lemma {:induction false} DeliveriesConserve(first: nat, counts: seq<nat>, vals: seq<string>, option: nat)
    requires Sum(counts) <= |vals|
    ensures Values(Deliveries(first, counts, vals)) == vals[..Sum(counts)]
    ensures Received(Deliveries(first, counts, vals), option)
         == if first <= option < first + |counts| then counts[option - first] else 0
    decreases |counts|
  {
    if counts != [] {
      hide Row, Received, Values, Deliveries;
      var c, more := counts[0], counts[1..];
      DeliveriesConserve(first + 1, more, vals[c..], option);
      var row, rest := Row(first, vals[..c]), Deliveries(first + 1, more, vals[c..]);
      DeliveriesFirst(first, counts, vals);
      RowThenRest(first, vals, c, Sum(more), rest);
      ReceivedAppend(row, rest, option);
      RowReceived(first, vals[..c], option);
    } else {
      NothingDelivered(first, counts, vals, option);
    }
  }

  lemma DeliveriesFirst(first: nat, counts: seq<nat>, vals: seq<string>)
    requires counts != [] && Sum(counts) <= |vals|
    ensures Sum(counts) == counts[0] + Sum(counts[1..])
    ensures Deliveries(first, counts, vals)
         == Row(first, vals[..counts[0]]) + Deliveries(first + 1, counts[1..], vals[counts[0]..])
  {
  }

  lemma NothingDelivered(first: nat, counts: seq<nat>, vals: seq<string>, option: nat)
    requires counts == []
    ensures Values(Deliveries(first, counts, vals)) == vals[..Sum(counts)]
    ensures Received(Deliveries(first, counts, vals), option) == 0
  {
  }

  lemma RowThenRest(first: nat, vals: seq<string>, c: nat, n: nat, rest: seq<Delivery>)
    requires c + n <= |vals| && Values(rest) == vals[c..][..n]
    ensures Values(Row(first, vals[..c]) + rest) == vals[..c + n]
  {
    hide Row, Values;
    ValuesAppend(Row(first, vals[..c]), rest);
    RowValues(first, vals[..c]);
    SlicesJoin(vals, c, n);
  }

  lemma ValuesAppend(a: seq<Delivery>, b: seq<Delivery>)
    ensures Values(a + b) == Values(a) + Values(b)
  {
  }

  lemma RowValues(option: nat, vals: seq<string>)
    ensures Values(Row(option, vals)) == vals
  {
  }

  lemma SlicesJoin(vals: seq<string>, c: nat, n: nat)
    requires c + n <= |vals|
    ensures vals[..c + n] == vals[..c] + vals[c..][..n]
  {
  }

  /** Every value arrives exactly once and in order, and every option gets a number of values that suits it. */
  lemma {:induction false} DistributionConserves(opts: seq<Positional>, vals: seq<string>, counts: seq<nat>)
    requires CountRequired(opts) <= |vals| && (AnyUnbounded(opts) || |vals| <= |opts|)
    requires counts == Greedy(opts, |vals| - CountRequired(opts))
    ensures Sum(counts) == |vals|
    ensures Values(Deliveries(0, counts, vals)) == vals
    ensures forall i | 0 <= i < |opts| :: Suits(opts[i], Received(Deliveries(0, counts, vals), i))
  {
    hide Greedy, Deliveries, Suits;
    GreedyIsFeasible(opts, |vals| - CountRequired(opts));
    DeliveriesConserve(0, counts, vals, 0);
    assert vals[..|vals|] == vals;
    forall i | 0 <= i < |opts| ensures Suits(opts[i], Received(Deliveries(0, counts, vals), i)) {
      DeliveriesConserve(0, counts, vals, i);
    }
  }

  // ---------------------------------------------------------------- the loop

  /** What is delivered so far and what the greedy counts still deliver make up `all`. */
  ghost predicate Pending(all: seq<Delivery>, ds: seq<Delivery>, opts: seq<Positional>, i: nat,
                          vals: seq<string>, valNo: nat, needed: nat)
  {
    && i <= |opts| && valNo + needed <= |vals| && needed == CountRequired(opts[i..])
    && Sum(Greedy(opts[i..], |vals| - valNo - needed)) <= |vals| - valNo
    && all == ds + Deliveries(i, Greedy(opts[i..], |vals| - valNo - needed), vals[valNo..])
  }

  lemma {:induction false} GreedyFits(opts: seq<Positional>, spare: nat)
    ensures Sum(Greedy(opts, spare)) <= CountRequired(opts) + spare
  {
    if opts != [] {
      GreedyFits(opts[1..], spare - (Take(opts[0], spare) - opts[0].Least()));
    }
  }

  lemma DeliveriesCons(first: nat, count: nat, rest: seq<nat>, vals: seq<string>, valNo: nat)
    requires valNo <= |vals| && Sum([count] + rest) <= |vals| - valNo
    ensures valNo + count <= |vals| && Sum(rest) <= |vals| - (valNo + count)
    ensures Deliveries(first, [count] + rest, vals[valNo..])
         == Row(first, vals[valNo..valNo + count]) + Deliveries(first + 1, rest, vals[valNo + count..])
  {
    assert ([count] + rest)[1..] == rest;
    assert vals[valNo..][..count] == vals[valNo..valNo + count];
    assert vals[valNo..][count..] == vals[valNo + count..];
  }

  lemma PendingNext(all: seq<Delivery>, ds: seq<Delivery>, opts: seq<Positional>, i: nat,
                                       vals: seq<string>, valNo: nat, needed: nat)
    requires Pending(all, ds, opts, i, vals, valNo, needed) && i < |opts|
    ensures valNo + needed <= |vals| && needed >= opts[i].Least()
    ensures var taken := Take(opts[i], |vals| - valNo - needed);
            && valNo + taken <= |vals|
            && Pending(all, ds + Row(i, vals[valNo..valNo + taken]), opts, i + 1, vals, valNo + taken, needed - opts[i].Least())
  {
    hide Greedy, Deliveries, CountRequired, Sum;
    var spare := |vals| - valNo - needed;
    var taken := Take(opts[i], spare);
    GreedyNext(opts, i, spare);
    var rest := Greedy(opts[i + 1..], spare - (taken - opts[i].Least()));
    DeliveriesCons(i, taken, rest, vals, valNo);
    AppendRegroups(ds, Row(i, vals[valNo..valNo + taken]), Deliveries(i + 1, rest, vals[valNo + taken..]));
  }

  lemma GreedyNext(opts: seq<Positional>, i: nat, spare: nat)
    requires i < |opts|
    ensures var taken := Take(opts[i], spare);
            Greedy(opts[i..], spare) == [taken] + Greedy(opts[i + 1..], spare - (taken - opts[i].Least()))
    ensures CountRequired(opts[i..]) == opts[i].Least() + CountRequired(opts[i + 1..])
  {
    assert opts[i..][1..] == opts[i + 1..];
  }

  lemma AppendRegroups(a: seq<Delivery>, b: seq<Delivery>, c: seq<Delivery>)
    ensures a + (b + c) == (a + b) + c
  {
  }

  /** The distribution without a consume-after option; the deliveries are in the order of the calls. */
  method Distribute(opts: seq<Positional>, vals: seq<string>, numPositionalRequired: nat) returns (ds: seq<Delivery>)
    requires numPositionalRequired == CountRequired(opts) <= |vals|
    ensures Sum(Greedy(opts, |vals| - CountRequired(opts))) <= |vals|
    ensures ds == Deliveries(0, Greedy(opts, |vals| - CountRequired(opts)), vals)
  {
    hide Pending, Greedy, Deliveries, CountRequired, Row;
    ds := [];
    var valNo, numVals := 0, |vals|;
    var required := numPositionalRequired;
    ghost var all := PendingAtStart(opts, vals);
    for i := 0 to |opts|
      invariant 0 <= valNo && 0 <= required && Pending(all, ds, opts, i, vals, valNo, required)
    {
      PendingNext(all, ds, opts, i, vals, valNo, required);
      ghost var ds0, start := ds, valNo;
      AppendNone(ds0, i, vals, start);
      ghost var spare := numVals - valNo - required;
      ghost var taken := Take(opts[i], spare);
      if opts[i].RequiresValue() {
        AppendEach(ds0, i, vals, start, valNo);
        ds := ds + [Delivery(i, vals[valNo])];
        valNo := valNo + 1;
        required := required - 1;
      }
      var done := opts[i].occurrences == Required;
      while numVals - valNo > required && !done
        invariant start <= valNo <= numVals - required
        invariant valNo - start <= taken && (opts[i].occurrences == Required ==> done)
        invariant numVals - valNo - required == spare - (valNo - start - opts[i].Least())
        invariant ds == ds0 + Row(i, vals[start..valNo])
        invariant done ==> valNo - start == taken
        invariant !done && opts[i].occurrences == Optional ==> valNo == start
        decreases numVals - valNo
      {
        if opts[i].occurrences == Optional {
          done := true;
        }
        AppendEach(ds0, i, vals, start, valNo);
        ds := ds + [Delivery(i, vals[valNo])];
        valNo := valNo + 1;
      }
    }
    PendingAtEnd(all, ds, opts, vals, valNo, required);
  }

  lemma PendingAtStart(opts: seq<Positional>, vals: seq<string>) returns (all: seq<Delivery>)
    requires CountRequired(opts) <= |vals|
    ensures Sum(Greedy(opts, |vals| - CountRequired(opts))) <= |vals|
    ensures all == Deliveries(0, Greedy(opts, |vals| - CountRequired(opts)), vals)
    ensures Pending(all, [], opts, 0, vals, 0, CountRequired(opts))
  {
    GreedyFits(opts, |vals| - CountRequired(opts));
    all := Deliveries(0, Greedy(opts, |vals| - CountRequired(opts)), vals);
    assert opts[0..] == opts && vals[0..] == vals && [] + all == all;
  }

  lemma PendingAtEnd(all: seq<Delivery>, ds: seq<Delivery>, opts: seq<Positional>, vals: seq<string>, valNo: nat, needed: nat)
    requires Pending(all, ds, opts, |opts|, vals, valNo, needed)
    ensures all == ds
  {
    assert opts[|opts|..] == [];
    assert ds + [] == ds;
  }

  // ---------------------------------------------------------------- with a consume-after option

  /** The deliveries of the loop over the options from index `j` on, one value for each that requires one. */
  function OneEach(opts: seq<Positional>, j: nat, vals: seq<string>): (seq<Delivery>, nat)
    decreases |opts| - j
  {
    if j >= |opts| then ([], 0)
    else if opts[j].RequiresValue() && vals != [] then
      var (ds, used) := OneEach(opts, j + 1, vals[1..]);
      ([Delivery(j, vals[0])] + ds, used + 1)
    else
      OneEach(opts, j + 1, vals)
  }

  /** All deliveries: the required options but the first, or the only option, and the rest for consume-after. */
  function ConsumeAfterDeliveries(opts: seq<Positional>, vals: seq<string>): seq<Delivery> {
    if |opts| == 1 && vals != [] then [Delivery(0, vals[0])] + Row(1, vals[1..])
    else
      var (ds, used) := OneEach(opts, 1, vals);
      if used <= |vals| then ds + Row(|opts|, vals[used..]) else ds
  }

  lemma {:induction false} OneEachFacts(opts: seq<Positional>, j: nat, vals: seq<string>, option: nat)
    requires j <= |opts| && CountRequired(opts[j..]) <= |vals|
    ensures var (ds, used) := OneEach(opts, j, vals);
            && used == CountRequired(opts[j..]) && Values(ds) == vals[..used]
            && Received(ds, option) == if j <= option < |opts| then opts[option].Least() else 0
    decreases |opts| - j
  {
    if j < |opts| {
      assert opts[j..][1..] == opts[j + 1..];
      if opts[j].RequiresValue() {
        OneEachFacts(opts, j + 1, vals[1..], option);
        var (ds, used) := OneEach(opts, j + 1, vals[1..]);
        assert Values([Delivery(j, vals[0])] + ds) == [vals[0]] + Values(ds);
        assert vals[..used + 1] == [vals[0]] + vals[1..][..used];
        assert ([Delivery(j, vals[0])] + ds)[1..] == ds;
      } else {
        OneEachFacts(opts, j + 1, vals, option);
      }
    }
  }

  /** Handing one value to option `j` is the first step of `OneEach`. */
  lemma OneEachNext(ds: seq<Delivery>, opts: seq<Positional>, j: nat, vals: seq<string>, valNo: nat)
    requires j < |opts| && valNo <= |vals| && valNo + CountRequired(opts[j..]) <= |vals|
    ensures opts[j].RequiresValue() ==> valNo < |vals|
    ensures var now := OneEach(opts, j, vals[valNo..]);
            var next := OneEach(opts, j + 1, vals[if opts[j].RequiresValue() then valNo + 1 else valNo..]);
            if opts[j].RequiresValue() then
              ds + now.0 == (ds + [Delivery(j, vals[valNo])]) + next.0 && now.1 == next.1 + 1
            else
              now == next
    ensures CountRequired(opts[j..]) == opts[j].Least() + CountRequired(opts[j + 1..])
  {
    assert opts[j..][1..] == opts[j + 1..];
    if opts[j].RequiresValue() {
      assert vals[valNo..][1..] == vals[valNo + 1..];
      AppendRegroups(ds, [Delivery(j, vals[valNo])], OneEach(opts, j + 1, vals[valNo + 1..]).0);
    }
  }

  /** The branch with a consume-after option, once enough values are there. */
  method DistributeConsumeAfter(opts: seq<Positional>, vals: seq<string>) returns (ds: seq<Delivery>)
    requires opts != [] && CountRequired(opts) <= |vals|
    ensures ds == ConsumeAfterDeliveries(opts, vals)
  {
    hide Row, CountRequired, OneEach, ConsumeAfterDeliveries, Values, Received;
    ds := [];
    var valNo := 0;
    ghost var (given, used) := OneEach(opts, 1, vals);
    RequiredAfterFirst(opts);
    OneEachFacts(opts, 1, vals, 0);
    assert vals[0..] == vals && [] + given == given;
    if |opts| == 1 {
      OneEachEnds([], opts, vals);
    }
    var j := 1;
    while j != |opts|
      invariant 1 <= j <= |opts| && 0 <= valNo && valNo + CountRequired(opts[j..]) <= |vals|
      invariant given == ds + OneEach(opts, j, vals[valNo..]).0 && used == valNo + OneEach(opts, j, vals[valNo..]).1
      decreases |opts| - j
    {
      OneEachNext(ds, opts, j, vals, valNo);
      if opts[j].RequiresValue() {
        ds := ds + [Delivery(j, vals[valNo])];
        valNo := valNo + 1;
      }
      j := j + 1;
    }
    OneEachEnds(ds, opts, vals[valNo..]);
    if |opts| == 1 && valNo == 0 && vals != [] {
      ds := ds + [Delivery(0, vals[valNo])];
      valNo := valNo + 1;
    }
    ghost var ds0, start := ds, valNo;
    AppendNone(ds0, |opts|, vals, start);
    while valNo != |vals|
      invariant start <= valNo <= |vals| && ds == ds0 + Row(|opts|, vals[start..valNo])
      decreases |vals| - valNo
    {
      AppendEach(ds0, |opts|, vals, start, valNo);
      ds := ds + [Delivery(|opts|, vals[valNo])];
      valNo := valNo + 1;
    }
    ConsumeAfterIs(opts, vals, given, used, start);
  }

  lemma OneEachEnds(ds: seq<Delivery>, opts: seq<Positional>, vals: seq<string>)
    ensures ds + OneEach(opts, |opts|, vals).0 == ds && OneEach(opts, |opts|, vals).1 == 0
  {
    assert ds + [] == ds;
  }

  lemma ConsumeAfterIs(opts: seq<Positional>, vals: seq<string>, given: seq<Delivery>, used: nat, start: nat)
    requires opts != [] && OneEach(opts, 1, vals) == (given, used) && used <= |vals|
    requires start == if |opts| == 1 && vals != [] then 1 else used
    ensures ConsumeAfterDeliveries(opts, vals)
         == (if |opts| == 1 && vals != [] then [] + [Delivery(0, vals[0])] else given) + Row(|opts|, vals[start..|vals|])
  {
    hide Row, OneEach;
    assert vals[start..|vals|] == vals[start..];
  }

  lemma RequiredAfterFirst(opts: seq<Positional>)
    requires opts != []
    ensures CountRequired(opts) == opts[0].Least() + CountRequired(opts[1..])
  {
  }

  /**
    * With consume-after every value still arrives exactly once and in order, but every option gets a number of
    * values its kind allows exactly when the first option is the only one or does not require a value.
    */
  lemma {:induction false} ConsumeAfterStarvesFirst(opts: seq<Positional>, vals: seq<string>)
    requires opts != [] && CountRequired(opts) <= |vals|
    ensures var ds := ConsumeAfterDeliveries(opts, vals);
            && Values(ds) == vals
            && ((forall i | 0 <= i < |opts| :: Suits(opts[i], Received(ds, i)))
                <==> |opts| == 1 || !opts[0].RequiresValue())
  {
    var ds := ConsumeAfterDeliveries(opts, vals);
    if |opts| == 1 && vals != [] {
      assert Values(ds) == vals;
      ReceivedAppend([Delivery(0, vals[0])], Row(1, vals[1..]), 0);
      RowReceived(1, vals[1..], 0);
    } else {
      var (given, used) := OneEach(opts, 1, vals);
      assert CountRequired(opts) == opts[0].Least() + CountRequired(opts[1..]);
      OneEachFacts(opts, 1, vals, 0);
      assert Values(ds) == vals[..used] + vals[used..];
      forall i | 0 <= i < |opts| ensures Received(ds, i) == if i == 0 then 0 else opts[i].Least() {
        OneEachFacts(opts, 1, vals, i);
        ReceivedAppend(given, Row(|opts|, vals[used..]), i);
        RowReceived(|opts|, vals[used..], i);
      }
    }
  }

  // ---------------------------------------------------------------- both branches behind the checks

  datatype Outcome = Delivered(ds: seq<Delivery>) | TooFew | TooMany

  /**
    * The positional part of `ParseCommandLineOptions`. Without consume-after, values are delivered exactly when they
    * can be given out at all; whenever they are delivered, each arrives once and in order.
    */
  method HandlePositionals(opts: seq<Positional>, consumeAfter: bool, vals: seq<string>) returns (r: Outcome)
    requires consumeAfter ==> opts != []
    ensures r.TooFew? <==> |vals| < CountRequired(opts)
    ensures r.TooMany? ==> !consumeAfter && |vals| > |opts|
    ensures r.Delivered? ==> Values(r.ds) == vals
    ensures !consumeAfter ==> (r.Delivered? <==> exists counts: seq<nat> :: Feasible(opts, counts, |vals|))
    ensures !consumeAfter && r.Delivered? ==> forall i | 0 <= i < |opts| :: Suits(opts[i], Received(r.ds, i))
    ensures consumeAfter && r.Delivered? ==> r.ds == ConsumeAfterDeliveries(opts, vals)
    ensures consumeAfter ==> r.TooFew? || r.Delivered?
  {
    hide Feasible, Greedy, Deliveries, Suits, ConsumeAfterDeliveries, CountRequired, AnyUnbounded;
    var numPositionalRequired, hasUnlimitedPositionals, _ := ExaminePositionals(opts, consumeAfter);
    ChecksMeanFeasible(opts, |vals|);
    NoneUnbounded(opts);
    if numPositionalRequired > |vals| {
      r := TooFew;
    } else if !hasUnlimitedPositionals && |vals| > |opts| {
      r := TooMany;
    } else if !consumeAfter {
      DistributionConserves(opts, vals, Greedy(opts, |vals| - CountRequired(opts)));
      var ds := Distribute(opts, vals, numPositionalRequired);
      r := Delivered(ds);
    } else {
      ConsumeAfterStarvesFirst(opts, vals);
      var ds := DistributeConsumeAfter(opts, vals);
      r := Delivered(ds);
    }
  }

  lemma NoneUnbounded(opts: seq<Positional>)
    ensures opts == [] ==> !AnyUnbounded(opts)
  {
  }

  /** Of two required options with consume-after, the first gets none of two values. */
  lemma FirstOfTwoGetsNothing()
    ensures var opts := [Positional(Required, false), Positional(Required, false)];
            ConsumeAfterDeliveries(opts, ["x", "y"]) == [Delivery(1, "x"), Delivery(2, "y")]
  {
    var opts := [Positional(Required, false), Positional(Required, false)];
    assert ["x", "y"][1..] == ["y"] && ["x", "y"][0] == "x";
    assert OneEach(opts, 2, ["y"]) == ([], 0);
    assert [Delivery(1, "x")] + [] == [Delivery(1, "x")];
    assert OneEach(opts, 1, ["x", "y"]).0 == [Delivery(1, "x")];
    assert Row(2, ["y"]) == [Delivery(2, "y")];
  }

  // ---------------------------------------------------------------- options that never get a value

  lemma {:induction false} NoSpareIsLeast(opts: seq<Positional>, j: nat)
    requires j < |opts|
    ensures |Greedy(opts, 0)| == |opts| && Greedy(opts, 0)[j] == opts[j].Least()
  {
    if |opts| > 1 {
      NoSpareIsLeast(opts[1..], if j == 0 then 0 else j - 1);
    }
  }

  /** After an unbounded option, nothing is left for one that requires no value. */
  lemma {:induction false} NothingAfterUnbounded(opts: seq<Positional>, j: nat, spare: nat)
    requires j < |opts| && !opts[j].RequiresValue() && AnyUnbounded(opts[..j])
    ensures |Greedy(opts, spare)| == |opts| && Greedy(opts, spare)[j] == 0
  {
    var first := opts[0];
    assert j > 0;
    if first.EatsUnbounded() {
      NoSpareIsLeast(opts[1..], j - 1);
    } else {
      assert opts[1..][..j - 1] == opts[..j][1..];
      UnboundedLater(opts[..j]);
      NothingAfterUnbounded(opts[1..], j - 1, spare - (Take(first, spare) - first.Least()));
    }
  }

  /** Before any unbounded option, enough spare values reach every option; a required one always gets a value. */
  lemma {:induction false} SomethingWithoutUnbounded(opts: seq<Positional>, j: nat, spare: nat)
    requires j < |opts| && (opts[j].RequiresValue() || (!AnyUnbounded(opts[..j]) && spare > j))
    ensures |Greedy(opts, spare)| == |opts| && Greedy(opts, spare)[j] > 0
  {
    var first := opts[0];
    if j > 0 {
      var rest := spare - (Take(first, spare) - first.Least());
      assert opts[1..][j - 1] == opts[j];
      if !opts[j].RequiresValue() {
        assert opts[..j][0] == first && opts[1..][..j - 1] == opts[..j][1..];
        UnboundedLater(opts[..j]);
      }
      SomethingWithoutUnbounded(opts[1..], j - 1, rest);
    } else if |opts| > 1 {
      SomethingWithoutUnbounded(opts[1..], 0, if opts[1].RequiresValue() then spare - (Take(first, spare) - first.Least()) else 1);
      GreedySize(opts[1..], spare - (Take(first, spare) - first.Least()));
    }
  }

  lemma {:induction false} GreedySize(opts: seq<Positional>, spare: nat)
    ensures |Greedy(opts, spare)| == |opts|
  {
    if opts != [] {
      GreedySize(opts[1..], spare - (Take(opts[0], spare) - opts[0].Least()));
    }
  }

  /** The loop gives an option nothing, however many values there are. */
  ghost predicate NeverGets(opts: seq<Positional>, j: nat)
    requires j < |opts|
  {
    forall spare: nat :: GreedyCount(opts, spare, j) == 0
  }

  function GreedyCount(opts: seq<Positional>, spare: nat, j: nat): nat
    requires j < |opts|
  {
    GreedySize(opts, spare);
    Greedy(opts, spare)[j]
  }

  /**
    * Without consume-after, the options that the examination reports are those that are not given by name either and
    * never get a value from the loop.
    */
  lemma ReportedNeverGet(opts: seq<Positional>, j: nat)
    requires j < |opts|
    ensures NeverMatched(opts, false, j) <==> !opts[j].named && NeverGets(opts, j)
  {
    if !opts[j].RequiresValue() && AnyUnbounded(opts[..j]) {
      forall spare: nat ensures GreedyCount(opts, spare, j) == 0 {
        NothingAfterUnbounded(opts, j, spare);
      }
    } else {
      SomethingWithoutUnbounded(opts, j, j + 1);
      assert GreedyCount(opts, j + 1, j) > 0;
    }
  }

  /**
    * With consume-after, of several options those get a value, however many there are, that require one and are not the
    * first; the examination reports those that require none.
    */
  lemma ConsumeAfterGives(opts: seq<Positional>, j: nat, vals: seq<string>)
    requires |opts| > 1 && j < |opts| && CountRequired(opts) <= |vals|
    ensures Received(ConsumeAfterDeliveries(opts, vals), j) == if j > 0 && opts[j].RequiresValue() then 1 else 0
    ensures NeverMatched(opts, true, j) <==> !opts[j].RequiresValue()
  {
    var (given, used) := OneEach(opts, 1, vals);
    RequiredAfterFirst(opts);
    OneEachFacts(opts, 1, vals, j);
    ReceivedAppend(given, Row(|opts|, vals[used..]), j);
    RowReceived(|opts|, vals[used..], j);
  }

  /** The only option gets the first value, if there is one, even if it requires none. */
  lemma OnlyOptionGetsFirst(opts: seq<Positional>, vals: seq<string>)
    requires |opts| == 1 && CountRequired(opts) <= |vals|
    ensures ConsumeAfterDeliveries(opts, vals) == if vals == [] then [] else [Delivery(0, vals[0])] + Row(1, vals[1..])
  {
    assert OneEach(opts, 1, vals) == ([], 0);
  }
}
