/** What applying a printed edit script does to a text, and what its reversal does afterwards. */
module PatchTheorems {
  import opened Options
  import opened Text
  import opened UnifiedDiff
  import opened DiffScripts
  import Decimal

  // ---------------------------------------------------------------- texts and lines

  /** A line that splitting and stripping leave as it is. */
  predicate Clean(l: string) { '\n' !in l && (l == "" || l[|l| - 1] != '\r') }

  predicate AllClean(lines: seq<string>) { forall i | 0 <= i < |lines| :: Clean(lines[i]) }

  lemma {:induction false} SplitLine(l: string)
    requires '\n' !in l
    ensures Split(l) == [l]
  {
    if l != "" {
      assert l[0] in l && l == [l[0]] + l[1..];
      SplitLine(l[1..]);
    }
  }

  lemma {:induction false} SplitFirst(l: string, more: string)
    requires '\n' !in l
    ensures Split(l + ("\n" + more)) == [l] + Split(more)
  {
    if l == "" {
      assert l + ("\n" + more) == "\n" + more;
      assert ("\n" + more)[1..] == more;
    } else {
      assert l[0] in l && l == [l[0]] + l[1..];
      SplitFirst(l[1..], more);
      HeadOfAppend(l, "\n" + more);
    }
  }

  lemma {:induction false} JoinSplit(s: string)
    ensures Join(Split(s), "\n") == s
  {
    if s != "" {
      var rest := Split(s[1..]);
      JoinSplit(s[1..]);
      assert s == [s[0]] + s[1..];
      if s[0] == '\n' {
        assert ([""] + rest)[1..] == rest;
        assert "" + ("\n" + Join(rest, "\n")) == "\n" + s[1..];
      } else if |rest| > 1 {
        assert ([[s[0]] + rest[0]] + rest[1..])[1..] == rest[1..];
        Associative([s[0]], rest[0], "\n" + Join(rest[1..], "\n"));
      }
    }
  }

  lemma {:induction false} SplitHasNoNewline(s: string, i: nat)
    requires i < |Split(s)|
    ensures '\n' !in Split(s)[i]
  {
    if s != "" {
      if s[0] == '\n' {
        if i > 0 {
          SplitHasNoNewline(s[1..], i - 1);
        }
      } else {
        SplitHasNoNewline(s[1..], i);
      }
    }
  }

  lemma {:induction false} StripCrCleans(l: string)
    requires '\n' !in l
    ensures Clean(StripCr(l)) && (Clean(l) ==> StripCr(l) == l)
    decreases |l|
  {
    if l != "" && l[|l| - 1] == '\r' {
      StripCrCleans(l[..|l| - 1]);
    }
  }

  /** Stripping removes the carriage returns at the end of a line, all of them and nothing else. */
  lemma {:induction false} StripCrCutsExactly(l: string, r: string)
    ensures r == StripCr(l) <==> IsWithoutCr(r, l)
    decreases |l|
  {
    if l != "" && l[|l| - 1] == '\r' {
      StripCrCutsExactly(l[..|l| - 1], r);
      if IsWithoutCr(r, l[..|l| - 1]) {
        assert forall i | |r| <= i < |l| :: i < |l| - 1 ==> l[i] == l[..|l| - 1][i];
      }
      if IsWithoutCr(r, l) {
        assert |r| < |l|;
      }
    } else if IsWithoutCr(r, l) {
      assert |r| == |l|;
    }
  }

  /** `r` is `l` without the carriage returns at its end. */
  predicate IsWithoutCr(r: string, l: string) {
    r <= l && (forall i | |r| <= i < |l| :: l[i] == '\r') && (r == "" || r[|r| - 1] != '\r')
  }

  predicate NoNewlines(lines: seq<string>) { forall i | 0 <= i < |lines| :: '\n' !in lines[i] }

  lemma {:induction false} SplitJoined(lines: seq<string>)
    requires lines != [] && NoNewlines(lines)
    ensures Split(Join(lines, "\n")) == lines
  {
    if |lines| == 1 {
      SplitLine(lines[0]);
    } else {
      SplitJoined(lines[1..]);
      SplitFirst(lines[0], Join(lines[1..], "\n"));
    }
  }

  /** Splitting gives the one list of lines without newlines that makes the text when joined. */
  lemma SplitExactly(s: string, lines: seq<string>)
    ensures lines == Split(s) <==> lines != [] && NoNewlines(lines) && Join(lines, "\n") == s
  {
    JoinSplit(s);
    forall i | 0 <= i < |Split(s)| ensures '\n' !in Split(s)[i] {
      SplitHasNoNewline(s, i);
    }
    if lines != [] && NoNewlines(lines) {
      SplitJoined(lines);
    }
  }

  /** The lines a text is prepared to: cut at the newlines, each without the carriage returns at its end. */
  lemma PreparedExactly(s: string, lines: seq<string>)
    ensures lines == PreparedLines(s) <==>
            exists cut: seq<string> :: cut != [] && NoNewlines(cut) && Join(cut, "\n") == s && AreWithoutCr(lines, cut)
  {
    SplitExactly(s, Split(s));
    StripAllExactly(lines, Split(s));
    if cut: seq<string> :| cut != [] && NoNewlines(cut) && Join(cut, "\n") == s && AreWithoutCr(lines, cut) {
      SplitExactly(s, cut);
    }
  }

  predicate AreWithoutCr(lines: seq<string>, cut: seq<string>) {
    |lines| == |cut| && forall i | 0 <= i < |cut| :: IsWithoutCr(lines[i], cut[i])
  }

  lemma StripAllExactly(lines: seq<string>, cut: seq<string>)
    ensures lines == StripAll(cut) <==> AreWithoutCr(lines, cut)
  {
    hide IsWithoutCr;
    forall i | 0 <= i < |cut| && |lines| == |cut| ensures lines[i] == StripCr(cut[i]) <==> IsWithoutCr(lines[i], cut[i]) {
      StripCrCutsExactly(cut[i], lines[i]);
    }
  }

  lemma PreparedAreClean(s: string)
    ensures PreparedLines(s) != [] && AllClean(PreparedLines(s))
  {
    forall i | 0 <= i < |Split(s)| ensures Clean(StripCr(Split(s)[i])) {
      SplitHasNoNewline(s, i);
      StripCrCleans(Split(s)[i]);
    }
  }

  lemma PreparedJoin(lines: seq<string>)
    requires lines != [] && AllClean(lines)
    ensures PreparedLines(Join(lines, "\n")) == lines
  {
    SplitJoined(lines);
    forall i | 0 <= i < |lines| ensures StripCr(lines[i]) == lines[i] {
      StripCrCleans(lines[i]);
    }
  }

  /** Splitting into lines and joining them again loses exactly the carriage returns at line ends. */
  lemma PreparedTextIsText(s: string)
    ensures Join(PreparedLines(s), "\n") == s <==> AllClean(Split(s))
  {
    JoinSplit(s);
    PreparedAreClean(s);
    if AllClean(Split(s)) {
      PreparedJoin(Split(s));
    } else if Join(PreparedLines(s), "\n") == s {
      SplitJoined(PreparedLines(s));
      assert false;
    }
  }

  // ---------------------------------------------------------------- a printed script as text

  /** Every added or removed line is a clean line. */
  predicate CleanBody(body: seq<Edit>) { forall i | 0 <= i < |body| :: Clean(body[i].line) }

  predicate CleanScript(script: Script) { forall i | 0 <= i < |script| :: CleanBody(script[i].body) }

  lemma DigitsAreClean(s: string, end: string)
    requires Decimal.AllDigits(s) && Clean(end) && end != ""
    ensures Clean(s + end)
  {
  }

  lemma HeaderIsClean(h: Header)
    ensures Clean(h.Print())
  {
    hide Decimal.Print;
    var s4 := " @@";
    var s3 := Decimal.Print(h.newCount) + s4;
    DigitsAreClean(Decimal.Print(h.newCount), s4);
    var s2 := Decimal.Print(h.newStart) + ("," + s3);
    DigitsAreClean(Decimal.Print(h.newStart), "," + s3);
    var s1 := Decimal.Print(h.oldCount) + (" +" + s2);
    DigitsAreClean(Decimal.Print(h.oldCount), " +" + s2);
    DigitsAreClean(Decimal.Print(h.oldStart), "," + s1);
  }

  lemma BodyIsClean(body: seq<Edit>)
    requires CleanBody(body)
    ensures AllClean(PrintBody(body))
  {
    forall i | 0 <= i < |body| ensures Clean(PrintBody(body)[i]) {
      var l := body[i].line;
      assert PrintBody(body)[i][1..] == l;
    }
  }

  lemma CleanAppend(a: seq<string>, b: seq<string>)
    requires AllClean(a) && AllClean(b)
    ensures AllClean(a + b)
  {
  }

  lemma {:induction false} ScriptIsClean(script: Script, oi: nat, ni: nat)
    requires CleanScript(script)
    ensures AllClean(PrintScript(script, oi, ni))
    decreases |script|
  {
    if script != [] {
      hide Clean;
      var h := script[0];
      HeaderIsClean(HeaderOf(h, oi, ni));
      BodyIsClean(h.body);
      ScriptIsClean(script[1..], OldEnd(h, oi), NewEnd(h, ni));
      CleanAppend([HeaderOf(h, oi, ni).Print()], PrintBody(h.body));
      CleanAppend([HeaderOf(h, oi, ni).Print()] + PrintBody(h.body), PrintScript(script[1..], OldEnd(h, oi), NewEnd(h, ni)));
    }
  }

  /** Lines around the hunks: file names and blank lines. */
  predicate Surrounding(ls: seq<string>) { AllSkipped(ls) && AllClean(ls) }

  /** The text of a unified diff. */
  function PrintDiff(before: seq<string>, script: Script, after: seq<string>): string {
    Join(before + (PrintScript(script, 0, 0) + after), "\n")
  }

  /** A script for the lines of `text` that a diff can state. */
  predicate ScriptFor(script: Script, lines: seq<string>) {
    Applies(script, lines, 0) && NoEmptyHunk(script) && CleanScript(script) && SmallEnough(script, lines)
  }

  lemma PrintedAtAfter(diff: seq<string>, before: seq<string>, p: seq<string>, after: seq<string>)
    requires diff == before + (p + after) && AllSkipped(after)
    ensures HasAt(diff, |before|, p) && AllSkipped(diff[|before| + |p|..]) && diff[..|before|] == before
  {
    assert diff[|before| + |p|..] == after;
  }

  /**
    * Applying a printed script to the text it was made for gives the new lines, exactly when every hunk is
    * placeable; otherwise the diff is not applied.
    */
  lemma PatchMakesTheEdits(text: string, before: seq<string>, script: Script, after: seq<string>, git: bool)
    requires ScriptFor(script, PreparedLines(text)) && Surrounding(before) && Surrounding(after)
    ensures var r := PatchText(text, PrintDiff(before, script, after), git);
            if AllPlaceable(script, 0) then r == Done(Join(Result(script, PreparedLines(text)), "\n")) else !r.Done?
  {
    var p := PrintScript(script, 0, 0);
    if before + (p + after) == [] {
      assert p == [] && after == [] && before == [];
      PatchMakesTheEditsTo(text, [""], [""], script, [], git);
    } else {
      ScriptIsClean(script, 0, 0);
      PreparedJoin(before + (p + after));
      PatchMakesTheEditsTo(text, before + (p + after), before, script, after, git);
    }
  }

  lemma PatchMakesTheEditsTo(
    text: string, diff: seq<string>, before: seq<string>, script: Script, after: seq<string>, git: bool)
    requires ScriptFor(script, PreparedLines(text)) && AllSkipped(before) && AllSkipped(after)
    requires diff == before + (PrintScript(script, 0, 0) + after)
    ensures var r, lines := PatchedLines(PreparedLines(text), diff, git), PreparedLines(text);
            if AllPlaceable(script, 0) then r == Done(Result(script, lines)) else !r.Done?
  {
    hide FileFrom, PrintScript, HasAt, AllSkipped, Applies, Edited, AllPlaceable;
    var lines := PreparedLines(text);
    PrintedAtAfter(diff, before, PrintScript(script, 0, 0), after);
    SkippedLines(lines, diff, 0, |before|, 0, 0, git);
    ScriptIsApplied(script, lines, diff, |before|, 0, 0, git);
  }

  // ---------------------------------------------------------------- the reversed script

  function ReversedBody(body: seq<Edit>): (r: seq<Edit>)
    ensures |r| == |body|
    ensures forall i | 0 <= i < |body| :: r[i] == body[i].Reversed()
  {
    seq(|body|, i requires 0 <= i < |body| => body[i].Reversed())
  }

  /** The script that turns the new lines back: removed lines added, added lines removed. */
  function ReversedScript(script: Script): (r: Script)
    ensures |r| == |script|
    ensures forall i | 0 <= i < |script| :: r[i] == Hunk(script[i].gap, ReversedBody(script[i].body))
  {
    seq(|script|, i requires 0 <= i < |script| => Hunk(script[i].gap, ReversedBody(script[i].body)))
  }

  lemma {:induction false} ReversedSides(body: seq<Edit>)
    ensures OldSide(ReversedBody(body)) == NewSide(body) && NewSide(ReversedBody(body)) == OldSide(body)
  {
    if body != [] {
      ReversedSides(body[1..]);
      assert ReversedBody(body)[1..] == ReversedBody(body[1..]);
    }
  }

  lemma ReversedFirst(script: Script)
    requires script != []
    ensures var h, r := script[0], ReversedScript(script);
            && r != [] && r[0].gap == h.gap && r[1..] == ReversedScript(script[1..])
            && OldSide(r[0].body) == NewSide(h.body) && NewSide(r[0].body) == OldSide(h.body)
  {
    ReversedSides(script[0].body);
    assert ReversedScript(script)[1..] == ReversedScript(script[1..]);
  }

  lemma SliceOfMiddle(a: seq<string>, b: seq<string>, c: seq<string>)
    ensures OldLinesAt(a + (b + c), |a|, b)
    ensures (a + (b + c))[|a|..|a| + |b|] == b
  {
    assert (a + (b + c))[|a|..|a| + |b|] == b;
  }

  lemma SliceFrom(lines: seq<string>, i: nat, j: nat, k: nat)
    requires i <= j <= k <= |lines|
    ensures lines[i..k] == lines[i..j] + lines[j..k]
  {
  }

  lemma Reassociate(a: seq<string>, b: seq<string>, c: seq<string>, d: seq<string>, e: seq<string>)
    ensures a + (((b + c) + d) + e) == (a + b) + (c + (d + e))
    ensures (a + b) + (c + (d + e)) == ((a + b) + c) + (d + e)
    ensures a + (((b + c) + d) + e) == a + (b + (c + (d + e)))
  {
  }

  /** The reversed script applies to `now` from `ni` on, gives back `was`, and ends after `size` lines. */
  predicate GivesBack(reversed: Script, now: seq<string>, ni: nat, was: seq<string>, size: nat) {
    Applies(reversed, now, ni) && Edited(reversed, now, ni) == was && Reached(reversed, ni) == ni + size
  }

  /** One hunk more. */
  lemma GivesBackStep(reversed: Script, now: seq<string>, ni: nat, gap: seq<string>,
                                         newSide: seq<string>, was: seq<string>, size: nat)
    requires reversed != [] && reversed[0].gap == |gap| && OldSide(reversed[0].body) == newSide
    requires OldLinesAt(now, ni, gap) && OldLinesAt(now, ni + |gap|, newSide)
    requires GivesBack(reversed[1..], now, ni + |gap| + |newSide|, was, size)
    ensures GivesBack(reversed, now, ni, (gap + NewSide(reversed[0].body)) + was, |gap| + |newSide| + size)
  {
    hide OldSide, NewSide;
    assert now[ni..ni + |gap|] == gap;
  }

  /** What the hunks from `oi` on make of the lines, placed between `done` and `tail`. */
  function Placed(script: Script, lines: seq<string>, oi: nat, done: seq<string>, tail: seq<string>): seq<string>
    requires Applies(script, lines, oi)
  {
    done + (Edited(script, lines, oi) + tail)
  }

  lemma PlacedStep(script: Script, lines: seq<string>, oi: nat, done: seq<string>, tail: seq<string>)
    requires script != [] && Applies(script, lines, oi)
    ensures var h := script[0];
            var gap := lines[oi..oi + h.gap];
            var now := Placed(script, lines, oi, done, tail);
            && now == Placed(script[1..], lines, OldEnd(h, oi), (done + gap) + NewSide(h.body), tail)
            && OldLinesAt(now, |done|, gap) && OldLinesAt(now, |done| + |gap|, NewSide(h.body))
  {
    hide OldLinesAt, OldSide, NewSide;
    PlacedParts(done, lines[oi..oi + script[0].gap], NewSide(script[0].body),
                Edited(script[1..], lines, OldEnd(script[0], oi)), tail);
  }

  lemma PlacedParts(done: seq<string>, gap: seq<string>, side: seq<string>, edited: seq<string>, tail: seq<string>)
    ensures var now := done + (((gap + side) + edited) + tail);
            && now == ((done + gap) + side) + (edited + tail)
            && OldLinesAt(now, |done|, gap) && OldLinesAt(now, |done| + |gap|, side)
  {
    hide OldLinesAt;
    Reassociate(done, gap, side, edited, tail);
    SliceOfMiddle(done + gap, side, edited + tail);
    SliceOfMiddle(done, gap, side + (edited + tail));
  }

  lemma OldLinesJoined(lines: seq<string>, h: Hunk, oi: nat, end: nat)
    requires OldLinesAt(lines, oi + h.gap, OldSide(h.body)) && OldEnd(h, oi) <= end <= |lines|
    ensures (lines[oi..oi + h.gap] + OldSide(h.body)) + lines[OldEnd(h, oi)..end] == lines[oi..end]
  {
    hide OldSide;
    SliceFrom(lines, oi, oi + h.gap, OldEnd(h, oi));
    SliceFrom(lines, oi, OldEnd(h, oi), end);
  }

  /** Applied to what the hunks from `oi` on make, the reversed hunks give the old lines back. */
  lemma {:induction false} ReversedApplies(script: Script, lines: seq<string>, oi: nat, done: seq<string>, tail: seq<string>)
    requires Applies(script, lines, oi)
    ensures oi <= Reached(script, oi) <= |lines|
    ensures GivesBack(ReversedScript(script), Placed(script, lines, oi, done, tail), |done|,
                      lines[oi..Reached(script, oi)], |Edited(script, lines, oi)|)
    decreases |script|
  {
    hide OldLinesAt, OldSide, NewSide, GivesBack, Placed, Applies, Edited, Reached;
    ReachedInside(script, lines, oi);
    if script == [] {
      NothingGivesBack(script, lines, oi, done, tail);
    } else {
      var h, more := script[0], script[1..];
      FirstOfScript(script, lines, oi);
      var gap, next := lines[oi..oi + h.gap], OldEnd(h, oi);
      ReversedFirst(script);
      PlacedStep(script, lines, oi, done, tail);
      ReversedApplies(more, lines, next, (done + gap) + NewSide(h.body), tail);
      GivesBackStep(ReversedScript(script), Placed(script, lines, oi, done, tail), |done|, gap, NewSide(h.body),
                    lines[next..Reached(script, oi)], |Edited(more, lines, next)|);
      OldLinesJoined(lines, h, oi, Reached(script, oi));
    }
  }

  lemma NothingGivesBack(script: Script, lines: seq<string>, oi: nat, done: seq<string>, tail: seq<string>)
    requires script == [] && Applies(script, lines, oi)
    ensures GivesBack(ReversedScript(script), Placed(script, lines, oi, done, tail), |done|,
                      lines[oi..Reached(script, oi)], |Edited(script, lines, oi)|)
  {
  }

  lemma FirstOfScript(script: Script, lines: seq<string>, oi: nat)
    requires script != [] && Applies(script, lines, oi)
    ensures var h, more := script[0], script[1..];
            && OldLinesAt(lines, oi + h.gap, OldSide(h.body)) && Applies(more, lines, OldEnd(h, oi))
            && Reached(script, oi) == Reached(more, OldEnd(h, oi)) && OldEnd(h, oi) <= Reached(script, oi)
            && |Edited(script, lines, oi)| == h.gap + NewCount(h) + |Edited(more, lines, OldEnd(h, oi))|
  {
    ReachedInside(script[1..], lines, OldEnd(script[0], oi));
  }

  /** The reversed script applies to the new lines, and makes the old lines of them. */
  lemma ReversedUndoes(script: Script, lines: seq<string>)
    requires Applies(script, lines, 0)
    ensures Applies(ReversedScript(script), Result(script, lines), 0)
    ensures Result(ReversedScript(script), Result(script, lines)) == lines
  {
    hide Applies, Edited, Reached;
    ReachedInside(script, lines, 0);
    var reached := Reached(script, 0);
    var edited := Edited(script, lines, 0);
    ReversedApplies(script, lines, 0, [], lines[reached..]);
    assert Placed(script, lines, 0, [], lines[reached..]) == [] + (edited + lines[reached..]);
    assert [] + (edited + lines[reached..]) == Result(script, lines);
    assert Result(script, lines)[|edited|..] == lines[reached..];
    assert lines == lines[0..reached] + lines[reached..];
  }

  /** The counts of the hunk headers are positive, as in diffs with context lines. */
  predicate PositiveCounts(script: Script) {
    forall i | 0 <= i < |script| :: OldCount(script[i]) > 0 && NewCount(script[i]) > 0
  }

  lemma PositiveCountsFirst(script: Script)
    requires script != []
    ensures PositiveCounts(script) <==> OldCount(script[0]) > 0 && NewCount(script[0]) > 0 && PositiveCounts(script[1..])
  {
    hide OldSide, NewSide, OldCount, NewCount;
    assert forall i | 0 <= i < |script[1..]| :: script[1..][i] == script[i + 1];
    assert forall i | 1 <= i < |script| :: script[i] == script[1..][i - 1];
  }

  lemma NothingIsPositive(script: Script)
    requires script == []
    ensures PositiveCounts(script) && ReversedScript(script) == []
  {
  }

  lemma {:induction false} PlaceableBothWays(script: Script, oi: nat, ni: nat)
    ensures AllPlaceable(script, oi) && AllPlaceable(ReversedScript(script), ni) <==> PositiveCounts(script)
    decreases |script|
  {
    hide OldSide, NewSide, PositiveCounts;
    if script != [] {
      ReversedFirst(script);
      PositiveCountsFirst(script);
      PlaceableBothWays(script[1..], OldEnd(script[0], oi), NewEnd(script[0], ni));
    } else {
      NothingIsPositive(script);
    }
  }

  lemma {:induction false} EditedIsClean(script: Script, lines: seq<string>, oi: nat)
    requires Applies(script, lines, oi) && AllClean(lines) && CleanScript(script) && oi <= |lines|
    ensures AllClean(Edited(script, lines, oi))
    decreases |script|
  {
    if script != [] {
      hide Clean;
      var h := script[0];
      NewSideIsClean(h.body);
      EditedIsClean(script[1..], lines, OldEnd(h, oi));
      CleanAppend(lines[oi..oi + h.gap], NewSide(h.body));
      CleanAppend(lines[oi..oi + h.gap] + NewSide(h.body), Edited(script[1..], lines, OldEnd(h, oi)));
    }
  }

  lemma {:induction false} NewSideIsClean(body: seq<Edit>)
    requires CleanBody(body)
    ensures AllClean(NewSide(body))
  {
    if body != [] {
      hide Clean;
      NewSideIsClean(body[1..]);
      CleanAppend([body[0].line], NewSide(body[1..]));
    }
  }

  lemma ReversedIsFor(script: Script, lines: seq<string>)
    requires ScriptFor(script, lines) && AllClean(lines)
    ensures AllClean(Result(script, lines)) && ScriptFor(ReversedScript(script), Result(script, lines))
  {
    hide Clean, Edited, Applies;
    EditedIsClean(script, lines, 0);
    ReachedInside(script, lines, 0);
    CleanAppend(Edited(script, lines, 0), lines[Reached(script, 0)..]);
    ReversedUndoes(script, lines);
    var r := ReversedScript(script);
    forall i | 0 <= i < |r| ensures r[i].body != [] && CleanBody(r[i].body) {
      assert script[i].body != [];
      forall k | 0 <= k < |r[i].body| ensures Clean(r[i].body[k].line) {
        assert r[i].body[k] == script[i].body[k].Reversed();
        assert CleanBody(script[i].body);
      }
    }
  }

  lemma ResultIsNonempty(script: Script, lines: seq<string>)
    requires Applies(script, lines, 0) && AllPlaceable(script, 0) && lines != []
    ensures Result(script, lines) != []
  {
    if script == [] {
      assert Edited(script, lines, 0) == [];
    }
  }

  /**
    * Patching with a diff and then with the reversed one gives the old lines back, exactly when all counts are
    * positive; for a text without carriage returns at line ends these are the text itself.
    */
  lemma PatchingBackRestores(text: string, before: seq<string>, script: Script, after: seq<string>, git: bool)
    requires ScriptFor(script, PreparedLines(text)) && Surrounding(before) && Surrounding(after)
    ensures var there := PatchText(text, PrintDiff(before, script, after), git);
            (there.Done? && PatchText(there.value, PrintDiff(before, ReversedScript(script), after), git)
                            == Done(Join(PreparedLines(text), "\n")))
            <==> PositiveCounts(script)
    ensures Join(PreparedLines(text), "\n") == text <==> AllClean(Split(text))
  {
    hide PatchText, PreparedLines, PrintDiff, Result, ScriptFor, AllPlaceable, PositiveCounts, Surrounding;
    var lines := PreparedLines(text);
    var back := ReversedScript(script);
    PatchMakesTheEdits(text, before, script, after, git);
    PlaceableBothWays(script, 0, 0);
    PreparedTextIsText(text);
    if AllPlaceable(script, 0) {
      PreparedAreClean(text);
      IsFor(script, lines);
      ReversedIsFor(script, lines);
      ResultIsNonempty(script, lines);
      PreparedJoin(Result(script, lines));
      PatchMakesTheEdits(Join(Result(script, lines), "\n"), before, back, after, git);
      ReversedUndoes(script, lines);
    }
  }

  lemma IsFor(script: Script, lines: seq<string>)
    requires ScriptFor(script, lines)
    ensures Applies(script, lines, 0)
  {
  }

  // ---------------------------------------------------------------- hunks with a zero count

  lemma LinesOfTwo()
    ensures PreparedLines("a\nb") == ["a", "b"]
  {
    assert "a\nb" == Join(["a", "b"], "\n");
    PreparedJoin(["a", "b"]);
  }

  lemma PrintOne(gap: nat, e: Edit)
    ensures var h := Hunk(gap, [e]);
            PrintScript([h], 0, 0) == [HeaderOf(h, 0, 0).Print(), e.Print()]
  {
    hide Header.Print, Edit.Print;
    var h := Hunk(gap, [e]);
    assert [h][1..] == [];
    assert PrintScript([], OldEnd(h, 0), NewEnd(h, 0)) == [];
    assert PrintBody([e]) == [e.Print()];
  }

  lemma SidesOfOne(e: Edit)
    ensures OldSide([e]) == (if e.Add? then [] else [e.line]) && NewSide([e]) == if e.Delete? then [] else [e.line]
  {
    assert [e][1..] == [];
    assert OldSide([]) == [] && NewSide([]) == [];
  }

  lemma OneHunkApplies(h: Hunk, lines: seq<string>)
    requires OldLinesAt(lines, h.gap, OldSide(h.body)) && h.body != [] && CleanBody(h.body)
    requires |lines| + NewCount(h) <= INT_MAX
    ensures ScriptFor([h], lines) && (AllPlaceable([h], 0) <==> Placeable(h, 0))
  {
    hide OldLinesAt, OldSide, NewSide, Clean, Placeable;
    var rest := OldEnd(h, 0);
    assert [h][1..] == [] && Applies([], lines, rest) && Edited([], lines, rest) == [] && AllPlaceable([], rest);
    assert Applies([h], lines, 0) && |Edited([h], lines, 0)| == h.gap + NewCount(h);
    assert Reached([], rest) == rest == Reached([h], 0);
  }

  /** A diff of one hunk that is not placeable is refused. */
  lemma OneHunkIsRefused(text: string, lines: seq<string>, gap: nat, e: Edit, git: bool)
    requires PreparedLines(text) == lines && Clean(e.line) && |lines| < INT_MAX && !Placeable(Hunk(gap, [e]), 0)
    requires OldLinesAt(lines, gap, if e.Add? then [] else [e.line])
    ensures var h := Hunk(gap, [e]);
            && PrintScript([h], 0, 0) == [HeaderOf(h, 0, 0).Print(), e.Print()]
            && !PatchText(text, PrintDiff([], [h], []), git).Done?
  {
    hide PatchText, PrintDiff, PrintScript, AllPlaceable, PreparedLines, ScriptFor, Header.Print, Placeable, OldLinesAt;
    SidesOfOne(e);
    PrintOne(gap, e);
    OneHunkApplies(Hunk(gap, [e]), lines);
    PatchMakesTheEdits(text, [], [Hunk(gap, [e])], [], git);
  }

  /** Removing the line `b` of two lines with `@@ -2,1 +1,0 @@` is not done. */
  lemma DeletionOnlyIsRefused(git: bool)
    ensures var script := [Hunk(1, [Delete("b")])];
            && PrintScript(script, 0, 0) == [Header(2, 1, 1, 0).Print(), "-b"]
            && !PatchText("a\nb", PrintDiff([], script, []), git).Done?
  {
    hide PatchText, PrintDiff, PrintScript, PreparedLines, Header.Print;
    LinesOfTwo();
    SidesOfOne(Delete("b"));
    assert Delete("b").Print() == "-b";
    assert ["a", "b"][1..2] == ["b"];
    OneHunkIsRefused("a\nb", ["a", "b"], 1, Delete("b"), git);
  }

  /** Nor is inserting a line between them with `@@ -1,0 +2,1 @@`. */
  lemma InsertionOnlyIsRefused(git: bool)
    ensures var script := [Hunk(1, [Add("c")])];
            && PrintScript(script, 0, 0) == [Header(1, 0, 2, 1).Print(), "+c"]
            && !PatchText("a\nb", PrintDiff([], script, []), git).Done?
  {
    hide PatchText, PrintDiff, PrintScript, PreparedLines, Header.Print;
    LinesOfTwo();
    SidesOfOne(Add("c"));
    assert Add("c").Print() == "+c";
    assert ["a", "b"][1..1] == [];
    OneHunkIsRefused("a\nb", ["a", "b"], 1, Add("c"), git);
  }
}
