/** Every diff that is applied states an edit script: which lines are its hunks, and what they do. */
module DiffReadings {
  import opened Options
  import opened UnifiedDiff
  import opened DiffScripts

  function NonBlank(ls: seq<string>): seq<string> {
    if ls == [] then [] else (if ls[0] == "" then [] else [ls[0]]) + NonBlank(ls[1..])
  }

  /** The hunk whose header is at `at`; its lines go up to `end`. */
  datatype Found = Found(at: nat, end: nat, header: Header, hunk: Hunk)

  /** `f` is what the diff says at `f.at`, when `oi` old and `ni` new lines come before. */
  predicate Stated(f: Found, diff: seq<string>, oi: nat, ni: nat)
    ensures Stated(f, diff, oi, ni) ==> f.at < f.end <= |diff|
  {
    && f.at < f.end <= |diff|
    && ParseHeader(diff[f.at]) == Some(f.header) && f.header.Fits()
    && f.header.oldStart > 0 && f.hunk.gap == (if oi < f.header.oldStart - 1 then f.header.oldStart - 1 - oi else 0)
    && f.header.newStart == ni + f.hunk.gap + 1
    && OldCount(f.hunk) == f.header.oldCount && NewCount(f.hunk) == f.header.newCount
    && NonBlank(diff[f.at + 1..f.end]) == PrintBody(f.hunk.body)
  }

  /** From `i` on, the diff holds the hunks `found`, and between them only lines that are passed over. */
  predicate States(found: seq<Found>, diff: seq<string>, i: nat, oi: nat, ni: nat)
    requires i <= |diff|
  {
    if found == [] then AllSkipped(diff[i..])
    else
      var f := found[0];
      && Stated(f, diff, oi, ni)
      && i <= f.at && AllSkipped(diff[i..f.at])
      && States(found[1..], diff, f.end, OldEnd(f.hunk, oi), NewEnd(f.hunk, ni))
  }

  function ScriptOf(found: seq<Found>): (script: Script)
    ensures |script| == |found|
    ensures forall i | 0 <= i < |found| :: script[i] == found[i].hunk
  {
    seq(|found|, i requires 0 <= i < |found| => found[i].hunk)
  }

  lemma ScriptOfFirst(found: seq<Found>)
    requires found != []
    ensures ScriptOf(found) != [] && ScriptOf(found)[0] == found[0].hunk && ScriptOf(found)[1..] == ScriptOf(found[1..])
  {
  }

  // ---------------------------------------------------------------- hunks with blank lines in them

  lemma NonBlankFirst(diff: seq<string>, i: nat, j: nat)
    requires i < j <= |diff|
    ensures NonBlank(diff[i..j]) == (if diff[i] == "" then [] else [diff[i]]) + NonBlank(diff[i + 1..j])
  {
    assert diff[i..j][1..] == diff[i + 1..j];
  }

  /** The lines from `i` up to `end` are the printed body and blank lines. */
  predicate Holds(diff: seq<string>, i: nat, end: nat, body: seq<Edit>)
    ensures Holds(diff, i, end, body) ==> i <= end <= |diff|
  {
    i <= end <= |diff| && NonBlank(diff[i..end]) == PrintBody(body)
  }

  lemma HoldsFirst(diff: seq<string>, i: nat, end: nat, body: seq<Edit>)
    requires i < end && Holds(diff, i, end, body)
    ensures if diff[i] == "" then Holds(diff, i + 1, end, body)
            else body != [] && diff[i] == body[0].Print() && Holds(diff, i + 1, end, body[1..])
  {
    hide NonBlank;
    NonBlankFirst(diff, i, end);
    if diff[i] != "" {
      assert PrintBody(body)[1..] == NonBlank(diff[i + 1..end]);
      assert PrintBody(body)[1..] == PrintBody(body[1..]);
    } else {
      assert [] + NonBlank(diff[i + 1..end]) == NonBlank(diff[i + 1..end]);
    }
  }

  lemma HoldsOneMore(diff: seq<string>, i: nat, end: nat, e: Edit, body: seq<Edit>)
    requires i < |diff| && diff[i] == e.Print() && Holds(diff, i + 1, end, body)
    ensures Holds(diff, i, end, [e] + body)
  {
    hide NonBlank;
    NonBlankFirst(diff, i, end);
    assert PrintBody([e] + body) == [e.Print()] + PrintBody(body);
  }

  lemma HoldsBlank(diff: seq<string>, i: nat, end: nat, body: seq<Edit>)
    requires i < |diff| && diff[i] == "" && Holds(diff, i + 1, end, body)
    ensures Holds(diff, i, end, body)
  {
    hide NonBlank;
    NonBlankFirst(diff, i, end);
    assert [] + NonBlank(diff[i + 1..end]) == NonBlank(diff[i + 1..end]);
  }

  lemma HoldsNothing(diff: seq<string>, i: nat, body: seq<Edit>)
    ensures i <= |diff| ==> Holds(diff, i, i, [])
    ensures Holds(diff, i, i, body) ==> body == []
  {
    if i <= |diff| {
      assert diff[i..i] == [];
      assert NonBlank([]) == [];
      if Holds(diff, i, i, body) {
        assert |PrintBody(body)| == 0;
      }
    }
  }

  /** The lines of a body, blank lines among them, make the loop emit the new side. */
  lemma {:induction false} HeldBodyIsApplied(lines: seq<string>, diff: seq<string>, i: nat, end: nat, oi: nat, body: seq<Edit>)
    requires Holds(diff, i, end, body) && OldLinesAt(lines, oi, OldSide(body))
    ensures BodyRun(lines, diff, i, oi, body)
            == Prefixed(NewSide(body), BodyRun(lines, diff, end, oi + |OldSide(body)|, []))
    decreases end - i
  {
    hide Holds, BodyRun, Prefixed, OldLinesAt, PrintBody, NewSide, OldSide;
    if i == end {
      HeldNothing(lines, diff, i, oi, body);
    } else {
      HoldsFirst(diff, i, end, body);
      if diff[i] == "" {
        HeldBodyIsApplied(lines, diff, i + 1, end, oi, body);
        BlankStep(lines, diff, i, oi, body);
      } else {
        var after := if body[0].Add? then oi else oi + 1;
        SidesOfRest(lines, oi, body);
        HeldBodyIsApplied(lines, diff, i + 1, end, after, body[1..]);
        EndOfRest(i, oi, body);
        BodyStep(lines, diff, i, oi, body, BodyRun(lines, diff, end, oi + |OldSide(body)|, []));
      }
    }
  }

  lemma HeldNothing(lines: seq<string>, diff: seq<string>, i: nat, oi: nat, body: seq<Edit>)
    requires Holds(diff, i, i, body)
    ensures BodyRun(lines, diff, i, oi, body) == Prefixed(NewSide(body), BodyRun(lines, diff, i, oi + |OldSide(body)|, []))
  {
    hide BodyRun, Prefixed, PrintBody, NewSide, OldSide;
    HoldsNothing(diff, i, body);
    EmptyBody(lines, diff, i, oi);
  }

  lemma BlankStep(lines: seq<string>, diff: seq<string>, i: nat, oi: nat, body: seq<Edit>)
    requires i < |diff| && diff[i] == ""
    ensures BodyRun(lines, diff, i, oi, body) == BodyRun(lines, diff, i + 1, oi, body)
  {
  }

  /** A run of the hunk loop that ends well has read a body with just these counts. */
  predicate Reads(body: seq<Edit>, lines: seq<string>, diff: seq<string>, i: nat, oi: nat, os: int, ns: int, run: HunkRun) {
    && Holds(diff, i, run.i, body) && OldLinesAt(lines, oi, OldSide(body))
    && |OldSide(body)| == os && |NewSide(body)| == ns
    && run.out == NewSide(body) && run.oi == oi + |OldSide(body)|
  }

  /** One edit before a body that was read. */
  lemma ReadsOneMore(e: Edit, body: seq<Edit>, lines: seq<string>, diff: seq<string>, i: nat, oi: nat, os: int, ns: int, run: HunkRun)
    requires i < |diff| && diff[i] == e.Print() && (!e.Add? ==> oi < |lines| && lines[oi] == e.line)
    requires Reads(body, lines, diff, i + 1, if e.Add? then oi else oi + 1, os, ns, run)
    ensures Reads([e] + body, lines, diff, i, oi, if e.Add? then os else os + 1, if e.Delete? then ns else ns + 1,
                  if e.Delete? then run else run.(out := [e.line] + run.out))
  {
    hide Holds, PrintBody;
    HoldsOneMore(diff, i, run.i, e, body);
    SidesOfOneMore(e, body);
    if !e.Add? {
      OldLinesOneMore(lines, oi, OldSide(body));
    }
  }

  lemma SidesOfOneMore(e: Edit, body: seq<Edit>)
    ensures OldSide([e] + body) == (if e.Add? then [] else [e.line]) + OldSide(body)
    ensures NewSide([e] + body) == (if e.Delete? then [] else [e.line]) + NewSide(body)
  {
    assert ([e] + body)[1..] == body;
  }

  lemma OldLinesOneMore(lines: seq<string>, oi: nat, part: seq<string>)
    requires oi < |lines| && OldLinesAt(lines, oi + 1, part)
    ensures OldLinesAt(lines, oi, [lines[oi]] + part)
  {
    assert lines[oi..oi + 1 + |part|] == [lines[oi]] + lines[oi + 1..oi + 1 + |part|];
  }

  lemma {:induction false} HunkReadsBody(lines: seq<string>, diff: seq<string>, i: nat, oi: nat, os: int, ns: int)
    returns (body: seq<Edit>)
    requires i <= |diff| && oi <= |lines| && HunkFrom(lines, diff, i, oi, os, ns).Done?
    ensures Reads(body, lines, diff, i, oi, os, ns, HunkFrom(lines, diff, i, oi, os, ns).value)
    decreases |diff| - i
  {
    hide Reads;
    if i < |diff| && diff[i] == "" {
      body := HunkReadsBody(lines, diff, i + 1, oi, os, ns);
      ReadsBlank(body, lines, diff, i, oi, os, ns, HunkFrom(lines, diff, i, oi, os, ns).value);
    } else if os == 0 && ns == 0 {
      body := [];
      ReadsNothing(lines, diff, i, oi);
    } else {
      var e := if diff[i][0] == ' ' then Keep(diff[i][1..])
               else if diff[i][0] == '+' then Add(diff[i][1..]) else Delete(diff[i][1..]);
      assert diff[i] == [diff[i][0]] + diff[i][1..];
      var after := if e.Add? then oi else oi + 1;
      var os', ns' := if e.Add? then os else os - 1, if e.Delete? then ns else ns - 1;
      var rest := HunkReadsBody(lines, diff, i + 1, after, os', ns');
      body := [e] + rest;
      ReadsOneMore(e, rest, lines, diff, i, oi, os', ns', HunkFrom(lines, diff, i + 1, after, os', ns').value);
    }
  }

  lemma ReadsBlank(body: seq<Edit>, lines: seq<string>, diff: seq<string>, i: nat, oi: nat, os: int, ns: int, run: HunkRun)
    requires i < |diff| && diff[i] == "" && Reads(body, lines, diff, i + 1, oi, os, ns, run)
    ensures Reads(body, lines, diff, i, oi, os, ns, run)
  {
    HoldsBlank(diff, i, run.i, body);
  }

  lemma ReadsNothing(lines: seq<string>, diff: seq<string>, i: nat, oi: nat)
    requires i <= |diff| && oi <= |lines|
    ensures Reads([], lines, diff, i, oi, 0, 0, HunkRun([], i, oi))
  {
    HoldsNothing(diff, i, []);
  }

  // ---------------------------------------------------------------- what is stated is done

  lemma StatedHunk(f: Found, lines: seq<string>, diff: seq<string>, oi: nat, ni: nat, git: bool)
    requires Stated(f, diff, oi, ni) && oi <= |lines| && OldLinesAt(lines, oi + f.hunk.gap, OldSide(f.hunk.body))
    ensures FileFrom(lines, diff, f.at, oi, ni, git)
         == EmitAll(lines[oi..oi + f.hunk.gap] + NewSide(f.hunk.body),
                    FileFrom(lines, diff, f.end, OldEnd(f.hunk, oi), NewEnd(f.hunk, ni), git))
  {
    hide HunkFrom, FileFrom, BodyRun, PrintBody, OldLinesAt, OldSide, NewSide, EmitAll, NonBlank, FileFromHunk, ParseHeader;
    var h := f.hunk;
    var start := oi + h.gap;
    HeaderStated(f, lines, diff, oi, ni, git);
    HeldBodyIsApplied(lines, diff, f.at + 1, f.end, start, h.body);
    BodyRunIs(lines, diff, f.at + 1, start, h.body);
    BodyRunIs(lines, diff, f.end, OldEnd(h, oi), []);
    FinishedHunk(lines, diff, f.end, OldEnd(h, oi));
    var end := HunkFrom(lines, diff, f.end, OldEnd(h, oi), 0, 0).value.i;
    assert NewSide(h.body) + [] == NewSide(h.body);
    HunkIsDone(lines, diff, f.at, oi, ni, git, f.header, start, HunkRun(NewSide(h.body), end, OldEnd(h, oi)));
    SkippedLines(lines, diff, f.end, end, OldEnd(h, oi), NewEnd(h, ni), git);
  }

  /** Where the lines of the hunk with this header start, and that the new lines agree. */
  predicate Starts(lines: seq<string>, oi: nat, ni: nat, h: Header, start: nat)
    requires oi <= |lines|
    ensures Starts(lines, oi, ni, h, start) ==> oi <= start <= |lines|
  {
    h.Fits() && CopyEnd(lines, oi, h) == Some(start) && h.newStart - 1 == ni + (start - oi)
  }

  lemma HunkIsDone(lines: seq<string>, diff: seq<string>, i: nat, oi: nat, ni: nat, git: bool, h: Header, start: nat, run: HunkRun)
    requires i < |diff| && oi <= |lines| && Starts(lines, oi, ni, h, start)
    requires HunkFrom(lines, diff, i + 1, start, h.oldCount, h.newCount) == Done(run)
    ensures run.i <= |diff| && run.oi <= |lines|
    ensures FileFromHunk(lines, diff, i, oi, ni, git, h)
         == EmitAll(lines[oi..start] + run.out, FileFrom(lines, diff, run.i, run.oi, ni + (start - oi) + |run.out|, git))
  {
    hide HunkFrom, FileFrom, EmitAll;
    HunkAdvances(lines, diff, i + 1, start, h.oldCount, h.newCount);
  }

  lemma HunkWasDone(lines: seq<string>, diff: seq<string>, i: nat, oi: nat, ni: nat, git: bool, h: Header)
    returns (start: nat)
    requires i < |diff| && oi <= |lines| && FileFromHunk(lines, diff, i, oi, ni, git, h).Done?
    ensures Starts(lines, oi, ni, h, start) && HunkFrom(lines, diff, i + 1, start, h.oldCount, h.newCount).Done?
  {
    hide HunkFrom, FileFrom, EmitAll;
    start := CopyEnd(lines, oi, h).value;
  }

  lemma HeaderStated(f: Found, lines: seq<string>, diff: seq<string>, oi: nat, ni: nat, git: bool)
    requires Stated(f, diff, oi, ni) && oi <= |lines|
    ensures FileFrom(lines, diff, f.at, oi, ni, git) == FileFromHunk(lines, diff, f.at, oi, ni, git, f.header)
  {
    hide FileFromHunk, NonBlank, OldSide, NewSide, PrintBody, ParseHeader;
    HeaderAtLine(lines, diff, f.at, oi, ni, git, f.header);
  }

  lemma HeaderAtLine(lines: seq<string>, diff: seq<string>, i: nat, oi: nat, ni: nat, git: bool, h: Header)
    requires i < |diff| && oi <= |lines| && ParseHeader(diff[i]) == Some(h)
    ensures FileFrom(lines, diff, i, oi, ni, git) == FileFromHunk(lines, diff, i, oi, ni, git, h)
  {
    hide FileFromHunk, ParseHeader;
    HeaderStart(diff[i]);
  }

  lemma HeaderStart(line: string)
    requires ParseHeader(line).Some?
    ensures line != "" && line[0] == '@'
  {
    hide NumberThen;
  }

  predicate Does(script: Script, lines: seq<string>, oi: nat, run: Outcome<FileRun>) {
    Applies(script, lines, oi) && run == Done(FileRun(Edited(script, lines, oi), Reached(script, oi)))
  }

  lemma {:induction false} StatedIsDone(found: seq<Found>, lines: seq<string>, diff: seq<string>, i: nat, oi: nat, ni: nat, git: bool)
    requires i <= |diff| && oi <= |lines| && States(found, diff, i, oi, ni) && Applies(ScriptOf(found), lines, oi)
    ensures Does(ScriptOf(found), lines, oi, FileFrom(lines, diff, i, oi, ni, git))
    decreases |found|
  {
    hide FileFrom, OldLinesAt, OldSide, NewSide, Stated, AllSkipped, Does;
    if found == [] {
      NothingStated(lines, diff, i, oi, ni, git);
    } else {
      var f := found[0];
      ScriptOfFirst(found);
      SkippedLines(lines, diff, i, f.at, oi, ni, git);
      StatedHunk(f, lines, diff, oi, ni, git);
      StatedIsDone(found[1..], lines, diff, f.end, OldEnd(f.hunk, oi), NewEnd(f.hunk, ni), git);
      DoesOneMore(f.hunk, ScriptOf(found), lines, oi, FileFrom(lines, diff, f.end, OldEnd(f.hunk, oi), NewEnd(f.hunk, ni), git));
    }
  }

  lemma DoesOneMore(h: Hunk, script: Script, lines: seq<string>, oi: nat, rest: Outcome<FileRun>)
    requires script != [] && script[0] == h && OldLinesAt(lines, oi + h.gap, OldSide(h.body))
    requires Does(script[1..], lines, OldEnd(h, oi), rest)
    ensures Does(script, lines, oi, EmitAll(lines[oi..oi + h.gap] + NewSide(h.body), rest))
  {
  }

  lemma NothingStated(lines: seq<string>, diff: seq<string>, i: nat, oi: nat, ni: nat, git: bool)
    requires i <= |diff| && oi <= |lines| && AllSkipped(diff[i..])
    ensures Does(ScriptOf([]), lines, oi, FileFrom(lines, diff, i, oi, ni, git))
  {
    assert diff[i..|diff|] == diff[i..];
    SkippedLines(lines, diff, i, |diff|, oi, ni, git);
  }

  // ---------------------------------------------------------------- what is done was stated

  lemma HunkWasStated(lines: seq<string>, diff: seq<string>, i: nat, oi: nat, ni: nat, git: bool, header: Header)
    returns (f: Found)
    requires i < |diff| && oi <= |lines| && ParseHeader(diff[i]) == Some(header)
    requires FileFromHunk(lines, diff, i, oi, ni, git, header).Done?
    ensures Stated(f, diff, oi, ni) && f.at == i && OldLinesAt(lines, oi + f.hunk.gap, OldSide(f.hunk.body))
    ensures FileFromHunk(lines, diff, i, oi, ni, git, header)
         == EmitAll(lines[oi..oi + f.hunk.gap] + NewSide(f.hunk.body),
                    FileFrom(lines, diff, f.end, OldEnd(f.hunk, oi), NewEnd(f.hunk, ni), git))
  {
    hide HunkFrom, FileFrom, PrintBody, NonBlank, OldSide, NewSide, EmitAll, FileFromHunk, ParseHeader, OldLinesAt;
    var start := HunkWasDone(lines, diff, i, oi, ni, git, header);
    var run := HunkFrom(lines, diff, i + 1, start, header.oldCount, header.newCount).value;
    HunkAdvances(lines, diff, i + 1, start, header.oldCount, header.newCount);
    var body := HunkReadsBody(lines, diff, i + 1, start, header.oldCount, header.newCount);
    f := Found(i, run.i, header, Hunk(start - oi, body));
    HunkIsDone(lines, diff, i, oi, ni, git, header, start, run);
  }

  lemma {:induction false} FileWasStated(lines: seq<string>, diff: seq<string>, i: nat, oi: nat, ni: nat)
    returns (found: seq<Found>)
    requires i <= |diff| && oi <= |lines| && FileFrom(lines, diff, i, oi, ni, false).Done?
    ensures States(found, diff, i, oi, ni)
    ensures Does(ScriptOf(found), lines, oi, FileFrom(lines, diff, i, oi, ni, false))
    decreases |diff| - i
  {
    hide States, Does, FileFromHunk, ParseHeader, EmitAll;
    if i == |diff| {
      found := [];
      NothingLeft(lines, diff, oi, ni);
    } else if Skipped(diff[i]) {
      found := FileWasStated(lines, diff, i + 1, oi, ni);
      StatesSkipped(found, diff, i, oi, ni);
    } else {
      var header := ParseHeader(diff[i]).value;
      var f := HunkWasStated(lines, diff, i, oi, ni, false, header);
      RestIsDone(lines[oi..oi + f.hunk.gap] + NewSide(f.hunk.body),
                 FileFrom(lines, diff, f.end, OldEnd(f.hunk, oi), NewEnd(f.hunk, ni), false));
      var rest := FileWasStated(lines, diff, f.end, OldEnd(f.hunk, oi), NewEnd(f.hunk, ni));
      found := [f] + rest;
      StatesOneMore(f, rest, diff, oi, ni);
      ScriptOfFirst(found);
      DoesOneMore(f.hunk, ScriptOf(found), lines, oi, FileFrom(lines, diff, f.end, OldEnd(f.hunk, oi), NewEnd(f.hunk, ni), false));
    }
  }

  lemma RestIsDone(out: seq<string>, rest: Outcome<FileRun>)
    requires EmitAll(out, rest).Done?
    ensures rest.Done?
  {
  }

  lemma NothingLeft(lines: seq<string>, diff: seq<string>, oi: nat, ni: nat)
    requires oi <= |lines|
    ensures States([], diff, |diff|, oi, ni) && Does(ScriptOf([]), lines, oi, FileFrom(lines, diff, |diff|, oi, ni, false))
  {
  }

  lemma StatesSkipped(found: seq<Found>, diff: seq<string>, i: nat, oi: nat, ni: nat)
    requires i < |diff| && Skipped(diff[i]) && States(found, diff, i + 1, oi, ni)
    ensures States(found, diff, i, oi, ni)
  {
    hide Stated, Skipped;
    if found == [] {
      assert diff[i..] == [diff[i]] + diff[i + 1..];
    } else {
      assert i + 1 <= found[0].at;
      assert diff[i..found[0].at] == [diff[i]] + diff[i + 1..found[0].at];
    }
  }

  lemma StatesOneMore(f: Found, rest: seq<Found>, diff: seq<string>, oi: nat, ni: nat)
    requires Stated(f, diff, oi, ni) && f.end <= |diff| && States(rest, diff, f.end, OldEnd(f.hunk, oi), NewEnd(f.hunk, ni))
    ensures f.at <= |diff| && States([f] + rest, diff, f.at, oi, ni)
  {
    hide Stated;
    assert ([f] + rest)[1..] == rest;
  }

  // ---------------------------------------------------------------- the two together

  /** The lines of `diff` state hunks that apply to `lines` and make `result` of them. */
  ghost predicate StatesScriptFor(diff: seq<string>, lines: seq<string>, result: seq<string>) {
    exists found :: States(found, diff, 0, 0, 0) && Makes(ScriptOf(found), lines, result)
  }

  predicate Makes(script: Script, lines: seq<string>, result: seq<string>) {
    Applies(script, lines, 0) && result == Result(script, lines)
  }

  /**
    * Without the Git option, applying a diff gives `result` exactly when the diff states an edit script that
    * makes `result` of the old lines: every hunk consumes exactly its two header counts, starts at its stated
    * new line, and finds its old side in the old lines.
    */
  lemma PatchedExactlyByScripts(lines: seq<string>, diff: seq<string>, result: seq<string>)
    ensures PatchedLines(lines, diff, false) == Done(result) <==> StatesScriptFor(diff, lines, result)
  {
    hide FileFrom, States, Applies, Edited, Reached;
    if PatchedLines(lines, diff, false) == Done(result) {
      var found := FileWasStated(lines, diff, 0, 0, 0);
      assert Makes(ScriptOf(found), lines, result);
    }
    if StatesScriptFor(diff, lines, result) {
      var found :| States(found, diff, 0, 0, 0) && Makes(ScriptOf(found), lines, result);
      StatedIsDone(found, lines, diff, 0, 0, 0, false);
    }
  }

  // ---------------------------------------------------------------- the Git option

  /** The line at which the Git option ends an application. */
  predicate Stops(line: string) { line != "" && (line[0] == 'd' || line[0] == 'i') }

  predicate NoneStops(diff: seq<string>) { forall i | 0 <= i < |diff| :: !Stops(diff[i]) }

  /** The line that stops, and what follows it, only matter to a hunk that would have failed anyway. */
  lemma {:induction false} HunkBeforeStop(lines: seq<string>, diff: seq<string>, all: seq<string>, i: nat, oi: nat, os: int, ns: int)
    requires i <= |diff| < |all| && all[..|diff|] == diff && Stops(all[|diff|])
    ensures var cut := HunkFrom(lines, diff, i, oi, os, ns);
            if cut.Done? then HunkFrom(lines, all, i, oi, os, ns) == cut else !HunkFrom(lines, all, i, oi, os, ns).Done?
    decreases |diff| - i
  {
    if i < |diff| {
      assert all[i] == all[..|diff|][i] == diff[i];
      if diff[i] == "" {
        HunkBeforeStop(lines, diff, all, i + 1, oi, os, ns);
      } else {
        match diff[i][0]
        case ' ' => HunkBeforeStop(lines, diff, all, i + 1, oi + 1, os - 1, ns - 1);
        case '+' => HunkBeforeStop(lines, diff, all, i + 1, oi, os, ns - 1);
        case '-' => HunkBeforeStop(lines, diff, all, i + 1, oi + 1, os - 1, ns);
        case _ =>
      }
    }
  }

  lemma {:induction false} FileBeforeStop(lines: seq<string>, diff: seq<string>, all: seq<string>, i: nat, oi: nat, ni: nat)
    requires i <= |diff| < |all| && all[..|diff|] == diff && Stops(all[|diff|]) && NoneStops(diff) && oi <= |lines|
    ensures var cut := FileFrom(lines, diff, i, oi, ni, false);
            if cut.Done? then FileFrom(lines, all, i, oi, ni, true) == cut else !FileFrom(lines, all, i, oi, ni, true).Done?
    decreases |diff| - i, 1
  {
    hide HunkFrom, ParseHeader, EmitAll;
    if i < |diff| {
      assert all[i] == all[..|diff|][i] == diff[i];
      assert !Stops(diff[i]);
      if Skipped(diff[i]) {
        FileBeforeStop(lines, diff, all, i + 1, oi, ni);
      } else if diff[i][0] == '@' && ParseHeader(diff[i]).Some? {
        var h := ParseHeader(diff[i]).value;
        HeaderAtLine(lines, diff, i, oi, ni, false, h);
        HeaderAtLine(lines, all, i, oi, ni, true, h);
        HunkStopsToo(lines, diff, all, i, oi, ni, h);
      }
    }
  }

  lemma {:induction false} HunkStopsToo(lines: seq<string>, diff: seq<string>, all: seq<string>, i: nat, oi: nat, ni: nat, h: Header)
    requires i < |diff| < |all| && all[..|diff|] == diff && Stops(all[|diff|]) && NoneStops(diff) && oi <= |lines|
    ensures var cut := FileFromHunk(lines, diff, i, oi, ni, false, h);
            if cut.Done? then FileFromHunk(lines, all, i, oi, ni, true, h) == cut
            else !FileFromHunk(lines, all, i, oi, ni, true, h).Done?
    decreases |diff| - i, 0
  {
    hide HunkFrom, FileFrom;
    var end := CopyEnd(lines, oi, h);
    if end.Some? {
      HunkBeforeStop(lines, diff, all, i + 1, end.value, h.oldCount, h.newCount);
      var run := HunkFrom(lines, diff, i + 1, end.value, h.oldCount, h.newCount);
      if run.Done? {
        HunkAdvances(lines, diff, i + 1, end.value, h.oldCount, h.newCount);
        FileBeforeStop(lines, diff, all, run.value.i, run.value.oi, ni + (end.value - oi) + |run.value.out|);
      }
    }
  }

  /**
    * With the Git option, a diff is applied up to the first line that stops it: what that line and the rest are does
    * not matter.
    */
  lemma GitAppliesUpToStop(lines: seq<string>, diff: seq<string>, stop: string, rest: seq<string>, result: seq<string>)
    requires NoneStops(diff) && Stops(stop)
    ensures PatchedLines(lines, diff + ([stop] + rest), true) == Done(result) <==> PatchedLines(lines, diff, false) == Done(result)
  {
    hide FileFrom;
    FileBeforeStop(lines, diff, diff + ([stop] + rest), 0, 0, 0);
  }

  /** Without such a line, the Git option changes nothing. */
  lemma {:induction false} GitChangesNothingFrom(lines: seq<string>, diff: seq<string>, i: nat, oi: nat, ni: nat)
    requires i <= |diff| && oi <= |lines| && NoneStops(diff)
    ensures FileFrom(lines, diff, i, oi, ni, true) == FileFrom(lines, diff, i, oi, ni, false)
    decreases |diff| - i, 1
  {
    hide HunkFrom, ParseHeader, EmitAll;
    if i < |diff| {
      assert !Stops(diff[i]);
      if Skipped(diff[i]) {
        GitChangesNothingFrom(lines, diff, i + 1, oi, ni);
      } else if diff[i][0] == '@' && ParseHeader(diff[i]).Some? {
        var h := ParseHeader(diff[i]).value;
        HeaderAtLine(lines, diff, i, oi, ni, false, h);
        HeaderAtLine(lines, diff, i, oi, ni, true, h);
        var end := CopyEnd(lines, oi, h);
        if end.Some? {
          var run := HunkFrom(lines, diff, i + 1, end.value, h.oldCount, h.newCount);
          if run.Done? {
            HunkAdvances(lines, diff, i + 1, end.value, h.oldCount, h.newCount);
            GitChangesNothingFrom(lines, diff, run.value.i, run.value.oi, ni + (end.value - oi) + |run.value.out|);
          }
        }
      }
    }
  }

  lemma GitChangesNothing(lines: seq<string>, diff: seq<string>)
    requires NoneStops(diff)
    ensures PatchedLines(lines, diff, true) == PatchedLines(lines, diff, false)
  {
    GitChangesNothingFrom(lines, diff, 0, 0, 0);
  }

  // ---------------------------------------------------------------- hunks that are not applied

  /**
    * How a header fails: a number beyond the greatest `int` throws; start zero, or a start further than one line past
    * the old lines that are still to be copied, reads past them; otherwise the new lines must agree.
    */
  lemma HeaderFails(lines: seq<string>, diff: seq<string>, i: nat, oi: nat, ni: nat, git: bool, h: Header)
    requires i < |diff| && oi <= |lines|
    ensures var r := FileFromHunk(lines, diff, i, oi, ni, git, h);
            if h.oldStart > 2147483647 || h.oldCount > 2147483647 || h.newStart > 2147483647 || h.newCount > 2147483647 then
              r == Thrown
            else if h.oldStart == 0 || (h.oldStart > oi + 1 && h.oldStart > |lines| + 1) then r == Undefined
            else
              var gap := if h.oldStart > oi then h.oldStart - 1 - oi else 0;
              h.newStart != ni + gap + 1 ==> r == Rejected(WrongNewLine)
  {
    hide HunkFrom, FileFrom;
  }

  /** How a line inside a hunk fails: at the end, past the old lines, on other text, or with another symbol. */
  lemma HunkFails(lines: seq<string>, diff: seq<string>, i: nat, oi: nat, os: nat, ns: nat)
    requires i <= |diff| && os + ns > 0 && (i < |diff| ==> diff[i] != "")
    ensures var r := HunkFrom(lines, diff, i, oi, os, ns);
            && (i == |diff| ==> r == Rejected(BadHunkInfo))
            && (i < |diff| && diff[i][0] !in " +-" ==> r == Rejected(BadSymbol))
            && (i < |diff| && diff[i][0] in " -" && oi >= |lines| ==> r == Undefined)
            && (i < |diff| && diff[i][0] in " -" && oi < |lines| && lines[oi] != diff[i][1..] ==> r == Rejected(ContextMismatch))
  {
  }

  /** How a line outside hunks fails. */
  lemma FileFails(lines: seq<string>, diff: seq<string>, i: nat, oi: nat, ni: nat, git: bool)
    requires i < |diff| && oi <= |lines| && diff[i] != ""
    ensures var r, line := FileFrom(lines, diff, i, oi, ni, git), diff[i];
            && (line[0] in "+-" && !("+++" <= line) && !("---" <= line) ==> r == Rejected(OutOfHunk))
            && (line[0] == '@' && ParseHeader(line).None? ==> r == Rejected(BadHunkDescription))
            && (line[0] !in "+-@" && !(git && line[0] in "di") ==> r == Rejected(UnknownAction))
  {
    hide ParseHeader, FileFromHunk;
  }
}
