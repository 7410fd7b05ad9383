/** Edit scripts, their printed form, and how applying a diff relates to them. */
module DiffScripts {
  import opened Options
  import opened Text
  import opened UnifiedDiff
  import Decimal

  // ---------------------------------------------------------------- scripts

  datatype Edit = Keep(line: string) | Delete(line: string) | Add(line: string) {
    function Print(): string {
      match this
      case Keep(l) => " " + l
      case Delete(l) => "-" + l
      case Add(l) => "+" + l
    }

    function Reversed(): Edit {
      match this
      case Keep(l) => Keep(l)
      case Delete(l) => Add(l)
      case Add(l) => Delete(l)
    }
  }

  /** `gap` unchanged lines after the previous hunk, then the edits of this one. */
  datatype Hunk = Hunk(gap: nat, body: seq<Edit>)

  type Script = seq<Hunk>

  function OldSide(body: seq<Edit>): seq<string> {
    if body == [] then []
    else (if body[0].Add? then [] else [body[0].line]) + OldSide(body[1..])
  }

  function NewSide(body: seq<Edit>): seq<string> {
    if body == [] then []
    else (if body[0].Delete? then [] else [body[0].line]) + NewSide(body[1..])
  }

  function OldCount(h: Hunk): nat { |OldSide(h.body)| }

  function NewCount(h: Hunk): nat { |NewSide(h.body)| }

  /** Where the old lines of the hunk end, when `oi` old lines come before its gap. */
  function OldEnd(h: Hunk, oi: nat): nat { oi + h.gap + OldCount(h) }

  function NewEnd(h: Hunk, ni: nat): nat { ni + h.gap + NewCount(h) }

  /** The hunks lie in order inside `lines` from `oi` on, and their old sides are what is there. */
  predicate Applies(script: Script, lines: seq<string>, oi: nat) {
    if script == [] then oi <= |lines|
    else OldLinesAt(lines, oi + script[0].gap, OldSide(script[0].body)) && Applies(script[1..], lines, OldEnd(script[0], oi))
  }

  /** The old lines from `oi` on start with `part`. */
  predicate OldLinesAt(lines: seq<string>, oi: nat, part: seq<string>)
    ensures OldLinesAt(lines, oi, part) ==> oi + |part| <= |lines|
  {
    oi + |part| <= |lines| && lines[oi..oi + |part|] == part
  }

  /** What the hunks make of the lines from `oi` up to the end of the last hunk. */
  function Edited(script: Script, lines: seq<string>, oi: nat): seq<string>
    requires Applies(script, lines, oi)
  {
    if script == [] then []
    else
      var h := script[0];
      (lines[oi..oi + h.gap] + NewSide(h.body)) + Edited(script[1..], lines, OldEnd(h, oi))
  }

  /** The old index after the last hunk. */
  function Reached(script: Script, oi: nat): nat {
    if script == [] then oi else Reached(script[1..], OldEnd(script[0], oi))
  }

  lemma {:induction false} ReachedInside(script: Script, lines: seq<string>, oi: nat)
    requires Applies(script, lines, oi)
    ensures oi <= Reached(script, oi) <= |lines|
  {
    if script != [] {
      ReachedInside(script[1..], lines, OldEnd(script[0], oi));
    }
  }

  /** The new lines. */
  function Result(script: Script, lines: seq<string>): seq<string>
    requires Applies(script, lines, 0)
  {
    ReachedInside(script, lines, 0);
    Edited(script, lines, 0) + lines[Reached(script, 0)..]
  }

  // ---------------------------------------------------------------- printing

  function PrintBody(body: seq<Edit>): (p: seq<string>)
    ensures |p| == |body|
    ensures forall i | 0 <= i < |body| :: p[i] == body[i].Print()
  {
    seq(|body|, i requires 0 <= i < |body| => body[i].Print())
  }

  /** Where a range of `count` lines after `before` others starts; an empty one names the line before it. */
  function StartLine(before: nat, count: nat): nat { if count > 0 then before + 1 else before }

  function HeaderOf(h: Hunk, oi: nat, ni: nat): Header {
    Header(StartLine(oi + h.gap, OldCount(h)), OldCount(h), StartLine(ni + h.gap, NewCount(h)), NewCount(h))
  }

  function PrintScript(script: Script, oi: nat, ni: nat): seq<string> {
    if script == [] then []
    else
      var h := script[0];
      ([HeaderOf(h, oi, ni).Print()] + PrintBody(h.body)) + PrintScript(script[1..], OldEnd(h, oi), NewEnd(h, ni))
  }

  /** File names and blank lines around the hunks. */
  predicate AllSkipped(ls: seq<string>) {
    forall i | 0 <= i < |ls| :: Skipped(ls[i])
  }

  predicate AllEmpty(ls: seq<string>) {
    forall i | 0 <= i < |ls| :: ls[i] == ""
  }

  // ---------------------------------------------------------------- headers are read back

  lemma {:induction false} DigitsThenMore(d: string, u: string)
    requires Decimal.AllDigits(d) && (u == "" || !Decimal.IsDigit(u[0]))
    ensures DigitCount(d + u) == |d|
  {
    if d == "" {
      assert d + u == u;
    } else {
      DigitsThenMore(d[1..], u);
      HeadOfAppend(d, u);
    }
  }

  lemma NumberIsRead(n: nat, after: string, more: string)
    requires after != "" && !Decimal.IsDigit(after[0])
    ensures NumberThen(Decimal.Print(n) + (after + more), after) == Some((n, more))
  {
    var d := Decimal.Print(n);
    var s := d + (after + more);
    DigitsThenMore(d, after + more);
    assert s[..|d|] == d && s[|d|..] == after + more && s[|d| + |after|..] == more;
    Decimal.ReadPrint(n);
  }

  lemma HeaderIsRead(h: Header)
    ensures ParseHeader(h.Print()) == Some(h)
  {
    hide Decimal.Print, NumberThen;
    var s4 := " @@";
    var s3 := Decimal.Print(h.newCount) + s4;
    var s2 := Decimal.Print(h.newStart) + ("," + s3);
    var s1 := Decimal.Print(h.oldCount) + (" +" + s2);
    var s0 := Decimal.Print(h.oldStart) + ("," + s1);
    assert h.Print() == "@@ -" + s0;
    assert h.Print()[4..] == s0;
    NumberIsRead(h.oldStart, ",", s1);
    NumberIsRead(h.oldCount, " +", s2);
    NumberIsRead(h.newStart, ",", s3);
    assert s4 + "" == s4;
    NumberIsRead(h.newCount, " @@", "");
  }

  /** `s` is digits worth `n`, then `after`, then `more`. */
  ghost predicate IsNumberThen(s: string, n: nat, after: string, more: string) {
    exists d: string :: d != "" && Decimal.IsWorth(d, n) && s == d + (after + more)
  }

  /** A number is read exactly from one or more digits with what has to follow. */
  lemma NumberExactly(s: string, n: nat, after: string, more: string)
    requires after != "" && !Decimal.IsDigit(after[0])
    ensures NumberThen(s, after) == Some((n, more)) <==> IsNumberThen(s, n, after, more)
  {
    var count := DigitCount(s);
    var d := s[..count];
    if NumberThen(s, after) == Some((n, more)) {
      Decimal.ReadIsWorth(d, n);
      assert s[count..] == after + more;
      assert s == d + (after + more);
    }
    if d: string :| d != "" && Decimal.IsWorth(d, n) && s == d + (after + more) {
      Decimal.ReadIsWorth(d, n);
      DigitsThenMore(d, after + more);
      assert s[..|d|] == d && s[|d|..] == after + more && s[|d| + |after|..] == more;
    }
  }

  /** Any line terminator. */
  predicate EndsLine(s: string) { '\r' in s || '\n' in s }

  /** The text of a header: numbers of one or more digits in their places, and anything on the line after them. */
  ghost predicate IsHeader(s: string, h: Header) {
    exists s1: string, s2: string, s3: string, s4: string :: IsHeaderWith(s, h, s1, s2, s3, s4)
  }

  ghost predicate IsHeaderWith(s: string, h: Header, s1: string, s2: string, s3: string, s4: string) {
    && "@@ -" <= s
    && IsNumberThen(s[4..], h.oldStart, ",", s1) && IsNumberThen(s1, h.oldCount, " +", s2)
    && IsNumberThen(s2, h.newStart, ",", s3) && IsNumberThen(s3, h.newCount, " @@", s4)
    && !EndsLine(s4)
  }

  /** The headers that are recognised, and the numbers taken from them. */
  lemma HeaderExactly(s: string, h: Header)
    ensures ParseHeader(s) == Some(h) <==> IsHeader(s, h)
  {
    hide NumberThen, IsNumberThen;
    if ParseHeader(s) == Some(h) {
      var s1 := NumberThen(s[4..], ",").value.1;
      var s2 := NumberThen(s1, " +").value.1;
      var s3 := NumberThen(s2, ",").value.1;
      var s4 := NumberThen(s3, " @@").value.1;
      HeaderParts(s, h, s1, s2, s3, s4);
      assert IsHeaderWith(s, h, s1, s2, s3, s4);
    }
    if s1: string, s2: string, s3: string, s4: string :| IsHeaderWith(s, h, s1, s2, s3, s4) {
      HeaderParts(s, h, s1, s2, s3, s4);
    }
  }

  lemma HeaderParts(s: string, h: Header, s1: string, s2: string, s3: string, s4: string)
    requires "@@ -" <= s
    ensures NumberThen(s[4..], ",") == Some((h.oldStart, s1)) <==> IsNumberThen(s[4..], h.oldStart, ",", s1)
    ensures NumberThen(s1, " +") == Some((h.oldCount, s2)) <==> IsNumberThen(s1, h.oldCount, " +", s2)
    ensures NumberThen(s2, ",") == Some((h.newStart, s3)) <==> IsNumberThen(s2, h.newStart, ",", s3)
    ensures NumberThen(s3, " @@") == Some((h.newCount, s4)) <==> IsNumberThen(s3, h.newCount, " @@", s4)
  {
    hide NumberThen, IsNumberThen;
    NumberExactly(s[4..], h.oldStart, ",", s1);
    NumberExactly(s1, h.oldCount, " +", s2);
    NumberExactly(s2, h.newStart, ",", s3);
    NumberExactly(s3, h.newCount, " @@", s4);
  }

  // ---------------------------------------------------------------- a printed hunk is applied

  /** `diff` holds `part` from `i` on. */
  predicate HasAt(diff: seq<string>, i: nat, part: seq<string>)
    ensures HasAt(diff, i, part) ==> i + |part| <= |diff|
  {
    i + |part| <= |diff| && diff[i..i + |part|] == part
  }

  lemma {:induction false} SidesOfRest(lines: seq<string>, oi: nat, body: seq<Edit>)
    requires body != [] && OldLinesAt(lines, oi, OldSide(body))
    ensures OldSide(body) == if body[0].Add? then OldSide(body[1..]) else [body[0].line] + OldSide(body[1..])
    ensures NewSide(body) == if body[0].Delete? then NewSide(body[1..]) else [body[0].line] + NewSide(body[1..])
    ensures OldLinesAt(lines, if body[0].Add? then oi else oi + 1, OldSide(body[1..]))
    ensures !body[0].Add? ==> oi < |lines| && lines[oi] == body[0].line
  {
    if !body[0].Add? {
      var os := |OldSide(body)|;
      assert lines[oi + 1..oi + os] == lines[oi..oi + os][1..] == OldSide(body)[1..];
      assert lines[oi] == lines[oi..oi + os][0];
    }
  }

  lemma BodyOfRest(diff: seq<string>, i: nat, body: seq<Edit>)
    requires body != [] && HasAt(diff, i, PrintBody(body))
    ensures i < |diff| && diff[i] == body[0].Print() && HasAt(diff, i + 1, PrintBody(body[1..]))
  {
    assert diff[i] == diff[i..i + |body|][0] == PrintBody(body)[0];
    assert PrintBody(body)[1..] == PrintBody(body[1..]);
    assert diff[i + 1..i + |body|] == diff[i..i + |body|][1..];
  }

  /** One printed edit is one step of the hunk loop. */
  lemma EditStep(lines: seq<string>, diff: seq<string>, i: nat, oi: nat, os: nat, ns: nat, e: Edit)
    requires i < |diff| && diff[i] == e.Print()
    requires !e.Add? ==> os > 0 && oi < |lines| && lines[oi] == e.line
    requires !e.Delete? ==> ns > 0
    ensures HunkFrom(lines, diff, i, oi, os, ns) ==
            match e
            case Keep(l) => Emit(l, HunkFrom(lines, diff, i + 1, oi + 1, os - 1, ns - 1))
            case Delete(_) => HunkFrom(lines, diff, i + 1, oi + 1, os - 1, ns)
            case Add(l) => Emit(l, HunkFrom(lines, diff, i + 1, oi, os, ns - 1))
  {
    assert e.Print()[1..] == e.line;
  }

  /** The run of the hunk loop that is to come when `os` and `ns` are the counts of `body`. */
  function BodyRun(lines: seq<string>, diff: seq<string>, i: nat, oi: nat, body: seq<Edit>): Outcome<HunkRun>
    requires i <= |diff|
  {
    HunkFrom(lines, diff, i, oi, |OldSide(body)|, |NewSide(body)|)
  }

  lemma BodyStep(lines: seq<string>, diff: seq<string>, i: nat, oi: nat, body: seq<Edit>, last: Outcome<HunkRun>)
    requires body != [] && i < |diff| && diff[i] == body[0].Print() && OldLinesAt(lines, oi, OldSide(body))
    requires BodyRun(lines, diff, i + 1, if body[0].Add? then oi else oi + 1, body[1..]) == Prefixed(NewSide(body[1..]), last)
    ensures BodyRun(lines, diff, i, oi, body) == Prefixed(NewSide(body), last)
  {
    hide HunkFrom, Emit, Prefixed, OldSide, NewSide;
    SidesOfRest(lines, oi, body);
    EditStep(lines, diff, i, oi, |OldSide(body)|, |NewSide(body)|, body[0]);
    PrefixedOne(body[0].line, NewSide(body[1..]), last);
  }

  /** The lines of a printed body, with their counts, make the loop emit the new side. */
  lemma {:induction false} BodyIsApplied(lines: seq<string>, diff: seq<string>, i: nat, oi: nat, body: seq<Edit>)
    requires HasAt(diff, i, PrintBody(body)) && OldLinesAt(lines, oi, OldSide(body))
    ensures BodyRun(lines, diff, i, oi, body)
            == Prefixed(NewSide(body), BodyRun(lines, diff, i + |body|, oi + |OldSide(body)|, []))
    decreases |body|
  {
    hide HasAt, BodyRun, Prefixed, OldLinesAt, PrintBody, NewSide;
    if body == [] {
      EmptyBody(lines, diff, i, oi);
    } else {
      BodyOfRest(diff, i, body);
      SidesOfRest(lines, oi, body);
      BodyIsApplied(lines, diff, i + 1, if body[0].Add? then oi else oi + 1, body[1..]);
      EndOfRest(i, oi, body);
      BodyStep(lines, diff, i, oi, body, BodyRun(lines, diff, i + |body|, oi + |OldSide(body)|, []));
    }
  }

  lemma EmptyBody(lines: seq<string>, diff: seq<string>, i: nat, oi: nat)
    requires i <= |diff|
    ensures BodyRun(lines, diff, i, oi, []) == Prefixed(NewSide([]), BodyRun(lines, diff, i, oi + |OldSide([])|, []))
  {
    hide HunkFrom;
    PrefixedNothing(BodyRun(lines, diff, i, oi, []));
  }

  lemma EndOfRest(i: nat, oi: nat, body: seq<Edit>)
    requires body != []
    ensures i + 1 + |body[1..]| == i + |body|
    ensures (if body[0].Add? then oi else oi + 1) + |OldSide(body[1..])| == oi + |OldSide(body)|
  {
  }

  function Prefixed(out: seq<string>, run: Outcome<HunkRun>): Outcome<HunkRun> {
    match run
    case Done(r) => Done(r.(out := out + r.out))
    case Rejected(_) | Undefined | Thrown => run
  }

  lemma PrefixedNothing(run: Outcome<HunkRun>)
    ensures Prefixed([], run) == run
  {
    if run.Done? {
      assert [] + run.value.out == run.value.out;
    }
  }

  lemma PrefixedOne(l: string, out: seq<string>, run: Outcome<HunkRun>)
    ensures Emit(l, Prefixed(out, run)) == Prefixed([l] + out, run)
  {
    if run.Done? {
      assert [l] + (out + run.value.out) == ([l] + out) + run.value.out;
    }
  }

  /** Once the counts are used up, the hunk ends after the blank lines that follow. */
  lemma {:induction false} FinishedHunk(lines: seq<string>, diff: seq<string>, i: nat, oi: nat)
    requires i <= |diff|
    ensures var r := HunkFrom(lines, diff, i, oi, 0, 0);
            && r.Done? && r.value.out == [] && r.value.oi == oi
            && i <= r.value.i <= |diff| && AllEmpty(diff[i..r.value.i])
            && (r.value.i < |diff| ==> diff[r.value.i] != "")
    decreases |diff| - i
  {
    if i < |diff| && diff[i] == "" {
      FinishedHunk(lines, diff, i + 1, oi);
      var j := HunkFrom(lines, diff, i + 1, oi, 0, 0).value.i;
      assert diff[i..j] == [diff[i]] + diff[i + 1..j];
    }
  }

  /** Passing over lines that are skipped outside hunks. */
  lemma {:induction false} SkippedLines(lines: seq<string>, diff: seq<string>, i: nat, j: nat, oi: nat, ni: nat, git: bool)
    requires i <= j <= |diff| && oi <= |lines| && AllSkipped(diff[i..j])
    ensures FileFrom(lines, diff, i, oi, ni, git) == FileFrom(lines, diff, j, oi, ni, git)
    decreases j - i
  {
    if i < j {
      assert diff[i] == diff[i..j][0];
      assert diff[i + 1..j] == diff[i..j][1..];
      SkippedLines(lines, diff, i + 1, j, oi, ni, git);
    }
  }

  // ---------------------------------------------------------------- which printed scripts apply

  /**
    * The code accepts the header of a hunk when both counts are positive, and an insert-only hunk only right
    * after another hunk.
    */
  predicate Placeable(h: Hunk, oi: nat) {
    NewCount(h) > 0 && (OldCount(h) > 0 || (h.gap == 0 && oi > 0))
  }

  predicate AllPlaceable(script: Script, oi: nat) {
    script == [] || (Placeable(script[0], oi) && AllPlaceable(script[1..], OldEnd(script[0], oi)))
  }

  /** No hunk is empty. */
  predicate NoEmptyHunk(script: Script) {
    forall i | 0 <= i < |script| :: script[i].body != []
  }

  /** The numbers of lines fit the `int` counters of the source. */
  predicate SmallEnough(script: Script, lines: seq<string>)
    requires Applies(script, lines, 0)
  {
    |lines| <= INT_MAX && |Result(script, lines)| <= INT_MAX
  }

  lemma SidesOfNonempty(body: seq<Edit>)
    requires body != []
    ensures |OldSide(body)| + |NewSide(body)| > 0
  {
  }

  lemma HeaderAt(lines: seq<string>, diff: seq<string>, i: nat, oi: nat, ni: nat, git: bool, h: Header, more: seq<string>)
    requires HasAt(diff, i, [h.Print()] + more) && oi <= |lines|
    ensures FileFrom(lines, diff, i, oi, ni, git) == FileFromHunk(lines, diff, i, oi, ni, git, h)
  {
    hide FileFromHunk, ParseHeader;
    assert diff[i] == diff[i..i + |[h.Print()] + more|][0] == h.Print();
    HeaderIsRead(h);
  }

  /** The hunk at `i` with its header as printed: applied if it is placeable, otherwise the diff is not applied. */
  lemma HunkStep(h: Hunk, lines: seq<string>, diff: seq<string>, i: nat, oi: nat, ni: nat, git: bool)
    requires h.body != [] && OldLinesAt(lines, oi + h.gap, OldSide(h.body))
    requires HasAt(diff, i, [HeaderOf(h, oi, ni).Print()] + PrintBody(h.body))
    requires |lines| <= INT_MAX && NewEnd(h, ni) <= INT_MAX
    ensures if Placeable(h, oi) then
              FileFrom(lines, diff, i, oi, ni, git)
              == EmitAll(lines[oi..oi + h.gap] + NewSide(h.body),
                         FileFrom(lines, diff, i + 1 + |h.body|, OldEnd(h, oi), NewEnd(h, ni), git))
            else
              !FileFrom(lines, diff, i, oi, ni, git).Done?
  {
    hide FileFrom, FileFromHunk, HasAt, PrintBody, Placeable, OldLinesAt;
    HeaderAt(lines, diff, i, oi, ni, git, HeaderOf(h, oi, ni), PrintBody(h.body));
    if Placeable(h, oi) {
      PlacedHunk(h, lines, diff, i, oi, ni, git);
    } else {
      MisplacedHunk(h, lines, diff, i, oi, ni, git);
    }
  }

  lemma MisplacedHunk(h: Hunk, lines: seq<string>, diff: seq<string>, i: nat, oi: nat, ni: nat, git: bool)
    requires i < |diff| && h.body != [] && OldEnd(h, oi) <= |lines| && !Placeable(h, oi)
    ensures !FileFromHunk(lines, diff, i, oi, ni, git, HeaderOf(h, oi, ni)).Done?
  {
    SidesOfNonempty(h.body);
    var header := HeaderOf(h, oi, ni);
    var end := CopyEnd(lines, oi, header);
    if end.Some? {
      assert header.newStart - 1 != ni + |lines[oi..end.value]|;
    }
  }

  lemma PlacedHunk(h: Hunk, lines: seq<string>, diff: seq<string>, i: nat, oi: nat, ni: nat, git: bool)
    requires OldLinesAt(lines, oi + h.gap, OldSide(h.body)) && Placeable(h, oi)
    requires HasAt(diff, i, [HeaderOf(h, oi, ni).Print()] + PrintBody(h.body)) && HeaderOf(h, oi, ni).Fits()
    ensures FileFromHunk(lines, diff, i, oi, ni, git, HeaderOf(h, oi, ni))
         == EmitAll(lines[oi..oi + h.gap] + NewSide(h.body),
                    FileFrom(lines, diff, i + 1 + |h.body|, OldEnd(h, oi), NewEnd(h, ni), git))
  {
    hide HunkFrom, FileFrom, BodyRun, PrintBody, HasAt, OldLinesAt, OldSide, NewSide, EmitAll;
    var header := HeaderOf(h, oi, ni);
    var start, j := oi + h.gap, i + 1 + |h.body|;
    assert CopyEnd(lines, oi, header) == Some(start);
    HasAtSplits(diff, i, [header.Print()], PrintBody(h.body));
    BodyIsApplied(lines, diff, i + 1, start, h.body);
    BodyRunIs(lines, diff, i + 1, start, h.body);
    BodyRunIs(lines, diff, j, OldEnd(h, oi), []);
    FinishedHunk(lines, diff, j, OldEnd(h, oi));
    var end := HunkFrom(lines, diff, j, OldEnd(h, oi), 0, 0).value.i;
    assert NewSide(h.body) + [] == NewSide(h.body);
    SkippedLines(lines, diff, j, end, OldEnd(h, oi), NewEnd(h, ni), git);
  }

  lemma BodyRunIs(lines: seq<string>, diff: seq<string>, i: nat, oi: nat, body: seq<Edit>)
    requires i <= |diff|
    ensures BodyRun(lines, diff, i, oi, body) == HunkFrom(lines, diff, i, oi, |OldSide(body)|, |NewSide(body)|)
    ensures |OldSide([])| == 0 && |NewSide([])| == 0
  {
  }

  /** `diff` holds the printed script from `i` on, and then only lines that are passed over. */
  predicate ScriptAt(script: Script, diff: seq<string>, i: nat, oi: nat, ni: nat) {
    PrintedAt(diff, i, PrintScript(script, oi, ni))
  }

  predicate PrintedAt(diff: seq<string>, i: nat, p: seq<string>) {
    HasAt(diff, i, p) && AllSkipped(diff[i + |p|..])
  }

  /** The file loop at `i` makes the edits if all hunks are placeable, and fails otherwise. */
  predicate AppliedFrom(script: Script, lines: seq<string>, diff: seq<string>, i: nat, oi: nat, ni: nat, git: bool)
    requires Applies(script, lines, oi) && i <= |diff| && oi <= |lines|
  {
    var run := FileFrom(lines, diff, i, oi, ni, git);
    if AllPlaceable(script, oi) then run == Done(FileRun(Edited(script, lines, oi), Reached(script, oi)))
    else !run.Done?
  }

  lemma ScriptSplits(script: Script, diff: seq<string>, i: nat, oi: nat, ni: nat)
    requires script != [] && ScriptAt(script, diff, i, oi, ni)
    ensures var h := script[0];
            && HasAt(diff, i, [HeaderOf(h, oi, ni).Print()] + PrintBody(h.body))
            && ScriptAt(script[1..], diff, i + 1 + |h.body|, OldEnd(h, oi), NewEnd(h, ni))
  {
    hide PrintedAt, HasAt, PrintBody, OldSide, NewSide;
    var h := script[0];
    var first := [HeaderOf(h, oi, ni).Print()] + PrintBody(h.body);
    PrintedSplits(diff, i, first, PrintScript(script[1..], OldEnd(h, oi), NewEnd(h, ni)));
    assert i + |first| == i + 1 + |h.body|;
  }

  lemma PrintedSplits(diff: seq<string>, i: nat, a: seq<string>, b: seq<string>)
    requires PrintedAt(diff, i, a + b)
    ensures HasAt(diff, i, a) && PrintedAt(diff, i + |a|, b)
  {
    hide HasAt, AllSkipped;
    HasAtSplits(diff, i, a, b);
  }

  lemma HasAtSplits(diff: seq<string>, i: nat, a: seq<string>, b: seq<string>)
    requires HasAt(diff, i, a + b)
    ensures HasAt(diff, i, a) && HasAt(diff, i + |a|, b)
    ensures diff[i + |a| + |b|..] == diff[i + |a + b|..]
  {
    assert diff[i..i + |a|] == diff[i..i + |a + b|][..|a|];
    assert diff[i + |a|..i + |a| + |b|] == diff[i..i + |a + b|][|a|..];
  }

  /** One hunk before a script that is applied. */
  lemma ScriptStep(script: Script, lines: seq<string>, diff: seq<string>, i: nat, oi: nat, ni: nat, git: bool)
    requires script != [] && Applies(script, lines, oi) && oi <= |lines| <= INT_MAX
    requires script[0].body != [] && NewEnd(script[0], ni) <= INT_MAX
    requires var h := script[0];
             && HasAt(diff, i, [HeaderOf(h, oi, ni).Print()] + PrintBody(h.body))
             && AppliedFrom(script[1..], lines, diff, i + 1 + |h.body|, OldEnd(h, oi), NewEnd(h, ni), git)
    ensures AppliedFrom(script, lines, diff, i, oi, ni, git)
  {
    hide FileFrom, Placeable, HasAt, PrintBody, OldLinesAt;
    HunkStep(script[0], lines, diff, i, oi, ni, git);
  }

  lemma EmptyScript(lines: seq<string>, diff: seq<string>, i: nat, oi: nat, ni: nat, git: bool)
    requires oi <= |lines| && i <= |diff| && ScriptAt([], diff, i, oi, ni)
    ensures AppliedFrom([], lines, diff, i, oi, ni, git)
  {
    assert diff[i..|diff|] == diff[i..];
    SkippedLines(lines, diff, i, |diff|, oi, ni, git);
  }

  lemma FirstHunkSize(script: Script, lines: seq<string>, oi: nat)
    requires script != [] && Applies(script, lines, oi)
    ensures |Edited(script, lines, oi)| == script[0].gap + NewCount(script[0]) + |Edited(script[1..], lines, OldEnd(script[0], oi))|
  {
  }

  /** Applying a printed script. */
  lemma {:induction false} ScriptIsApplied(script: Script, lines: seq<string>, diff: seq<string>, i: nat, oi: nat, ni: nat, git: bool)
    requires Applies(script, lines, oi) && NoEmptyHunk(script) && oi <= |lines| <= INT_MAX
    requires ni + |Edited(script, lines, oi)| <= INT_MAX
    requires ScriptAt(script, diff, i, oi, ni) && i <= |diff|
    ensures AppliedFrom(script, lines, diff, i, oi, ni, git)
    decreases |script|
  {
    hide AppliedFrom, Edited, ScriptAt, OldLinesAt, PrintBody, HasAt;
    if script == [] {
      EmptyScript(lines, diff, i, oi, ni, git);
    } else {
      var h := script[0];
      ScriptSplits(script, diff, i, oi, ni);
      FirstHunkSize(script, lines, oi);
      ReachedInside(script[1..], lines, OldEnd(h, oi));
      ScriptIsApplied(script[1..], lines, diff, i + 1 + |h.body|, OldEnd(h, oi), NewEnd(h, ni), git);
      ScriptStep(script, lines, diff, i, oi, ni, git);
    }
  }
}
