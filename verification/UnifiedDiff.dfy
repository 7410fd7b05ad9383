/** The unified diff applier: nested loops sharing the diff cursor, the old index and the new index. */
module UnifiedDiff {
  import opened Options
  import opened Text
  import Decimal

  const INT_MAX := 0x7FFF_FFFF

  datatype Reason =
    | ContextMismatch | BadHunkInfo | BadSymbol | OutOfHunk | BadHunkDescription | WrongNewLine | UnknownAction

  /** `Undefined` stands for reading past the old lines, `Thrown` for a number `std::stoi` does not accept. */
  datatype Outcome<+T> = Done(value: T) | Rejected(reason: Reason) | Undefined | Thrown

  // ---------------------------------------------------------------- lines

  /** Split at every newline; there is always at least one line. */
  function Split(s: string): (lines: seq<string>)
    ensures lines != []
  {
    if s == "" then [""]
    else if s[0] == '\n' then [""] + Split(s[1..])
    else
      var rest := Split(s[1..]);
      [[s[0]] + rest[0]] + rest[1..]
  }

  /** Without the carriage returns at the end. */
  function StripCr(l: string): string {
    if l != "" && l[|l| - 1] == '\r' then StripCr(l[..|l| - 1]) else l
  }

  function StripAll(lines: seq<string>): (r: seq<string>)
    ensures |r| == |lines|
    ensures forall i | 0 <= i < |lines| :: r[i] == StripCr(lines[i])
  {
    seq(|lines|, i requires 0 <= i < |lines| => StripCr(lines[i]))
  }

  function PreparedLines(s: string): seq<string> { StripAll(Split(s)) }

  method PrepareLines(s: string) returns (v: seq<string>)
    ensures v == PreparedLines(s)
  {
    v := Split(s);
    ghost var before := v;
    for k := 0 to |v|
      invariant |v| == |before|
      invariant forall j | 0 <= j < |v| :: v[j] == if j < k then StripCr(before[j]) else before[j]
    {
      var l := v[k];
      while l != "" && l[|l| - 1] == '\r'
        invariant StripCr(l) == StripCr(before[k])
        decreases |l|
      {
        l := l[..|l| - 1];
      }
      v := v[k := l];
    }
  }

  // ---------------------------------------------------------------- hunk headers

  /** The four numbers of a hunk header. */
  datatype Header = Header(oldStart: nat, oldCount: nat, newStart: nat, newCount: nat) {
    /** Every number fits an `int`. */
    predicate Fits() {
      oldStart <= INT_MAX && oldCount <= INT_MAX && newStart <= INT_MAX && newCount <= INT_MAX
    }

    function Print(): string {
      "@@ -" + (Decimal.Print(oldStart) + ("," + (Decimal.Print(oldCount) + (" +" +
        (Decimal.Print(newStart) + ("," + (Decimal.Print(newCount) + " @@")))))))
    }
  }

  /** The number of digits `s` starts with. */
  function DigitCount(s: string): (n: nat)
    ensures n <= |s| && Decimal.AllDigits(s[..n]) && (n < |s| ==> !Decimal.IsDigit(s[n]))
  {
    if s != "" && Decimal.IsDigit(s[0]) then 1 + DigitCount(s[1..]) else 0
  }

  /** One or more digits followed by `after`: the number, and what comes next. */
  function NumberThen(s: string, after: string): Option<(nat, string)> {
    var n := DigitCount(s);
    if n > 0 && after <= s[n..] then Some((Decimal.Read(s[..n]), s[n + |after|..])) else None
  }

  /** The regular expression for hunk headers; what follows the last `@@` may not contain a line terminator. */
  function ParseHeader(s: string): Option<Header> {
    if !("@@ -" <= s) then None
    else
      match NumberThen(s[4..], ",")
      case None => None
      case Some((a, s1)) =>
        match NumberThen(s1, " +")
        case None => None
        case Some((b, s2)) =>
          match NumberThen(s2, ",")
          case None => None
          case Some((c, s3)) =>
            match NumberThen(s3, " @@")
            case None => None
            case Some((d, s4)) => if '\r' in s4 || '\n' in s4 then None else Some(Header(a, b, c, d))
  }

  // ---------------------------------------------------------------- applying, as functions

  /** What a hunk adds to the result, and where it leaves the diff cursor and the old index. */
  datatype HunkRun = HunkRun(out: seq<string>, i: nat, oi: nat)

  function Emit(line: string, run: Outcome<HunkRun>): Outcome<HunkRun> {
    match run
    case Done(r) => Done(r.(out := [line] + r.out))
    case Rejected(_) | Undefined | Thrown => run
  }

  function HunkFrom(lines: seq<string>, diff: seq<string>, i: nat, oi: nat, os: int, ns: int): Outcome<HunkRun>
    requires i <= |diff|
    decreases |diff| - i
  {
    if i == |diff| then
      if os == 0 && ns == 0 then Done(HunkRun([], i, oi)) else Rejected(BadHunkInfo)
    else if diff[i] == "" then HunkFrom(lines, diff, i + 1, oi, os, ns)
    else if os == 0 && ns == 0 then Done(HunkRun([], i, oi))
    else if os < 0 || ns < 0 then Rejected(BadHunkInfo)
    else
      var text := diff[i][1..];
      match diff[i][0]
      case ' ' =>
        if oi >= |lines| then Undefined
        else if lines[oi] != text then Rejected(ContextMismatch)
        else Emit(lines[oi], HunkFrom(lines, diff, i + 1, oi + 1, os - 1, ns - 1))
      case '+' => Emit(text, HunkFrom(lines, diff, i + 1, oi, os, ns - 1))
      case '-' =>
        if oi >= |lines| then Undefined
        else if lines[oi] != text then Rejected(ContextMismatch)
        else HunkFrom(lines, diff, i + 1, oi + 1, os - 1, ns)
      case _ => Rejected(BadSymbol)
  }

  /** The result lines, and the old index reached. */
  datatype FileRun = FileRun(out: seq<string>, oi: nat)

  function EmitAll(out: seq<string>, run: Outcome<FileRun>): Outcome<FileRun> {
    match run
    case Done(r) => Done(r.(out := out + r.out))
    case Rejected(_) | Undefined | Thrown => run
  }

  /** How far old lines are copied before a hunk; header start zero converts to a huge unsigned index. */
  function CopyEnd(lines: seq<string>, oi: nat, h: Header): Option<nat> {
    if h.oldStart == 0 || (oi < h.oldStart - 1 && h.oldStart - 1 > |lines|) then None
    else Some(if oi < h.oldStart - 1 then h.oldStart - 1 else oi)
  }

  /** A line outside hunks that is passed over. */
  predicate Skipped(line: string) { line == "" || "+++" <= line || "---" <= line }

  lemma {:induction false} HunkAdvances(lines: seq<string>, diff: seq<string>, i: nat, oi: nat, os: int, ns: int)
    requires i <= |diff| && HunkFrom(lines, diff, i, oi, os, ns).Done?
    ensures var r := HunkFrom(lines, diff, i, oi, os, ns).value;
            i <= r.i <= |diff| && oi <= r.oi && (oi <= |lines| ==> r.oi <= |lines|)
    decreases |diff| - i
  {
    if i < |diff| && diff[i] == "" {
      HunkAdvances(lines, diff, i + 1, oi, os, ns);
    } else if i < |diff| && !(os == 0 && ns == 0) {
      match diff[i][0]
      case ' ' => HunkAdvances(lines, diff, i + 1, oi + 1, os - 1, ns - 1);
      case '+' => HunkAdvances(lines, diff, i + 1, oi, os, ns - 1);
      case '-' => HunkAdvances(lines, diff, i + 1, oi + 1, os - 1, ns);
      case _ =>
    }
  }

  function FileFrom(lines: seq<string>, diff: seq<string>, i: nat, oi: nat, ni: nat, git: bool): Outcome<FileRun>
    requires i <= |diff| && oi <= |lines|
    decreases |diff| - i
  {
    if i == |diff| then Done(FileRun([], oi))
    else if diff[i] == "" then FileFrom(lines, diff, i + 1, oi, ni, git)
    else
      match diff[i][0]
      case '+' => if "+++" <= diff[i] then FileFrom(lines, diff, i + 1, oi, ni, git) else Rejected(OutOfHunk)
      case '-' => if "---" <= diff[i] then FileFrom(lines, diff, i + 1, oi, ni, git) else Rejected(OutOfHunk)
      case '@' =>
        (match ParseHeader(diff[i])
         case None => Rejected(BadHunkDescription)
         case Some(h) => FileFromHunk(lines, diff, i, oi, ni, git, h))
      case 'd' | 'i' => if git then Done(FileRun([], oi)) else Rejected(UnknownAction)
      case _ => Rejected(UnknownAction)
  }

  /** The part of the file loop that handles the hunk whose header `h` is at `i`. */
  function FileFromHunk(lines: seq<string>, diff: seq<string>, i: nat, oi: nat, ni: nat, git: bool, h: Header): Outcome<FileRun>
    requires i < |diff| && oi <= |lines|
    decreases |diff| - i, 0
  {
    if !h.Fits() then Thrown
    else
      match CopyEnd(lines, oi, h)
      case None => Undefined
      case Some(end) =>
        var copied := lines[oi..end];
        if h.newStart - 1 != ni + |copied| then Rejected(WrongNewLine)
        else
          match HunkFrom(lines, diff, i + 1, end, h.oldCount, h.newCount)
          case Rejected(reason) => Rejected(reason)
          case Undefined => Undefined
          case Thrown => Thrown
          case Done(run) =>
            HunkAdvances(lines, diff, i + 1, end, h.oldCount, h.newCount);
            EmitAll(copied + run.out, FileFrom(lines, diff, run.i, run.oi, ni + |copied| + |run.out|, git))
  }

  /** The lines of the patched text. */
  function PatchedLines(lines: seq<string>, diff: seq<string>, git: bool): Outcome<seq<string>> {
    match FileFrom(lines, diff, 0, 0, 0, git)
    case Done(run) => FileAdvances(lines, diff, 0, 0, 0, git); Done(run.out + lines[run.oi..])
    case Rejected(reason) => Rejected(reason)
    case Undefined => Undefined
    case Thrown => Thrown
  }

  lemma {:induction false} FileAdvances(lines: seq<string>, diff: seq<string>, i: nat, oi: nat, ni: nat, git: bool)
    requires i <= |diff| && oi <= |lines| && FileFrom(lines, diff, i, oi, ni, git).Done?
    ensures oi <= FileFrom(lines, diff, i, oi, ni, git).value.oi <= |lines|
    decreases |diff| - i
  {
    hide ParseHeader, HunkFrom;
    if i < |diff| {
      if Skipped(diff[i]) {
        FileAdvances(lines, diff, i + 1, oi, ni, git);
      } else if diff[i][0] == '@' {
        var h := ParseHeader(diff[i]).value;
        var end := CopyEnd(lines, oi, h).value;
        var run := HunkFrom(lines, diff, i + 1, end, h.oldCount, h.newCount).value;
        HunkAdvances(lines, diff, i + 1, end, h.oldCount, h.newCount);
        FileAdvances(lines, diff, run.i, run.oi, ni + (end - oi) + |run.out|, git);
      }
    }
  }

  /** The whole application: the lines joined again, without a newline after the last one. */
  function PatchText(text: string, unidiff: string, git: bool): Outcome<string> {
    match PatchedLines(PreparedLines(text), PreparedLines(unidiff), git)
    case Done(lines) => Done(Join(lines, "\n"))
    case Rejected(reason) => Rejected(reason)
    case Undefined => Undefined
    case Thrown => Thrown
  }

  // ---------------------------------------------------------------- the loops of the source

  /** `add_line` on a result kept as text. */
  function WithLine(r: string, line: string): string { r + (line + "\n") }

  lemma WithLineTerminated(out: seq<string>, line: string)
    ensures WithLine(Terminated(out, "\n"), line) == Terminated(out + [line], "\n")
  {
    TerminatedAppend(out, [line], "\n");
    assert line + ("\n" + "") == line + "\n";
  }

  /** The run of a loop that has produced `out` so far and still has to do `rest` is `all`. */
  ghost predicate HunkSoFar(all: Outcome<HunkRun>, out: seq<string>, rest: Outcome<HunkRun>) {
    match rest
    case Done(r) => all == Done(HunkRun(out + r.out, r.i, r.oi))
    case Rejected(_) | Undefined | Thrown => all == rest
  }

  lemma HunkEmits(all: Outcome<HunkRun>, out: seq<string>, line: string, rest: Outcome<HunkRun>)
    requires HunkSoFar(all, out, Emit(line, rest))
    ensures HunkSoFar(all, out + [line], rest)
  {
    if rest.Done? {
      assert out + ([line] + rest.value.out) == (out + [line]) + rest.value.out;
    }
  }

  method PatchHunk(lines: seq<string>, diff: seq<string>, i0: nat, oi0: nat, ni0: int, os0: int, ns0: int)
    returns (res: Outcome<string>, i: nat, oi: nat, ni: int, ghost out: seq<string>)
    requires i0 <= |diff|
    ensures i <= |diff|
    ensures match HunkFrom(lines, diff, i0, oi0, os0, ns0)
            case Done(run) =>
              res == Done(Terminated(run.out, "\n")) && out == run.out && i == run.i && oi == run.oi && ni == ni0 + |run.out|
            case Rejected(reason) => res == Rejected(reason)
            case Undefined => res == Undefined
            case Thrown => false
  {
    hide Terminated;
    var r := "";
    i, oi, ni, out := i0, oi0, ni0, [];
    var os, ns := os0, ns0;
    ghost var all := HunkFrom(lines, diff, i0, oi0, os0, ns0);
    HunkStarts(all);
    while i != |diff|
      invariant i <= |diff| && ni == ni0 + |out| && r == Terminated(out, "\n")
      invariant HunkSoFar(all, out, HunkFrom(lines, diff, i, oi, os, ns))
      decreases |diff| - i
    {
      if diff[i] == "" {
        i := i + 1;
        continue;
      }
      if os == 0 && ns == 0 {
        HunkStops(all, out, i, oi);
        return Done(r), i, oi, ni, out;
      }
      if os < 0 || ns < 0 {
        return Rejected(BadHunkInfo), i, oi, ni, out;
      }
      ghost var rest := HunkFrom(lines, diff, i, oi, os, ns);
      var symbol, text := diff[i][0], diff[i][1..];
      if symbol == ' ' {
        if oi >= |lines| {
          return Undefined, i, oi, ni, out;
        }
        if lines[oi] != text {
          return Rejected(ContextMismatch), i, oi, ni, out;
        }
        HunkEmits(all, out, lines[oi], HunkFrom(lines, diff, i + 1, oi + 1, os - 1, ns - 1));
        WithLineTerminated(out, lines[oi]);
        r, ni, out := WithLine(r, lines[oi]), ni + 1, out + [lines[oi]];
        os := os - 1;
        ns := ns - 1;
        oi := oi + 1;
      } else if symbol == '+' {
        HunkEmits(all, out, text, HunkFrom(lines, diff, i + 1, oi, os, ns - 1));
        WithLineTerminated(out, text);
        r, ni, out := WithLine(r, text), ni + 1, out + [text];
        ns := ns - 1;
      } else if symbol == '-' {
        if oi >= |lines| {
          return Undefined, i, oi, ni, out;
        }
        if lines[oi] != text {
          return Rejected(ContextMismatch), i, oi, ni, out;
        }
        os := os - 1;
        oi := oi + 1;
      } else {
        return Rejected(BadSymbol), i, oi, ni, out;
      }
      i := i + 1;
    }
    if os == 0 && ns == 0 {
      HunkStops(all, out, i, oi);
      return Done(r), i, oi, ni, out;
    }
    return Rejected(BadHunkInfo), i, oi, ni, out;
  }

  lemma HunkStarts(all: Outcome<HunkRun>)
    ensures HunkSoFar(all, [], all) && "" == Terminated([], "\n")
  {
    if all.Done? {
      assert [] + all.value.out == all.value.out;
    }
  }

  lemma HunkStops(all: Outcome<HunkRun>, out: seq<string>, i: nat, oi: nat)
    requires HunkSoFar(all, out, Done(HunkRun([], i, oi)))
    ensures all == Done(HunkRun(out, i, oi))
  {
    assert out + [] == out;
  }

  ghost predicate FileSoFar(all: Outcome<FileRun>, out: seq<string>, rest: Outcome<FileRun>) {
    all == EmitAll(out, rest)
  }

  lemma FileEmits(all: Outcome<FileRun>, out: seq<string>, more: seq<string>, rest: Outcome<FileRun>)
    requires FileSoFar(all, out, EmitAll(more, rest))
    ensures FileSoFar(all, out + more, rest)
  {
    if rest.Done? {
      assert out + (more + rest.value.out) == (out + more) + rest.value.out;
    }
  }

  lemma FileStarts(all: Outcome<FileRun>)
    ensures FileSoFar(all, [], all) && "" == Terminated([], "\n")
  {
    if all.Done? {
      assert [] + all.value.out == all.value.out;
    }
  }

  lemma FileStops(all: Outcome<FileRun>, out: seq<string>, oi: nat)
    requires FileSoFar(all, out, Done(FileRun([], oi)))
    ensures all == Done(FileRun(out, oi))
  {
    assert out + [] == out;
  }

  /** Copying old lines up to a hunk; `ok` is false when that reads past the old lines. */
  method CopyLines(lines: seq<string>, oi0: nat, ol: int, r0: string, ni0: int, ghost out0: seq<string>)
    returns (ok: bool, oi: nat, r: string, ni: int)
    requires oi0 <= |lines| && -1 <= ol && r0 == Terminated(out0, "\n")
    ensures ok <==> 0 <= ol && (oi0 < ol ==> ol <= |lines|)
    ensures ok ==> oi == (if oi0 < ol then ol else oi0) && ni == ni0 + (oi - oi0)
    ensures ok ==> oi0 <= oi <= |lines| && r == Terminated(out0 + lines[oi0..oi], "\n")
  {
    hide Terminated;
    oi, r, ni := oi0, r0, ni0;
    assert out0 + lines[oi0..oi0] == out0;
    // A negative end converts to the greatest unsigned number.
    while ol < 0 || oi < ol
      invariant oi0 <= oi <= |lines| && ni == ni0 + (oi - oi0)
      invariant 0 <= ol && oi0 < ol ==> oi <= ol
      invariant 0 <= ol <= oi0 ==> oi == oi0
      invariant r == Terminated(out0 + lines[oi0..oi], "\n")
      decreases |lines| - oi
    {
      if oi >= |lines| {
        return false, oi, r, ni;
      }
      WithLineTerminated(out0 + lines[oi0..oi], lines[oi]);
      assert (out0 + lines[oi0..oi]) + [lines[oi]] == out0 + lines[oi0..oi + 1];
      r, ni := WithLine(r, lines[oi]), ni + 1;
      oi := oi + 1;
    }
    return true, oi, r, ni;
  }

  method PatchFile(lines: seq<string>, diff: seq<string>, git: bool)
    returns (res: Outcome<string>, oi: nat)
    ensures match FileFrom(lines, diff, 0, 0, 0, git)
            case Done(run) => res == Done(Terminated(run.out, "\n")) && oi == run.oi && oi <= |lines|
            case Rejected(reason) => res == Rejected(reason)
            case Undefined => res == Undefined
            case Thrown => res == Thrown
  {
    hide Terminated, HunkFrom, ParseHeader, EmitAll;
    var r, i, ni := "", 0, 0;
    oi := 0;
    ghost var out: seq<string> := [];
    ghost var all := FileFrom(lines, diff, 0, 0, 0, git);
    FileStarts(all);
    while i != |diff|
      invariant 0 <= i <= |diff| && oi <= |lines| && ni == |out| && r == Terminated(out, "\n")
      invariant FileSoFar(all, out, FileFrom(lines, diff, i, oi, ni, git))
      decreases |diff| - i
    {
      if diff[i] == "" {
        i := i + 1;
        continue;
      }
      var symbol := diff[i][0];
      if symbol == '+' {
        if !("+++" <= diff[i]) {
          FileFails(all, out, Rejected(OutOfHunk));
          return Rejected(OutOfHunk), oi;
        }
        i := i + 1;
      } else if symbol == '-' {
        if !("---" <= diff[i]) {
          FileFails(all, out, Rejected(OutOfHunk));
          return Rejected(OutOfHunk), oi;
        }
        i := i + 1;
      } else if symbol == '@' {
        var m := ParseHeader(diff[i]);
        if m.None? {
          FileFails(all, out, Rejected(BadHunkDescription));
          return Rejected(BadHunkDescription), oi;
        }
        var h := m.value;
        var failed;
        ghost var rest := FileFromHunk(lines, diff, i, oi, ni, git, h);
        failed, r, i, oi, ni, out := ApplyHunk(lines, diff, i, oi, ni, git, h, r, out, all);
        if failed.Some? {
          FileFails(all, out, rest);
          return failed.value, oi;
        }
      } else if (symbol == 'd' || symbol == 'i') && git {
        FileStops(all, out, oi);
        return Done(r), oi;
      } else {
        FileFails(all, out, Rejected(UnknownAction));
        return Rejected(UnknownAction), oi;
      }
    }
    FileStops(all, out, oi);
    return Done(r), oi;
  }

  lemma FileFails(all: Outcome<FileRun>, out: seq<string>, rest: Outcome<FileRun>)
    requires FileSoFar(all, out, rest) && !rest.Done?
    ensures all == rest
  {
  }

  /** The case of the file loop for a hunk with header `h` at `i`; `failed` holds what stops the loop. */
  method ApplyHunk(lines: seq<string>, diff: seq<string>, i: nat, oi: nat, ni: nat, git: bool, h: Header,
                   r: string, ghost out: seq<string>, ghost all: Outcome<FileRun>)
    returns (failed: Option<Outcome<string>>, r': string, i': nat, oi': nat, ni': nat, ghost out': seq<string>)
    requires i < |diff| && oi <= |lines| && ni == |out| && r == Terminated(out, "\n")
    requires FileSoFar(all, out, FileFromHunk(lines, diff, i, oi, ni, git, h))
    ensures failed.None? ==>
              && i < i' <= |diff| && oi' <= |lines| && ni' == |out'| && r' == Terminated(out', "\n")
              && FileSoFar(all, out', FileFrom(lines, diff, i', oi', ni', git))
    ensures failed.Some? ==> out' == out
    ensures failed.Some? ==>
              match FileFromHunk(lines, diff, i, oi, ni, git, h)
              case Done(_) => false
              case Rejected(reason) => failed.value == Rejected(reason)
              case Undefined => failed.value == Undefined
              case Thrown => failed.value == Thrown
  {
    hide Terminated, HunkFrom, FileFrom, EmitAll;
    failed, r', i', oi', ni', out' := None, r, i, oi, ni, out;
    if !h.Fits() {
      failed := Some(Thrown);
      return;
    }
    var ol, nl := h.oldStart - 1, h.newStart - 1;
    var inside, copyEnd, copiedText, copiedNi := CopyLines(lines, oi, ol, r, ni, out);
    if !inside {
      failed := Some(Undefined);
      return;
    }
    ghost var copied := lines[oi..copyEnd];
    if nl != copiedNi {
      failed := Some(Rejected(WrongNewLine));
      return;
    }
    var r2, j, hunkOi, hunkNi;
    ghost var hunkOut;
    r2, j, hunkOi, hunkNi, hunkOut := PatchHunk(lines, diff, i + 1, copyEnd, copiedNi, h.oldCount, h.newCount);
    if !r2.Done? {
      failed := Some(r2);
      return;
    }
    HunkAdvances(lines, diff, i + 1, copyEnd, h.oldCount, h.newCount);
    FileEmits(all, out, copied + hunkOut, FileFrom(lines, diff, j, hunkOi, hunkNi, git));
    TerminatedAppend(out + copied, hunkOut, "\n");
    assert out + (copied + hunkOut) == (out + copied) + hunkOut;
    r', i', oi', ni', out' := copiedText + r2.value, j, hunkOi, hunkNi, out + (copied + hunkOut);
  }

  /** `patch(text, unidiff, options)`. */
  method Patch(text: string, unidiff: string, git: bool) returns (res: Outcome<string>)
    ensures res == PatchText(text, unidiff, git)
  {
    hide Terminated, Join, FileFrom;
    var diff := PrepareLines(unidiff);
    var lines := PrepareLines(text);
    var oi;
    res, oi := PatchFile(lines, diff, git);
    if !res.Done? {
      return;
    }
    ghost var out := FileFrom(lines, diff, 0, 0, 0, git).value.out;
    // What follows the last hunk is kept.
    var r := res.value;
    ghost var start := oi;
    assert out + lines[start..start] == out;
    while oi < |lines|
      invariant start <= oi <= |lines| && r == Terminated(out + lines[start..oi], "\n")
    {
      WithLineTerminated(out + lines[start..oi], lines[oi]);
      assert (out + lines[start..oi]) + [lines[oi]] == out + lines[start..oi + 1];
      r := WithLine(r, lines[oi]);
      oi := oi + 1;
    }
    assert lines[start..|lines|] == lines[start..];
    CutLastNewline(out + lines[start..]);
    if r != "" {
      r := r[..|r| - 1];
    }
    res := Done(r);
  }

  lemma CutLastNewline(lines: seq<string>)
    ensures var r := Terminated(lines, "\n");
            Join(lines, "\n") == if r == "" then "" else r[..|r| - 1]
  {
    if lines != [] {
      CutTerminated(lines, "\n");
    }
  }
}
