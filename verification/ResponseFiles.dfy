/** Response file expansion: splicing the tokens of `@file` into the argument vector under a budget. */
module ResponseFiles {
  import opened Options
  import opened Text
  import opened Tokenizers
  import opened Spellings

  /** The readable files, and how their contents are cut into arguments. */
  datatype Source = Source(files: map<string, string>, style: Style, markEols: bool) {
    function Read(name: string): Option<seq<Arg>> {
      if name in files then Some(Tokens(style, files[name], markEols)) else None
    }
  }

  /** How many files may be spliced. */
  const BUDGET := 21

  datatype Kind = Plain | Settings | Response(name: string)

  /** `@@name` is a settings file, any other `@name` a response file. */
  function KindOf(a: Arg): Kind {
    if a.EndOfLine? || a.text == "" || a.text[0] != '@' then Kind.Plain
    else if |a.text| > 1 && a.text[1] == '@' then Settings
    else Response(a.text[1..])
  }

  /** Whether everything was expanded, the resulting arguments, and how many files were asked for. */
  datatype Outcome = Outcome(allExpanded: bool, args: seq<Arg>, requested: nat)

  /** The loop at the point where `done` lies before the index, `todo` from it on, and `requested` files were asked for. */
  function Expand(src: Source, done: seq<Arg>, todo: seq<Arg>, requested: nat, allExpanded: bool): Outcome
    requires requested <= BUDGET
    decreases BUDGET - requested, |todo|
  {
    if todo == [] then Outcome(allExpanded, done, requested)
    else
      match KindOf(todo[0])
      case Plain => Expand(src, done + [todo[0]], todo[1..], requested, allExpanded)
      case Settings => Expand(src, done, todo[1..], requested, allExpanded)
      case Response(name) =>
        if requested == BUDGET then Outcome(false, done + todo, requested)
        else
          match src.Read(name)
          case None => Expand(src, done + [todo[0]], todo[1..], requested + 1, false)
          case Some(tokens) => Expand(src, done, tokens + todo[1..], requested + 1, allExpanded)
  }

  /** An argument vector that is edited in place. */
  class ArgVector {
    var args: seq<Arg>

    constructor (args: seq<Arg>)
      ensures this.args == args
    {
      this.args := args;
    }

    method ExpandResponseFiles(src: Source) returns (allExpanded: bool)
      modifies this
      ensures var o := Expand(src, [], old(args), 0, true);
              allExpanded == o.allExpanded && args == o.args && o.requested <= BUDGET
    {
      hide Expand, KindOf;
      var rspFiles := 0;
      allExpanded := true;
      var i := 0;
      ghost var goal := Expand(src, [], args, 0, true);
      RequestsStayInBudget(src, [], args, 0, true);
      assert args[..0] == [] && args[0..] == args;
      while i != |args|
        invariant 0 <= i <= |args| && 0 <= rspFiles <= BUDGET
        invariant Expand(src, args[..i], args[i..], rspFiles, allExpanded) == goal
        decreases BUDGET - rspFiles, |args| - i
      {
        var arg := args[i];
        ExpandStep(src, args, i, rspFiles, allExpanded);
        if arg.EndOfLine? || arg.text == "" || arg.text[0] != '@' {
          i := i + 1;
          continue;
        }
        if |arg.text| > 1 && arg.text[1] == '@' {
          args := args[..i] + args[i + 1..];
          continue;
        }
        // Too many response files: the rest stays as it is.
        if rspFiles > 20 {
          return false;
        }
        rspFiles := rspFiles + 1;
        var tokens := src.Read(arg.text[1..]);
        if tokens.None? {
          allExpanded := false;
          i := i + 1;
          continue;
        }
        Spliced(args, i, tokens.value);
        args := args[..i] + args[i + 1..];
        args := args[..i] + tokens.value + args[i..];
      }
      ExpandEnds(src, args, rspFiles, allExpanded);
    }
  }

  /** Erasing the entry at `i` and inserting `tokens` there. */
  lemma Spliced(args: seq<Arg>, i: nat, tokens: seq<Arg>)
    requires i < |args|
    ensures var erased := args[..i] + args[i + 1..];
            erased[..i] + tokens + erased[i..] == args[..i] + tokens + args[i + 1..]
  {
  }

  lemma ExpandEnds(src: Source, args: seq<Arg>, requested: nat, allExpanded: bool)
    requires requested <= BUDGET
    ensures Expand(src, args[..|args|], args[|args|..], requested, allExpanded) == Outcome(allExpanded, args, requested)
  {
    assert args[..|args|] == args;
  }

  /** One step of the loop at an index `i` of the vector. */
  lemma ExpandStep(src: Source, args: seq<Arg>, i: nat, requested: nat, allExpanded: bool)
    requires i < |args| && requested <= BUDGET
    ensures var a := args[i];
            var erased := args[..i] + args[i + 1..];
            Expand(src, args[..i], args[i..], requested, allExpanded) ==
            if a.EndOfLine? || a.text == "" || a.text[0] != '@' then
              Expand(src, args[..i + 1], args[i + 1..], requested, allExpanded)
            else if |a.text| > 1 && a.text[1] == '@' then
              Expand(src, erased[..i], erased[i..], requested, allExpanded)
            else if requested == BUDGET then Outcome(false, args, requested)
            else
              match src.Read(a.text[1..])
              case None => Expand(src, args[..i + 1], args[i + 1..], requested + 1, false)
              case Some(tokens) =>
                var spliced := args[..i] + tokens + args[i + 1..];
                Expand(src, spliced[..i], spliced[i..], requested + 1, allExpanded)
  {
    var a, todo := args[i], args[i..];
    assert todo[0] == a && todo[1..] == args[i + 1..];
    assert args[..i] + [a] == args[..i + 1] && args[..i] + todo == args;
    var erased := args[..i] + args[i + 1..];
    assert erased[..i] == args[..i] && erased[i..] == args[i + 1..];
    if KindOf(a).Response? && src.Read(a.text[1..]).Some? {
      var tokens := src.Read(a.text[1..]).value;
      var spliced := args[..i] + tokens + args[i + 1..];
      assert spliced[..i] == args[..i] && spliced[i..] == tokens + args[i + 1..];
    }
  }

  lemma {:induction false} RequestsStayInBudget(src: Source, done: seq<Arg>, todo: seq<Arg>, requested: nat, allExpanded: bool)
    requires requested <= BUDGET
    ensures Expand(src, done, todo, requested, allExpanded).requested <= BUDGET
    decreases BUDGET - requested, |todo|
  {
    if todo != [] {
      match KindOf(todo[0])
      case Plain => RequestsStayInBudget(src, done + [todo[0]], todo[1..], requested, allExpanded);
      case Settings => RequestsStayInBudget(src, done, todo[1..], requested, allExpanded);
      case Response(name) =>
        if requested < BUDGET {
          match src.Read(name)
          case None => RequestsStayInBudget(src, done + [todo[0]], todo[1..], requested + 1, false);
          case Some(tokens) => RequestsStayInBudget(src, done, tokens + todo[1..], requested + 1, allExpanded);
        }
    }
  }

  // ---------------------------------------------------------------- the recursive expansion

  /**
    * The arguments expanded left to right and depth first, with the number of files read;
    * nothing if a file cannot be read or the nesting is deeper than `depth`.
    */
  function Flatten(src: Source, args: seq<Arg>, depth: nat): Option<(seq<Arg>, nat)>
    decreases depth, |args|
  {
    if args == [] then Some(([], 0))
    else
      var rest := Flatten(src, args[1..], depth);
      if rest.None? then None
      else
        var (more, n) := rest.value;
        match KindOf(args[0])
        case Plain => Some(([args[0]] + more, n))
        case Settings => Some((more, n))
        case Response(name) =>
          if depth == 0 || src.Read(name).None? then None
          else
            match Flatten(src, src.Read(name).value, depth - 1)
            case None => None
            case Some((inner, m)) => Some((inner + more, 1 + m + n))
  }

  ghost predicate FlattensTo(src: Source, args: seq<Arg>, result: seq<Arg>, files: nat) {
    exists depth: nat :: Flatten(src, args, depth) == Some((result, files))
  }

  lemma {:induction false} MoreDepthSameResult(src: Source, args: seq<Arg>, depth: nat)
    requires Flatten(src, args, depth).Some?
    ensures Flatten(src, args, depth + 1) == Flatten(src, args, depth)
    decreases depth, |args|
  {
    if args != [] {
      MoreDepthSameResult(src, args[1..], depth);
      var kind := KindOf(args[0]);
      if kind.Response? {
        MoreDepthSameResult(src, src.Read(kind.name).value, depth - 1);
      }
    }
  }

  lemma {:induction false} FlattenSplits(src: Source, a: seq<Arg>, b: seq<Arg>, depth: nat)
    requires Flatten(src, a + b, depth).Some?
    ensures Flatten(src, a, depth).Some? && Flatten(src, b, depth).Some?
    ensures var (x, m) := Flatten(src, a, depth).value;
            var (y, n) := Flatten(src, b, depth).value;
            Flatten(src, a + b, depth).value == (x + y, m + n)
  {
    if a == [] {
      assert a + b == b;
      assert [] + Flatten(src, b, depth).value.0 == Flatten(src, b, depth).value.0;
    } else {
      assert (a + b)[0] == a[0] && (a + b)[1..] == a[1..] + b;
      FlattenSplits(src, a[1..], b, depth);
      var x, y := Flatten(src, a[1..], depth).value.0, Flatten(src, b, depth).value.0;
      Regroup([a[0]], x, y);
      if KindOf(a[0]).Response? {
        var inner := Flatten(src, src.Read(KindOf(a[0]).name).value, depth - 1).value.0;
        Regroup(inner, x, y);
      }
    }
  }

  // ---------------------------------------------------------------- the loop computes the recursive expansion

  /** While `args` flattens within the budget, the loop replaces it by its expansion and goes on. */
  lemma {:induction false} LoopFlattens(src: Source, done: seq<Arg>, args: seq<Arg>, rest: seq<Arg>,
                                        requested: nat, allExpanded: bool, depth: nat)
    requires Flatten(src, args, depth).Some? && requested + Flatten(src, args, depth).value.1 <= BUDGET
    ensures var (result, files) := Flatten(src, args, depth).value;
            Expand(src, done, args + rest, requested, allExpanded)
            == Expand(src, done + result, rest, requested + files, allExpanded)
    decreases depth, |args|
  {
    hide Expand;
    if args == [] {
      assert args + rest == rest && done + [] == done;
    } else {
      var tail := args[1..] + rest;
      assert args + rest == [args[0]] + tail;
      ExpandOnce(src, done, args[0], tail, requested, allExpanded);
      var (more, n) := Flatten(src, args[1..], depth).value;
      match KindOf(args[0])
      case Plain =>
        LoopFlattens(src, done + [args[0]], args[1..], rest, requested, allExpanded, depth);
        Regroup(done, [args[0]], more);
      case Settings =>
        LoopFlattens(src, done, args[1..], rest, requested, allExpanded, depth);
      case Response(name) =>
        var tokens := src.Read(name).value;
        var (inner, m) := Flatten(src, tokens, depth - 1).value;
        LoopFlattens(src, done, tokens, tail, requested + 1, allExpanded, depth - 1);
        LoopFlattens(src, done + inner, args[1..], rest, requested + 1 + m, allExpanded, depth);
        Regroup(done, inner, more);
    }
  }

  lemma Regroup(a: seq<Arg>, b: seq<Arg>, c: seq<Arg>)
    ensures (a + b) + c == a + (b + c)
  {
  }

  lemma ExpandOnce(src: Source, done: seq<Arg>, a: Arg, tail: seq<Arg>, requested: nat, allExpanded: bool)
    requires requested <= BUDGET
    ensures Expand(src, done, [a] + tail, requested, allExpanded) ==
            match KindOf(a)
            case Plain => Expand(src, done + [a], tail, requested, allExpanded)
            case Settings => Expand(src, done, tail, requested, allExpanded)
            case Response(name) =>
              if requested == BUDGET then Outcome(false, done + ([a] + tail), requested)
              else
                match src.Read(name)
                case None => Expand(src, done + [a], tail, requested + 1, false)
                case Some(tokens) => Expand(src, done, tokens + tail, requested + 1, allExpanded)
  {
    assert ([a] + tail)[1..] == tail;
  }

  lemma {:induction false} FailureIsRemembered(src: Source, done: seq<Arg>, todo: seq<Arg>, requested: nat)
    requires requested <= BUDGET
    ensures !Expand(src, done, todo, requested, false).allExpanded
    decreases BUDGET - requested, |todo|
  {
    if todo != [] {
      match KindOf(todo[0])
      case Plain => FailureIsRemembered(src, done + [todo[0]], todo[1..], requested);
      case Settings => FailureIsRemembered(src, done, todo[1..], requested);
      case Response(name) =>
        if requested < BUDGET {
          match src.Read(name)
          case None => FailureIsRemembered(src, done + [todo[0]], todo[1..], requested + 1);
          case Some(tokens) => FailureIsRemembered(src, done, tokens + todo[1..], requested + 1);
        }
    }
  }

  /** A successful loop is a recursive expansion within the budget. */
  lemma {:induction false} SuccessFlattens(src: Source, done: seq<Arg>, todo: seq<Arg>, requested: nat)
    returns (result: seq<Arg>, files: nat, depth: nat)
    requires requested <= BUDGET && Expand(src, done, todo, requested, true).allExpanded
    ensures Flatten(src, todo, depth) == Some((result, files))
    ensures Expand(src, done, todo, requested, true) == Outcome(true, done + result, requested + files)
    decreases BUDGET - requested, |todo|
  {
    if todo == [] {
      result, files, depth := [], 0, 0;
      assert done + [] == done;
    } else {
      match KindOf(todo[0])
      case Plain =>
        result, files, depth := SuccessFlattens(src, done + [todo[0]], todo[1..], requested);
        Regroup(done, [todo[0]], result);
        result := [todo[0]] + result;
      case Settings =>
        result, files, depth := SuccessFlattens(src, done, todo[1..], requested);
      case Response(name) =>
        if src.Read(name).None? {
          FailureIsRemembered(src, done + [todo[0]], todo[1..], requested + 1);
        } else {
          var tokens := src.Read(name).value;
          result, files, depth := SuccessFlattens(src, done, tokens + todo[1..], requested + 1);
          FlattenSplits(src, tokens, todo[1..], depth);
          MoreDepthSameResult(src, todo[1..], depth);
          depth, files := depth + 1, files + 1;
        }
    }
  }

  /**
    * Expansion succeeds with `result` exactly when the arguments expand to `result` recursively by reading
    * at most `BUDGET` files; termination holds for every file map.
    */
  lemma ExpandsExactlyWithinBudget(src: Source, args: seq<Arg>, result: seq<Arg>)
    ensures var o := Expand(src, [], args, 0, true);
            o.allExpanded && o.args == result <==> exists files: nat :: files <= BUDGET && FlattensTo(src, args, result, files)
  {
    var o := Expand(src, [], args, 0, true);
    if o.allExpanded && o.args == result {
      var flat, files, depth := SuccessFlattens(src, [], args, 0);
      RequestsStayInBudget(src, [], args, 0, true);
      assert [] + flat == flat;
      assert FlattensTo(src, args, result, files);
    }
    if files: nat :| files <= BUDGET && FlattensTo(src, args, result, files) {
      var depth: nat :| Flatten(src, args, depth) == Some((result, files));
      LoopFlattens(src, [], args, [], 0, true, depth);
      assert args + [] == args && [] + result == result;
    }
  }

  lemma {:induction false} FlattenedIsPlain(src: Source, args: seq<Arg>, depth: nat)
    requires Flatten(src, args, depth).Some?
    ensures forall a | a in Flatten(src, args, depth).value.0 :: KindOf(a) == Kind.Plain
    decreases depth, |args|
  {
    if args != [] {
      FlattenedIsPlain(src, args[1..], depth);
      var kind := KindOf(args[0]);
      if kind.Response? {
        FlattenedIsPlain(src, src.Read(kind.name).value, depth - 1);
      }
    }
  }

  /** After a successful expansion no argument starts with `@`. */
  lemma SuccessLeavesNoResponseFile(src: Source, args: seq<Arg>)
    requires Expand(src, [], args, 0, true).allExpanded
    ensures forall a | a in Expand(src, [], args, 0, true).args :: a.Word? && a.text != "" ==> a.text[0] != '@'
  {
    var result, files, depth := SuccessFlattens(src, [], args, 0);
    FlattenedIsPlain(src, args, depth);
    assert [] + result == result;
  }

  // ---------------------------------------------------------------- files that include themselves

  lemma {:induction false} SelfInclusionNeverFlattens(src: Source, args: seq<Arg>, i: nat, name: string, j: nat, depth: nat)
    requires i < |args| && KindOf(args[i]) == Response(name)
    requires var tokens := src.Read(name);
             tokens.Some? && j < |tokens.value| && KindOf(tokens.value[j]) == Response(name)
    ensures Flatten(src, args, depth).None?
    decreases depth, |args|
  {
    if i > 0 {
      SelfInclusionNeverFlattens(src, args[1..], i - 1, name, j, depth);
    } else if depth > 0 {
      SelfInclusionNeverFlattens(src, src.Read(name).value, j, name, j, depth - 1);
    }
  }

  /** A command line that mentions a file including itself is never reported as fully expanded. */
  lemma SelfInclusionFails(src: Source, args: seq<Arg>, i: nat, name: string, j: nat)
    requires i < |args| && KindOf(args[i]) == Response(name)
    requires var tokens := src.Read(name);
             tokens.Some? && j < |tokens.value| && KindOf(tokens.value[j]) == Response(name)
    ensures !Expand(src, [], args, 0, true).allExpanded
  {
    if Expand(src, [], args, 0, true).allExpanded {
      var _, _, depth := SuccessFlattens(src, [], args, 0);
      SelfInclusionNeverFlattens(src, args, i, name, j, depth);
    }
  }

  // ---------------------------------------------------------------- what is read from a file

  /** The argument that names a response file. */
  function Mention(name: string): Arg { Word("@" + name) }

  predicate StartsWith(a: Arg, prefix: string) { a.Word? && prefix <= a.text }

  lemma KindByPrefix(a: Arg)
    ensures KindOf(a).Settings? <==> StartsWith(a, "@@")
    ensures KindOf(a).Plain? <==> !StartsWith(a, "@")
    ensures KindOf(a).Response? ==> a == Mention(KindOf(a).name)
  {
    if a.Word? && a.text != "" {
      assert a.text == [a.text[0]] + a.text[1..];
    }
  }

  lemma MentionIsResponse(name: string)
    requires !("@" <= name)
    ensures KindOf(Mention(name)) == Response(name)
  {
    assert ("@" + name)[1..] == name;
  }

  /** One mention of a file whose arguments start no further expansion is replaced by these arguments. */
  lemma FileIsSpliced(src: Source, name: string, tokens: seq<Arg>)
    requires !("@" <= name) && name in src.files && tokens == Tokens(src.style, src.files[name], src.markEols)
    requires forall i | 0 <= i < |tokens| :: !StartsWith(tokens[i], "@")
    ensures Expand(src, [], [Mention(name)], 0, true) == Outcome(true, tokens, 1)
  {
    MentionIsResponse(name);
    assert tokens + [Mention(name)][1..] == tokens;
    PlainStays(src, [], tokens, 1);
  }

  lemma {:induction false} PlainStays(src: Source, done: seq<Arg>, todo: seq<Arg>, requested: nat)
    requires requested <= BUDGET && forall i | 0 <= i < |todo| :: !StartsWith(todo[i], "@")
    ensures Expand(src, done, todo, requested, true) == Outcome(true, done + todo, requested)
    decreases |todo|
  {
    if todo != [] {
      KindByPrefix(todo[0]);
      PlainStays(src, done + [todo[0]], todo[1..], requested);
      assert done + [todo[0]] + todo[1..] == done + todo;
    } else {
      assert done + todo == done;
    }
  }

  /** A response file in the GNU style stands for the arguments that its text spells. */
  lemma GnuFileIsItsSpelling(src: Source, name: string, words: seq<GnuWord>, pieces: seq<Piece>, tail: Tail)
    requires !("@" <= name) && name in src.files && src.style == Gnu
    requires GoodWords(words) && GoodPieces(pieces) && GoodTail(tail)
    requires src.files[name] == GnuText(words, PiecesText(pieces) + TailText(tail))
    requires var args := GnuMeaning(words, PiecesValue(pieces) + TailValue(tail), src.markEols);
             forall i | 0 <= i < |args| :: !StartsWith(args[i], "@")
    ensures Expand(src, [], [Mention(name)], 0, true)
         == Outcome(true, GnuMeaning(words, PiecesValue(pieces) + TailValue(tail), src.markEols), 1)
  {
    hide Expand, GnuText, GnuMeaning, Tokens;
    GnuReadsEverySpelling(words, pieces, tail, src.markEols);
    FileIsSpliced(src, name, GnuMeaning(words, PiecesValue(pieces) + TailValue(tail), src.markEols));
  }

  /** The same in the Windows style. */
  lemma WindowsFileIsItsSpelling(src: Source, name: string, lead: string, words: seq<WindowsWord>, last: seq<Segment>)
    requires !("@" <= name) && name in src.files && src.style == Windows
    requires IsBlank(lead) && GoodWindowsWords(words) && GoodSegments(last, false)
    requires src.files[name] == lead + WindowsText(words, SegmentsText(last))
    requires var args := Marks(lead, src.markEols) + WindowsMeaning(words, SegmentsValue(last), src.markEols);
             forall i | 0 <= i < |args| :: !StartsWith(args[i], "@")
    ensures Expand(src, [], [Mention(name)], 0, true)
         == Outcome(true, Marks(lead, src.markEols) + WindowsMeaning(words, SegmentsValue(last), src.markEols), 1)
  {
    hide Expand, WindowsText, WindowsMeaning, Tokens, Marks;
    WindowsReadsEverySpelling(lead, words, last, src.markEols);
    FileIsSpliced(src, name, Marks(lead, src.markEols) + WindowsMeaning(words, SegmentsValue(last), src.markEols));
  }

  /** A file that cannot be read leaves its mention where it is. */
  lemma UnreadableFileStays(src: Source, name: string)
    requires !("@" <= name) && name !in src.files
    ensures Expand(src, [], [Mention(name)], 0, true) == Outcome(false, [Mention(name)], 1)
  {
    MentionIsResponse(name);
    assert [Mention(name)][1..] == [];
    assert [] + [Mention(name)] == [Mention(name)];
    assert Expand(src, [Mention(name)], [], 1, false) == Outcome(false, [Mention(name)], 1);
  }

  /** The arguments that do not load settings. */
  function WithoutSettings(args: seq<Arg>): seq<Arg> {
    if args == [] then [] else (if StartsWith(args[0], "@@") then [] else [args[0]]) + WithoutSettings(args[1..])
  }

  /** Without mentions of response files, exactly the settings arguments disappear. */
  lemma {:induction false} SettingsAreDropped(src: Source, done: seq<Arg>, args: seq<Arg>)
    requires forall i | 0 <= i < |args| :: StartsWith(args[i], "@") ==> StartsWith(args[i], "@@")
    ensures Expand(src, done, args, 0, true) == Outcome(true, done + WithoutSettings(args), 0)
    decreases |args|
  {
    if args == [] {
      assert done + [] == done;
    } else {
      KindByPrefix(args[0]);
      if StartsWith(args[0], "@@") {
        SettingsAreDropped(src, done, args[1..]);
        assert [] + WithoutSettings(args[1..]) == WithoutSettings(args[1..]);
      } else {
        SettingsAreDropped(src, done + [args[0]], args[1..]);
        assert done + [args[0]] + WithoutSettings(args[1..]) == done + WithoutSettings(args);
      }
    }
  }

  function Mentions(name: string, n: nat): seq<Arg> { seq(n, _ => Mention(name)) }

  /** Mentioning an empty file `n` times works up to 21 times; further mentions stay. */
  lemma TwentyOneFiles(src: Source, name: string, n: nat)
    requires !("@" <= name) && name in src.files && src.files[name] == "" && !src.markEols
    ensures Expand(src, [], Mentions(name, n), 0, true)
         == if n <= 21 then Outcome(true, [], n) else Outcome(false, Mentions(name, n - 21), 21)
  {
    assert Tokens(src.style, "", false) == [];
    ManyMentions(src, name, n, 0);
  }

  lemma {:induction false} ManyMentions(src: Source, name: string, n: nat, requested: nat)
    requires !("@" <= name) && src.Read(name) == Some([]) && requested <= BUDGET
    ensures Expand(src, [], Mentions(name, n), requested, true)
         == if requested + n <= BUDGET then Outcome(true, [], requested + n)
            else Outcome(false, Mentions(name, n - (BUDGET - requested)), BUDGET)
    decreases n
  {
    var args := Mentions(name, n);
    assert [] + args == args;
    if n > 0 {
      MentionIsResponse(name);
      assert args[0] == Mention(name) && args[1..] == Mentions(name, n - 1) && [] + args[1..] == args[1..];
      if requested < BUDGET {
        ManyMentions(src, name, n - 1, requested + 1);
      }
    }
  }
}
