/** Which argument lists survive quoting followed by tokenizing, for both command line styles. */
module Quoting {
  import opened Text
  import opened Tokenizers

  // ---------------------------------------------------------------- the repository's own quoting

  datatype QuoteType = NoQuote | Simple | Escape | SimpleAndEscape

  /** `boost::replace_all` of one character. */
  function ReplaceAll(s: string, c: char, with: string): string {
    if s == "" then "" else (if s[0] == c then with else [s[0]]) + ReplaceAll(s[1..], c, with)
  }

  /** `Argument::quote`. */
  function Quote(s: string, how: QuoteType): string
    decreases how == SimpleAndEscape
  {
    match how
    case NoQuote => s
    case Simple => if s != "" && s[0] == '"' then s else "\"" + s + "\""
    case Escape => ReplaceAll(ReplaceAll(s, '\\', "\\\\"), '"', "\\\"")
    case SimpleAndEscape => Quote(Quote(s, Escape), Simple)
  }

  /** The quoted arguments with spaces between them. */
  function CommandLine(quoted: seq<string>): string { Join(quoted, " ") }

  function Words(args: seq<string>): (w: seq<Arg>)
    ensures |w| == |args|
    ensures forall i | 0 <= i < |args| :: w[i] == Word(args[i])
  {
    seq(|args|, i requires 0 <= i < |args| => Word(args[i]))
  }

  // ---------------------------------------------------------------- GNU

  lemma ConsEqual<T>(x: T, xs: seq<T>, y: T, ys: seq<T>)
    ensures [x] + xs == [y] + ys <==> x == y && xs == ys
  {
    if [x] + xs == [y] + ys {
      assert ([x] + xs)[0] == ([y] + ys)[0];
      assert xs == ([x] + xs)[1..] && ys == ([y] + ys)[1..];
    }
  }

  /** Both replacements in one pass. */
  function Escaped(s: string): string {
    if s == "" then ""
    else (if s[0] == '\\' || s[0] == '"' then ['\\', s[0]] else [s[0]]) + Escaped(s[1..])
  }

  lemma {:induction false} ReplaceAllAppend(a: string, b: string, c: char, with: string)
    ensures ReplaceAll(a + b, c, with) == ReplaceAll(a, c, with) + ReplaceAll(b, c, with)
  {
    if a == "" {
      assert a + b == b;
    } else {
      ReplaceAllAppend(a[1..], b, c, with);
      HeadOfAppend(a, b);
      Associative(if a[0] == c then with else [a[0]], ReplaceAll(a[1..], c, with), ReplaceAll(b, c, with));
    }
  }

  lemma ReplaceShort(c: char)
    ensures ReplaceAll([c], '"', "\\\"") == if c == '"' then "\\\"" else [c]
    ensures ReplaceAll("\\\\", '"', "\\\"") == "\\\\"
  {
    assert [c][1..] == "";
    assert "\\\\"[1..] == "\\" && "\\"[1..] == "";
  }

  lemma {:induction false} EscapeIsOnePass(s: string)
    ensures Quote(s, Escape) == Escaped(s)
  {
    if s != "" {
      EscapeIsOnePass(s[1..]);
      var head := if s[0] == '\\' then "\\\\" else [s[0]];
      ReplaceAllAppend(head, ReplaceAll(s[1..], '\\', "\\\\"), '"', "\\\"");
      ReplaceShort(s[0]);
    }
  }

  lemma QuotedArgument(s: string)
    ensures Quote(s, SimpleAndEscape) == "\"" + (Escaped(s) + "\"")
  {
    EscapeIsOnePass(s);
    assert "\"" + Escaped(s) + "\"" == "\"" + (Escaped(s) + "\"");
  }

  lemma EscapedPairIsRead(c: char, more: string, text: string, rest: string, closed: bool)
    requires QuotedPart(more, '"') == (text, rest, closed)
    ensures QuotedPart(['\\', c] + more, '"') == ([c] + text, rest, closed)
    ensures c != '\\' && c != '"' ==> QuotedPart([c] + more, '"') == ([c] + text, rest, closed)
  {
    assert (['\\', c] + more)[2..] == more && ([c] + more)[1..] == more;
  }

  lemma {:induction false} QuotedPartOfEscaped(s: string, rest: string)
    ensures QuotedPart(Escaped(s) + ("\"" + rest), '"') == (s, rest, true)
  {
    hide QuotedPart;
    var after := "\"" + rest;
    if s == "" {
      assert Escaped(s) + after == after;
      ClosedAtOnce(rest);
    } else {
      QuotedPartOfEscaped(s[1..], rest);
      EscapedPairIsRead(s[0], Escaped(s[1..]) + after, s[1..], rest, true);
      var head := if s[0] == '\\' || s[0] == '"' then ['\\', s[0]] else [s[0]];
      assert Escaped(s) + after == head + (Escaped(s[1..]) + after);
      assert s == [s[0]] + s[1..];
    }
  }

  lemma ClosedAtOnce(rest: string)
    ensures QuotedPart("\"" + rest, '"') == ("", rest, true)
  {
    assert ("\"" + rest)[1..] == rest;
  }

  lemma GnuReadsQuoted(s: string, rest: string, markEols: bool)
    ensures GnuArgs(Quote(s, SimpleAndEscape) + rest, "", markEols) == GnuArgs(rest, s, markEols)
  {
    hide QuotedPart, Quote;
    QuotedArgument(s);
    var r := Quote(s, SimpleAndEscape) + rest;
    assert r == "\"" + (Escaped(s) + ("\"" + rest));
    assert r[1..] == Escaped(s) + ("\"" + rest);
    QuotedPartOfEscaped(s, rest);
    assert "" + s == s;
  }

  function Quoted(args: seq<string>): (q: seq<string>)
    ensures |q| == |args|
    ensures forall i | 0 <= i < |args| :: q[i] == Quote(args[i], SimpleAndEscape)
  {
    seq(|args|, i requires 0 <= i < |args| => Quote(args[i], SimpleAndEscape))
  }

  /** The arguments the GNU tokenizer keeps: empty ones disappear. */
  function Kept(args: seq<string>): seq<Arg> {
    if args == [] then []
    else (if args[0] != "" then [Saved(args[0])] else []) + Kept(args[1..])
  }

  function EndMark(markEols: bool): seq<Arg> { if markEols then [EndOfLine] else [] }

  lemma AfterSpace(token: string, rest: string, markEols: bool)
    ensures GnuArgs(" " + rest, token, markEols)
         == (if token != "" then [Saved(token)] else []) + GnuArgs(rest, "", markEols)
  {
    assert (" " + rest)[1..] == rest;
    assert [] + GnuArgs(rest, "", markEols) == GnuArgs(rest, "", markEols);
  }

  /** Tokenizing the quoted arguments gives the arguments, without the empty ones. */
  lemma {:induction false} GnuUndoesQuoting(args: seq<string>, markEols: bool)
    ensures Tokens(Gnu, CommandLine(Quoted(args)), markEols) == Kept(args) + EndMark(markEols)
  {
    hide Quote;
    if args == [] {
    } else if |args| == 1 {
      var q := Quoted(args)[0];
      GnuReadsQuoted(args[0], "", markEols);
      assert q + "" == q;
      assert Kept(args[1..]) == [];
    } else {
      GnuUndoesQuoting(args[1..], markEols);
      var q, more := Quoted(args)[0], CommandLine(Quoted(args[1..]));
      assert Quoted(args)[1..] == Quoted(args[1..]);
      GnuReadsQuoted(args[0], " " + more, markEols);
      AfterSpace(args[0], more, markEols);
    }
  }

  /** No argument is lost or cut short by the GNU tokenizer. */
  predicate GnuSafe(args: seq<string>) {
    forall i | 0 <= i < |args| :: args[i] != "" && NulFree(args[i])
  }

  lemma {:induction false} KeptIsAll(args: seq<string>)
    ensures Kept(args) == Words(args) <==> GnuSafe(args)
    ensures |Kept(args)| <= |args|
  {
    if args != [] {
      KeptIsAll(args[1..]);
      CStringIsWhole(args[0]);
      assert GnuSafe(args) <==> args[0] != "" && NulFree(args[0]) && GnuSafe(args[1..]) by {
        assert forall i | 1 <= i < |args| :: args[i] == args[1..][i - 1];
      }
      var kept, words := Kept(args[1..]), Words(args[1..]);
      assert Words(args) == [Word(args[0])] + words;
      assert |Words(args)| == |args| > |kept|;
      if args[0] != "" {
        ConsEqual(Saved(args[0]), kept, Word(args[0]), words);
      } else {
        assert Kept(args) == kept;
      }
    }
  }

  /** The list comes back unchanged exactly when no argument is empty or contains a NUL. */
  lemma GnuRoundTrip(args: seq<string>)
    ensures Tokens(Gnu, CommandLine(Quoted(args)), false) == Words(args) <==> GnuSafe(args)
  {
    GnuUndoesQuoting(args, false);
    KeptIsAll(args);
  }

  /** Simple quoting leaves alone what already starts with a quote, so quoting twice is quoting once. */
  lemma SimpleQuotingIsIdempotent(s: string)
    ensures Quote(Quote(s, Simple), Simple) == Quote(s, Simple)
    ensures Quote(s, Simple) == if "\"" <= s then s else "\"" + s + "\""
    ensures Quote(s, NoQuote) == s
  {
    assert "\"" <= s <==> s != "" && s[0] == '"';
  }

  /** It is enough for nonempty arguments without quotes, backslashes and NULs. */
  lemma GnuUndoesSimpleQuoting(s: string)
    requires s != "" && '"' !in s && '\\' !in s && NulFree(s)
    ensures Tokens(Gnu, Quote(s, Simple), false) == [Word(s)]
  {
    EscapedIsSame(s);
    assert s[0] in s;
    QuotedArgument(s);
    Associative("\"", s, "\"");
    assert Quote(s, Simple) == Quote(s, SimpleAndEscape);
    GnuReadsQuoted(s, "", false);
    assert Quote(s, SimpleAndEscape) + "" == Quote(s, SimpleAndEscape);
    CStringIsWhole(s);
  }

  lemma {:induction false} EscapedIsSame(s: string)
    requires '"' !in s && '\\' !in s
    ensures Escaped(s) == s
  {
    if s != "" {
      assert s[0] in s && forall c | c in s[1..] :: c in s;
      EscapedIsSame(s[1..]);
      assert s == [s[0]] + s[1..];
    }
  }

  // ---------------------------------------------------------------- Windows

  /** The standard quoting: backslashes are doubled before a quote and at the end, and literal elsewhere. */
  function WindowsBody(s: string): string
    decreases |s|
  {
    var n := LeadingBackslashes(s);
    if n == |s| then Backslashes(2 * n)
    else if s[n] == '"' then Backslashes(2 * n + 1) + ("\"" + WindowsBody(s[n + 1..]))
    else Backslashes(n) + ([s[n]] + WindowsBody(s[n + 1..]))
  }

  function WindowsQuote(s: string): string { "\"" + (WindowsBody(s) + "\"") }

  function WindowsQuoted(args: seq<string>): (q: seq<string>)
    ensures |q| == |args|
    ensures forall i | 0 <= i < |args| :: q[i] == WindowsQuote(args[i])
  {
    seq(|args|, i requires 0 <= i < |args| => WindowsQuote(args[i]))
  }

  /** Inside quotes, an even run before a quote leaves half of it, and the quote is still to come. */
  lemma EvenRun(n: nat, rest: string, token: string, markEols: bool)
    requires rest != "" && rest[0] == '"'
    ensures WindowsArgs(Backslashes(2 * n) + rest, State.Quoted, token, markEols)
         == WindowsArgs(rest, State.Quoted, token + Backslashes(n), markEols)
  {
    var s := Backslashes(2 * n) + rest;
    if n == 0 {
      assert s == rest && token + Backslashes(0) == token;
    } else {
      CountBackslashes(2 * n, rest);
      assert s[2 * n] == '"' && s[2 * n..] == rest;
    }
  }

  lemma OddRun(n: nat, rest: string, token: string, markEols: bool)
    ensures WindowsArgs(Backslashes(2 * n + 1) + ("\"" + rest), State.Quoted, token, markEols)
         == WindowsArgs(rest, State.Quoted, token + (Backslashes(n) + "\""), markEols)
  {
    var after := "\"" + rest;
    var s := Backslashes(2 * n + 1) + after;
    CountBackslashes(2 * n + 1, after);
    assert s[2 * n + 1] == '"' && s[2 * n + 2..] == rest;
  }

  lemma LiteralRun(n: nat, c: char, rest: string, token: string, markEols: bool)
    requires c != '"' && c != '\\'
    ensures WindowsArgs(Backslashes(n) + ([c] + rest), State.Quoted, token, markEols)
         == WindowsArgs(rest, State.Quoted, token + (Backslashes(n) + [c]), markEols)
  {
    var after := [c] + rest;
    var s := Backslashes(n) + after;
    if n == 0 {
      assert s == after && s[1..] == rest && Backslashes(0) + [c] == [c];
    } else {
      CountBackslashes(n, after);
      assert s[n] == c && s[n..] == after && after[1..] == rest;
      assert (token + Backslashes(n)) + [c] == token + (Backslashes(n) + [c]);
    }
  }

  /** The body of `s`, split at its first character that is not a backslash. */
  lemma BodySplits(s: string, after: string)
    ensures var n := LeadingBackslashes(s);
            if n == |s| then s == Backslashes(n) && WindowsBody(s) == Backslashes(2 * n)
            else
              var more := s[n + 1..];
              && s[n] != '\\' && s == Backslashes(n) + ([s[n]] + more)
              && WindowsBody(s) + after ==
                 if s[n] == '"' then Backslashes(2 * n + 1) + ("\"" + (WindowsBody(more) + after))
                 else Backslashes(n) + ([s[n]] + (WindowsBody(more) + after))
  {
    hide Backslashes;
    StartsWithBackslashes(s);
    var n := LeadingBackslashes(s);
    if n < |s| {
      var body := WindowsBody(s[n + 1..]);
      assert s[n..] == [s[n]] + s[n + 1..];
      Associative(Backslashes(2 * n + 1), "\"" + body, after);
      Associative("\"", body, after);
      Associative(Backslashes(n), [s[n]] + body, after);
      Associative([s[n]], body, after);
    } else {
      assert s[n..] == "" && Backslashes(n) + "" == Backslashes(n);
    }
  }

  /** The quoted text is read back, up to the closing quote. */
  lemma {:induction false} BodyIsRead(s: string, rest: string, token: string, markEols: bool)
    ensures WindowsArgs(WindowsBody(s) + ("\"" + rest), State.Quoted, token, markEols)
         == WindowsArgs(rest, State.Unquoted, token + s, markEols)
    decreases |s|
  {
    hide WindowsArgs, WindowsBody;
    var n := LeadingBackslashes(s);
    var after := "\"" + rest;
    BodySplits(s, after);
    if n == |s| {
      EvenRun(n, after, token, markEols);
      ClosingQuote(rest, token + s, markEols);
    } else {
      var more := s[n + 1..];
      var read := Backslashes(n) + [s[n]];
      BodyIsRead(more, rest, token + read, markEols);
      TokenGrows(token, Backslashes(n), s[n], more);
      if s[n] == '"' {
        assert read == Backslashes(n) + "\"";
        OddRun(n, WindowsBody(more) + after, token, markEols);
      } else {
        LiteralRun(n, s[n], WindowsBody(more) + after, token, markEols);
      }
    }
  }

  lemma TokenGrows(token: string, run: string, c: char, more: string)
    ensures (token + (run + [c])) + more == token + (run + ([c] + more))
  {
  }

  lemma ClosingQuote(rest: string, token: string, markEols: bool)
    ensures WindowsArgs("\"" + rest, State.Quoted, token, markEols) == WindowsArgs(rest, State.Unquoted, token, markEols)
  {
    assert ("\"" + rest)[1..] == rest;
  }

  lemma WindowsReadsQuoted(s: string, rest: string, markEols: bool)
    ensures WindowsArgs(WindowsQuote(s) + rest, State.Init, "", markEols) == WindowsArgs(rest, State.Unquoted, s, markEols)
  {
    var r := WindowsQuote(s) + rest;
    assert r[1..] == WindowsBody(s) + ("\"" + rest);
    BodyIsRead(s, rest, "", markEols);
    assert "" + s == s;
  }

  /** The arguments the Windows tokenizer keeps: only an empty last one disappears. */
  function WindowsKept(args: seq<string>): seq<Arg> {
    if args == [] || args == [""] then [] else [Saved(args[0])] + WindowsKept(args[1..])
  }

  /** Tokenizing the quoted arguments gives the arguments, without a last one that is empty. */
  lemma {:induction false} WindowsUndoesQuoting(args: seq<string>, markEols: bool)
    ensures Tokens(Windows, CommandLine(WindowsQuoted(args)), markEols) == WindowsKept(args) + EndMark(markEols)
  {
    hide WindowsQuote;
    if args == [] {
    } else if |args| == 1 {
      var q := WindowsQuoted(args)[0];
      WindowsReadsQuoted(args[0], "", markEols);
      assert q + "" == q;
      assert WindowsKept(args[1..]) == [];
    } else {
      WindowsUndoesQuoting(args[1..], markEols);
      var q, more := WindowsQuoted(args)[0], CommandLine(WindowsQuoted(args[1..]));
      assert WindowsQuoted(args)[1..] == WindowsQuoted(args[1..]);
      WindowsReadsQuoted(args[0], " " + more, markEols);
      assert (" " + more)[1..] == more;
      assert [Saved(args[0])] + [] == [Saved(args[0])];
    }
  }

  /** Every argument can be kept: the last one is nonempty and none contains a NUL. */
  predicate WindowsSafe(args: seq<string>) {
    (args == [] || args[|args| - 1] != "") && forall i | 0 <= i < |args| :: NulFree(args[i])
  }

  lemma WindowsSafeSplits(args: seq<string>)
    requires |args| > 1
    ensures WindowsSafe(args) <==> NulFree(args[0]) && WindowsSafe(args[1..])
  {
    assert forall i | 1 <= i < |args| :: args[i] == args[1..][i - 1];
  }

  lemma {:induction false} WindowsKeptIsAll(args: seq<string>)
    ensures WindowsKept(args) == Words(args) <==> WindowsSafe(args)
  {
    if |args| == 1 {
      CStringIsWhole(args[0]);
      assert args == [args[0]] && args[1..] == [];
      assert |Words(args)| == 1;
      assert args[0] != "" ==> WindowsKept(args) == [Saved(args[0])];
    } else if |args| > 1 {
      WindowsKeptIsAll(args[1..]);
      WindowsSafeSplits(args);
      CStringIsWhole(args[0]);
      var kept, words := WindowsKept(args[1..]), Words(args[1..]);
      assert WindowsKept(args) == [Saved(args[0])] + kept;
      assert Words(args) == [Word(args[0])] + words;
      ConsEqual(Saved(args[0]), kept, Word(args[0]), words);
    }
  }

  /** The list comes back unchanged exactly when its last argument is nonempty and none contains a NUL. */
  lemma WindowsRoundTrip(args: seq<string>)
    ensures Tokens(Windows, CommandLine(WindowsQuoted(args)), false) == Words(args) <==> WindowsSafe(args)
  {
    WindowsUndoesQuoting(args, false);
    WindowsKeptIsAll(args);
  }

  // ---------------------------------------------------------------- inputs that are lost

  /** `"a" ""` loses its second argument in both styles. */
  lemma EmptyLastArgumentIsLost()
    ensures var args := ["a", ""];
            && Tokens(Gnu, CommandLine(Quoted(args)), false) == [Word("a")]
            && Tokens(Windows, CommandLine(WindowsQuoted(args)), false) == [Word("a")]
  {
    var args := ["a", ""];
    GnuUndoesQuoting(args, false);
    WindowsUndoesQuoting(args, false);
    CStringIsWhole("a");
    assert args[1..] == [""] && [""][1..] == [];
  }
}
